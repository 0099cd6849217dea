/** What a caller may conclude from a call's status, and what a run of calls leaves on the wire. */
module CallLaws {
  import opened Words
  import opened Crc16
  import opened Status
  import opened Protocol
  import opened Codec
  import opened Reception
  import opened Mcuco

  // ---- statuses ----

  /** The promise of the firmware's status type: the reason byte of a NACK is one of 1 to 10. */
  predicate KnownReason(r: Reply) {
    !r.ack && |r.data| == 1 ==> 1 <= r.data[0] as int <= 10
  }

  /** Success means acknowledged with fitting data, save for a one-byte NACK whose reason is zero. */
  lemma JudgeExactly(e: Expectation, r: Reply)
    ensures Judge(e, r) == OK <==> Meets(e, r.data) && (r.ack || (|r.data| == 1 && r.data[0] == 0))
  {
    if |r.data| == 1 {
      ZeroReason(r.data[0]);
    }
  }

  lemma ZeroReason(b: byte)
    ensures b as int == 0 <==> b == 0
  {
  }

  /** The code does report a NACK with reason zero as success, to a call without data and to a one-byte read alike. */
  lemma ZeroReasonPassesForSuccess()
    ensures Judge(Anything, Reply(false, [0])) == OK && Judge(Width(1), Reply(false, [0])) == OK
  {
    JudgeExactly(Anything, Reply(false, [0]));
    JudgeExactly(Width(1), Reply(false, [0]));
  }

  /** The reply a call decoded, if it got that far. */
  function Answer(got: seq<byte>): Option<Reply> {
    match Receive(got)
    case Accepted(_, reply) => Some(reply)
    case _ => None
  }

  predicate HostStatus(status: int) {
    status in {ERR_ARG, ERR_IO, ERR_NO_RESPONSE, ERR_BAD_FRAME}
  }

  /** The host's own codes stay clear of the firmware's 1 to 10, and of each other. */
  lemma HostCodes(status: int)
    ensures HostStatus(status) <==> 0x80 <= status <= 0x83
    ensures ERR_ARG < ERR_IO < ERR_NO_RESPONSE < ERR_BAD_FRAME
  {
  }

  /**
   With reasons from 1 to 10, a call succeeds exactly when its whole frame went out and an acknowledgement with
   fitting data came back, and any other status is either the firmware's reason or one of the host's own four.
   */
  lemma CallIsTruthful(c: Command, e: Expectation, put: seq<byte>, got: seq<byte>, status: int)
    requires Called(c, e, put, got, status)
    requires Answer(got).Some? ==> KnownReason(Answer(got).value)
    ensures status == OK <==> InRange(c) && put == CommandFrame(c) && Answer(got).Some? &&
                              Answer(got).value.ack && Meets(e, Answer(got).value.data)
    ensures status == OK || HostStatus(status) || 1 <= status <= 10
    ensures 1 <= status <= 10 <==>
              && InRange(c) && put == CommandFrame(c) && Answer(got).Some? && !Answer(got).value.ack
              && |Answer(got).value.data| == 1
    ensures 1 <= status <= 10 ==> status == Answer(got).value.data[0] as int
  {
    hide InRange, CommandFrame, Receive;
    if Answer(got).Some? {
      JudgeExactly(e, Answer(got).value);
      var data := Answer(got).value.data;
      if |data| == 1 {
        ZeroReason(data[0]);
      }
    }
  }

  /**
   The firmware's reason reaches the caller untranslated, whatever it is: a NACK with one nonzero byte makes that byte the
   status of any call, and a NACK of another shape, an ACK that does not fit, or a frame that does not parse a bad frame.
   */
  lemma ReasonReachesCaller(c: Command, e: Expectation, put: seq<byte>, got: seq<byte>, status: int)
    requires Called(c, e, put, got, status) && InRange(c) && put == CommandFrame(c) && Receive(got) != Incomplete
    ensures Answer(got).None? ==> status == ERR_BAD_FRAME
    ensures Answer(got).Some? ==>
              var r := Answer(got).value;
              && (!r.ack && |r.data| == 1 && r.data[0] != 0 ==> status == r.data[0] as int)
              && (!r.ack && |r.data| != 1 ==> status == ERR_BAD_FRAME)
              && (r.ack ==> status == if Meets(e, r.data) then OK else ERR_BAD_FRAME)
  {
    hide InRange, CommandFrame, Receive;
    if Answer(got).Some? && |Answer(got).value.data| == 1 {
      ZeroReason(Answer(got).value.data[0]);
    }
  }

  /** ERR_ARG from an open handle means that nothing was sent, and is exactly a field out of range. */
  lemma RefusedLocally(c: Command, e: Expectation, put: seq<byte>, got: seq<byte>, status: int)
    requires Called(c, e, put, got, status)
    requires Answer(got).Some? ==> KnownReason(Answer(got).value)
    ensures status == ERR_ARG <==> !InRange(c)
    ensures !InRange(c) ==> put == [] && got == []
  {
    hide InRange, CommandFrame, Receive;
    if Answer(got).Some? {
      JudgeExactly(e, Answer(got).value);
    }
  }

  // ---- the wire ----

  /** One call of a run: what was asked, and what it put on and took off the wire. */
  datatype CallRecord = CallRecord(c: Command, e: Expectation, put: seq<byte>, got: seq<byte>, status: int)

  predicate Happened(r: CallRecord) {
    Called(r.c, r.e, r.put, r.got, r.status)
  }

  /** The write of an accepted command broke off. */
  predicate WriteFailed(r: CallRecord) {
    InRange(r.c) && r.put != CommandFrame(r.c)
  }

  function Wire(calls: seq<CallRecord>): seq<byte> {
    if calls == [] then [] else calls[0].put + Wire(calls[1..])
  }

  /** The commands of a run that were not refused locally. */
  function LocallyAccepted(calls: seq<CallRecord>): (cs: seq<Command>)
    ensures forall i :: 0 <= i < |cs| ==> InRange(cs[i])
  {
    if calls == [] then []
    else (if InRange(calls[0].c) then [calls[0].c] else []) + LocallyAccepted(calls[1..])
  }

  lemma WriteFailureIsReported(r: CallRecord)
    requires Happened(r) && WriteFailed(r)
    ensures r.status == ERR_IO && r.got == [] && r.put < CommandFrame(r.c)
  {
    hide InRange, CommandFrame, Receive;
  }

  lemma {:induction false} WireIsFrames(calls: seq<CallRecord>)
    requires forall i :: 0 <= i < |calls| ==> Happened(calls[i]) && !WriteFailed(calls[i])
    ensures Wire(calls) == Frames(LocallyAccepted(calls))
  {
    hide InRange, CommandFrame, Exchanged;
    if calls != [] {
      assert Happened(calls[0]) && !WriteFailed(calls[0]);
      WireIsFrames(calls[1..]);
      if InRange(calls[0].c) {
        var cs := LocallyAccepted(calls);
        assert cs[1..] == LocallyAccepted(calls[1..]);
      } else {
        assert LocallyAccepted(calls) == LocallyAccepted(calls[1..]);
      }
    }
  }

  /** A frame cut short is no command to the far end. */
  lemma PartOfFrame(c: Command, part: seq<byte>)
    requires part < CommandFrame(c)
    ensures DecodeCommand(part).None?
  {
    hide Fields, InRange, Payload, Opcode, Crc, ByteOf;
    if |part| >= 3 {
      ByteOfLength(|Payload(c)|);
      assert part[2] == CommandFrame(c)[2];
    }
  }

  lemma {:induction false} DecodedBeforePart(cs: seq<Command>, part: seq<byte>)
    requires forall c :: c in cs ==> InRange(c)
    requires DecodeCommand(part).None?
    ensures DecodeCommands(Frames(cs) + part) == cs
  {
    hide CommandFrame, DecodeCommand, InRange;
    if cs == [] {
      assert Frames(cs) + part == part;
    } else {
      var rest := Frames(cs[1..]) + part;
      CommandSurvives(cs[0], rest);
      assert Frames(cs) + part == CommandFrame(cs[0]) + rest;
      assert (CommandFrame(cs[0]) + rest)[|CommandFrame(cs[0])|..] == rest;
      DecodedBeforePart(cs[1..], part);
    }
  }

  lemma {:induction false} WireConcat(calls: seq<CallRecord>, last: CallRecord)
    ensures Wire(calls + [last]) == Wire(calls) + last.put
  {
    if calls == [] {
      assert calls + [last] == [last] && [last][1..] == [];
    } else {
      assert (calls + [last])[1..] == calls[1..] + [last];
      WireConcat(calls[1..], last);
    }
  }

  /**
   The far end can read the wire log of any run back as exactly the commands that were accepted locally, in order:
   refused calls leave no byte behind. A final write that breaks off adds nothing readable.
   */
  lemma WireLogReadsBack(calls: seq<CallRecord>, last: CallRecord)
    requires forall i :: 0 <= i < |calls| ==> Happened(calls[i]) && !WriteFailed(calls[i])
    requires Happened(last)
    ensures DecodeCommands(Wire(calls + [last])) ==
            LocallyAccepted(calls) + (if InRange(last.c) && !WriteFailed(last) then [last.c] else [])
  {
    hide InRange, CommandFrame, Exchanged, DecodeCommand, DecodeCommands, Wire, LocallyAccepted, Frames;
    var cs := LocallyAccepted(calls);
    WireConcat(calls, last);
    WireIsFrames(calls);
    if InRange(last.c) && !WriteFailed(last) {
      FramesSnoc(cs, last.c);
      CommandsSurvive(cs + [last.c]);
    } else {
      if InRange(last.c) {
        WriteFailureIsReported(last);
        PartOfFrame(last.c, last.put);
      } else {
        NothingDecodes();
      }
      DecodedBeforePart(cs, last.put);
      assert cs + [] == cs;
    }
  }
}
