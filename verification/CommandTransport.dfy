/** One command out, one response in, under a single deadline. */
module CommandTransport {
  import opened Words
  import opened Status
  import opened Protocol
  import opened Reception
  import opened ResponseParser
  import opened Uart

  /**
   A poll made on behalf of a shared deadline: it was asked to wait until that deadline, off by exactly the time that
   went by between the two clock samples its own read began with. Both were taken from number `since` on.
   */
  predicate WaitsUntil(p: PollCall, since: nat, samples: seq<int>, deadline: int) {
    && since < p.entry < |samples| && p.wait > 0
    && samples[p.entry - 1] <= samples[p.entry]
    && p.sampled + p.wait as int == deadline + (samples[p.entry] - samples[p.entry - 1])
  }

  /** Every poll from number `from` on is such a poll. */
  ghost predicate AllWaitUntil(polls: seq<PollCall>, from: nat, since: nat, samples: seq<int>, deadline: int) {
    forall i :: from <= i < |polls| ==> WaitsUntil(polls[i], since, samples, deadline)
  }

  lemma MorePolls(polls: seq<PollCall>, morePolls: seq<PollCall>, from: nat, since: nat,
                  samples: seq<int>, moreSamples: seq<int>, later: nat, deadline: int)
    requires polls <= morePolls && samples <= moreSamples && since <= later
    requires AllWaitUntil(polls, from, since, samples, deadline)
    requires AllWaitUntil(morePolls, |polls|, later, moreSamples, deadline)
    ensures AllWaitUntil(morePolls, from, since, moreSamples, deadline)
  {
    forall i | from <= i < |morePolls|
      ensures WaitsUntil(morePolls[i], since, moreSamples, deadline)
    {
      if i < |polls| {
        assert WaitsUntil(polls[i], since, samples, deadline);
      } else {
        assert WaitsUntil(morePolls[i], later, moreSamples, deadline);
      }
    }
  }

  /**
   What a failure to get bytes is called: no response if the deadline passed with every call well, or if a call itself
   timed out; an I/O error if a call failed in any other way, a lost connection included. Any other status, no call failed.
   */
  predicate Explained(before: seq<int>, after: seq<int>, late: bool, status: int) {
    if status == ERR_IO then before <= after && |after| == |before| + 1 && after[|before|] != ETIMEDOUT
    else if status == ERR_NO_RESPONSE then (after == before && late) || after == before + [ETIMEDOUT]
    else after == before
  }

  /** A lost connection is never passed off as silence. */
  lemma LostIsNotSilent(before: seq<int>, after: seq<int>, late: bool, status: int)
    requires Explained(before, after, late, status)
    ensures after == before + [ENOTCONN] ==> status == ERR_IO
    ensures after == before && !late ==> status != ERR_NO_RESPONSE && status != ERR_IO
  {
    if after == before + [ENOTCONN] {
      assert after[|before|] == ENOTCONN;
      assert (before + [ETIMEDOUT])[|before|] == ETIMEDOUT;
    }
  }

  lemma NoPollsYet(polls: seq<PollCall>, since: nat, samples: seq<int>, deadline: int)
    ensures AllWaitUntil(polls, |polls|, since, samples, deadline)
  {
  }

  method ReadExactly(port: Port, buffer: array<byte>, at: nat, len: nat, deadline: int)
    returns (status: int, ghost got: seq<byte>)
    requires at + len <= buffer.Length
    requires deadline - port.clock <= 0x7FFF_FFFF
    modifies port, buffer
    ensures OnlyReads(port) && (len > 0 && status == OK ==> port.Progress())
    ensures |got| <= len && port.received == old(port.received) + got
    ensures buffer[..] == Overlaid(old(buffer[..]), at, got)
    ensures status in {OK, ERR_NO_RESPONSE, ERR_IO}
    ensures if status == OK then |got| == len else |got| < len || len == 0
    ensures Explained(old(port.errors), port.errors, port.clock >= deadline, status)
    ensures status == OK ==> old(port.clock) < deadline
    ensures AllWaitUntil(port.polls, |old(port.polls)|, |old(port.samples)|, port.samples, deadline)
  {
    hide Overlaid;
    OverlaidNothing(buffer[..], at);
    got := [];
    var now := port.NowMs();
    var timeLeft := deadline - now;
    if timeLeft <= 0 {
      return ERR_NO_RESPONSE, got;
    }
    var bytesRead;
    bytesRead, got := UartRead(port, buffer, at, len, timeLeft as int32);
    if bytesRead == -ETIMEDOUT {
      return ERR_NO_RESPONSE, got;
    }
    if bytesRead < 0 {
      return ERR_IO, got;
    }
    return OK, got;
  }

  method TransmitCommand(port: Port, frame: array?<byte>, frameLen: nat) returns (status: int, ghost put: seq<byte>)
    requires frame != null ==> frameLen <= frame.Length
    modifies port
    ensures port.sent == old(port.sent) + put && port.received == old(port.received) && port.isOpen == old(port.isOpen)
    ensures port.samples == old(port.samples) && port.polls == old(port.polls) && old(port.clock) <= port.clock
    ensures if frame == null || frameLen == 0 then status == ERR_ARG && put == []
            else if status == OK then put == frame[..frameLen] && port.errors == old(port.errors)
            else status == ERR_IO && put < frame[..frameLen] && |port.errors| == |old(port.errors)| + 1
  {
    put := [];
    if frame == null || frameLen == 0 {
      return ERR_ARG, put;
    }
    ghost var total;
    var written;
    written, total := UartWrite(port, frame, frameLen);
    put := frame[..total];
    assert frame[..frameLen][..total] == put;
    if written < 0 {
      return ERR_IO, put;
    }
    return OK, put;
  }

  /** What the bytes consumed during one reception say its status must be. */
  ghost predicate Verdict(got: seq<byte>, status: int) {
    match Receive(got)
    case Incomplete => status == ERR_NO_RESPONSE || status == ERR_IO
    case Rejected(used) => used == |got| && status == ERR_BAD_FRAME
    case Accepted(used, _) => used == |got| && status == OK
  }

  lemma HuntingIsIncomplete(junk: seq<byte>)
    requires Junk(junk)
    ensures Receive(junk) == Incomplete
  {
    JunkIsSkipped(junk, []);
    assert junk + [] == junk;
  }

  lemma FrameBehindJunk(junk: seq<byte>, f: seq<byte>)
    requires Junk(junk) && f != [] && f[0] == SOF
    ensures Receive(junk + f) == ReceiveFrame(f).After(|junk|)
  {
    JunkIsSkipped(junk, f);
  }

  lemma OverlaidParts(s: seq<byte>, at: nat, t: seq<byte>)
    requires at + |t| <= |s|
    ensures Overlaid(s, at, t)[..at] == s[..at] && Overlaid(s, at, t)[at..at + |t|] == t
  {
  }

  /** A frame cut off before its last byte, or whose LEN has not arrived, decides nothing. */
  lemma CutShort(lengthByte: byte, body: seq<byte>)
    requires MIN_RESPONSE_LEN <= lengthByte as nat <= MAX_RESPONSE_LEN && |body| < lengthByte as nat + 2
    ensures ReceiveFrame([SOF]) == Incomplete && ReceiveFrame([SOF, lengthByte] + body) == Incomplete
  {
  }

  lemma WholeFrame(lengthByte: byte, body: seq<byte>)
    requires MIN_RESPONSE_LEN <= lengthByte as nat <= MAX_RESPONSE_LEN && |body| == lengthByte as nat + 2
    ensures var f := [SOF, lengthByte] + body;
            ReceiveFrame(f) == match ParseReply(f) case None => Rejected(|f|) case Some(reply) => Accepted(|f|, reply)
  {
    hide ParseReply;
    var f := [SOF, lengthByte] + body;
    assert f[..|f|] == f;
  }

  lemma LengthRefused(lengthByte: byte)
    requires !(MIN_RESPONSE_LEN <= lengthByte as nat <= MAX_RESPONSE_LEN)
    ensures ReceiveFrame([SOF, lengthByte]) == Rejected(2)
  {
  }

  /**
   Receives one response. The outcome is what the consumed bytes alone make it, however they were cut into reads;
   nothing past the frame is consumed, a response object changes only on success, and no time is lost or gained: a
   missing answer is reported only after the deadline or a timed-out call, and every poll waits until the one deadline.
   */
  method ReceiveResponse(port: Port, timeoutMs: int32, response: Response?) returns (status: int, ghost got: seq<byte>)
    requires response != null ==> response.data.Length == MAX_RESPONSE_DATA
    modifies port, response, if response == null then null else response.data
    ensures OnlyReads(port) && port.received == old(port.received) + got
    ensures response == null ==> status == ERR_ARG && got == [] && unchanged(port)
    ensures response != null ==>
              && Verdict(got, status)
              && |old(port.samples)| < |port.samples|
              && old(port.clock) <= port.samples[|old(port.samples)|]
              && var deadline := port.samples[|old(port.samples)|] + timeoutMs as int;
              && Explained(old(port.errors), port.errors, port.clock >= deadline, status)
              && AllWaitUntil(port.polls, |old(port.polls)|, |old(port.samples)|, port.samples, deadline)
    ensures response != null && status == OK ==> Receive(got).Accepted? && response.Holds(Receive(got).reply)
    ensures response != null && status != OK ==> unchanged(response) && unchanged(response.data)
  {
    hide Overlaid, Receive, ReceiveFrame, ParseReply, WaitsUntil, AllWaitUntil, Response.Holds;
    got := [];
    if response == null {
      return ERR_ARG, got;
    }
    var start := port.NowMs();
    var deadline := start + timeoutMs as int;
    ghost var entry, firstPoll := |old(port.samples)|, |old(port.polls)|;
    var frame := new byte[MAX_RESPONSE_FRAME](_ => 0);
    var found := false;
    ghost var junk, more := [], [];
    HuntingIsIncomplete(junk);
    NoPollsYet(port.polls, entry, port.samples, deadline);
    while !found
      invariant OnlyReads(port) && start <= port.clock && entry < |port.samples| && port.samples[entry] == start
      invariant port.received == old(port.received) + got
      invariant Junk(junk) && got == if found then junk + [SOF] else junk
      invariant found ==> frame[0] == SOF
      invariant AllWaitUntil(port.polls, firstPoll, entry, port.samples, deadline) && port.errors == old(port.errors)
      modifies port, frame
      decreases !found, deadline - port.clock, port.credit
    {
      ghost var polls, samples, before := port.polls, port.samples, frame[..];
      status, more := ReadExactly(port, frame, 0, 1, deadline);
      MorePolls(polls, port.polls, firstPoll, entry, samples, port.samples, |samples|, deadline);
      got := got + more;
      if status != OK {
        HuntingIsIncomplete(junk);
        assert got == junk;
        return status, got;
      }
      OverlaidParts(before, 0, more);
      assert frame[0] == frame[..][0..1][0] == more[0];
      found := frame[0] == SOF;
      junk := if found then junk else junk + more;
    }
    ghost var polls, samples := port.polls, port.samples;
    status, more := ReceiveRest(port, frame, junk, deadline, response);
    MorePolls(polls, port.polls, firstPoll, entry, samples, port.samples, |samples|, deadline);
    got := got + more;
  }

  /** Everything behind the SOF byte: LEN, the bytes it announces, and the judgement on the whole. */
  method ReceiveRest(port: Port, frame: array<byte>, ghost junk: seq<byte>, deadline: int, response: Response)
    returns (status: int, ghost got: seq<byte>)
    requires frame.Length == MAX_RESPONSE_FRAME && frame[0] == SOF && Junk(junk)
    requires response.data.Length == MAX_RESPONSE_DATA && frame != response.data
    requires deadline - port.clock <= 0x7FFF_FFFF
    modifies port, frame, response, response.data
    ensures OnlyReads(port) && port.received == old(port.received) + got
    ensures Verdict(junk + [SOF] + got, status)
    ensures Explained(old(port.errors), port.errors, port.clock >= deadline, status)
    ensures AllWaitUntil(port.polls, |old(port.polls)|, |old(port.samples)|, port.samples, deadline)
    ensures status == OK ==>
              Receive(junk + [SOF] + got).Accepted? && response.Holds(Receive(junk + [SOF] + got).reply)
    ensures status != OK ==> unchanged(response) && unchanged(response.data)
  {
    hide Overlaid, Receive, ReceiveFrame, ParseReply, WaitsUntil, AllWaitUntil;
    ghost var before := frame[..];
    status, got := ReadExactly(port, frame, 1, 1, deadline);
    FrameBehindJunk(junk, [SOF] + got);
    if status != OK {
      SofAlone();
      assert junk + [SOF] + got == junk + ([SOF] + got);
      return;
    }
    OverlaidParts(before, 1, got);
    assert frame[1] == frame[..][1..2][0] == got[0] && frame[0] == frame[..][..1][0] == SOF;
    var length := frame[1] as nat;
    assert [SOF] + got == [SOF, frame[1]];
    if length < MIN_RESPONSE_LEN || length > MAX_RESPONSE_LEN {
      LengthRefused(frame[1]);
      assert junk + [SOF] + got == junk + [SOF, frame[1]];
      return ERR_BAD_FRAME, got;
    }
    ghost var polls, samples, body := port.polls, port.samples, [];
    before := frame[..];
    status, body := ReadExactly(port, frame, 2, length + 2, deadline);
    MorePolls(polls, port.polls, |old(port.polls)|, |old(port.samples)|, samples, port.samples, |samples|, deadline);
    got := got + body;
    ghost var f := [SOF, before[1]] + body;
    FrameBehindJunk(junk, f);
    assert junk + [SOF] + got == junk + f;
    if status != OK {
      CutShort(before[1], body);
      return;
    }
    OverlaidParts(before, 2, body);
    assert frame[..RESPONSE_OVERHEAD + length] == frame[..][..2] + frame[..][2..2 + |body|];
    assert frame[..RESPONSE_OVERHEAD + length] == f;
    WholeFrame(before[1], body);
    status := ParseResponse(frame, RESPONSE_OVERHEAD + length, response);
  }

  lemma SofAlone()
    ensures ReceiveFrame([SOF]) == Incomplete && ReceiveFrame([SOF] + []) == Incomplete
  {
  }
}
