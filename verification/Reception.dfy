/** What a byte stream is received as: a pure account of the receiver, and its framing laws. */
module Reception {
  import opened Words
  import opened Protocol
  import opened Codec

  /** More bytes are needed; or so many were used up and refused; or so many were used up and decoded. */
  datatype Reception = Incomplete | Rejected(used: nat) | Accepted(used: nat, reply: Reply)
  {
    function After(n: nat): Reception {
      match this
      case Incomplete => Incomplete
      case Rejected(used) => Rejected(n + used)
      case Accepted(used, reply) => Accepted(n + used, reply)
    }
  }

  /** A stream that starts at a SOF: LEN sizes the rest, which is taken whole and then judged. */
  function ReceiveFrame(s: seq<byte>): Reception
    requires s != [] && s[0] == SOF
  {
    if |s| < 2 then Incomplete
    else
      var length := s[1] as nat;
      if length < MIN_RESPONSE_LEN || length > MAX_RESPONSE_LEN then Rejected(2)
      else if |s| < RESPONSE_OVERHEAD + length then Incomplete
      else
        match ParseReply(s[..RESPONSE_OVERHEAD + length])
        case None => Rejected(RESPONSE_OVERHEAD + length)
        case Some(reply) => Accepted(RESPONSE_OVERHEAD + length, reply)
  }

  /** Bytes before the first SOF are dropped; nothing after it is ever looked at twice. */
  function Receive(s: seq<byte>): Reception {
    if s == [] then Incomplete
    else if s[0] != SOF then Receive(s[1..]).After(1)
    else ReceiveFrame(s)
  }

  predicate Junk(s: seq<byte>) {
    SOF !in s
  }

  lemma {:induction false} JunkIsSkipped(junk: seq<byte>, s: seq<byte>)
    requires Junk(junk)
    ensures Receive(junk + s) == Receive(s).After(|junk|)
  {
    if junk == [] {
      assert junk + s == s;
    } else {
      assert (junk + s)[1..] == junk[1..] + s;
      JunkIsSkipped(junk[1..], s);
    }
  }

  lemma FrameDecidedEarly(s: seq<byte>, more: seq<byte>)
    requires s != [] && s[0] == SOF && ReceiveFrame(s) != Incomplete
    ensures ReceiveFrame(s + more) == ReceiveFrame(s)
  {
    hide ParseReply;
    var length := s[1] as nat;
    if MIN_RESPONSE_LEN <= length <= MAX_RESPONSE_LEN {
      assert (s + more)[..RESPONSE_OVERHEAD + length] == s[..RESPONSE_OVERHEAD + length];
    }
  }

  /** Once the bytes so far decide, later bytes change nothing. */
  lemma {:induction false} DecidedEarly(s: seq<byte>, more: seq<byte>)
    requires Receive(s) != Incomplete
    ensures Receive(s + more) == Receive(s)
  {
    if s[0] == SOF {
      FrameDecidedEarly(s, more);
    } else {
      assert (s + more)[1..] == s[1..] + more;
      DecidedEarly(s[1..], more);
    }
  }

  lemma {:induction false} UsesWhatIsThere(s: seq<byte>)
    ensures Receive(s) != Incomplete ==> Receive(s).used <= |s|
  {
    if s != [] && s[0] != SOF {
      UsesWhatIsThere(s[1..]);
    }
  }

  function Used(r: Reception): nat
    requires r != Incomplete
  {
    r.used
  }

  /**
   The receiver is a function of the stream alone: any two runs that consumed prefixes of one stream, each stopping
   when it was decided, stopped at the same byte with the same outcome.
   */
  lemma StreamDecides(stream: seq<byte>, c: seq<byte>, d: seq<byte>)
    requires c <= stream && d <= stream
    requires Receive(c) != Incomplete && Used(Receive(c)) == |c|
    requires Receive(d) != Incomplete && Used(Receive(d)) == |d|
    ensures c == d && Receive(c) == Receive(d) == Receive(stream)
  {
    DecidedEarly(c, stream[|c|..]);
    DecidedEarly(d, stream[|d|..]);
    assert c + stream[|c|..] == stream && d + stream[|d|..] == stream;
  }

  // ---- which streams are accepted ----

  /** Junk without a SOF byte, then one encoded response. */
  predicate FramedReply(s: seq<byte>, junk: seq<byte>, ack: byte, data: seq<byte>) {
    Junk(junk) && |data| <= MAX_RESPONSE_DATA && s == junk + ReplyFrame(ack, data)
  }

  lemma EncodedIsAccepted(ack: byte, data: seq<byte>, tail: seq<byte>)
    requires |data| <= MAX_RESPONSE_DATA
    ensures Receive(ReplyFrame(ack, data) + tail) == Accepted(MIN_RESPONSE_FRAME + |data|, Reply(ack != 0, data))
  {
    hide ParseReply;
    var f := ReplyFrame(ack, data);
    ByteOfLength(|data| + 1);
    ReplySurvives(ack, data, []);
    assert f + [] == f;
    assert (f + tail)[..|f|] == f;
    assert (f + tail)[0] == SOF && (f + tail)[1] == ByteOf(|data| + 1);
  }

  lemma FramedReplyIsAccepted(s: seq<byte>, junk: seq<byte>, ack: byte, data: seq<byte>, tail: seq<byte>)
    requires FramedReply(s, junk, ack, data)
    ensures Receive(s + tail) == Accepted(|s|, Reply(ack != 0, data))
  {
    EncodedIsAccepted(ack, data, tail);
    JunkIsSkipped(junk, ReplyFrame(ack, data) + tail);
    assert s + tail == junk + (ReplyFrame(ack, data) + tail);
  }

  lemma AcceptedFrameIsEncoded(s: seq<byte>)
    requires s != [] && s[0] == SOF && ReceiveFrame(s).Accepted?
    ensures var used := ReceiveFrame(s).used;
            && 3 <= used <= |s| && FramedReply(s[..used], [], s[2], ReceiveFrame(s).reply.data)
            && ReceiveFrame(s).reply.ack == (s[2] != 0)
  {
    hide ParseReply, ReplyFrame;
    var used := ReceiveFrame(s).used;
    ParsedIsEncoded(s[..used]);
    ReplyFills(s[..used]);
    assert [] + s[..used] == s[..used];
  }

  lemma ReplyFills(f: seq<byte>)
    requires ParseReply(f).Some? && |f| == RESPONSE_OVERHEAD + f[1] as nat
    ensures |ParseReply(f).value.data| <= MAX_RESPONSE_DATA
    ensures |f| == |ReplyFrame(f[2], ParseReply(f).value.data)|
  {
  }

  /** The receiver accepts exactly the streams that begin with SOF-free junk and an encoded response, and stops right behind it. */
  lemma {:induction false} ReceiveCharacterised(s: seq<byte>, used: nat, r: Reply)
    ensures Receive(s) == Accepted(used, r) <==>
            used <= |s| && exists junk: seq<byte>, ack: byte ::
              |r.data| <= MAX_RESPONSE_DATA && FramedReply(s[..used], junk, ack, r.data) && r.ack == (ack != 0)
  {
    hide ReplyFrame;
    if Receive(s) == Accepted(used, r) {
      AcceptedHasFrame(s);
    }
    if used <= |s| && exists junk: seq<byte>, ack: byte ::
         |r.data| <= MAX_RESPONSE_DATA && FramedReply(s[..used], junk, ack, r.data) && r.ack == (ack != 0) {
      var junk: seq<byte>, ack: byte :|
        |r.data| <= MAX_RESPONSE_DATA && FramedReply(s[..used], junk, ack, r.data) && r.ack == (ack != 0);
      FramedReplyIsAccepted(s[..used], junk, ack, r.data, s[used..]);
      assert s[..used] + s[used..] == s;
    }
  }

  lemma {:induction false} AcceptedHasFrame(s: seq<byte>)
    requires Receive(s).Accepted?
    ensures var used := Receive(s).used;
            && used <= |s|
            && exists junk: seq<byte>, ack: byte ::
                 FramedReply(s[..used], junk, ack, Receive(s).reply.data) && Receive(s).reply.ack == (ack != 0)
  {
    hide ReplyFrame, ReceiveFrame;
    var used := Receive(s).used;
    if s[0] == SOF {
      AcceptedFrameIsEncoded(s);
    } else {
      AcceptedHasFrame(s[1..]);
      var data := Receive(s).reply.data;
      var junk: seq<byte>, ack: byte :|
        FramedReply(s[1..][..used - 1], junk, ack, data) && Receive(s).reply.ack == (ack != 0);
      assert s[..used] == [s[0]] + s[1..][..used - 1] == ([s[0]] + junk) + ReplyFrame(ack, data);
      assert FramedReply(s[..used], [s[0]] + junk, ack, data);
    }
  }

  /**
   The receiver never goes back: an encoded response behind other bytes, whatever follows it, is received from exactly
   where it stands if and only if those bytes hold no SOF.
   */
  lemma FoundExactlyBehindJunk(before: seq<byte>, ack: byte, data: seq<byte>, tail: seq<byte>)
    requires |data| <= MAX_RESPONSE_DATA
    ensures Junk(before) <==>
            Receive(before + ReplyFrame(ack, data) + tail) == Accepted(|before| + MIN_RESPONSE_FRAME + |data|, Reply(ack != 0, data))
  {
    hide ReplyFrame, Receive;
    var s, used, r := before + ReplyFrame(ack, data) + tail, |before| + MIN_RESPONSE_FRAME + |data|, Reply(ack != 0, data);
    ReplyLength(ack, data);
    if Junk(before) {
      FramedReplyIsAccepted(before + ReplyFrame(ack, data), before, ack, data, tail);
    }
    if Receive(s) == Accepted(used, r) {
      ReceiveCharacterised(s, used, r);
      var junk: seq<byte>, other: byte :| FramedReply(s[..used], junk, other, data) && r.ack == (other != 0);
      ReplyLength(other, data);
      assert before == s[..used][..|before|] == junk;
    }
  }

  lemma ReplyLength(ack: byte, data: seq<byte>)
    requires |data| <= MAX_RESPONSE_DATA
    ensures |ReplyFrame(ack, data)| == MIN_RESPONSE_FRAME + |data|
  {
  }

  // ---- many frames ----

  /** A response as it came down the line: the junk ahead of it, its ACK byte and its data. */
  datatype Arrival = Arrival(junk: seq<byte>, ack: byte, data: seq<byte>)

  predicate WellFormed(a: Arrival) {
    Junk(a.junk) && |a.data| <= MAX_RESPONSE_DATA
  }

  function Line(arrivals: seq<Arrival>): seq<byte>
    requires forall i :: 0 <= i < |arrivals| ==> WellFormed(arrivals[i])
  {
    if arrivals == [] then []
    else
      assert WellFormed(arrivals[0]);
      arrivals[0].junk + ReplyFrame(arrivals[0].ack, arrivals[0].data) + Line(arrivals[1..])
  }

  /** What `n` receptions in a row make of a stream: the decoded replies, and what is left over. */
  function ReceiveMany(s: seq<byte>, n: nat): Option<(seq<Reply>, seq<byte>)> {
    if n == 0 then Some(([], s))
    else
      match Receive(s)
      case Accepted(used, reply) =>
        if used > |s| then None
        else (match ReceiveMany(s[used..], n - 1)
              case None => None
              case Some(more) => Some(([reply] + more.0, more.1)))
      case _ => None
  }

  function Replies(arrivals: seq<Arrival>): seq<Reply> {
    if arrivals == [] then []
    else [Reply(arrivals[0].ack != 0, arrivals[0].data)] + Replies(arrivals[1..])
  }

  /** Frames separated by any amount of SOF-free junk are received in order, and nothing beyond them is consumed. */
  lemma {:induction false} Resynchronises(arrivals: seq<Arrival>, tail: seq<byte>)
    requires forall i :: 0 <= i < |arrivals| ==> WellFormed(arrivals[i])
    ensures ReceiveMany(Line(arrivals) + tail, |arrivals|) == Some((Replies(arrivals), tail))
  {
    hide Receive, ReplyFrame;
    if arrivals == [] {
      assert Line(arrivals) + tail == tail;
    } else {
      var a, rest := arrivals[0], Line(arrivals[1..]) + tail;
      var s := a.junk + ReplyFrame(a.ack, a.data);
      FramedReplyIsAccepted(s, a.junk, a.ack, a.data, rest);
      assert Line(arrivals) + tail == s + rest;
      assert (s + rest)[|s|..] == rest;
      Resynchronises(arrivals[1..], tail);
    }
  }

  function Concat(parts: seq<seq<byte>>): seq<byte> {
    if parts == [] then [] else parts[0] + Concat(parts[1..])
  }

  /**
   The same for receptions that were made one after the other: each that was decided consumed exactly its own junk and
   frame and decoded exactly its own reply.
   */
  lemma {:induction false} EachTakesItsOwn(gots: seq<seq<byte>>, arrivals: seq<Arrival>, tail: seq<byte>, k: nat)
    requires forall i :: 0 <= i < |arrivals| ==> WellFormed(arrivals[i])
    requires forall i :: 0 <= i < |gots| ==> Receive(gots[i]) != Incomplete && Used(Receive(gots[i])) == |gots[i]|
    requires k < |gots| <= |arrivals| && Concat(gots) <= Line(arrivals) + tail
    ensures FramedReply(gots[k], arrivals[k].junk, arrivals[k].ack, arrivals[k].data)
    ensures Receive(gots[k]) == Accepted(|gots[k]|, Reply(arrivals[k].ack != 0, arrivals[k].data))
  {
    hide Receive, ReplyFrame;
    var a, rest := arrivals[0], Line(arrivals[1..]) + tail;
    assert WellFormed(a);
    var s := a.junk + ReplyFrame(a.ack, a.data);
    var stream := Line(arrivals) + tail;
    assert stream == s + rest;
    FramedReplyIsAccepted(s, a.junk, a.ack, a.data, []);
    assert s + [] == s;
    assert gots[0] <= Concat(gots) <= stream;
    StreamDecides(stream, gots[0], s);
    if k > 0 {
      assert Concat(gots)[|s|..] == Concat(gots[1..]);
      assert stream[|s|..] == rest;
      EachTakesItsOwn(gots[1..], arrivals[1..], tail, k - 1);
    }
  }
}
