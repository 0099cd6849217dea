/**
 Runs of exchanges over two byte channels. Responses carry no opcode: which command a response answers is a matter of
 counting alone, and this module counts.

 The far end reads commands off its channel and answers each with one well-formed frame. The host writes a frame in
 pieces, reads one byte at a time through the receiver, and may give up on an answer.
 */
module Session {
  import opened Words
  import opened Protocol
  import opened Codec
  import opened Reception

  datatype Answer = Answer(ack: byte, data: seq<byte>)

  type answer = a: Answer | |a.data| <= MAX_RESPONSE_DATA witness Answer(1, [])

  function ReplyOf(a: answer): Reply {
    Reply(a.ack != 0, a.data)
  }

  datatype Host = Idle | Waiting(got: seq<byte>)

  /** What became of a finished exchange: a reply, or it was given up, before or after its answer had begun to be read. */
  datatype Outcome = Answered(reply: Protocol.Reply) | Untouched | HalfRead

  /**
   `issued` are the commands exchanges were begun for, `answers` the far end's answers in the order it gave them, and
   `log` the outcomes of the finished exchanges. `residue` is the unread end of an answer that was given up half read;
   it lies ahead of everything the host reads next. `torn` is set when such an end contains a SOF byte.
   */
  datatype Link = Link(
    host: Host,
    outgoing: seq<byte>,
    toMcu: seq<byte>,
    toHost: seq<byte>,
    issued: seq<Command>,
    answers: seq<answer>,
    log: seq<Outcome>,
    residue: seq<byte>,
    torn: bool)

  datatype Action =
    | Begin(command: Command)
    | Put(n: nat)
    | Respond(answer: answer)
    | Take
    | GiveUp

  const START: Link := Link(Idle, [], [], [], [], [], [], [], false)

  /** What reading the next byte does to a waiting host. */
  function Taken(l: Link, got: seq<byte>): Link {
    match Receive(got)
    case Incomplete => l.(host := Waiting(got))
    case Rejected(_) => l.(host := Idle, residue := [], log := l.log + [HalfRead], torn := true)
    case Accepted(_, reply) => l.(host := Idle, residue := [], log := l.log + [Answered(reply)])
  }

  /** What giving up leaves behind when `got` was read so far. */
  function Abandoned(l: Link, got: seq<byte>): Link {
    var n := Consumed(l.log);
    if |got| <= |l.residue| || n >= |l.answers| then
      l.(host := Idle, log := l.log + [Untouched], residue := if |got| <= |l.residue| then l.residue[|got|..] else [])
    else
      var f := ReplyFrame(l.answers[n].ack, l.answers[n].data);
      var begun := |got| - |l.residue|;
      var rest := if begun <= |f| then f[begun..] else [];
      l.(host := Idle, log := l.log + [HalfRead], residue := rest, torn := l.torn || !Junk(rest))
  }

  // ---- counting ----

  /** How many answers the exchanges of a log have used up. */
  function Consumed(log: seq<Outcome>): nat {
    if log == [] then 0 else Consumed(log[..|log| - 1]) + (if log[|log| - 1].Untouched? then 0 else 1)
  }

  /** How many were given up with their answer still to come. */
  function Lag(log: seq<Outcome>): (n: nat)
    ensures n + Consumed(log) == |log|
  {
    if log == [] then 0 else Lag(log[..|log| - 1]) + (if log[|log| - 1].Untouched? then 1 else 0)
  }

  predicate Next(l: Link, a: Action, m: Link) {
    match a
    case Begin(c) =>
      && l.host.Idle? && InRange(c)
      && m == l.(host := Waiting([]), outgoing := CommandFrame(c), issued := l.issued + [c])
    case Put(n) =>
      && 0 < n <= |l.outgoing|
      && m == l.(outgoing := l.outgoing[n..], toMcu := l.toMcu + l.outgoing[..n])
    case Respond(answer) =>
      && DecodeCommand(l.toMcu).Some?
      && m == l.(toMcu := l.toMcu[DecodeCommand(l.toMcu).value.used..],
                 toHost := l.toHost + ReplyFrame(answer.ack, answer.data),
                 answers := l.answers + [answer])
    case Take =>
      && l.host.Waiting? && l.outgoing == [] && l.toHost != []
      && m == Taken(l.(toHost := l.toHost[1..]), l.host.got + [l.toHost[0]])
    case GiveUp =>
      && l.host.Waiting? && l.outgoing == []
      && m == Abandoned(l, l.host.got)
  }

  predicate Chain(run: seq<Link>, actions: seq<Action>) {
    && |run| == |actions| + 1
    && forall i :: 0 <= i < |actions| ==> Next(run[i], actions[i], run[i + 1])
  }

  predicate IsRun(run: seq<Link>, actions: seq<Action>) {
    Chain(run, actions) && run[0] == START
  }

  // ---- the account ----

  function AnswerLine(answers: seq<answer>): seq<byte> {
    if answers == [] then [] else ReplyFrame(answers[0].ack, answers[0].data) + AnswerLine(answers[1..])
  }

  function Got(h: Host): seq<byte> {
    if h.Waiting? then h.got else []
  }

  /** The exchange in progress, if there is one, is the one behind the log. */
  function Busy(h: Host): nat {
    if h.Waiting? then 1 else 0
  }

  /** Every answered exchange got the answer behind those its predecessors used up. */
  predicate Paired(log: seq<Outcome>, answers: seq<answer>) {
    forall k :: 0 <= k < |log| && log[k].Answered? ==>
      Consumed(log[..k]) < |answers| && log[k].reply == ReplyOf(answers[Consumed(log[..k])])
  }

  predicate AllAnswered(log: seq<Outcome>) {
    forall k :: 0 <= k < |log| ==> log[k].Answered?
  }

  /** The way out: what is written and not yet answered is exactly the frames of the commands not yet answered. */
  predicate Outward(issued: seq<Command>, begun: nat, answered: nat, channel: seq<byte>) {
    && (forall k :: 0 <= k < |issued| ==> InRange(issued[k]))
    && |issued| == begun
    && answered <= |issued|
    && channel == Frames(issued[answered..])
  }

  /** The way home: what the waiting host has read and what is queued are the residue and the answers not yet used up. */
  predicate Homeward(line: seq<byte>, residue: seq<byte>, answers: seq<answer>, consumed: nat) {
    && consumed <= |answers|
    && Junk(residue)
    && line == residue + AnswerLine(answers[consumed..])
  }

  predicate Invariant(l: Link) {
    && Outward(l.issued, |l.log| + Busy(l.host), |l.answers|, l.toMcu + l.outgoing)
    && (l.host.Idle? ==> l.outgoing == [])
    && Homeward(Got(l.host) + l.toHost, l.residue, l.answers, Consumed(l.log))
    && (AllAnswered(l.log) ==> l.residue == [])
    && (l.host.Waiting? ==> Receive(l.host.got) == Incomplete)
    && Paired(l.log, l.answers)
  }

  // ---- channel lemmas ----

  lemma {:induction false} LineSnoc(answers: seq<answer>, a: answer)
    ensures AnswerLine(answers + [a]) == AnswerLine(answers) + ReplyFrame(a.ack, a.data)
  {
    hide ReplyFrame;
    if answers == [] {
      assert answers + [a] == [a] && [a][1..] == [];
    } else {
      LineSnoc(answers[1..], a);
      assert (answers + [a])[1..] == answers[1..] + [a];
    }
  }

  /** A command that is already whole on the channel is not changed by what is written behind it. */
  lemma DecodeStable(s: seq<byte>, more: seq<byte>)
    requires DecodeCommand(s).Some?
    ensures DecodeCommand(s + more) == DecodeCommand(s)
  {
    hide Fields, InRange;
    var n := s[2] as nat;
    var t := s + more;
    assert t[1..3 + n] == s[1..3 + n] && t[3..3 + n] == s[3..3 + n];
  }

  lemma PrefixUndecided(residue: seq<byte>, a: answer, got: seq<byte>)
    requires Junk(residue) && got < residue + ReplyFrame(a.ack, a.data)
    ensures Receive(got) == Incomplete
  {
    hide Receive, ReplyFrame;
    var f := residue + ReplyFrame(a.ack, a.data);
    if Receive(got) != Incomplete {
      DecidedEarly(got, f[|got|..]);
      assert got + f[|got|..] == f;
      FramedReplyIsAccepted(f, residue, a.ack, a.data, []);
      assert f + [] == f;
      UsesWhatIsThere(got);
      assert false;
    }
  }

  lemma JunkUndecided(residue: seq<byte>, got: seq<byte>)
    requires Junk(residue) && got <= residue
    ensures Receive(got) == Incomplete
  {
    JunkIsSkipped(got, []);
    assert got + [] == got;
  }

  // ---- every step keeps the invariant ----

  lemma StartKeeps()
    ensures Invariant(START)
  {
    assert START.issued[|START.answers|..] == [];
    assert START.answers[Consumed(START.log)..] == [];
  }

  lemma OneMoreCommand(issued: seq<Command>, begun: nat, answered: nat, channel: seq<byte>, c: Command)
    requires Outward(issued, begun, answered, channel) && InRange(c)
    ensures Outward(issued + [c], begun + 1, answered, channel + CommandFrame(c))
  {
    hide InRange, CommandFrame;
    FramesSnoc(issued[answered..], c);
    assert (issued + [c])[answered..] == issued[answered..] + [c];
  }

  lemma BeginKeeps(l: Link, c: Command, m: Link)
    requires Invariant(l) && Next(l, Begin(c), m)
    ensures Invariant(m)
  {
    hide CommandFrame, InRange, Receive, Outward, Homeward, Paired, AllAnswered, Consumed;
    OneMoreCommand(l.issued, |l.log|, |l.answers|, l.toMcu + l.outgoing, c);
    assert l.toMcu + [] == l.toMcu;
    NothingReceived();
  }

  lemma NothingReceived()
    ensures Receive([]) == Incomplete
  {
  }

  lemma PutKeeps(l: Link, n: nat, m: Link)
    requires Invariant(l) && Next(l, Put(n), m)
    ensures Invariant(m)
  {
    hide Receive, Outward, Homeward, Paired, AllAnswered, Consumed;
    assert m.toMcu + m.outgoing == l.toMcu + l.outgoing;
  }

  /** The command at the front of the channel is the oldest one not yet answered, and taking it leaves the later ones. */
  lemma OldestCommand(issued: seq<Command>, begun: nat, answered: nat, toMcu: seq<byte>, outgoing: seq<byte>)
    requires Outward(issued, begun, answered, toMcu + outgoing) && DecodeCommand(toMcu).Some?
    ensures answered < |issued| && DecodeCommand(toMcu).value.command == issued[answered]
    ensures Outward(issued, begun, answered + 1, toMcu[DecodeCommand(toMcu).value.used..] + outgoing)
  {
    hide CommandFrame, InRange, DecodeCommand;
    var pending, d := issued[answered..], DecodeCommand(toMcu).value;
    SomeFrameThere(toMcu);
    assert pending != [];
    DecodeStable(toMcu, outgoing);
    assert pending[0] == issued[answered];
    assert pending[1..] == issued[answered + 1..];
    CommandSurvives(pending[0], Frames(pending[1..]));
    assert toMcu[d.used..] + outgoing == (toMcu + outgoing)[d.used..];
    assert (CommandFrame(pending[0]) + Frames(pending[1..]))[d.used..] == Frames(pending[1..]);
  }

  lemma SomeFrameThere(s: seq<byte>)
    requires DecodeCommand(s).Some?
    ensures s != []
  {
  }

  lemma OneMoreAnswer(line: seq<byte>, residue: seq<byte>, answers: seq<answer>, consumed: nat, a: answer)
    requires Homeward(line, residue, answers, consumed)
    ensures Homeward(line + ReplyFrame(a.ack, a.data), residue, answers + [a], consumed)
  {
    hide ReplyFrame, Junk;
    LineSnoc(answers[consumed..], a);
    assert (answers + [a])[consumed..] == answers[consumed..] + [a];
    assert line + ReplyFrame(a.ack, a.data) == residue + (AnswerLine(answers[consumed..]) + ReplyFrame(a.ack, a.data));
  }

  lemma StillPaired(log: seq<Outcome>, answers: seq<answer>, a: answer)
    requires Paired(log, answers)
    ensures Paired(log, answers + [a])
  {
    hide Consumed;
  }

  lemma RespondKeeps(l: Link, a: answer, m: Link)
    requires Invariant(l) && Next(l, Respond(a), m)
    ensures Invariant(m)
    ensures DecodeCommand(l.toMcu).value.command == l.issued[|l.answers|]
  {
    hide CommandFrame, InRange, Receive, DecodeCommand, ReplyFrame, Outward, Homeward, Paired, AllAnswered, Consumed;
    OldestCommand(l.issued, |l.log| + Busy(l.host), |l.answers|, l.toMcu, l.outgoing);
    OneMoreAnswer(Got(l.host) + l.toHost, l.residue, l.answers, Consumed(l.log), a);
    assert Got(m.host) + m.toHost == Got(l.host) + l.toHost + ReplyFrame(a.ack, a.data);
    StillPaired(l.log, l.answers, a);
  }

  lemma LogGrows(log: seq<Outcome>, o: Outcome, answers: seq<answer>)
    requires Paired(log, answers)
    requires o.Answered? ==> Consumed(log) < |answers| && o.reply == ReplyOf(answers[Consumed(log)])
    ensures Paired(log + [o], answers)
    ensures Consumed(log + [o]) == Consumed(log) + (if o.Untouched? then 0 else 1)
    ensures AllAnswered(log + [o]) ==> AllAnswered(log) && o.Answered?
  {
    var longer := log + [o];
    assert longer[..|log|] == log;
    assert longer[|log|] == o;
    forall k | 0 <= k < |longer| && longer[k].Answered?
      ensures Consumed(longer[..k]) < |answers| && longer[k].reply == ReplyOf(answers[Consumed(longer[..k])])
    {
      if k < |log| {
        assert longer[..k] == log[..k];
      }
    }
    if AllAnswered(longer) {
      forall k | 0 <= k < |log|
        ensures log[k].Answered?
      {
        assert longer[k] == log[k];
      }
    }
  }

  /** A host still waiting has not read a whole frame. */
  lemma NotBeyond(residue: seq<byte>, got: seq<byte>, queue: seq<byte>, rest: seq<byte>, a: answer)
    requires Junk(residue) && Receive(got) == Incomplete
    requires got + queue == residue + ReplyFrame(a.ack, a.data) + rest
    ensures |got| < |residue + ReplyFrame(a.ack, a.data)|
  {
    hide Receive, ReplyFrame;
    var f := residue + ReplyFrame(a.ack, a.data);
    if |got| >= |f| {
      assert got == f + got[|f|..] by {
        assert got == (f + rest)[..|got|];
      }
      FramedReplyIsAccepted(f, residue, a.ack, a.data, got[|f|..]);
      assert false;
    }
  }

  /** What the oldest unused answer makes of the line home. */
  function LineFrom(residue: seq<byte>, answers: seq<answer>, consumed: nat): seq<byte>
    requires consumed < |answers|
  {
    residue + ReplyFrame(answers[consumed].ack, answers[consumed].data) + AnswerLine(answers[consumed + 1..])
  }

  lemma OldestInLine(line: seq<byte>, residue: seq<byte>, answers: seq<answer>, consumed: nat)
    requires Homeward(line, residue, answers, consumed) && consumed < |answers|
    ensures line == LineFrom(residue, answers, consumed)
  {
    hide ReplyFrame, Junk;
    var queued := answers[consumed..];
    var f := ReplyFrame(queued[0].ack, queued[0].data);
    assert queued[1..] == answers[consumed + 1..];
    assert residue + (f + AnswerLine(queued[1..])) == residue + f + AnswerLine(queued[1..]);
  }

  /** If an answer is queued, everything the host has read belongs to the residue ahead of it and to that answer. */
  lemma OldestAnswer(l: Link) returns (a: answer, rest: seq<byte>)
    requires Invariant(l) && l.host.Waiting? && Consumed(l.log) < |l.answers|
    ensures a == l.answers[Consumed(l.log)] && rest == AnswerLine(l.answers[Consumed(l.log) + 1..])
    ensures l.host.got + l.toHost == l.residue + ReplyFrame(a.ack, a.data) + rest
    ensures |l.host.got| < |l.residue + ReplyFrame(a.ack, a.data)|
  {
    hide Receive, ReplyFrame, Paired, AllAnswered, Outward, Consumed, AnswerLine;
    a, rest := l.answers[Consumed(l.log)], AnswerLine(l.answers[Consumed(l.log) + 1..]);
    OldestInLine(l.host.got + l.toHost, l.residue, l.answers, Consumed(l.log));
    NotBeyond(l.residue, l.host.got, l.toHost, rest, a);
  }

  /** Moving one byte from the queue to the host changes nothing about the line. */
  lemma SameLine(got: seq<byte>, queue: seq<byte>)
    requires queue != []
    ensures got + [queue[0]] + queue[1..] == got + queue
  {
  }

  lemma AllResidue(got: seq<byte>, queue: seq<byte>, residue: seq<byte>, answers: seq<answer>)
    requires Homeward(got + queue, residue, answers, |answers|)
    ensures got <= residue && |got| + |queue| == |residue| && Junk(residue)
  {
    assert answers[|answers|..] == [];
    assert got + queue == residue;
  }

  /** With no answer queued, all there is to read is residue. */
  lemma TakeResidue(l: Link, m: Link)
    requires Invariant(l) && Next(l, Take, m) && Consumed(l.log) == |l.answers|
    ensures Invariant(m)
  {
    hide Receive, Paired, AllAnswered, Outward, Homeward, Consumed, Junk;
    var got := l.host.got + [l.toHost[0]];
    SameLine(l.host.got, l.toHost);
    AllResidue(got, l.toHost[1..], l.residue, l.answers);
    JunkUndecided(l.residue, got);
  }

  lemma PartOfLine(got: seq<byte>, queue: seq<byte>, f: seq<byte>, rest: seq<byte>)
    requires got + queue == f + rest && |got| < |f|
    ensures got < f
  {
    assert got == (f + rest)[..|got|] == f[..|got|];
  }

  lemma TakePartOf(l: Link, m: Link, a: answer, rest: seq<byte>)
    requires Invariant(l) && Next(l, Take, m)
    requires l.host.got + l.toHost == l.residue + ReplyFrame(a.ack, a.data) + rest
    requires |l.host.got| + 1 < |l.residue + ReplyFrame(a.ack, a.data)|
    ensures Invariant(m) && m.log == l.log
  {
    hide Receive, ReplyFrame, Paired, AllAnswered, Outward, Homeward, Consumed, Junk;
    var got := l.host.got + [l.toHost[0]];
    SameLine(l.host.got, l.toHost);
    PartOfLine(got, l.toHost[1..], l.residue + ReplyFrame(a.ack, a.data), rest);
    ResidueIsJunk(l);
    PrefixUndecided(l.residue, a, got);
  }

  lemma ResidueIsJunk(l: Link)
    requires Invariant(l)
    ensures Junk(l.residue) && Consumed(l.log) <= |l.answers|
  {
    hide Receive, Paired, AllAnswered, Outward, Consumed;
  }

  lemma LastByte(got: seq<byte>, queue: seq<byte>, f: seq<byte>, rest: seq<byte>)
    requires got + queue == f + rest && |got| + 1 == |f|
    ensures queue != [] && got + [queue[0]] == f && queue[1..] == rest
  {
    var whole := got + queue;
    assert |queue| == 1 + |rest|;
    assert got + [queue[0]] == whole[..|f|] == f;
    assert queue[1..] == whole[|f|..] == rest;
  }

  /** Behind a whole answer the line home starts afresh. */
  lemma LineAfter(answers: seq<answer>, consumed: nat, queue: seq<byte>)
    requires consumed <= |answers| && queue == AnswerLine(answers[consumed..])
    ensures Homeward([] + queue, [], answers, consumed)
  {
    assert [] + queue == queue;
  }

  lemma TakeLastOf(l: Link, m: Link, a: answer, rest: seq<byte>)
    requires Invariant(l) && Next(l, Take, m)
    requires l.host.got + l.toHost == l.residue + ReplyFrame(a.ack, a.data) + rest
    requires |l.host.got| + 1 == |l.residue + ReplyFrame(a.ack, a.data)|
    requires Consumed(l.log) < |l.answers| && a == l.answers[Consumed(l.log)]
    requires rest == AnswerLine(l.answers[Consumed(l.log) + 1..])
    ensures Invariant(m) && m.log == l.log + [Answered(ReplyOf(a))]
  {
    hide Receive, ReplyFrame, Paired, AllAnswered, AnswerLine, Outward, Homeward, Consumed, Junk;
    ResidueIsJunk(l);
    LastByte(l.host.got, l.toHost, l.residue + ReplyFrame(a.ack, a.data), rest);
    WholeAnswer(l.residue, a);
    LogGrows(l.log, Answered(ReplyOf(a)), l.answers);
    LineAfter(l.answers, Consumed(l.log) + 1, rest);
  }

  lemma WholeAnswer(residue: seq<byte>, a: answer)
    requires Junk(residue)
    ensures Receive(residue + ReplyFrame(a.ack, a.data)) == Accepted(|residue + ReplyFrame(a.ack, a.data)|, ReplyOf(a))
  {
    hide Receive, ReplyFrame;
    var f := residue + ReplyFrame(a.ack, a.data);
    FramedReplyIsAccepted(f, residue, a.ack, a.data, []);
    assert f + [] == f;
  }

  lemma TakeKeeps(l: Link, m: Link)
    requires Invariant(l) && Next(l, Take, m)
    ensures Invariant(m)
  {
    hide Receive, ReplyFrame, Invariant, Taken, Consumed, AnswerLine;
    ResidueIsJunk(l);
    if Consumed(l.log) == |l.answers| {
      TakeResidue(l, m);
    } else {
      var a, rest := OldestAnswer(l);
      if |l.host.got| + 1 < |l.residue + ReplyFrame(a.ack, a.data)| {
        TakePartOf(l, m, a, rest);
      } else {
        TakeLastOf(l, m, a, rest);
      }
    }
  }

  lemma SkipResidue(got: seq<byte>, queue: seq<byte>, residue: seq<byte>, answers: seq<answer>, consumed: nat)
    requires Homeward(got + queue, residue, answers, consumed) && |got| <= |residue|
    ensures Homeward([] + queue, residue[|got|..], answers, consumed)
  {
    hide AnswerLine;
    var line := AnswerLine(answers[consumed..]);
    assert queue == (residue + line)[|got|..] == residue[|got|..] + line;
    assert [] + queue == queue;
  }

  /** Given up before its answer began to arrive: the rest of the residue, if any, stays ahead of that answer. */
  lemma GiveUpUntouched(l: Link, m: Link)
    requires Invariant(l) && Next(l, GiveUp, m) && |l.host.got| <= |l.residue|
    ensures Invariant(m)
  {
    hide Receive, ReplyFrame, Paired, AllAnswered, Outward, Homeward, Consumed, Junk;
    SkipResidue(l.host.got, l.toHost, l.residue, l.answers, Consumed(l.log));
    LogGrows(l.log, Untouched, l.answers);
  }

  lemma HalfReadState(l: Link, got: seq<byte>, a: answer, rest: seq<byte>)
    requires Consumed(l.log) < |l.answers| && a == l.answers[Consumed(l.log)]
    requires |l.residue| < |got| < |l.residue + ReplyFrame(a.ack, a.data)|
    requires rest == ReplyFrame(a.ack, a.data)[|got| - |l.residue|..]
    ensures Abandoned(l, got) == l.(host := Idle, log := l.log + [HalfRead], residue := rest, torn := l.torn || !Junk(rest))
  {
    hide Consumed, ReplyFrame, Junk;
  }

  lemma UnreadEnd(residue: seq<byte>, f: seq<byte>, rest: seq<byte>, got: seq<byte>, queue: seq<byte>)
    requires got + queue == residue + f + rest && |residue| < |got| < |residue + f|
    ensures queue == f[|got| - |residue|..] + rest
  {
    assert queue == (got + queue)[|got|..];
    assert residue + f + rest == residue + (f + rest);
    assert (residue + (f + rest))[|got|..] == (f + rest)[|got| - |residue|..];
  }

  lemma HalfReadLine(queue: seq<byte>, end: seq<byte>, answers: seq<answer>, consumed: nat)
    requires consumed <= |answers| && Junk(end) && queue == end + AnswerLine(answers[consumed..])
    ensures Homeward([] + queue, end, answers, consumed)
  {
    assert [] + queue == queue;
  }

  /** Given up in the middle of its answer: the unread end becomes the residue, and that answer is used up. */
  lemma GiveUpHalfRead(l: Link, m: Link)
    requires Invariant(l) && Next(l, GiveUp, m) && !m.torn && |l.host.got| > |l.residue|
    ensures Invariant(m)
  {
    hide Receive, ReplyFrame, Paired, AllAnswered, AnswerLine, Outward, Homeward, Consumed, Junk, Abandoned;
    ReadsWithinLine(l);
    var a, rest := OldestAnswer(l);
    var end := ReplyFrame(a.ack, a.data)[|l.host.got| - |l.residue|..];
    HalfReadState(l, l.host.got, a, end);
    UnreadEnd(l.residue, ReplyFrame(a.ack, a.data), rest, l.host.got, l.toHost);
    LogGrows(l.log, HalfRead, l.answers);
    HalfReadLine(l.toHost, end, l.answers, Consumed(l.log) + 1);
  }

  lemma ReadsWithinLine(l: Link)
    requires Invariant(l) && l.host.Waiting?
    ensures |l.host.got| <= |l.residue| || Consumed(l.log) < |l.answers|
  {
    hide Receive, Paired, AllAnswered, Outward, Homeward, Consumed, Junk;
    ResidueIsJunk(l);
    if Consumed(l.log) == |l.answers| {
      AllResidue(l.host.got, l.toHost, l.residue, l.answers);
    }
  }

  lemma GiveUpKeeps(l: Link, m: Link)
    requires Invariant(l) && Next(l, GiveUp, m) && !m.torn
    ensures Invariant(m)
  {
    hide Invariant, Abandoned;
    if |l.host.got| <= |l.residue| {
      GiveUpUntouched(l, m);
    } else {
      GiveUpHalfRead(l, m);
    }
  }

  lemma StepKeeps(l: Link, a: Action, m: Link)
    requires Invariant(l) && !m.torn && Next(l, a, m)
    ensures Invariant(m)
  {
    hide Invariant, Receive, InRange;
    match a
    case Begin(c) => BeginKeeps(l, c, m);
    case Put(n) => PutKeeps(l, n, m);
    case Respond(answer) => RespondKeeps(l, answer, m);
    case Take => TakeKeeps(l, m);
    case GiveUp => GiveUpKeeps(l, m);
  }

  lemma TornStays(l: Link, a: Action, m: Link)
    requires Next(l, a, m) && l.torn
    ensures m.torn
  {
  }

  /** As long as no response was given up half read, every state of every run keeps count. */
  lemma {:induction false} RunsKeepCount(run: seq<Link>, actions: seq<Action>)
    requires IsRun(run, actions) && !run[|actions|].torn
    ensures Invariant(run[|actions|])
    decreases |actions|
  {
    hide Invariant, Next;
    if actions == [] {
      StartKeeps();
    } else {
      var last := |actions| - 1;
      assert Next(run[last], actions[last], run[last + 1]);
      if run[last].torn {
        TornStays(run[last], actions[last], run[last + 1]);
      }
      RunsKeepCount(run[..last + 1], actions[..last]);
      StepKeeps(run[last], actions[last], run[last + 1]);
    }
  }

  // ---- what the count means ----

  lemma {:induction false} AllAnsweredConsume(log: seq<Outcome>, k: nat)
    requires AllAnswered(log) && k <= |log|
    ensures Consumed(log[..k]) == k
    decreases k
  {
    if k > 0 {
      assert log[..k][..k - 1] == log[..k - 1];
      assert log[..k][k - 1] == log[k - 1];
      AllAnsweredConsume(log, k - 1);
    }
  }

  /** An answer given up half read is no answered exchange, so only such logs can have left a torn residue. */
  lemma AnsweredStep(l: Link, a: Action, m: Link)
    requires Next(l, a, m) && AllAnswered(m.log)
    ensures AllAnswered(l.log) && (m.torn ==> l.torn)
  {
    hide CommandFrame, InRange, DecodeCommand, ReplyFrame, Receive, Consumed;
    if m.log != l.log {
      assert !m.log[|l.log|].Answered? || m.torn == l.torn;
      assert m.log[..|l.log|] == l.log;
    }
  }

  lemma {:induction false} AnsweredIsWhole(run: seq<Link>, actions: seq<Action>)
    requires IsRun(run, actions) && AllAnswered(run[|actions|].log)
    ensures !run[|actions|].torn
    decreases |actions|
  {
    hide Next, AllAnswered;
    if actions != [] {
      var last := |actions| - 1;
      assert Next(run[last], actions[last], run[last + 1]);
      AnsweredStep(run[last], actions[last], run[last + 1]);
      AnsweredIsWhole(run[..last + 1], actions[..last]);
    }
  }

  lemma OwnAnswers(l: Link)
    requires Invariant(l) && AllAnswered(l.log)
    ensures |l.log| <= |l.answers| && forall k :: 0 <= k < |l.log| ==> l.log[k] == Answered(ReplyOf(l.answers[k]))
  {
    hide Receive, InRange, AnswerLine, Frames;
    AllAnsweredConsume(l.log, |l.log|);
    assert l.log[..|l.log|] == l.log;
    forall k | 0 <= k < |l.log|
      ensures l.log[k] == Answered(ReplyOf(l.answers[k]))
    {
      AllAnsweredConsume(l.log, k);
    }
  }

  lemma IdleIsEmpty(l: Link)
    requires Invariant(l) && AllAnswered(l.log) && l.host.Idle?
    ensures l.toHost == [] && l.toMcu == [] && l.outgoing == [] && |l.answers| == |l.issued| == |l.log|
  {
    hide Receive, InRange, Paired, ReplyFrame, CommandFrame, AllAnswered, Junk;
    AllAnsweredConsume(l.log, |l.log|);
    assert l.log[..|l.log|] == l.log;
    assert l.answers[Consumed(l.log)..] == [];
    assert l.issued[|l.answers|..] == [];
    assert [] + l.toHost == l.toHost && l.toMcu + [] == l.toMcu;
  }

  /**
   In any run, the k-th exchange, if it was answered, decoded the answer to the command as many places before it as
   exchanges were given up before their answer had begun to be read. Answers given up half read do not count: their
   unread end is skipped.
   */
  lemma RepliesLag(run: seq<Link>, actions: seq<Action>, k: nat)
    requires IsRun(run, actions) && !run[|actions|].torn
    requires k < |run[|actions|].log| && run[|actions|].log[k].Answered?
    ensures var l := run[|actions|];
            var lag := Lag(l.log[..k]);
            && lag <= k && k - lag < |l.answers|
            && l.log[k] == Answered(ReplyOf(l.answers[k - lag]))
  {
    hide Invariant, Next;
    RunsKeepCount(run, actions);
    InvariantPairs(run[|actions|]);
  }

  lemma InvariantPairs(l: Link)
    requires Invariant(l)
    ensures Paired(l.log, l.answers)
  {
  }

  /**
   In every run in which no exchange was given up, every call decodes the answer to its own command, and between
   exchanges nothing is left anywhere: no stale byte can reach the next call.
   */
  lemma RepliesPair(run: seq<Link>, actions: seq<Action>)
    requires IsRun(run, actions) && AllAnswered(run[|actions|].log)
    ensures var l := run[|actions|];
            && |l.log| <= |l.answers|
            && (forall k :: 0 <= k < |l.log| ==> l.log[k] == Answered(ReplyOf(l.answers[k])))
            && (l.host.Idle? ==> l.toHost == [] && l.toMcu == [] && l.outgoing == [] && |l.answers| == |l.issued| == |l.log|)
  {
    hide Invariant, Next, AllAnswered;
    AnsweredIsWhole(run, actions);
    RunsKeepCount(run, actions);
    OwnAnswers(run[|actions|]);
    if run[|actions|].host.Idle? {
      IdleIsEmpty(run[|actions|]);
    }
  }

  /** The far end takes the commands in the order they were issued: its n-th answer answers the n-th command. */
  lemma AnswersInOrder(run: seq<Link>, actions: seq<Action>, i: nat)
    requires IsRun(run, actions) && i < |actions| && actions[i].Respond? && !run[i].torn
    ensures DecodeCommand(run[i].toMcu).Some? && |run[i].answers| < |run[i].issued|
    ensures DecodeCommand(run[i].toMcu).value.command == run[i].issued[|run[i].answers|]
  {
    hide Invariant, CommandFrame, DecodeCommand;
    assert Next(run[i], actions[i], run[i + 1]);
    RunsKeepCount(run[..i + 1], actions[..i]);
    RespondKeeps(run[i], actions[i].answer, run[i + 1]);
    InvariantCounts(run[i + 1]);
  }

  lemma InvariantCounts(l: Link)
    requires Invariant(l)
    ensures |l.answers| <= |l.issued|
  {
  }

  // ---- one abandoned exchange ----

  lemma ChainLonger(run: seq<Link>, actions: seq<Action>, a: Action, l: Link)
    requires Chain(run, actions) && Next(run[|actions|], a, l)
    ensures Chain(run + [l], actions + [a]) && (run + [l])[0] == run[0] && (run + [l])[|actions| + 1] == l
  {
    hide Next;
    var longer, more := run + [l], actions + [a];
    forall i | 0 <= i < |more|
      ensures Next(longer[i], more[i], longer[i + 1])
    {
      if i < |actions| {
        assert Next(run[i], actions[i], run[i + 1]);
      }
    }
  }

  /** A link whose next command is wholly on its way and whose host is waiting. */
  function Sent(l: Link, c: Command): Link {
    l.(host := Waiting([]), toMcu := l.toMcu + CommandFrame(c), issued := l.issued + [c])
  }

  lemma FrameIsThere(c: Command)
    ensures CommandFrame(c) != []
  {
  }

  lemma SendingIsTwoSteps(run: seq<Link>, actions: seq<Action>, c: Command) returns (longer: seq<Link>, more: seq<Action>)
    requires Chain(run, actions) && run[|actions|].host.Idle? && run[|actions|].outgoing == [] && InRange(c)
    ensures Chain(longer, more) && longer[0] == run[0] && longer[|more|] == Sent(run[|actions|], c)
  {
    hide InRange, CommandFrame;
    FrameIsThere(c);
    var l, f := run[|actions|], CommandFrame(c);
    var begun := l.(host := Waiting([]), outgoing := f, issued := l.issued + [c]);
    ChainLonger(run, actions, Begin(c), begun);
    assert f[..|f|] == f && f[|f|..] == [];
    var sent := begun.(outgoing := [], toMcu := l.toMcu + f);
    assert sent == Sent(l, c);
    ChainLonger(run + [begun], actions + [Begin(c)], Put(|f|), sent);
    longer, more := run + [begun] + [sent], actions + [Begin(c)] + [Put(|f|)];
  }

  /** A waiting host takes its bytes one by one, deciding nothing before the last of them. */
  lemma {:induction false} TakeAll(run: seq<Link>, actions: seq<Action>, got: seq<byte>, n: nat)
    returns (longer: seq<Link>, more: seq<Action>)
    requires Chain(run, actions) && n <= |got|
    requires var l := run[|actions|];
             l.host == Waiting(got[..n]) && l.outgoing == [] && got[n..] <= l.toHost
    requires Receive(got) != Incomplete ==> Used(Receive(got)) == |got| && n < |got|
    ensures Chain(longer, more) && longer[0] == run[0]
    ensures var l := run[|actions|];
            var rest := l.(toHost := l.toHost[|got| - n..]);
            longer[|more|] == if Receive(got) == Incomplete then rest.(host := Waiting(got)) else Taken(rest, got)
    decreases |got| - n
  {
    hide Receive;
    var l := run[|actions|];
    if n == |got| {
      assert got[..n] == got;
      longer, more := run, actions;
    } else {
      assert l.toHost[0] == got[n..][0] == got[n];
      assert got[..n] + [got[n]] == got[..n + 1];
      var m := Taken(l.(toHost := l.toHost[1..]), got[..n + 1]);
      ChainLonger(run, actions, Take, m);
      if n + 1 == |got| {
        assert got[..n + 1] == got;
        longer, more := run + [m], actions + [Take];
      } else {
        UndecidedBefore(got, n + 1);
        assert got[n..][1..] == got[n + 1..];
        longer, more := TakeAll(run + [m], actions + [Take], got, n + 1);
        assert l.toHost[1..][|got| - (n + 1)..] == l.toHost[|got| - n..];
      }
    }
  }

  lemma UndecidedBefore(got: seq<byte>, n: nat)
    requires n < |got| && (Receive(got) != Incomplete ==> Used(Receive(got)) == |got|)
    ensures Receive(got[..n]) == Incomplete
  {
    hide Receive;
    if Receive(got[..n]) != Incomplete {
      DecidedEarly(got[..n], got[n..]);
      assert got[..n] + got[n..] == got;
      UsesWhatIsThere(got[..n]);
      assert false;
    }
  }

  /**
   For any two commands there is a run in which the first exchange is given up, and the second call then decodes the
   first command's answer as its own.
   */
  lemma GivingUpShifts(c: Command, d: Command, a: answer) returns (run: seq<Link>, actions: seq<Action>)
    requires InRange(c) && InRange(d)
    ensures IsRun(run, actions) && !run[|actions|].torn
    ensures var l := run[|actions|];
            l.issued == [c, d] && l.answers == [a] && l.log == [Untouched, Answered(ReplyOf(a))] && l.host.Idle?
  {
    hide CommandFrame, InRange, Receive, ReplyFrame, DecodeCommand, Next, Taken;
    var f := ReplyFrame(a.ack, a.data);
    run, actions := SendingIsTwoSteps([START], [], c);
    var l := run[|actions|];
    assert [] + CommandFrame(c) == CommandFrame(c) && [] + [c] == [c];
    var given := l.(host := Idle, log := [Untouched]);
    UntouchedStep(l, given);
    ChainLonger(run, actions, GiveUp, given);
    var answered := given.(toMcu := [], toHost := f, answers := [a]);
    LateAnswer(given, c, a, answered);
    ChainLonger(run + [given], actions + [GiveUp], Respond(a), answered);
    run, actions := SendingIsTwoSteps(run + [given] + [answered], actions + [GiveUp] + [Respond(a)], d);
    WholeAnswer([], a);
    assert [] + f == f && f[..0] == [] && f[0..] == f && f[|f|..] == [];
    assert [c] + [d] == [c, d];
    run, actions := TakeAll(run, actions, f, 0);
    SecondDecodes(run[|actions|], answered, c, d, a);
  }

  lemma UntouchedStep(l: Link, m: Link)
    requires l.host == Waiting([]) && l.outgoing == [] && l.log == [] && l.residue == []
    requires m == l.(host := Idle, log := [Untouched])
    ensures Next(l, GiveUp, m)
  {
    hide ReplyFrame;
    assert l.log + [Untouched] == [Untouched];
  }

  lemma LateAnswer(l: Link, c: Command, a: answer, m: Link)
    requires l.toMcu == CommandFrame(c) && InRange(c) && l.toHost == [] && l.answers == []
    requires m == l.(toMcu := [], toHost := ReplyFrame(a.ack, a.data), answers := [a])
    ensures Next(l, Respond(a), m)
  {
    hide CommandFrame, InRange, ReplyFrame, DecodeCommand;
    CommandSurvives(c, []);
    assert l.toMcu + [] == l.toMcu && l.toMcu[|l.toMcu|..] == [];
    assert [] + m.toHost == m.toHost && [] + [a] == [a];
  }

  lemma SecondDecodes(m: Link, l: Link, c: Command, d: Command, a: answer)
    requires l.log == [Untouched] && l.issued == [c] && l.answers == [a] && !l.torn
    requires var f := ReplyFrame(a.ack, a.data);
             && Receive(f) == Accepted(|f|, ReplyOf(a)) && l.toHost == f
             && m == Taken(Sent(l, d).(toHost := Sent(l, d).toHost[|f|..]), f)
    ensures m.issued == [c, d] && m.answers == [a] && m.log == [Untouched, Answered(ReplyOf(a))] && m.host.Idle? && !m.torn
  {
    hide CommandFrame, Receive, ReplyFrame;
    assert [c] + [d] == [c, d];
    assert [Untouched] + [Answered(ReplyOf(a))] == [Untouched, Answered(ReplyOf(a))];
  }
}
