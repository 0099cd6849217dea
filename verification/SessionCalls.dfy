/**
 The library calls as sessions: what the contracts of the calls say of each of them is a piece of a session run, so the
 counting of responses applies to the calls of a program.
 */
module SessionCalls {
  import opened Words
  import opened Protocol
  import opened Reception
  import opened Mcuco
  import opened CallLaws
  import opened Session

  /** What a reception that consumed `got` leaves behind. */
  function Ended(l: Link, got: seq<byte>): Link
    requires got <= l.toHost
  {
    var rest := l.(toHost := l.toHost[|got|..]);
    if Receive(got) == Incomplete then Abandoned(rest, got) else Taken(rest, got)
  }

  predicate OnlyResponds(actions: seq<Action>) {
    forall i :: 0 <= i < |actions| ==> actions[i].Respond?
  }

  /**
   One call on an open handle whose write did not fail. Refused locally it changes nothing; otherwise its frame went
   out, the far end answered as many of the commands before it as it pleased, and the bytes read came off the line.
   */
  ghost predicate Turn(l: Link, r: CallRecord, m: Link) {
    && Happened(r) && !WriteFailed(r)
    && if !InRange(r.c) then m == l
       else exists run: seq<Link>, actions: seq<Action> :: Turned(l, r, run, actions, m)
  }

  predicate Turned(l: Link, r: CallRecord, run: seq<Link>, actions: seq<Action>, m: Link) {
    && Chain(run, actions) && OnlyResponds(actions) && run[0] == Sent(l, r.c)
    && r.got <= run[|actions|].toHost && m == Ended(run[|actions|], r.got)
  }

  /** What a call's bytes say of the outcome of its exchange. */
  predicate Tells(o: Outcome, got: seq<byte>) {
    match Receive(got)
    case Accepted(_, reply) => o == Answered(reply)
    case Rejected(_) => o.HalfRead?
    case Incomplete => !o.Answered?
  }

  // ---- one call ----

  lemma ChainsJoin(run: seq<Link>, actions: seq<Action>, run': seq<Link>, actions': seq<Action>)
    requires Chain(run, actions) && Chain(run', actions') && run[|actions|] == run'[0]
    ensures Chain(run + run'[1..], actions + actions')
    ensures (run + run'[1..])[0] == run[0] && (run + run'[1..])[|actions + actions'|] == run'[|actions'|]
  {
    hide Next;
    var longer, more := run + run'[1..], actions + actions';
    forall i | 0 <= i < |more|
      ensures Next(longer[i], more[i], longer[i + 1])
    {
      if i < |actions| {
        assert Next(run[i], actions[i], run[i + 1]);
      } else {
        var j := i - |actions|;
        assert longer[i] == run'[j] && longer[i + 1] == run'[j + 1];
        assert Next(run'[j], actions'[j], run'[j + 1]);
      }
    }
  }

  /** While the far end answers, the host and its record stay as they are. */
  lemma {:induction false} RespondingKeepsHost(run: seq<Link>, actions: seq<Action>)
    requires Chain(run, actions) && OnlyResponds(actions)
    ensures var l, m := run[0], run[|actions|];
            m.host == l.host && m.outgoing == l.outgoing && m.issued == l.issued && m.log == l.log
    decreases |actions|
  {
    hide DecodeCommand, ReplyFrame;
    if actions != [] {
      var last := |actions| - 1;
      assert Next(run[last], actions[last], run[last + 1]) && actions[last].Respond?;
      RespondingKeepsHost(run[..last + 1], actions[..last]);
    }
  }

  /** What one call adds to a run: it finishes exactly one exchange, unless it was refused locally. */
  predicate Added(l: Link, r: CallRecord, m: Link) {
    && m.host.Idle? && m.outgoing == []
    && if !InRange(r.c) then m.issued == l.issued && m.log == l.log
       else m.issued == l.issued + [r.c] && |m.log| == |l.log| + 1 && m.log[..|l.log|] == l.log && Tells(m.log[|l.log|], r.got)
  }

  lemma EndedAdds(l: Link, got: seq<byte>)
    requires got <= l.toHost && l.outgoing == []
    ensures var m := Ended(l, got);
            && m.host.Idle? && m.outgoing == [] && m.issued == l.issued
            && |m.log| == |l.log| + 1 && m.log[..|l.log|] == l.log && Tells(m.log[|l.log|], got)
  {
    hide Receive, ReplyFrame;
  }

  /** Every call extends a session run by whole steps of the session. */
  lemma TurnIsRun(run: seq<Link>, actions: seq<Action>, r: CallRecord, m: Link) returns (longer: seq<Link>, more: seq<Action>)
    requires Chain(run, actions) && run[|actions|].host.Idle? && run[|actions|].outgoing == []
    requires Turn(run[|actions|], r, m)
    ensures Chain(longer, more) && longer[0] == run[0] && longer[|more|] == m
    ensures Added(run[|actions|], r, m)
  {
    hide InRange, CommandFrame, Receive, Abandoned, Next;
    var l := run[|actions|];
    longer, more := run, actions;
    if InRange(r.c) {
      var far: seq<Link>, heard: seq<Action> :| Turned(l, r, far, heard, m);
      longer, more := SendingIsTwoSteps(run, actions, r.c);
      ChainsJoin(longer, more, far, heard);
      longer, more := longer + far[1..], more + heard;
      RespondingKeepsHost(far, heard);
      var mid := far[|heard|];
      EndedAdds(mid, r.got);
      DecidedByAll(r);
      longer, more := TakeAll(longer, more, r.got, 0);
      if Receive(r.got) == Incomplete {
        var waiting := mid.(toHost := mid.toHost[|r.got|..], host := Waiting(r.got));
        GivingUpForgets(waiting, mid.(toHost := mid.toHost[|r.got|..]), r.got);
        ChainLonger(longer, more, GiveUp, m);
        longer, more := longer + [m], more + [GiveUp];
      }
    }
  }

  lemma DecidedByAll(r: CallRecord)
    requires Happened(r) && InRange(r.c) && !WriteFailed(r)
    ensures Receive(r.got) != Incomplete ==> Used(Receive(r.got)) == |r.got| && 0 < |r.got|
  {
    hide InRange, CommandFrame;
  }

  lemma GivingUpForgets(waiting: Link, l: Link, got: seq<byte>)
    requires waiting == l.(host := Waiting(got)) && l.outgoing == []
    ensures Next(waiting, GiveUp, Abandoned(l, got))
  {
    hide ReplyFrame;
  }

  // ---- a program's calls ----

  /** The calls of a program, from a fresh link on. */
  ghost predicate Turns(links: seq<Link>, calls: seq<CallRecord>) {
    && |links| == |calls| + 1 && links[0] == START
    && forall i :: 0 <= i < |calls| ==> Turn(links[i], calls[i], links[i + 1])
  }

  predicate AllAccepted(calls: seq<CallRecord>) {
    forall i :: 0 <= i < |calls| && InRange(calls[i].c) ==> Receive(calls[i].got).Accepted?
  }

  lemma {:induction false} AcceptedSnoc(calls: seq<CallRecord>, r: CallRecord)
    ensures LocallyAccepted(calls + [r]) == LocallyAccepted(calls) + (if InRange(r.c) then [r.c] else [])
  {
    hide InRange;
    if calls == [] {
      assert calls + [r] == [r] && [r][1..] == [];
    } else {
      assert (calls + [r])[1..] == calls[1..] + [r];
      AcceptedSnoc(calls[1..], r);
    }
  }

  /**
   The calls of a program are a run of the session: it begins exactly the commands that were not refused locally, in
   order, finishes each, and logs for the last one what its bytes say.
   */
  lemma {:induction false} CallsAreARun(links: seq<Link>, calls: seq<CallRecord>) returns (run: seq<Link>, actions: seq<Action>)
    requires Turns(links, calls)
    ensures IsRun(run, actions) && run[|actions|] == links[|calls|]
    ensures var l := links[|calls|];
            && l.host.Idle? && l.outgoing == [] && |l.log| == |l.issued| && l.issued == LocallyAccepted(calls)
            && (AllAccepted(calls) ==> AllAnswered(l.log))
            && (calls != [] && InRange(calls[|calls| - 1].c) ==>
                  l.log != [] && Tells(l.log[|l.log| - 1], calls[|calls| - 1].got))
    decreases |calls|
  {
    hide InRange, Receive, Turn, Next;
    if calls == [] {
      run, actions := [START], [];
    } else {
      var last := |calls| - 1;
      assert calls == calls[..last] + [calls[last]];
      AcceptedSnoc(calls[..last], calls[last]);
      assert Turn(links[last], calls[last], links[last + 1]);
      run, actions := CallsAreARun(links[..last + 1], calls[..last]);
      run, actions := TurnIsRun(run, actions, calls[last], links[last + 1]);
      if AllAccepted(calls) {
        AcceptedBefore(calls, last);
        StillAnswered(links[last], calls[last], links[last + 1]);
      }
    }
  }

  lemma AcceptedBefore(calls: seq<CallRecord>, last: nat)
    requires AllAccepted(calls) && last < |calls|
    ensures AllAccepted(calls[..last]) && (InRange(calls[last].c) ==> Receive(calls[last].got).Accepted?)
  {
    hide InRange, Receive;
  }

  lemma StillAnswered(l: Link, r: CallRecord, m: Link)
    requires Added(l, r, m) && AllAnswered(l.log) && (InRange(r.c) ==> Receive(r.got).Accepted?)
    ensures AllAnswered(m.log)
  {
    hide InRange, Receive;
    forall k | 0 <= k < |m.log|
      ensures m.log[k].Answered?
    {
      if k < |l.log| {
        assert m.log[k] == m.log[..|l.log|][k] == l.log[k];
      }
    }
  }

  /**
   A call that decoded a response, after any number of calls of any outcome, judged the answer as many commands back as
   calls were given up before their answer began to arrive.
   */
  lemma CallJudgesLaggedAnswer(links: seq<Link>, calls: seq<CallRecord>, r: CallRecord)
    requires Turns(links, calls) && calls != [] && r == calls[|calls| - 1]
    requires InRange(r.c) && Receive(r.got).Accepted? && !links[|calls|].torn
    ensures var l, n := links[|calls|], |LocallyAccepted(calls)| - 1;
            && 0 <= n < |l.log| == |l.issued| && l.issued[n] == r.c
            && var lag := Lag(l.log[..n]);
               lag <= n && n - lag < |l.answers| && r.status == Judge(r.e, ReplyOf(l.answers[n - lag]))
  {
    hide InRange, Receive, Turn, LocallyAccepted, Judge;
    var run, actions := CallsAreARun(links, calls);
    var l := links[|calls|];
    RepliesLag(run, actions, |l.log| - 1);
    LastIsLast(calls);
    assert Turn(links[|calls| - 1], r, links[|calls|]);
    JudgesItsReply(links[|calls| - 1], r, l);
  }

  lemma LastIsLast(calls: seq<CallRecord>)
    requires calls != [] && InRange(calls[|calls| - 1].c)
    ensures LocallyAccepted(calls) != []
    ensures LocallyAccepted(calls)[|LocallyAccepted(calls)| - 1] == calls[|calls| - 1].c
  {
    hide InRange;
    var last := |calls| - 1;
    assert calls == calls[..last] + [calls[last]];
    AcceptedSnoc(calls[..last], calls[last]);
  }

  lemma JudgesItsReply(l: Link, r: CallRecord, m: Link)
    requires Turn(l, r, m) && InRange(r.c) && Receive(r.got).Accepted?
    ensures r.status == Judge(r.e, Receive(r.got).reply)
  {
    hide InRange, Receive, CommandFrame, Judge;
  }

  /** If every call so far decoded a response, the last one judged the answer to its own command, and nothing is left over. */
  lemma CallJudgesOwnAnswer(links: seq<Link>, calls: seq<CallRecord>, r: CallRecord)
    requires Turns(links, calls) && calls != [] && r == calls[|calls| - 1]
    requires InRange(r.c) && AllAccepted(calls)
    ensures var l, n := links[|calls|], |LocallyAccepted(calls)| - 1;
            && 0 <= n && |l.answers| == |l.issued| == n + 1 && l.issued[n] == r.c
            && r.status == Judge(r.e, ReplyOf(l.answers[n]))
            && l.toHost == [] && l.toMcu == []
  {
    hide InRange, Receive, Turn, LocallyAccepted, Judge;
    var run, actions := CallsAreARun(links, calls);
    RepliesPair(run, actions);
    LastIsLast(calls);
    AcceptedBefore(calls, |calls| - 1);
    assert Turn(links[|calls| - 1], r, links[|calls|]);
    JudgesItsReply(links[|calls| - 1], r, links[|calls|]);
  }
}
