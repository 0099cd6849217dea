/**
 The open port as a hostile environment, and the two exact-length transfer loops over it.

 The port decides freely what every system call returns and how much time it takes. What is assumed of it: the clock
 never runs backwards; only finitely many calls complete within one millisecond; signals interrupt writes finitely
 often; poll reports a timeout only after waiting it out; write takes at least one byte of a non-empty request.
 */
module Uart {
  import opened Words

  /** The C int. */
  newtype int32 = x: int | -0x8000_0000 <= x < 0x8000_0000

  const EINTR: int := 4
  const EAGAIN: int := 11
  const ENOTCONN: int := 107
  const ETIMEDOUT: int := 110

  /** A call of poll: the clock sample it was computed from, what it was asked to wait, and which sample opened the read. */
  datatype PollCall = PollCall(sampled: int, wait: int32, entry: nat)

  function NatOf(n: int): nat {
    if n > 0 then n else 0
  }

  /** The errno a poll leaves behind: its own unless a signal broke in; a hang-up counts as a lost connection. */
  function PollError(ready: int, errno: int, pollin: bool): seq<int> {
    if ready < 0 && errno != EINTR then [errno] else if ready == 1 && !pollin then [ENOTCONN] else []
  }

  /** The same for a read, to which an empty buffer is no error and the end of the line is a lost connection. */
  function ReadError(n: int, errno: int): seq<int> {
    if n < 0 && errno != EINTR && errno != EAGAIN then [errno] else if n == 0 then [ENOTCONN] else []
  }

  function WriteError(n: int, errno: int): seq<int> {
    if n < 0 && errno != EINTR then [errno] else []
  }

  class Port {
    /** Milliseconds since some start. */
    var clock: nat
    /** How many calls may still complete before the clock must move. */
    var credit: nat
    /** How many signals may still interrupt a write. */
    var signals: nat
    /** Every byte read so far, and every byte written so far. */
    var received: seq<byte>
    var sent: seq<byte>
    /** Whether the descriptor is still held. */
    var isOpen: bool
    /** What the calls failed with that failed for another reason than a signal or an empty buffer. */
    ghost var errors: seq<int>
    /** Every value the clock was seen at, and every poll made. */
    ghost var samples: seq<int>
    ghost var polls: seq<PollCall>

    constructor ()
      ensures received == [] && sent == [] && samples == [] && polls == [] && errors == [] && isOpen
    {
      var start, calls, interruptions: int := *, *, *;
      clock, credit, signals := NatOf(start), NatOf(calls), NatOf(interruptions);
      received, sent, isOpen := [], [], true;
      samples, polls, errors := [], [], [];
    }

    method Close()
      modifies `isOpen
      ensures !isOpen
    {
      isOpen := false;
    }

    /** Time moved on, or one of the calls the current millisecond allows was used up. */
    twostate predicate Progress()
      reads this
    {
      old(clock) < clock || (old(clock) == clock && credit < old(credit))
    }

    method Elapse()
      modifies `clock, `credit
      ensures Progress()
    {
      var elapsed, calls: int := *, *;
      if credit > 0 && elapsed <= 0 {
        credit := credit - 1;
      } else {
        clock := clock + 1 + NatOf(elapsed);
        credit := NatOf(calls);
      }
    }

    method NowMs() returns (now: int)
      modifies `clock, `credit, `samples
      ensures now == clock >= old(clock) && samples == old(samples) + [now]
      ensures clock == old(clock) ==> credit == old(credit)
    {
      var elapsed, calls: int := *, *;
      if elapsed > 0 {
        clock := clock + elapsed;
        credit := NatOf(calls);
      }
      now := clock;
      samples := samples + [now];
    }

    /** Negative on an error, zero on a timeout, one when the port has something to say: data, or a hang-up. */
    method Poll(wait: int32, ghost entry: nat) returns (ready: int, errno: int, pollin: bool)
      requires samples != []
      modifies `clock, `credit, `polls, `errors
      ensures Progress()
      ensures polls == old(polls) + [PollCall(samples[|samples| - 1], wait, entry)]
      ensures -1 <= ready <= 1
      ensures ready < 0 ==> errno > 0
      ensures ready == 0 ==> clock >= old(clock) + wait as int
      ensures errors == old(errors) + PollError(ready, errno, pollin)
    {
      Elapse();
      polls := polls + [PollCall(samples[|samples| - 1], wait, entry)];
      ready, errno, pollin := *, *, *;
      if ready < 0 {
        ready := -1;
        errno := if errno > 0 then errno else EINTR;
      } else if ready == 0 {
        clock := if wait > 0 then clock + wait as nat else clock;
      } else {
        ready := 1;
      }
      errors := errors + PollError(ready, errno, pollin);
    }

    /** Delivers any number of bytes up to the request, none at the end of the line, or an error. */
    method Read(buf: array<byte>, at: nat, len: nat) returns (n: int, errno: int, ghost got: seq<byte>)
      requires len > 0 && at + len <= buf.Length
      modifies `clock, `credit, `received, `errors, buf
      ensures Progress()
      ensures -1 <= n <= len && |got| == NatOf(n)
      ensures n < 0 ==> errno > 0
      ensures received == old(received) + got
      ensures buf[..] == Overlaid(old(buf[..]), at, got)
      ensures errors == old(errors) + ReadError(n, errno)
    {
      hide Overlaid;
      Elapse();
      n, errno, got := *, *, [];
      OverlaidNothing(buf[..], at);
      if n < 0 {
        n := -1;
        errno := if errno > 0 then errno else EINTR;
      } else {
        n := if n <= len then n else len;
        ghost var before := buf[..];
        var arrived := [];
        for i := 0 to n
          invariant |arrived| == i && buf[..] == Overlaid(before, at, arrived)
          modifies buf
        {
          var next: byte := *;
          OverlaidOne(before, at, arrived, next);
          buf[at + i] := next;
          arrived := arrived + [next];
        }
        received := received + arrived;
        got := arrived;
      }
      errors := errors + ReadError(n, errno);
    }

    /** Takes between one byte and all of a non-empty request, or fails; signals run out. */
    method Write(buf: array<byte>, at: nat, len: nat) returns (n: int, errno: int)
      requires len > 0 && at + len <= buf.Length
      modifies `clock, `credit, `signals, `sent, `errors
      ensures Progress()
      ensures n == -1 || 1 <= n <= len
      ensures n < 0 ==> errno > 0 && sent == old(sent)
      ensures n > 0 ==> sent == old(sent) + buf[at..at + n] && signals == old(signals)
      ensures signals <= old(signals) && (n < 0 && errno == EINTR ==> signals < old(signals))
      ensures errors == old(errors) + WriteError(n, errno)
    {
      Elapse();
      n, errno := *, *;
      if n < 0 && (errno != EINTR || signals > 0) {
        n := -1;
        errno := if errno > 0 then errno else EAGAIN;
        signals := if errno == EINTR then signals - 1 else signals;
      } else {
        n := if 1 <= n <= len then n else len;
        sent := sent + buf[at..at + n];
      }
      errors := errors + WriteError(n, errno);
    }
  }

  /** What no transfer in either direction disturbs about the other. */
  twostate predicate OnlyReads(port: Port)
    reads port
  {
    && port.sent == old(port.sent) && port.signals == old(port.signals) && port.isOpen == old(port.isOpen)
    && old(port.samples) <= port.samples && old(port.polls) <= port.polls
    && old(port.clock) <= port.clock
  }

  twostate predicate OnlyWrites(port: Port)
    reads port
  {
    && port.received == old(port.received) && port.isOpen == old(port.isOpen)
    && port.samples == old(port.samples) && port.polls == old(port.polls)
  }

  /** A poll made for the read that sample `entry` opened, to end at `deadline` sharp. */
  predicate EndsAt(p: PollCall, entry: nat, deadline: int) {
    p.entry == entry && p.wait > 0 && p.sampled + p.wait as int == deadline
  }

  ghost predicate PollsEndAt(polls: seq<PollCall>, from: nat, entry: nat, deadline: int) {
    forall i :: from <= i < |polls| ==> EndsAt(polls[i], entry, deadline)
  }

  lemma OneMorePoll(polls: seq<PollCall>, p: PollCall, from: nat, entry: nat, deadline: int)
    requires PollsEndAt(polls, from, entry, deadline) && EndsAt(p, entry, deadline)
    ensures PollsEndAt(polls + [p], from, entry, deadline)
  {
    hide EndsAt;
  }

  lemma Associates(a: seq<byte>, b: seq<byte>, c: seq<byte>)
    ensures a + b + c == a + (b + c)
  {
  }

  lemma NoPollYet(polls: seq<PollCall>, entry: nat, deadline: int)
    ensures PollsEndAt(polls, |polls|, entry, deadline)
  {
  }

  /**
   Reads exactly `len` bytes, or fails. Whatever the port does, the bytes consumed are those laid into the buffer from
   `at` on, everything else in it is untouched, and success means the full count. A failure is the errno of the call that
   failed, a lost connection, or a timeout that is never early.
   */
  method UartRead(port: Port, buf: array<byte>, at: nat, len: nat, timeoutMs: int32)
    returns (result: int, ghost got: seq<byte>)
    requires at + len <= buf.Length
    modifies port, buf
    ensures OnlyReads(port) && (len > 0 && result >= 0 ==> port.Progress())
    ensures |got| <= len && port.received == old(port.received) + got
    ensures buf[..] == Overlaid(old(buf[..]), at, got)
    ensures if result >= 0 then result == len == |got| && port.errors == old(port.errors) else |got| < len
    ensures |old(port.samples)| < |port.samples|
    ensures var entry := |old(port.samples)|;
            var deadline := port.samples[entry] + timeoutMs as int;
            && old(port.clock) <= port.samples[entry]
            && PollsEndAt(port.polls, |old(port.polls)|, entry, deadline)
            && (result < 0 ==>
                  || port.errors == old(port.errors) + [-result]
                  || (result == -ETIMEDOUT && port.clock >= deadline && port.errors == old(port.errors)))
  {
    hide Overlaid, PollsEndAt;
    var start := port.NowMs();
    var deadline := start + timeoutMs as int;
    ghost var entry, original := |old(port.samples)|, buf[..];
    var totalRead := 0;
    got := [];
    OverlaidNothing(original, at);
    NoPollYet(port.polls, entry, deadline);
    while totalRead < len
      invariant |got| == totalRead <= len
      invariant OnlyReads(port) && old(port.clock) <= start <= port.clock && port.errors == old(port.errors)
      invariant entry < |port.samples| && port.samples[entry] == start
      invariant old(port.clock) == port.clock && totalRead > 0 ==> port.credit < old(port.credit)
      invariant old(port.clock) == port.clock ==> port.credit <= old(port.credit)
      invariant port.received == old(port.received) + got
      invariant buf[..] == Overlaid(original, at, got)
      invariant PollsEndAt(port.polls, |old(port.polls)|, entry, deadline)
      decreases deadline - port.clock, port.credit
    {
      var now := port.NowMs();
      var timeLeft := deadline - now;
      if timeLeft <= 0 {
        return -ETIMEDOUT, got;
      }
      OneMorePoll(port.polls, PollCall(now, timeLeft as int32, entry), |old(port.polls)|, entry, deadline);
      var ready, errno, pollin := port.Poll(timeLeft as int32, entry);
      if ready < 0 {
        if errno == EINTR {
          continue;
        }
        return -errno, got;
      }
      if ready == 0 {
        return -ETIMEDOUT, got;
      }
      if !pollin {
        return -ENOTCONN, got;
      }
      ghost var more;
      var bytesRead, readErrno;
      bytesRead, readErrno, more := port.Read(buf, at + totalRead, len - totalRead);
      OverlaidTwice(original, at, got, more);
      Associates(old(port.received), got, more);
      got := got + more;
      if bytesRead < 0 {
        if readErrno == EINTR || readErrno == EAGAIN {
          continue;
        }
        return -readErrno, got;
      }
      if bytesRead == 0 {
        return -ENOTCONN, got;
      }
      totalRead := totalRead + bytesRead;
    }
    return totalRead, got;
  }

  /** Writes exactly `len` bytes, or fails having put a prefix of them on the wire. */
  method UartWrite(port: Port, buf: array<byte>, len: nat) returns (result: int, ghost total: nat)
    requires len <= buf.Length
    modifies port
    ensures total <= len && port.sent == old(port.sent) + buf[..total]
    ensures if result >= 0 then result == len == total else total < len && port.errors == old(port.errors) + [-result]
    ensures OnlyWrites(port)
    ensures old(port.clock) <= port.clock
    ensures result >= 0 ==> port.errors == old(port.errors)
  {
    var totalWritten := 0;
    total := 0;
    while totalWritten < len
      invariant total == totalWritten <= len
      invariant port.sent == old(port.sent) + buf[..total]
      invariant OnlyWrites(port)
      invariant old(port.clock) <= port.clock && port.errors == old(port.errors)
      decreases len - totalWritten, port.signals
    {
      var bytesWritten, errno := port.Write(buf, totalWritten, len - totalWritten);
      if bytesWritten < 0 {
        if errno == EINTR {
          continue;
        }
        return -errno, total;
      }
      totalWritten := totalWritten + bytesWritten;
      total := totalWritten;
    }
    return totalWritten, total;
  }
}
