/** The sliding-window message limiter of node/p2p.py. */
module RateLimiter {

  /** Keep the times after a cutoff. */
  function Recent(times: seq<real>, cutoff: real): seq<real>
  {
    if times == [] then []
    else
      var front, last := times[..|times| - 1], times[|times| - 1];
      if last > cutoff then Recent(front, cutoff) + [last] else Recent(front, cutoff)
  }

  function TimesOf(counts: map<string, seq<real>>, peer: string): seq<real>
  {
    if peer in counts then counts[peer] else []
  }

  /** One `check`: drop what left the window, refuse if it is full, otherwise record the call. */
  function CheckStep(rate: int, window: real, counts: map<string, seq<real>>, peer: string, now: real)
    : (map<string, seq<real>>, bool)
  {
    var kept := Recent(TimesOf(counts, peer), now - window);
    if |kept| >= rate then (counts[peer := kept], false) else (counts[peer := kept + [now]], true)
  }

  class Limiter {
    const rate: int
    const window: real
    var counts: map<string, seq<real>>

    constructor (rate: int, window: real)
      ensures this.rate == rate && this.window == window && counts == map[]
    {
      this.rate, this.window, counts := rate, window, map[];
    }

    /** `check`. */
    method Check(peer: string, now: real) returns (ok: bool)
      modifies this
      ensures (counts, ok) == CheckStep(rate, window, old(counts), peer, now)
    {
      var times := TimesOf(counts, peer);
      var cutoff := now - window;
      var kept: seq<real> := [];
      for i := 0 to |times|
        invariant kept == Recent(times[..i], cutoff)
      {
        assert times[..i + 1][..i] == times[..i];
        if times[i] > cutoff { kept := kept + [times[i]]; }
      }
      assert times[..|times|] == times;
      counts := counts[peer := kept];
      if |kept| >= rate { return false; }
      assert old(counts)[peer := kept][peer := kept + [now]] == old(counts)[peer := kept + [now]];
      counts := counts[peer := counts[peer] + [now]];
      ok := true;
    }

    /** `cleanup`: forget a peer. */
    method Cleanup(peer: string)
      modifies this
      ensures counts == old(counts) - {peer}
    {
      counts := counts - {peer};
    }
  }

  // ----- whole histories -----

  datatype Call = Call(peer: string, now: real)

  function Counts(rate: int, window: real, calls: seq<Call>): map<string, seq<real>>
  {
    if calls == [] then map[]
    else
      var last := calls[|calls| - 1];
      CheckStep(rate, window, Counts(rate, window, calls[..|calls| - 1]), last.peer, last.now).0
  }

  /** Was the last call let through? */
  function Passes(rate: int, window: real, before: seq<Call>, c: Call): bool
  {
    CheckStep(rate, window, Counts(rate, window, before), c.peer, c.now).1
  }

  /** The times of the calls of a peer that were let through. */
  function Accepted(rate: int, window: real, calls: seq<Call>, peer: string): seq<real>
  {
    if calls == [] then []
    else
      var front, last := calls[..|calls| - 1], calls[|calls| - 1];
      var log := Accepted(rate, window, front, peer);
      if last.peer == peer && Passes(rate, window, front, last) then log + [last.now] else log
  }

  predicate InOrder(calls: seq<Call>)
  {
    forall i, j :: 0 <= i < j < |calls| ==> calls[i].now <= calls[j].now
  }

  lemma RecentSnoc(times: seq<real>, t: real, cutoff: real)
    ensures Recent(times + [t], cutoff) == if t > cutoff then Recent(times, cutoff) + [t] else Recent(times, cutoff)
  {
    assert (times + [t])[..|times|] == times;
  }

  lemma {:induction false} RecentTwice(times: seq<real>, cutoff: real, later: real)
    requires cutoff <= later
    ensures Recent(Recent(times, cutoff), later) == Recent(times, later)
  {
    if times != [] {
      var front, t := times[..|times| - 1], times[|times| - 1];
      RecentTwice(front, cutoff, later);
      if t > cutoff { RecentSnoc(Recent(front, cutoff), t, later); }
    }
  }

  lemma InOrderFront(before: seq<Call>, c: Call)
    requires InOrder(before + [c])
    ensures InOrder(before) && forall i :: 0 <= i < |before| ==> before[i].now <= c.now
  {
    var all := before + [c];
    forall i | 0 <= i < |before| ensures before[i].now <= c.now {
      assert all[i].now <= all[|before|].now;
    }
    forall i, j | 0 <= i < j < |before| ensures before[i].now <= before[j].now {
      assert all[i].now <= all[j].now;
    }
  }

  lemma CountsSnoc(rate: int, window: real, front: seq<Call>, last: Call, peer: string)
    ensures var kept := Recent(TimesOf(Counts(rate, window, front), peer), last.now - window);
            TimesOf(Counts(rate, window, front + [last]), peer) ==
            if last.peer != peer then TimesOf(Counts(rate, window, front), peer)
            else if Passes(rate, window, front, last) then kept + [last.now] else kept
    ensures Accepted(rate, window, front + [last], peer) ==
            if last.peer == peer && Passes(rate, window, front, last)
            then Accepted(rate, window, front, peer) + [last.now] else Accepted(rate, window, front, peer)
  {
    assert (front + [last])[..|front|] == front;
    hide Recent;
  }

  predicate Bounded(calls: seq<Call>, window: real, cutoff: real)
  {
    forall i :: 0 <= i < |calls| ==> calls[i].now - window <= cutoff
  }

  lemma FrontBounded(front: seq<Call>, last: Call, window: real, cutoff: real)
    requires InOrder(front + [last]) && Bounded(front + [last], window, cutoff)
    ensures InOrder(front) && Bounded(front, window, cutoff) && last.now - window <= cutoff
  {
    InOrderFront(front, last);
    hide InOrder;
    assert (front + [last])[|front|] == last;
    forall i | 0 <= i < |front| ensures front[i].now - window <= cutoff { assert (front + [last])[i] == front[i]; }
  }

  lemma MemoryStep(times: seq<real>, log: seq<real>, now: real, dropped: real, cutoff: real)
    requires Recent(times, cutoff) == Recent(log, cutoff) && dropped <= cutoff
    ensures Recent(Recent(times, dropped), cutoff) == Recent(log, cutoff)
    ensures Recent(Recent(times, dropped) + [now], cutoff) == Recent(log + [now], cutoff)
  {
    RecentTwice(times, dropped, cutoff);
    RecentSnoc(Recent(times, dropped), now, cutoff);
    RecentSnoc(log, now, cutoff);
  }

  lemma MemorySnoc(rate: int, window: real, front: seq<Call>, last: Call, peer: string, cutoff: real)
    requires Recent(TimesOf(Counts(rate, window, front), peer), cutoff)
             == Recent(Accepted(rate, window, front, peer), cutoff)
    requires last.now - window <= cutoff
    ensures Recent(TimesOf(Counts(rate, window, front + [last]), peer), cutoff)
            == Recent(Accepted(rate, window, front + [last], peer), cutoff)
  {
    hide *;
    CountsSnoc(rate, window, front, last, peer);
    var times := TimesOf(Counts(rate, window, front), peer);
    MemoryStep(times, Accepted(rate, window, front, peer), last.now, last.now - window, cutoff);
  }

  /** What a peer's list still remembers is all that matters of its accepted calls. */
  lemma {:induction false} MemoryIsEnough(rate: int, window: real, calls: seq<Call>, peer: string, cutoff: real)
    requires InOrder(calls) && Bounded(calls, window, cutoff)
    ensures Recent(TimesOf(Counts(rate, window, calls), peer), cutoff)
            == Recent(Accepted(rate, window, calls, peer), cutoff)
    decreases |calls|
  {
    if calls != [] {
      var front, last := calls[..|calls| - 1], calls[|calls| - 1];
      hide *;
      assert calls == front + [last];
      FrontBounded(front, last, window, cutoff);
      MemoryIsEnough(rate, window, front, peer, cutoff);
      MemorySnoc(rate, window, front, last, peer, cutoff);
    }
  }

  lemma PassesByMemory(rate: int, window: real, before: seq<Call>, c: Call)
    ensures Passes(rate, window, before, c) <==>
            |Recent(TimesOf(Counts(rate, window, before), c.peer), c.now - window)| < rate
  {
    hide Recent, TimesOf, Counts;
  }

  lemma EarlierBounded(before: seq<Call>, c: Call, window: real)
    requires InOrder(before + [c])
    ensures InOrder(before) && Bounded(before, window, c.now - window)
  {
    InOrderFront(before, c);
  }

  /** The places of the calls made after a time. */
  function After(times: seq<real>, cutoff: real): set<nat>
  {
    set i: nat | i < |times| && times[i] > cutoff
  }

  lemma {:induction false} RecentCount(times: seq<real>, cutoff: real)
    ensures |Recent(times, cutoff)| == |After(times, cutoff)|
  {
    if times != [] {
      var n := |times| - 1;
      RecentCount(times[..n], cutoff);
      assert After(times, cutoff) == After(times[..n], cutoff) + if times[n] > cutoff then {n} else {};
    }
  }

  /** A call passes exactly when fewer than `rate` accepted calls of that peer lie in the window behind it. */
  lemma PassesIff(rate: int, window: real, before: seq<Call>, c: Call)
    requires InOrder(before + [c])
    ensures Passes(rate, window, before, c) <==>
            |Recent(Accepted(rate, window, before, c.peer), c.now - window)| < rate
    ensures Passes(rate, window, before, c) <==>
            |After(Accepted(rate, window, before, c.peer), c.now - window)| < rate
  {
    hide *;
    RecentCount(Accepted(rate, window, before, c.peer), c.now - window);
    EarlierBounded(before, c, window);
    MemoryIsEnough(rate, window, before, c.peer, c.now - window);
    PassesByMemory(rate, window, before, c);
  }

  /** How many times lie in the half-open interval from a, of the given length. */
  function CountIn(times: seq<real>, a: real, length: real): nat
  {
    if times == [] then 0
    else CountIn(times[..|times| - 1], a, length)
         + if a <= times[|times| - 1] < a + length then 1 else 0
  }

  lemma {:induction false} CountAtMostRecent(times: seq<real>, a: real, length: real, cutoff: real)
    requires cutoff < a
    ensures CountIn(times, a, length) <= |Recent(times, cutoff)|
  {
    if times != [] { CountAtMostRecent(times[..|times| - 1], a, length, cutoff); }
  }

  /** Whatever the calls, no interval of one window length holds more than `rate` accepted calls of a peer. */
  lemma {:induction false} RateBound(rate: nat, window: real, calls: seq<Call>, peer: string, a: real)
    requires InOrder(calls)
    ensures CountIn(Accepted(rate, window, calls, peer), a, window) <= rate
    decreases |calls|
  {
    if calls == [] {
    } else {
      var front, last := calls[..|calls| - 1], calls[|calls| - 1];
      hide *;
      assert calls == front + [last];
      EarlierBounded(front, last, window);
      RateBound(rate, window, front, peer, a);
      RateStep(rate, window, front, last, peer, a);
    }
  }

  lemma RateStep(rate: nat, window: real, front: seq<Call>, last: Call, peer: string, a: real)
    requires InOrder(front + [last]) && CountIn(Accepted(rate, window, front, peer), a, window) <= rate
    ensures CountIn(Accepted(rate, window, front + [last], peer), a, window) <= rate
  {
    hide *;
    var log := Accepted(rate, window, front, peer);
    CountsSnoc(rate, window, front, last, peer);
    PassesIff(rate, window, front, last);
    CountInSnoc(log, last.now, a, window);
    if a <= last.now < a + window { CountAtMostRecent(log, a, window, last.now - window); }
  }

  lemma CountInSnoc(times: seq<real>, t: real, a: real, length: real)
    ensures CountIn(times + [t], a, length) == CountIn(times, a, length) + if a <= t < a + length then 1 else 0
  {
    assert (times + [t])[..|times|] == times;
  }
}
