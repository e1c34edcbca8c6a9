/** Runs in which stalled handlers use up all that the windows of a counter leave room for: the
    bounds on codes dated by completion are exact. */
module Stalls {
  import opened Common
  import opened WindowCounter
  import opened RateLimit
  import opened Completion

  // ---------------------------------------------------------------- handlers that wait

  /** A string of its own for every number. */
  function Tag(h: nat): (t: string)
    ensures |t| == h
  {
    seq(h, _ => '0')
  }

  /** Request `h` in the name of `key`: for that phone from an address of its own, or from that
      address for a phone of its own. */
  function PhoneOf(key: Key, h: nat): string {
    if key.ByPhone? then key.phone else Tag(h)
  }

  function IpOf(key: Key, h: nat): string {
    if key.ByPhone? then Tag(h) else key.ip
  }

  function OtherKey(key: Key, h: nat): Key {
    if key.ByPhone? then ByIp(Tag(h)) else ByPhone(Tag(h))
  }

  /** Begun, and neither counter touched. */
  predicate Idle(s: Sys, key: Key, h: nat) {
    && h in s.handlers && s.handlers[h] == Handler(PhoneOf(key, h), IpOf(key, h), CountPhone, 0, 0, 0, 0)
    && OtherKey(key, h) !in s.counters
  }

  function Position(key: Key, handler: Handler): nat {
    if key.ByPhone? then handler.p else handler.i
  }

  predicate CountedSince(s: Sys, key: Key, p: nat, early: int) {
    p < |LogOf(s, key)| && early <= LogOf(s, key)[p].t
  }

  /** Counted no earlier than `early`, and about to be granted. */
  predicate Ready(s: Sys, key: Key, h: nat, early: int) {
    && h in s.handlers && s.handlers[h].phone == PhoneOf(key, h) && s.handlers[h].ip == IpOf(key, h)
    && s.handlers[h].stage == Decide
    && s.handlers[h].hourly <= MAX_PER_HOUR && s.handlers[h].ipCount <= MAX_PER_HOUR * 4
    && CountedSince(s, key, Position(key, s.handlers[h]), early)
  }

  ghost predicate Staged(s: Sys, key: Key, lo: nat, hi: nat, n: nat, early: int) {
    && lo <= hi <= n
    && (forall h | lo <= h < hi :: Ready(s, key, h, early))
    && (forall h | hi <= h < n :: Idle(s, key, h))
  }

  /** `used` counts so far in a window that closes at `close`, or none and it would close then. */
  predicate Used(s: Sys, key: Key, used: nat, close: int) {
    var c := CounterOf(s.counters, key).Live(s.now);
    s.now < close && if used == 0 then c == NoKey && close == s.now + WINDOW else c == Count(used, Some(close))
  }

  // ---------------------------------------------------------------- one handler

  lemma RunSnoc(now: int, steps: seq<Step>, step: Step)
    ensures Run(now, steps + [step]) == Next(Run(now, steps), step)
  {
    assert (steps + [step])[..|steps|] == steps;
  }

  lemma CountSteps(now: int, steps: seq<Step>, h: nat) returns (more: seq<Step>)
    requires h in Run(now, steps).handlers
    requires var stage := Run(now, steps).handlers[h].stage; stage == CountPhone || stage == CountIp
    ensures Run(now, more) == CountedBy(Run(now, steps), h, Run(now, steps).handlers[h])
    ensures steps <= more
  {
    var s := Run(now, steps);
    CountAlone(s, h, s.handlers[h]);
    more := steps + [Advance(h)];
    RunSnoc(now, steps, Advance(h));
    if Run(now, more) != CountedBy(s, h, s.handlers[h]) {
      RunSnoc(now, more, Advance(h));
      more := more + [Advance(h)];
    }
  }

  /** Counting one more leaves the other handlers as they are. */
  lemma CountLeaves(s: Sys, key: Key, hi: nat, h: nat, early: int)
    requires Idle(s, key, hi) && h != hi
    ensures var t := CountedTwice(s, hi, s.handlers[hi]);
            (Ready(s, key, h, early) ==> Ready(t, key, h, early)) && (Idle(s, key, h) ==> Idle(t, key, h))
  {
    var t := CountedTwice(s, hi, s.handlers[hi]);
    assert OtherKey(key, h) != OtherKey(key, hi) by { assert |Tag(h)| != |Tag(hi)|; }
    assert LogOf(s, key) <= LogOf(t, key);
  }

  lemma CountReadies(s: Sys, key: Key, hi: nat, early: int, used: nat, close: int)
    requires Idle(s, key, hi) && Used(s, key, used, close) && used < LimitOf(key) && early <= s.now
    ensures var t := CountedTwice(s, hi, s.handlers[hi]);
            Ready(t, key, hi, early) && Used(t, key, used + 1, close) && t.now == s.now && t.grants == s.grants
  {}

  lemma CountOne(now: int, steps: seq<Step>, key: Key, lo: nat, hi: nat, n: nat, early: int, used: nat, close: int)
    returns (more: seq<Step>)
    requires Staged(Run(now, steps), key, lo, hi, n, early) && hi < n && early <= Run(now, steps).now
    requires Used(Run(now, steps), key, used, close) && used < LimitOf(key)
    ensures Staged(Run(now, more), key, lo, hi + 1, n, early) && Used(Run(now, more), key, used + 1, close)
    ensures Run(now, more).now == Run(now, steps).now && Run(now, more).grants == Run(now, steps).grants
  {
    var s := Run(now, steps);
    assert Idle(s, key, hi);
    more := CountSteps(now, steps, hi);
    more := CountSteps(now, more, hi);
    CountReadies(s, key, hi, early, used, close);
    forall h | lo <= h < hi ensures Ready(Run(now, more), key, h, early) { CountLeaves(s, key, hi, h, early); }
    forall h | hi + 1 <= h < n ensures Idle(Run(now, more), key, h) { CountLeaves(s, key, hi, h, early); }
  }

  /** `m` handlers counted in one window. */
  lemma {:induction false} CountMany(now: int, steps: seq<Step>, key: Key, lo: nat, hi: nat, n: nat, early: int,
                                     used: nat, close: int, m: nat)
    returns (more: seq<Step>)
    requires Staged(Run(now, steps), key, lo, hi, n, early) && hi + m <= n && early <= Run(now, steps).now
    requires Used(Run(now, steps), key, used, close) && used + m <= LimitOf(key)
    ensures Staged(Run(now, more), key, lo, hi + m, n, early) && Used(Run(now, more), key, used + m, close)
    ensures Run(now, more).now == Run(now, steps).now && Run(now, more).grants == Run(now, steps).grants
  {
    if m == 0 {
      more := steps;
    } else {
      var fewer := CountMany(now, steps, key, lo, hi, n, early, used, close, m - 1);
      more := CountOne(now, fewer, key, lo, hi + m - 1, n, early, used + m - 1, close);
    }
  }

  lemma Wait(now: int, steps: seq<Step>, key: Key, lo: nat, hi: nat, n: nat, early: int, used: nat, close: int,
             seconds: nat)
    returns (more: seq<Step>)
    requires Staged(Run(now, steps), key, lo, hi, n, early) && Used(Run(now, steps), key, used, close)
    ensures Staged(Run(now, more), key, lo, hi, n, early)
    ensures Run(now, more).now == Run(now, steps).now + seconds && Run(now, more).grants == Run(now, steps).grants
    ensures if used > 0 && Run(now, more).now < close then Used(Run(now, more), key, used, close)
            else Used(Run(now, more), key, 0, Run(now, more).now + WINDOW)
  {
    var s := Run(now, steps);
    more := steps + [Tick(seconds)];
    RunSnoc(now, steps, Tick(seconds));
    forall h | lo <= h < hi ensures Ready(Run(now, more), key, h, early) { assert Ready(s, key, h, early); }
    forall h | hi <= h < n ensures Idle(Run(now, more), key, h) { assert Idle(s, key, h); }
  }

  /** `j` windows, one after the other, each used up. */
  lemma {:induction false} Windows(now: int, steps: seq<Step>, key: Key, lo: nat, hi: nat, n: nat, early: int, j: nat)
    returns (more: seq<Step>)
    requires Staged(Run(now, steps), key, lo, hi, n, early) && early <= Run(now, steps).now
    requires Used(Run(now, steps), key, 0, Run(now, steps).now + WINDOW) && hi + Times(LimitOf(key), j) <= n
    ensures Staged(Run(now, more), key, lo, hi + Times(LimitOf(key), j), n, early)
    ensures Used(Run(now, more), key, 0, Run(now, more).now + WINDOW)
    ensures Run(now, more).now == Run(now, steps).now + j * WINDOW
    ensures Run(now, more).grants == Run(now, steps).grants
  {
    if j == 0 {
      more := steps;
    } else {
      var limit := LimitOf(key);
      var fewer := Windows(now, steps, key, lo, hi, n, early, j - 1);
      var open := Run(now, fewer).now;
      var full := CountMany(now, fewer, key, lo, hi + Times(limit, j - 1), n, early, 0, open + WINDOW, limit);
      more := Wait(now, full, key, lo, hi + Times(limit, j), n, early, limit, open + WINDOW, WINDOW);
    }
  }

  // ---------------------------------------------------------------- granting

  /** Granted in the name of `key` in [from, to), and no later than `stall` seconds after the count. */
  predicate DoneFor(g: Grant, key: Key, stall: int, from: int, to: int) {
    DoneIn(g, key, from, to) && g.done - HitOf(g, key).value.1 <= stall
  }

  ghost predicate AllDone(grants: seq<Grant>, key: Key, stall: int, from: int, to: int) {
    forall k | 0 <= k < |grants| :: DoneFor(grants[k], key, stall, from, to)
  }

  lemma {:induction false} AllCompleted(grants: seq<Grant>, key: Key, stall: int, from: int, to: int)
    requires AllDone(grants, key, stall, from, to)
    ensures Completed(grants, key, from, to) == |grants|
  {
    if grants != [] {
      assert forall k | 0 <= k < |grants| - 1 :: grants[..|grants| - 1][k] == grants[k];
      AllCompleted(grants[..|grants| - 1], key, stall, from, to);
      assert DoneFor(grants[|grants| - 1], key, stall, from, to);
    }
  }

  lemma AllPrompt(grants: seq<Grant>, key: Key, stall: nat, from: int, to: int)
    requires AllDone(grants, key, stall, from, to)
    ensures Prompt(grants, key, stall)
  {
    forall k | 0 <= k < |grants| && HitOf(grants[k], key).Some?
      ensures grants[k].done - HitOf(grants[k], key).value.1 <= stall
    {
      assert DoneFor(grants[k], key, stall, from, to);
    }
  }

  lemma GrantOne(now: int, steps: seq<Step>, key: Key, lo: nat, hi: nat, n: nat, early: int, used: nat, close: int,
                 stall: int, from: int, to: int)
    returns (more: seq<Step>)
    requires Staged(Run(now, steps), key, lo, hi, n, early) && Used(Run(now, steps), key, used, close) && lo < hi
    requires Run(now, steps).now - stall <= early && from <= Run(now, steps).now < to
    requires AllDone(Run(now, steps).grants, key, stall, from, to)
    ensures Staged(Run(now, more), key, lo + 1, hi, n, early) && Used(Run(now, more), key, used, close)
    ensures Run(now, more).now == Run(now, steps).now && |Run(now, more).grants| == |Run(now, steps).grants| + 1
    ensures AllDone(Run(now, more).grants, key, stall, from, to)
  {
    var s := Run(now, steps);
    more := steps + [Advance(lo)];
    RunSnoc(now, steps, Advance(lo));
    assert Ready(s, key, lo, early);
    assert DoneFor(GrantOf(s, s.handlers[lo]), key, stall, from, to);
    assert Run(now, more).grants == s.grants + [GrantOf(s, s.handlers[lo])];
    forall h | lo + 1 <= h < hi ensures Ready(Run(now, more), key, h, early) { assert Ready(s, key, h, early); }
    forall h | hi <= h < n ensures Idle(Run(now, more), key, h) { assert Idle(s, key, h); }
  }

  lemma {:induction false} GrantMany(now: int, steps: seq<Step>, key: Key, lo: nat, hi: nat, n: nat, early: int,
                                     used: nat, close: int, stall: int, from: int, to: int, m: nat)
    returns (more: seq<Step>)
    requires Staged(Run(now, steps), key, lo, hi, n, early) && Used(Run(now, steps), key, used, close) && lo + m <= hi
    requires Run(now, steps).now - stall <= early && from <= Run(now, steps).now < to
    requires AllDone(Run(now, steps).grants, key, stall, from, to)
    ensures Staged(Run(now, more), key, lo + m, hi, n, early) && Used(Run(now, more), key, used, close)
    ensures Run(now, more).now == Run(now, steps).now && |Run(now, more).grants| == |Run(now, steps).grants| + m
    ensures AllDone(Run(now, more).grants, key, stall, from, to)
  {
    if m == 0 {
      more := steps;
    } else {
      var fewer := GrantMany(now, steps, key, lo, hi, n, early, used, close, stall, from, to, m - 1);
      more := GrantOne(now, fewer, key, lo + m - 1, hi, n, early, used, close, stall, from, to);
    }
  }

  // ---------------------------------------------------------------- the schedule

  ghost predicate Begun(s: Sys, key: Key, n: nat) {
    && s.counters == map[] && s.cooldown == map[] && s.grants == []
    && (forall h | h in s.handlers :: h < n)
    && (forall h: nat | h < n :: Idle(s, key, h))
  }

  lemma {:induction false} BeginAll(now: int, key: Key, n: nat) returns (steps: seq<Step>)
    ensures Begun(Run(now, steps), key, n) && Run(now, steps).now == now
    ensures Used(Run(now, steps), key, 0, now + WINDOW)
  {
    if n == 0 {
      steps := [];
    } else {
      var fewer := BeginAll(now, key, n - 1);
      var open := Open(n - 1, PhoneOf(key, n - 1), IpOf(key, n - 1));
      steps := fewer + [open];
      RunSnoc(now, fewer, open);
      forall h: nat | h < n ensures Idle(Run(now, steps), key, h) {
        assert h < n - 1 ==> Idle(Run(now, fewer), key, h);
      }
    }
  }

  /** Counted in the window before the first whole one: all but the first, if that window ends
      `rest > 0` seconds after `early`. */
  lemma Leftover(now: int, key: Key, n: nat, rest: nat) returns (steps: seq<Step>, early: int, used: nat, close: int)
    requires rest < WINDOW && LimitOf(key) <= n
    ensures Run(now, steps).now == early && Run(now, steps).grants == []
    ensures Used(Run(now, steps), key, used, close)
    ensures rest > 0 ==> Staged(Run(now, steps), key, 1, LimitOf(key), n, early) && close == early + rest
    ensures rest > 0 ==> used == LimitOf(key)
    ensures rest == 0 ==> Staged(Run(now, steps), key, 0, 0, n, early) && used == 0
  {
    steps := BeginAll(now, key, n);
    if rest == 0 {
      early, used, close := now, 0, now + WINDOW;
    } else {
      steps := CountMany(now, steps, key, 0, 0, n, now, 0, now + WINDOW, 1);
      steps := Wait(now, steps, key, 0, 1, n, now, 1, now + WINDOW, WINDOW - rest);
      early, used, close := now + WINDOW - rest, LimitOf(key), now + WINDOW;
      steps := CountMany(now, steps, key, 1, 1, n, early, 1, close, LimitOf(key) - 1);
    }
  }

  /** `a` whole windows more, the last of them opening a second before the hour does. */
  lemma WholeWindows(now: int, before: seq<Step>, key: Key, lo: nat, hi: nat, n: nat, early: int, used: nat, close: int,
                     rest: nat, a: nat)
    returns (steps: seq<Step>)
    requires a > 0 && Run(now, before).now == early && Run(now, before).grants == []
    requires Staged(Run(now, before), key, lo, hi, n, early) && Used(Run(now, before), key, used, close)
    requires if used > 0 then close == early + rest else rest == 0
    requires hi + Times(LimitOf(key), a) <= n
    ensures Run(now, steps).now == early + rest + (a - 1) * WINDOW + 1 && Run(now, steps).grants == []
    ensures Staged(Run(now, steps), key, lo, hi + Times(LimitOf(key), a), n, early)
    ensures Used(Run(now, steps), key, LimitOf(key), Run(now, steps).now + WINDOW - 1)
  {
    var limit := LimitOf(key);
    steps := Wait(now, before, key, lo, hi, n, early, used, close, rest);
    steps := Windows(now, steps, key, lo, hi, n, early, a - 1);
    var open := Run(now, steps).now;
    var most := hi + Times(limit, a - 1);
    steps := CountMany(now, steps, key, lo, most, n, early, 0, open + WINDOW, limit);
    steps := Wait(now, steps, key, lo, most + limit, n, early, limit, open + WINDOW, 1);
  }

  /** The hour: grant all that wait, and in its last second count and grant a whole window. */
  lemma GrantHour(now: int, before: seq<Step>, key: Key, lo: nat, hi: nat, n: nat, early: int, stall: nat)
    returns (steps: seq<Step>)
    requires Run(now, before).now == early + stall && Run(now, before).grants == []
    requires Staged(Run(now, before), key, lo, hi, n, early) && hi + LimitOf(key) <= n
    requires Used(Run(now, before), key, LimitOf(key), early + stall + WINDOW - 1)
    ensures AllDone(Run(now, steps).grants, key, stall, early + stall, early + stall + WINDOW)
    ensures |Run(now, steps).grants| == hi - lo + LimitOf(key)
  {
    var limit, from, to := LimitOf(key), early + stall, early + stall + WINDOW;
    var last := to - 1;
    steps := GrantMany(now, before, key, lo, hi, n, early, limit, last, stall, from, to, hi - lo);
    steps := Wait(now, steps, key, hi, hi, n, early, limit, last, WINDOW - 1);
    assert Staged(Run(now, steps), key, hi, hi, n, last);
    steps := GrantLast(now, steps, key, hi, n, last, stall, from, to);
  }

  lemma GrantLast(now: int, before: seq<Step>, key: Key, hi: nat, n: nat, early: int, stall: nat, from: int, to: int)
    returns (steps: seq<Step>)
    requires Staged(Run(now, before), key, hi, hi, n, early) && hi + LimitOf(key) <= n
    requires Used(Run(now, before), key, 0, early + WINDOW) && from <= Run(now, before).now == early < to
    requires AllDone(Run(now, before).grants, key, stall, from, to)
    ensures AllDone(Run(now, steps).grants, key, stall, from, to)
    ensures |Run(now, steps).grants| == |Run(now, before).grants| + LimitOf(key)
  {
    var limit, close := LimitOf(key), early + WINDOW;
    steps := CountMany(now, before, key, hi, hi, n, early, 0, close, limit);
    steps := GrantMany(now, steps, key, hi, hi + limit, n, early, limit, close, stall, from, to, limit);
  }

  /** The bound is attained, for every phone and every address, whatever the stall. */
  lemma Attained(now: int, key: Key, stall: nat) returns (steps: seq<Step>, from: int)
    ensures Prompt(Run(now, steps).grants, key, stall)
    ensures Completed(Run(now, steps).grants, key, from, from + WINDOW) == SpanMax(LimitOf(key), stall + WINDOW)
  {
    var limit := LimitOf(key);
    var a, rest := (stall + WINDOW - 1) / WINDOW, (stall + WINDOW - 1) % WINDOW;
    var lo, hi := if rest > 0 then 1 else 0, if rest > 0 then limit else 0;
    var n := hi + Times(limit, a) + limit;
    var before, early, used, close := Leftover(now, key, n, rest);
    if a > 0 {
      before := WholeWindows(now, before, key, lo, hi, n, early, used, close, rest, a);
    }
    steps := GrantHour(now, before, key, lo, hi + Times(limit, a), n, early, stall);
    from := early + stall;
    AllPrompt(Run(now, steps).grants, key, stall, from, from + WINDOW);
    AllCompleted(Run(now, steps).grants, key, stall, from, from + WINDOW);
  }

  // ---------------------------------------------------------------- exactly

  /** No run in which handlers stall for at most `stall` seconds grants `key` more than `most`
      codes within an hour. */
  ghost predicate AtMost(key: Key, stall: nat, most: int) {
    forall now, steps, from :: HourHolds(now, steps, from, key, stall, most)
  }

  predicate HourHolds(now: int, steps: seq<Step>, from: int, key: Key, stall: nat, most: int) {
    Prompt(Run(now, steps).grants, key, stall) ==>
      Completed(Run(now, steps).grants, key, from, from + WINDOW) <= most
  }

  /** The most codes a phone or address is granted within an hour, by how long handlers stall. */
  lemma MostInAnHour(key: Key, stall: nat, most: int)
    ensures AtMost(key, stall, most) <==> SpanMax(LimitOf(key), stall + WINDOW) <= most
  {
    var worst, hour := Attained(0, key, stall);
    assert AtMost(key, stall, most) ==> HourHolds(0, worst, hour, key, stall, most);
    if SpanMax(LimitOf(key), stall + WINDOW) <= most {
      forall now, steps, from ensures HourHolds(now, steps, from, key, stall, most) {
        if Prompt(Run(now, steps).grants, key, stall) { CompletionBound(now, steps, key, from, WINDOW, stall); }
      }
    }
  }

  /** Nine codes an hour for a phone and thirty-nine for an address, dated by completion: a
      stall of a single second breaks them, and nothing else does. */
  lemma HourlyBoundsExactly(key: Key, stall: nat)
    ensures AtMost(key, stall, 2 * LimitOf(key) - 1) <==> stall == 0
  {
    MostInAnHour(key, stall, 2 * LimitOf(key) - 1);
    SpanOfWindows(LimitOf(key), 1);
    if stall > 0 {
      BeforeMono(LimitOf(key), WINDOW, stall + WINDOW - 1);
    }
  }

  /** Without a limit on stalls there is no bound at all: however many codes, some run grants
      that many to one phone or address within a single second. */
  lemma StallsBreakEveryBound(now: int, key: Key, k: nat) returns (steps: seq<Step>, at: int)
    ensures Completed(Run(now, steps).grants, key, at, at + 1) == k
  {
    var n := Times(LimitOf(key), k);
    TimesGap(1, LimitOf(key), k);
    TimesIsProduct(1, k);
    steps := BeginAll(now, key, n);
    steps := Windows(now, steps, key, 0, 0, n, now, k);
    at := Run(now, steps).now;
    steps := GrantMany(now, steps, key, 0, n, n, now, 0, at + WINDOW, at - now, at, at + 1, k);
    AllCompleted(Run(now, steps).grants, key, at - now, at, at + 1);
  }
}
