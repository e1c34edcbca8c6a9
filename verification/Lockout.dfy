/** Phones and addresses refused for ever: a counter whose EXPIRE was never run. */
module Lockout {
  import opened Common
  import opened WindowCounter
  import opened RateLimit
  import opened Stalls

  predicate Arms(handler: Handler, key: Key) {
    (handler.stage == ArmPhone && ByPhone(handler.phone) == key) || (handler.stage == ArmIp && ByIp(handler.ip) == key)
  }

  /** The counter is at its limit, does not expire, and no handler is about to let it expire. */
  ghost predicate Locked(s: Sys, key: Key) {
    && CounterOf(s.counters, key).Count? && CounterOf(s.counters, key).expiry.None?
    && LimitOf(key) <= CounterOf(s.counters, key).n
    && forall h | h in s.handlers :: !Arms(s.handlers[h], key)
  }

  /** Every INCR of the key from position `from` on went beyond the limit. */
  ghost predicate Beyond(s: Sys, key: Key, from: nat) {
    from <= |LogOf(s, key)| && forall p | from <= p < |LogOf(s, key)| :: LimitOf(key) < LogOf(s, key)[p].n
  }

  lemma CallKeepsBeyond(s: Sys, h: nat, key: Key, from: nat)
    requires Locked(s, key) && Beyond(s, key, from) && h in s.handlers
    ensures Beyond(Next(s, Advance(h)), key, from)
  {}

  lemma CallKeepsLocked(s: Sys, h: nat, key: Key)
    requires Locked(s, key) && h in s.handlers
    ensures Locked(Next(s, Advance(h)), key)
  {
    var t := Next(s, Advance(h));
    forall g | g in t.handlers ensures !Arms(t.handlers[g], key) {
      assert g in s.handlers && !Arms(s.handlers[g], key);
    }
  }

  lemma StepKeepsLocked(s: Sys, step: Step, key: Key, from: nat)
    requires Locked(s, key) && Beyond(s, key, from)
    ensures Locked(Next(s, step), key) && Beyond(Next(s, step), key, from)
  {
    if step.Advance? && step.h in s.handlers {
      CallKeepsLocked(s, step.h, key);
      CallKeepsBeyond(s, step.h, key, from);
    }
  }

  lemma {:induction false} StaysLocked(now: int, steps: seq<Step>, more: seq<Step>, key: Key)
    requires Locked(Run(now, steps), key)
    ensures Locked(Run(now, steps + more), key)
    ensures Beyond(Run(now, steps + more), key, |LogOf(Run(now, steps), key)|)
  {
    if more == [] {
      assert steps + more == steps;
    } else {
      var front := more[..|more| - 1];
      StaysLocked(now, steps, front, key);
      assert (steps + more)[..|steps + more| - 1] == steps + front;
      StepKeepsLocked(Run(now, steps + front), more[|more| - 1], key, |LogOf(Run(now, steps), key)|);
    }
  }

  predicate CountedFrom(g: Grant, key: Key, from: nat) {
    HitOf(g, key).Some? && from <= HitOf(g, key).value.0
  }

  ghost predicate GrantsFrom(s: Sys, key: Key, from: nat) {
    exists k :: 0 <= k < |s.grants| && CountedFrom(s.grants[k], key, from)
  }

  /** A continuation of the run that grants `key` a code counted only then. */
  ghost predicate Serves(now: int, steps: seq<Step>, longer: seq<Step>, key: Key) {
    steps <= longer && GrantsFrom(Run(now, longer), key, |LogOf(Run(now, steps), key)|)
  }

  lemma LockedIsNotServed(now: int, steps: seq<Step>, longer: seq<Step>, key: Key)
    requires Locked(Run(now, steps), key)
    ensures !Serves(now, steps, longer, key)
  {
    if steps <= longer {
      var t := Run(now, longer);
      assert longer == steps + longer[|steps|..];
      StaysLocked(now, steps, longer[|steps|..], key);
      RunKeepsInv(now, longer);
      forall k | 0 <= k < |t.grants| ensures !CountedFrom(t.grants[k], key, |LogOf(Run(now, steps), key)|) {
        assert GrantOk(t, t.grants[k]);
      }
    }
  }

  // ---------------------------------------------------------------- otherwise a way out

  lemma {:induction false} Above(s: set<nat>) returns (n: nat)
    ensures forall k | k in s :: k < n
    decreases |s|
  {
    if s == {} {
      n := 0;
    } else {
      var k := AnElement(s);
      var m := Above(s - {k});
      n := if m <= k then k + 1 else m;
      assert forall j | j in s :: j == k || j in s - {k};
    }
  }

  function Length(key: Key): nat {
    if key.ByPhone? then |key.phone| else |key.ip|
  }

  /** A number no handler has and whose tag names no counter. */
  lemma Unused(s: Sys, key: Key) returns (h: nat)
    ensures h !in s.handlers && OtherKey(key, h) !in s.counters
  {
    var lengths := set k | k in s.counters :: Length(k);
    h := Above(s.handlers.Keys + lengths);
    assert Length(OtherKey(key, h)) == h;
  }

  /** The next INCR stays within the limit. */
  predicate HasRoom(s: Sys, key: Key) {
    CounterOf(s.counters, key).Incr(s.now).n <= LimitOf(key)
  }

  /** A request of its own, once the phone is no longer cooling. */
  lemma Begin(now: int, steps: seq<Step>, key: Key) returns (longer: seq<Step>, h: nat)
    requires HasRoom(Run(now, steps), key)
    ensures steps <= longer && Idle(Run(now, longer), key, h) && HasRoom(Run(now, longer), key)
    ensures LogOf(Run(now, longer), key) == LogOf(Run(now, steps), key)
  {
    var s := Run(now, steps);
    h := Unused(s, key);
    var phone, ip := PhoneOf(key, h), IpOf(key, h);
    var wait: nat := if Cooling(s.cooldown, phone, s.now) then s.cooldown[phone] - s.now else 0;
    RunSnoc(now, steps, Tick(wait));
    var waited := steps + [Tick(wait)];
    RunSnoc(now, waited, Open(h, phone, ip));
    longer := waited + [Open(h, phone, ip)];
  }

  lemma CountAndGrant(s: Sys, key: Key, h: nat)
    requires Idle(s, key, h) && HasRoom(s, key)
    ensures GrantsFrom(Next(CountedTwice(s, h, s.handlers[h]), Advance(h)), key, |LogOf(s, key)|)
  {
    var t := CountedTwice(s, h, s.handlers[h]);
    CountedTwiceIs(s, h, s.handlers[h]);
    var u := Next(t, Advance(h));
    assert u.grants == t.grants + [GrantOf(t, t.handlers[h])];
    assert CountedFrom(u.grants[|t.grants|], key, |LogOf(s, key)|);
  }

  lemma RoomServes(now: int, steps: seq<Step>, key: Key) returns (longer: seq<Step>)
    requires HasRoom(Run(now, steps), key)
    ensures steps <= longer && GrantsFrom(Run(now, longer), key, |LogOf(Run(now, steps), key)|)
  {
    var begun, h := Begin(now, steps, key);
    var s := Run(now, begun);
    var once := CountSteps(now, begun, h);
    var twice := CountSteps(now, once, h);
    RunSnoc(now, twice, Advance(h));
    longer := twice + [Advance(h)];
    CountAndGrant(s, key, h);
  }

  /** The counter has a TTL: wait for it to run out. */
  lemma ExpiryServes(now: int, steps: seq<Step>, key: Key) returns (longer: seq<Step>)
    requires CounterOf(Run(now, steps).counters, key).Count? && CounterOf(Run(now, steps).counters, key).expiry.Some?
    ensures steps <= longer && GrantsFrom(Run(now, longer), key, |LogOf(Run(now, steps), key)|)
  {
    var s := Run(now, steps);
    var expiry := CounterOf(s.counters, key).expiry.value;
    var wait: nat := if s.now < expiry then expiry - s.now else 0;
    RunSnoc(now, steps, Tick(wait));
    longer := RoomServes(now, steps + [Tick(wait)], key);
  }

  /** A handler is about to set the TTL: let it. */
  lemma ArmServes(now: int, steps: seq<Step>, key: Key, h: nat) returns (longer: seq<Step>)
    requires h in Run(now, steps).handlers && Arms(Run(now, steps).handlers[h], key)
    requires CounterOf(Run(now, steps).counters, key).Count? && CounterOf(Run(now, steps).counters, key).expiry.None?
    ensures steps <= longer && GrantsFrom(Run(now, longer), key, |LogOf(Run(now, steps), key)|)
  {
    RunSnoc(now, steps, Advance(h));
    longer := ExpiryServes(now, steps + [Advance(h)], key);
  }

  lemma UnlockedIsServed(now: int, steps: seq<Step>, key: Key) returns (longer: seq<Step>)
    requires !Locked(Run(now, steps), key)
    ensures Serves(now, steps, longer, key)
  {
    var s := Run(now, steps);
    var c := CounterOf(s.counters, key);
    if c.NoKey? || (c.expiry.None? && c.n < LimitOf(key)) {
      longer := RoomServes(now, steps, key);
    } else if c.expiry.Some? {
      longer := ExpiryServes(now, steps, key);
    } else {
      var h :| h in s.handlers && Arms(s.handlers[h], key);
      longer := ArmServes(now, steps, key, h);
    }
  }

  /** After any run, no request counted from then on is ever granted to the phone or address,
      whatever happens, if and only if its counter has reached the limit without a TTL and no
      handler is about to set one. */
  lemma RefusedForEverExactly(now: int, steps: seq<Step>, key: Key)
    ensures (forall longer :: !Serves(now, steps, longer, key)) <==> Locked(Run(now, steps), key)
  {
    if Locked(Run(now, steps), key) {
      forall longer ensures !Serves(now, steps, longer, key) { LockedIsNotServed(now, steps, longer, key); }
    } else {
      var longer := UnlockedIsServed(now, steps, key);
    }
  }

  // ---------------------------------------------------------------- how it comes about

  /** `used` counts without a TTL, the other handlers still idle, and none about to set one. */
  ghost predicate Unarmed(s: Sys, key: Key, used: nat, n: nat) {
    && CounterOf(s.counters, key) == Count(used, None)
    && (forall h | used <= h < n :: Idle(s, key, h))
    && forall h | h in s.handlers :: !Arms(s.handlers[h], key)
  }

  lemma CountUnarmed(s: Sys, key: Key, used: nat, n: nat)
    requires Unarmed(s, key, used, n) && 0 < used < n && Idle(s, key, used)
    ensures Unarmed(CountedTwice(s, used, s.handlers[used]), key, used + 1, n)
  {
    var t := CountedTwice(s, used, s.handlers[used]);
    CountedTwiceIs(s, used, s.handlers[used]);
    forall h | used + 1 <= h < n ensures Idle(t, key, h) { CountLeaves(s, key, used, h, s.now); }
    forall h | h in t.handlers ensures !Arms(t.handlers[h], key) {
      assert h != used ==> h in s.handlers && !Arms(s.handlers[h], key);
    }
  }

  lemma {:induction false} CountAllUnarmed(now: int, steps: seq<Step>, key: Key, n: nat, used: nat)
    returns (longer: seq<Step>)
    requires 0 < used <= n && Unarmed(Run(now, steps), key, 1, n)
    ensures Unarmed(Run(now, longer), key, used, n)
  {
    if used == 1 {
      longer := steps;
    } else {
      longer := CountAllUnarmed(now, steps, key, n, used - 1);
      var s := Run(now, longer);
      assert Idle(s, key, used - 1);
      CountUnarmed(s, key, used - 1, n);
      longer := CountSteps(now, longer, used - 1);
      longer := CountSteps(now, longer, used - 1);
    }
  }

  /** Counted up to the INCR of `key` that opens its window. */
  lemma ToFirst(now: int, key: Key, n: nat) returns (steps: seq<Step>)
    requires n > 0
    ensures var s := Run(now, steps);
            && CounterOf(s.counters, key) == NoKey
            && 0 in s.handlers && s.handlers[0].phone == PhoneOf(key, 0) && s.handlers[0].ip == IpOf(key, 0)
            && s.handlers[0].stage == (if key.ByPhone? then CountPhone else CountIp)
            && (forall h | 1 <= h < n :: Idle(s, key, h))
            && forall h | h in s.handlers :: h < n
  {
    steps := BeginAll(now, key, n);
    var s := Run(now, steps);
    assert Idle(s, key, 0);
    if key.ByIp? {
      steps := CountSteps(now, steps, 0);
      forall h: nat | 1 <= h < n ensures Idle(Run(now, steps), key, h) {
        assert Idle(s, key, h) && |Tag(h)| != |Tag(0)|;
      }
    }
  }

  /** The handler crashes between INCR and EXPIRE. */
  lemma CrashInBetween(now: int, key: Key, n: nat) returns (steps: seq<Step>)
    requires n > 0
    ensures Unarmed(Run(now, steps), key, 1, n)
  {
    steps := ToFirst(now, key, n);
    var s := Run(now, steps);
    RunSnoc(now, steps, Advance(0));
    RunSnoc(now, steps + [Advance(0)], Crash(0));
    steps := steps + [Advance(0)] + [Crash(0)];
    forall h: nat | 1 <= h < n ensures Idle(Run(now, steps), key, h) { assert Idle(s, key, h); }
    forall h | h in Run(now, steps).handlers ensures !Arms(Run(now, steps).handlers[h], key) {
      assert 1 <= h < n && Idle(s, key, h);
    }
  }

  /** One crash between INCR and EXPIRE, and as many requests as the limit allows, and the phone
      or address is refused for ever. */
  lemma CrashLocks(now: int, key: Key) returns (steps: seq<Step>)
    ensures Locked(Run(now, steps), key)
  {
    steps := CrashInBetween(now, key, LimitOf(key));
    steps := CountAllUnarmed(now, steps, key, LimitOf(key), LimitOf(key));
  }
}
