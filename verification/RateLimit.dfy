/** The OTP request limiter: concurrent requests interleaved at every Redis command, over a
    clock, with crashes at any point. */
module RateLimit {
  import opened Common
  import opened WindowCounter

  const COOLDOWN: nat := 60
  const MAX_PER_HOUR: nat := 5

  /** Keys `otp:hourly:{phone}` and `otp:ip:{ip}`. */
  datatype Key = ByPhone(phone: string) | ByIp(ip: string)

  function LimitOf(key: Key): nat {
    if key.ByPhone? then MAX_PER_HOUR else MAX_PER_HOUR * 4
  }

  /** Which command comes next. */
  datatype Stage = CountPhone | ArmPhone | CountIp | ArmIp | Decide

  /** `hourly` and `ipCount` are the handler's locals; `p` and `i` name the INCRs they came
      from, as positions in the logs of the two keys. */
  datatype Handler = Handler(phone: string, ip: string, stage: Stage, hourly: nat, ipCount: nat, p: nat, i: nat)

  /** A granted code: the INCRs it was counted by, when they ran, and when it was granted. */
  datatype Grant = Grant(phone: string, ip: string, p: nat, i: nat, counted: int, ipCounted: int, done: int)

  /** `hits` logs every INCR of a counter key; it is never read by a handler. */
  datatype Sys = Sys(now: int, counters: map<Key, Counter>, cooldown: map<string, int>, handlers: map<nat, Handler>,
                     hits: map<Key, seq<Hit>>, grants: seq<Grant>)

  datatype Step = Tick(seconds: nat) | Open(h: nat, phone: string, ip: string) | Advance(h: nat) | Crash(h: nat)

  function Start(now: int): Sys {
    Sys(now, map[], map[], map[], map[], [])
  }

  function CounterOf(counters: map<Key, Counter>, key: Key): Counter {
    if key in counters then counters[key] else NoKey
  }

  function LogOf(s: Sys, key: Key): seq<Hit> {
    if key in s.hits then s.hits[key] else []
  }

  predicate Cooling(cooldown: map<string, int>, phone: string, now: int) {
    phone in cooldown && now < cooldown[phone]
  }

  function Next(s: Sys, step: Step): Sys {
    match step
    case Tick(seconds) => s.(now := s.now + seconds)
    case Open(h, phone, ip) =>
      if h in s.handlers || Cooling(s.cooldown, phone, s.now) then s
      else s.(handlers := s.handlers[h := Handler(phone, ip, CountPhone, 0, 0, 0, 0)])
    case Advance(h) => if h in s.handlers then Call(s, h, s.handlers[h]) else s
    case Crash(h) => s.(handlers := s.handlers - {h})
  }

  function Incr(s: Sys, key: Key): Sys {
    var c := CounterOf(s.counters, key).Incr(s.now);
    s.(counters := s.counters[key := c], hits := s.hits[key := LogOf(s, key) + [Hit(s.now, c.n)]])
  }

  function Expire(s: Sys, key: Key): Sys {
    if key in s.counters then s.(counters := s.counters[key := s.counters[key].Expire(s.now, WINDOW)]) else s
  }

  /** One Redis command. */
  function Call(s: Sys, h: nat, handler: Handler): Sys {
    match handler.stage
    case CountPhone =>
      var key := ByPhone(handler.phone);
      var t := Incr(s, key);
      var hourly := t.counters[key].n;
      t.(handlers := s.handlers[h := handler.(stage := if hourly == 1 then ArmPhone else CountIp,
                                              hourly := hourly, p := |LogOf(s, key)|)])
    case ArmPhone => Expire(s, ByPhone(handler.phone)).(handlers := s.handlers[h := handler.(stage := CountIp)])
    case CountIp =>
      var key := ByIp(handler.ip);
      var t := Incr(s, key);
      var ipCount := t.counters[key].n;
      t.(handlers := s.handlers[h := handler.(stage := if ipCount == 1 then ArmIp else Decide,
                                              ipCount := ipCount, i := |LogOf(s, key)|)])
    case ArmIp => Expire(s, ByIp(handler.ip)).(handlers := s.handlers[h := handler.(stage := Decide)])
    case Decide =>
      var left := s.(handlers := s.handlers - {h});
      if handler.hourly > MAX_PER_HOUR || handler.ipCount > MAX_PER_HOUR * 4 then left
      else left.(cooldown := s.cooldown[handler.phone := s.now + COOLDOWN],
                 grants := s.grants + [GrantOf(s, handler)])
  }

  function GrantOf(s: Sys, handler: Handler): Grant {
    var phoneLog, ipLog := LogOf(s, ByPhone(handler.phone)), LogOf(s, ByIp(handler.ip));
    Grant(handler.phone, handler.ip, handler.p, handler.i,
          if handler.p < |phoneLog| then phoneLog[handler.p].t else s.now,
          if handler.i < |ipLog| then ipLog[handler.i].t else s.now, s.now)
  }

  function Run(now: int, steps: seq<Step>): Sys {
    if steps == [] then Start(now) else Next(Run(now, steps[..|steps| - 1]), steps[|steps| - 1])
  }

  // ---------------------------------------------------------------- invariant

  predicate HasPhone(handler: Handler) {
    !handler.stage.CountPhone?
  }

  predicate HasIp(handler: Handler) {
    handler.stage.ArmIp? || handler.stage.Decide?
  }

  /** The INCRs a handler or a grant stands for. */
  function Held(handler: Handler): set<(Key, nat)> {
    (if HasPhone(handler) then {(ByPhone(handler.phone), handler.p)} else {}) +
    (if HasIp(handler) then {(ByIp(handler.ip), handler.i)} else {})
  }

  function Spent(g: Grant): set<(Key, nat)> {
    {(ByPhone(g.phone), g.p), (ByIp(g.ip), g.i)}
  }

  ghost predicate HitIs(s: Sys, key: Key, k: nat, n: nat) {
    k < |LogOf(s, key)| && LogOf(s, key)[k].n == n
  }

  ghost predicate HandlerOk(s: Sys, handler: Handler) {
    && (HasPhone(handler) ==> HitIs(s, ByPhone(handler.phone), handler.p, handler.hourly))
    && (HasIp(handler) ==> HitIs(s, ByIp(handler.ip), handler.i, handler.ipCount))
  }

  ghost predicate GrantOk(s: Sys, g: Grant) {
    var phoneLog, ipLog := LogOf(s, ByPhone(g.phone)), LogOf(s, ByIp(g.ip));
    && g.p < |phoneLog| && phoneLog[g.p].n <= MAX_PER_HOUR && phoneLog[g.p].t == g.counted
    && g.i < |ipLog| && ipLog[g.i].n <= MAX_PER_HOUR * 4 && ipLog[g.i].t == g.ipCounted
  }

  ghost predicate Separate(s: Sys) {
    && (forall a, b | a in s.handlers && b in s.handlers && a != b :: Held(s.handlers[a]) !! Held(s.handlers[b]))
    && (forall a, k | a in s.handlers && 0 <= k < |s.grants| :: Held(s.handlers[a]) !! Spent(s.grants[k]))
    && (forall j, k | 0 <= j < k < |s.grants| :: Spent(s.grants[j]) !! Spent(s.grants[k]))
  }

  ghost predicate CountersOk(s: Sys) {
    forall key :: Explains(LogOf(s, key), CounterOf(s.counters, key), s.now)
  }

  ghost predicate HandlersOk(s: Sys) {
    forall h | h in s.handlers :: HandlerOk(s, s.handlers[h])
  }

  ghost predicate GrantsOk(s: Sys) {
    forall k | 0 <= k < |s.grants| :: GrantOk(s, s.grants[k])
  }

  ghost predicate Inv(s: Sys) {
    CountersOk(s) && HandlersOk(s) && GrantsOk(s) && Separate(s)
  }

  /** Logs only grow. */
  ghost predicate LogsGrow(s: Sys, t: Sys) {
    forall key :: |LogOf(s, key)| <= |LogOf(t, key)| && LogOf(t, key)[..|LogOf(s, key)|] == LogOf(s, key)
  }

  lemma GrowKeepsOk(s: Sys, t: Sys, handler: Handler)
    requires LogsGrow(s, t) && HandlerOk(s, handler)
    ensures HandlerOk(t, handler)
  {}

  lemma GrowKeepsGrant(s: Sys, t: Sys, g: Grant)
    requires LogsGrow(s, t) && GrantOk(s, g)
    ensures GrantOk(t, g)
  {}

  lemma IncrGrows(s: Sys, key: Key)
    ensures LogsGrow(s, Incr(s, key))
    ensures HitIs(Incr(s, key), key, |LogOf(s, key)|, Incr(s, key).counters[key].n)
  {}

  lemma IncrCountersOk(s: Sys, key: Key)
    requires CountersOk(s)
    ensures CountersOk(Incr(s, key))
  {
    var t := Incr(s, key);
    forall k ensures Explains(LogOf(t, k), CounterOf(t.counters, k), t.now) {
      assert Explains(LogOf(s, k), CounterOf(s.counters, k), s.now);
      if k == key {
        IncrExplained(LogOf(s, key), CounterOf(s.counters, key), s.now);
      }
    }
  }

  lemma IncrInv(s: Sys, key: Key)
    requires Inv(s)
    ensures Inv(Incr(s, key)) && LogsGrow(s, Incr(s, key))
    ensures HitIs(Incr(s, key), key, |LogOf(s, key)|, Incr(s, key).counters[key].n)
  {
    var t := Incr(s, key);
    IncrGrows(s, key);
    IncrCountersOk(s, key);
    forall h | h in s.handlers ensures HandlerOk(t, s.handlers[h]) { GrowKeepsOk(s, t, s.handlers[h]); }
    forall k | 0 <= k < |s.grants| ensures GrantOk(t, s.grants[k]) { GrowKeepsGrant(s, t, s.grants[k]); }
  }

  lemma ExpireInv(s: Sys, key: Key)
    requires Inv(s)
    ensures Inv(Expire(s, key))
  {
    var t := Expire(s, key);
    forall k ensures Explains(LogOf(t, k), CounterOf(t.counters, k), t.now) {
      assert Explains(LogOf(s, k), CounterOf(s.counters, k), s.now);
      if k == key { ExpireExplained(LogOf(s, k), CounterOf(s.counters, k), s.now); }
    }
    forall h | h in s.handlers ensures HandlerOk(t, s.handlers[h]) { assert HandlerOk(s, s.handlers[h]); }
    forall k | 0 <= k < |s.grants| ensures GrantOk(t, s.grants[k]) { assert GrantOk(s, s.grants[k]); }
  }

  /** A handler moves on, holding what it held and at most one INCR nobody else holds. */
  lemma HandlerInv(s: Sys, h: nat, handler: Handler, gained: set<(Key, nat)>)
    requires Inv(s) && h in s.handlers && HandlerOk(s, handler)
    requires Held(handler) <= Held(s.handlers[h]) + gained
    requires forall g | g in s.handlers :: Held(s.handlers[g]) !! gained
    requires forall k | 0 <= k < |s.grants| :: Spent(s.grants[k]) !! gained
    ensures Inv(s.(handlers := s.handlers[h := handler]))
  {
    var t := s.(handlers := s.handlers[h := handler]);
    forall a, b | a in t.handlers && b in t.handlers && a != b ensures Held(t.handlers[a]) !! Held(t.handlers[b]) {
      var c := if a == h then b else a;
      assert c in s.handlers && Held(s.handlers[c]) !! gained;
      assert a != h && b != h ==> Held(s.handlers[a]) !! Held(s.handlers[b]);
      assert c != h ==> Held(s.handlers[c]) !! Held(s.handlers[h]);
    }
    forall k | 0 <= k < |t.grants| ensures Held(handler) !! Spent(t.grants[k]) {
      assert Held(s.handlers[h]) !! Spent(s.grants[k]) && Spent(s.grants[k]) !! gained;
    }
    forall key ensures Explains(LogOf(t, key), CounterOf(t.counters, key), t.now) {
      assert Explains(LogOf(s, key), CounterOf(s.counters, key), s.now);
    }
    forall g | g in t.handlers ensures HandlerOk(t, t.handlers[g]) {
      assert g != h ==> HandlerOk(s, s.handlers[g]);
    }
    forall k | 0 <= k < |t.grants| ensures GrantOk(t, t.grants[k]) {
      assert GrantOk(s, s.grants[k]);
    }
  }

  /** A brand-new INCR is held by nobody. */
  lemma NewHitFree(s: Sys, key: Key)
    requires Inv(s)
    ensures forall g | g in s.handlers :: Held(s.handlers[g]) !! {(key, |LogOf(s, key)|)}
    ensures forall k | 0 <= k < |s.grants| :: Spent(s.grants[k]) !! {(key, |LogOf(s, key)|)}
  {}

  lemma DropInv(s: Sys, h: nat)
    requires Inv(s)
    ensures Inv(s.(handlers := s.handlers - {h}))
  {}

  lemma GrantInv(s: Sys, h: nat)
    requires Inv(s) && h in s.handlers && s.handlers[h].stage == Decide
    ensures Inv(Next(s, Advance(h)))
  {
    var handler := s.handlers[h];
    var t := Next(s, Advance(h));
    DropInv(s, h);
    if t.grants != s.grants {
      var g := GrantOf(s, handler);
      assert HandlerOk(s, handler);
      assert Spent(g) == Held(handler);
      AddGrantInv(s.(handlers := s.handlers - {h}), t, g);
    }
  }

  lemma AddGrantInv(s: Sys, t: Sys, g: Grant)
    requires Inv(s) && GrantOk(s, g)
    requires t == s.(cooldown := t.cooldown, grants := s.grants + [g])
    requires forall a | a in s.handlers :: Held(s.handlers[a]) !! Spent(g)
    requires forall k | 0 <= k < |s.grants| :: Spent(s.grants[k]) !! Spent(g)
    ensures Inv(t)
  {
    forall key ensures Explains(LogOf(t, key), CounterOf(t.counters, key), t.now) {
      assert Explains(LogOf(s, key), CounterOf(s.counters, key), s.now);
    }
    forall h | h in t.handlers ensures HandlerOk(t, t.handlers[h]) { assert HandlerOk(s, s.handlers[h]); }
    forall k | 0 <= k < |t.grants| ensures GrantOk(t, t.grants[k]) {
      assert k < |s.grants| ==> GrantOk(s, s.grants[k]);
    }
    AddGrantSeparate(s, t, g);
  }

  lemma AddGrantSeparate(s: Sys, t: Sys, g: Grant)
    requires Separate(s) && t.handlers == s.handlers && t.grants == s.grants + [g]
    requires forall a | a in s.handlers :: Held(s.handlers[a]) !! Spent(g)
    requires forall k | 0 <= k < |s.grants| :: Spent(s.grants[k]) !! Spent(g)
    ensures Separate(t)
  {
    forall a, k | a in t.handlers && 0 <= k < |t.grants| ensures Held(t.handlers[a]) !! Spent(t.grants[k]) {
      assert k < |s.grants| ==> Held(s.handlers[a]) !! Spent(s.grants[k]);
    }
    forall j, k | 0 <= j < k < |t.grants| ensures Spent(t.grants[j]) !! Spent(t.grants[k]) {
      assert k < |s.grants| ==> Spent(s.grants[j]) !! Spent(s.grants[k]);
    }
  }

  lemma CountInv(s: Sys, h: nat, key: Key, handler: Handler)
    requires Inv(s) && h in s.handlers
    requires HandlerOk(Incr(s, key), handler)
    requires Held(handler) <= Held(s.handlers[h]) + {(key, |LogOf(s, key)|)}
    ensures Inv(Incr(s, key).(handlers := s.handlers[h := handler]))
  {
    IncrInv(s, key);
    NewHitFree(s, key);
    HandlerInv(Incr(s, key), h, handler, {(key, |LogOf(s, key)|)});
  }

  lemma CountPhoneInv(s: Sys, h: nat)
    requires Inv(s) && h in s.handlers && s.handlers[h].stage == CountPhone
    ensures Inv(Next(s, Advance(h)))
  {
    var key := ByPhone(s.handlers[h].phone);
    IncrInv(s, key);
    CountInv(s, h, key, Next(s, Advance(h)).handlers[h]);
  }

  lemma CountIpInv(s: Sys, h: nat)
    requires Inv(s) && h in s.handlers && s.handlers[h].stage == CountIp
    ensures Inv(Next(s, Advance(h)))
  {
    var key := ByIp(s.handlers[h].ip);
    assert HandlerOk(s, s.handlers[h]);
    IncrInv(s, key);
    GrowKeepsOk(s, Incr(s, key), s.handlers[h]);
    CountInv(s, h, key, Next(s, Advance(h)).handlers[h]);
  }

  lemma ArmInv(s: Sys, h: nat)
    requires Inv(s) && h in s.handlers && (s.handlers[h].stage == ArmPhone || s.handlers[h].stage == ArmIp)
    ensures Inv(Next(s, Advance(h)))
  {
    var handler := s.handlers[h];
    var key := if handler.stage == ArmPhone then ByPhone(handler.phone) else ByIp(handler.ip);
    var moved := Next(s, Advance(h)).handlers[h];
    assert HandlerOk(s, handler);
    ExpireInv(s, key);
    assert HandlerOk(Expire(s, key), moved);
    HandlerInv(Expire(s, key), h, moved, {});
  }

  lemma StepKeepsInv(s: Sys, step: Step)
    requires Inv(s)
    ensures Inv(Next(s, step))
  {
    var t := Next(s, step);
    match step
    case Tick(_) =>
      forall key ensures Explains(LogOf(t, key), CounterOf(t.counters, key), t.now) {
        assert Explains(LogOf(s, key), CounterOf(s.counters, key), s.now);
      }
      forall h | h in t.handlers ensures HandlerOk(t, t.handlers[h]) { assert HandlerOk(s, s.handlers[h]); }
      forall k | 0 <= k < |t.grants| ensures GrantOk(t, t.grants[k]) { assert GrantOk(s, s.grants[k]); }
    case Open(h, phone, ip) => OpenInv(s, h, phone, ip);
    case Advance(h) =>
      if h in s.handlers {
        match s.handlers[h].stage {
          case CountPhone => CountPhoneInv(s, h);
          case CountIp => CountIpInv(s, h);
          case Decide => GrantInv(s, h);
          case _ => ArmInv(s, h);
        }
      }
    case Crash(h) => DropInv(s, h);
  }

  lemma OpenInv(s: Sys, h: nat, phone: string, ip: string)
    requires Inv(s)
    ensures Inv(Next(s, Open(h, phone, ip)))
  {
    var t := Next(s, Open(h, phone, ip));
    if t != s {
      assert Held(t.handlers[h]) == {};
      forall key ensures Explains(LogOf(t, key), CounterOf(t.counters, key), t.now) {
        assert Explains(LogOf(s, key), CounterOf(s.counters, key), s.now);
      }
      forall g | g in t.handlers ensures HandlerOk(t, t.handlers[g]) {
        assert g != h ==> HandlerOk(s, s.handlers[g]);
      }
      forall k | 0 <= k < |t.grants| ensures GrantOk(t, t.grants[k]) { assert GrantOk(s, s.grants[k]); }
    }
  }

  lemma {:induction false} RunKeepsInv(now: int, steps: seq<Step>)
    ensures Inv(Run(now, steps))
  {
    if steps != [] {
      RunKeepsInv(now, steps[..|steps| - 1]);
      StepKeepsInv(Run(now, steps[..|steps| - 1]), steps[|steps| - 1]);
    }
  }

  // ---------------------------------------------------------------- counting grants

  /** The INCR of `key` that a grant was counted by. */
  function HitOf(g: Grant, key: Key): Option<(nat, int)> {
    if key == ByPhone(g.phone) then Some((g.p, g.counted))
    else if key == ByIp(g.ip) then Some((g.i, g.ipCounted))
    else None
  }

  predicate GrantIn(g: Grant, key: Key, from: int, to: int) {
    HitOf(g, key).Some? && from <= HitOf(g, key).value.1 < to
  }

  /** Codes granted to the phone or address of `key` whose counting INCR ran in [from, to). */
  function Granted(grants: seq<Grant>, key: Key, from: int, to: int): nat {
    if grants == [] then 0
    else Granted(grants[..|grants| - 1], key, from, to) + if GrantIn(grants[|grants| - 1], key, from, to) then 1 else 0
  }

  /** Where in the log of `key` those INCRs are. */
  function Positions(grants: seq<Grant>, key: Key, from: int, to: int): set<nat> {
    if grants == [] then {}
    else
      var g := grants[|grants| - 1];
      Positions(grants[..|grants| - 1], key, from, to) + if GrantIn(g, key, from, to) then {HitOf(g, key).value.0}
      else {}
  }

  lemma {:induction false} PositionHasGrant(grants: seq<Grant>, key: Key, from: int, to: int, p: nat)
    requires p in Positions(grants, key, from, to)
    ensures exists k :: 0 <= k < |grants| && GrantIn(grants[k], key, from, to) && HitOf(grants[k], key).value.0 == p
  {
    var n := |grants| - 1;
    if GrantIn(grants[n], key, from, to) && HitOf(grants[n], key).value.0 == p {
    } else {
      PositionHasGrant(grants[..n], key, from, to, p);
      var k :| 0 <= k < n && GrantIn(grants[..n][k], key, from, to) && HitOf(grants[..n][k], key).value.0 == p;
      assert grants[k] == grants[..n][k];
    }
  }

  function CountedAt(log: seq<Hit>, from: int, to: int, limit: nat): set<nat> {
    set k: nat | k < |log| && Counted(log[k], from, to, limit)
  }

  lemma {:induction false} WithinIsSize(log: seq<Hit>, from: int, to: int, limit: nat)
    ensures |CountedAt(log, from, to, limit)| == Within(log, from, to, limit)
  {
    if log != [] {
      var front := log[..|log| - 1];
      WithinIsSize(front, from, to, limit);
      var n: nat := |log| - 1;
      assert CountedAt(log, from, to, limit) ==
               CountedAt(front, from, to, limit) + (if Counted(log[n], from, to, limit) then {n} else {});
    }
  }

  ghost predicate AllApart(grants: seq<Grant>) {
    forall j, k | 0 <= j < k < |grants| :: Spent(grants[j]) !! Spent(grants[k])
  }

  lemma LastIsNew(grants: seq<Grant>, key: Key, from: int, to: int)
    requires AllApart(grants) && grants != [] && GrantIn(grants[|grants| - 1], key, from, to)
    ensures HitOf(grants[|grants| - 1], key).value.0 !in Positions(grants[..|grants| - 1], key, from, to)
  {
    var n := |grants| - 1;
    var p := HitOf(grants[n], key).value.0;
    if p in Positions(grants[..n], key, from, to) {
      PositionHasGrant(grants[..n], key, from, to, p);
    }
  }

  lemma {:induction false} GrantedIsSize(grants: seq<Grant>, key: Key, from: int, to: int)
    requires AllApart(grants)
    ensures |Positions(grants, key, from, to)| == Granted(grants, key, from, to)
  {
    if grants != [] {
      var front := grants[..|grants| - 1];
      assert AllApart(front) by {
        forall j, k | 0 <= j < k < |front| ensures Spent(front[j]) !! Spent(front[k]) {
          assert front[j] == grants[j] && front[k] == grants[k];
        }
      }
      GrantedIsSize(front, key, from, to);
      if GrantIn(grants[|grants| - 1], key, from, to) { LastIsNew(grants, key, from, to); }
    }
  }

  lemma GrantWasCounted(s: Sys, k: nat, key: Key, from: int, to: int)
    requires GrantsOk(s) && k < |s.grants| && GrantIn(s.grants[k], key, from, to)
    ensures HitOf(s.grants[k], key).value.0 in CountedAt(LogOf(s, key), from, to, LimitOf(key))
  {}

  lemma GrantedAtMostCounted(s: Sys, key: Key, from: int, to: int)
    requires GrantsOk(s) && Separate(s)
    ensures Granted(s.grants, key, from, to) <= Within(LogOf(s, key), from, to, LimitOf(key))
  {
    var log := LogOf(s, key);
    GrantedIsSize(s.grants, key, from, to);
    WithinIsSize(log, from, to, LimitOf(key));
    forall p | p in Positions(s.grants, key, from, to) ensures p in CountedAt(log, from, to, LimitOf(key)) {
      PositionHasGrant(s.grants, key, from, to, p);
      var k :| 0 <= k < |s.grants| && GrantIn(s.grants[k], key, from, to) && HitOf(s.grants[k], key).value.0 == p;
      GrantWasCounted(s, k, key, from, to);
    }
    SizeMono(Positions(s.grants, key, from, to), CountedAt(log, from, to, LimitOf(key)));
  }

  lemma GrantSpanBoundAt(s: Sys, key: Key, from: int, span: nat)
    requires Inv(s) && span > 0
    ensures Granted(s.grants, key, from, from + span) <= SpanMax(LimitOf(key), span)
  {
    assert Explains(LogOf(s, key), CounterOf(s.counters, key), s.now);
    GrantedAtMostCounted(s, key, from, from + span);
    SpanBound(LogOf(s, key), from, span, LimitOf(key));
  }

  /** Under every interleaving: no more codes are granted to a phone or address in any span of
      time than its windows leave room for. */
  lemma GrantSpanBound(now: int, steps: seq<Step>, key: Key, from: int, span: nat)
    requires span > 0
    ensures Granted(Run(now, steps).grants, key, from, from + span) <= SpanMax(LimitOf(key), span)
  {
    RunKeepsInv(now, steps);
    GrantSpanBoundAt(Run(now, steps), key, from, span);
  }

  /** Over `m` hours' worth of time, wherever it starts, at most limit (m + 1) - 1 codes are
      granted to one phone (limit 5) or one address (limit 20). */
  lemma GrantBound(now: int, steps: seq<Step>, key: Key, from: int, m: nat)
    requires m > 0
    ensures Granted(Run(now, steps).grants, key, from, from + m * WINDOW) <= LimitOf(key) * (m + 1) - 1
  {
    GrantSpanBound(now, steps, key, from, m * WINDOW);
    SpanOfWindows(LimitOf(key), m);
  }

  /** Any half-open hour: nine codes for one phone, thirty-nine for one address. */
  lemma HourlyBounds(now: int, steps: seq<Step>, phone: string, ip: string, from: int)
    ensures Granted(Run(now, steps).grants, ByPhone(phone), from, from + 3600) <= 9
    ensures Granted(Run(now, steps).grants, ByIp(ip), from, from + 3600) <= 39
  {
    GrantBound(now, steps, ByPhone(phone), from, 1);
    GrantBound(now, steps, ByIp(ip), from, 1);
  }

  // ---------------------------------------------------------------- one request at a time

  datatype Limiter = Limiter(counters: map<Key, Counter>, cooldown: map<string, int>)

  function Counted1(counters: map<Key, Counter>, key: Key, now: int): map<Key, Counter> {
    var c := CounterOf(counters, key).Incr(now);
    counters[key := if c.n == 1 then c.Expire(now, WINDOW) else c]
  }

  /** `_rate_limit_otp` without interference: refused, or the cooldown in seconds. */
  function Limit(l: Limiter, now: int, phone: string, ip: string): (Limiter, Outcome<nat>) {
    if Cooling(l.cooldown, phone, now) then (l, Refused(429))
    else
      var counters := Counted1(Counted1(l.counters, ByPhone(phone), now), ByIp(ip), now);
      var hourly := CounterOf(l.counters, ByPhone(phone)).Incr(now).n;
      var ipCount := CounterOf(l.counters, ByIp(ip)).Incr(now).n;
      if hourly > MAX_PER_HOUR || ipCount > MAX_PER_HOUR * 4 then (Limiter(counters, l.cooldown), Refused(429))
      else (Limiter(counters, l.cooldown[phone := now + COOLDOWN]), Ok(COOLDOWN))
  }

  /** A request nothing interleaves with: its handler's calls back to back.  Five are always
      enough, and a finished handler makes no further call. */
  function Served(s: Sys, h: nat, phone: string, ip: string): Sys {
    var zero := Next(s, Open(h, phone, ip));
    Twice(Twice(Next(zero, Advance(h)), h), h)
  }

  function Twice(s: Sys, h: nat): Sys {
    Next(Next(s, Advance(h)), Advance(h))
  }

  /** INCR, and EXPIRE if it opened the window. */
  function CountedBy(s: Sys, h: nat, handler: Handler): Sys
    requires handler.stage == CountPhone || handler.stage == CountIp
  {
    var key := if handler.stage == CountPhone then ByPhone(handler.phone) else ByIp(handler.ip);
    var n := CounterOf(s.counters, key).Incr(s.now).n;
    s.(counters := Counted1(s.counters, key, s.now),
       hits := s.hits[key := LogOf(s, key) + [Hit(s.now, n)]],
       handlers := s.handlers[h := if handler.stage == CountPhone
                                   then handler.(stage := CountIp, hourly := n, p := |LogOf(s, key)|)
                                   else handler.(stage := Decide, ipCount := n, i := |LogOf(s, key)|)])
  }

  /** ... takes one or two calls. */
  lemma CountAlone(s: Sys, h: nat, handler: Handler)
    requires h in s.handlers && s.handlers[h] == handler && (handler.stage == CountPhone || handler.stage == CountIp)
    ensures CountedBy(s, h, handler) == Next(s, Advance(h))
            || CountedBy(s, h, handler) == Next(Next(s, Advance(h)), Advance(h))
  {
    var one := Next(s, Advance(h));
    var t := Next(one, Advance(h));
    if one.handlers[h].stage == ArmPhone || one.handlers[h].stage == ArmIp {
      assert t.handlers == CountedBy(s, h, handler).handlers;
      assert t.counters == CountedBy(s, h, handler).counters;
    }
  }

  lemma DecideAlone(s: Sys, h: nat)
    requires h in s.handlers && s.handlers == map[h := s.handlers[h]] && s.handlers[h].stage == Decide
    ensures var last := Next(s, Advance(h)); last.handlers == map[] && Next(last, Advance(h)) == last
  {}

  function CountedTwice(s: Sys, h: nat, handler: Handler): Sys
    requires handler.stage == CountPhone
  {
    var t := CountedBy(s, h, handler);
    CountedBy(t, h, t.handlers[h])
  }

  lemma CountedTwiceIs(s: Sys, h: nat, handler: Handler)
    requires handler.stage == CountPhone
    ensures var phone, ip := ByPhone(handler.phone), ByIp(handler.ip);
            var hourly, ipCount := CounterOf(s.counters, phone).Incr(s.now).n, CounterOf(s.counters, ip).Incr(s.now).n;
            var p, i := |LogOf(s, phone)|, |LogOf(s, ip)|;
            var t := CountedTwice(s, h, handler);
            && t == s.(counters := Counted1(Counted1(s.counters, phone, s.now), ip, s.now), hits := t.hits,
                       handlers := s.handlers[h := Handler(handler.phone, handler.ip, Decide, hourly, ipCount, p, i)])
            && LogOf(t, phone) == LogOf(s, phone) + [Hit(s.now, hourly)]
            && LogOf(t, ip) == LogOf(s, ip) + [Hit(s.now, ipCount)]
  {
    var t := CountedTwice(s, h, handler);
    assert t.handlers == s.handlers[h := t.handlers[h]];
  }

  /** The calls back to back: one or two for each counter, and one to decide. */
  lemma ServedIs(s: Sys, h: nat, handler: Handler)
    requires s.handlers == map[h := handler] && handler.stage == CountPhone
    ensures Twice(Twice(Next(s, Advance(h)), h), h) == Next(CountedTwice(s, h, handler), Advance(h))
  {
    var one := CountedBy(s, h, handler);
    var two := CountedTwice(s, h, handler);
    var last := Next(two, Advance(h));
    CountAlone(s, h, handler);
    CountAlone(one, h, one.handlers[h]);
    DecideAlone(two, h);
    FiveAreEnough(x => Next(x, Advance(h)), s, one, two, last);
  }

  lemma FiveAreEnough(call: Sys -> Sys, zero: Sys, one: Sys, two: Sys, last: Sys)
    requires one == call(zero) || one == call(call(zero))
    requires two == call(one) || two == call(call(one))
    requires last == call(two) && call(last) == last
    ensures call(call(call(call(call(zero))))) == last
  {}

  /** Both counts made, and nothing else under way. */
  predicate BothMade(s: Sys, t: Sys, h: nat, phone: string, ip: string) {
    var hourly := CounterOf(s.counters, ByPhone(phone)).Incr(s.now).n;
    var ipCount := CounterOf(s.counters, ByIp(ip)).Incr(s.now).n;
    var p, i := |LogOf(s, ByPhone(phone))|, |LogOf(s, ByIp(ip))|;
    && t.now == s.now && t.cooldown == s.cooldown && t.grants == s.grants
    && t.counters == Counted1(Counted1(s.counters, ByPhone(phone), s.now), ByIp(ip), s.now)
    && t.handlers == map[h := Handler(phone, ip, Decide, hourly, ipCount, p, i)]
    && LogOf(t, ByPhone(phone)) == LogOf(s, ByPhone(phone)) + [Hit(s.now, hourly)]
    && LogOf(t, ByIp(ip)) == LogOf(s, ByIp(ip)) + [Hit(s.now, ipCount)]
  }

  lemma TwiceMakesBoth(s: Sys, zero: Sys, h: nat, handler: Handler)
    requires zero == s.(handlers := map[h := handler])
    requires handler == Handler(handler.phone, handler.ip, CountPhone, 0, 0, 0, 0)
    ensures BothMade(s, CountedTwice(zero, h, handler), h, handler.phone, handler.ip)
  {
    CountedTwiceIs(zero, h, handler);
    assert zero.handlers[h := CountedTwice(zero, h, handler).handlers[h]] ==
             map[h := CountedTwice(zero, h, handler).handlers[h]];
  }

  lemma ServedCalls(s: Sys, h: nat, phone: string, ip: string) returns (t: Sys)
    requires s.handlers == map[] && !Cooling(s.cooldown, phone, s.now)
    ensures Served(s, h, phone, ip) == Next(t, Advance(h)) && BothMade(s, t, h, phone, ip)
  {
    var handler := Handler(phone, ip, CountPhone, 0, 0, 0, 0);
    var zero := s.(handlers := map[h := handler]);
    t := CountedTwice(zero, h, handler);
    TwiceMakesBoth(s, zero, h, handler);
    ServedIs(zero, h, handler);
    ServedOpens(s, zero, h, phone, ip);
  }

  lemma ServedOpens(s: Sys, zero: Sys, h: nat, phone: string, ip: string)
    requires s.handlers == map[] && !Cooling(s.cooldown, phone, s.now)
    requires zero == s.(handlers := map[h := Handler(phone, ip, CountPhone, 0, 0, 0, 0)])
    ensures Served(s, h, phone, ip) == Twice(Twice(Next(zero, Advance(h)), h), h)
  {
    assert Next(s, Open(h, phone, ip)) == zero;
  }

  /** ... which is what `Limit` says; the code is granted at the very time it was counted. */
  lemma ServedIsLimit(s: Sys, h: nat, phone: string, ip: string)
    requires s.handlers == map[]
    ensures var t := Served(s, h, phone, ip);
            var (l, answer) := Limit(Limiter(s.counters, s.cooldown), s.now, phone, ip);
            && t.now == s.now && t.handlers == map[] && t.counters == l.counters && t.cooldown == l.cooldown
            && t.grants == s.grants + if answer.Ok?
                                      then [Grant(phone, ip, |LogOf(s, ByPhone(phone))|, |LogOf(s, ByIp(ip))|, s.now,
                                                  s.now, s.now)]
                                      else []
  {
    assert s.grants + [] == s.grants;
    if !Cooling(s.cooldown, phone, s.now) {
      var t := ServedCalls(s, h, phone, ip);
      DecidedIsLimit(s, t, h, phone, ip);
    }
  }

  lemma DecidedIsLimit(s: Sys, t: Sys, h: nat, phone: string, ip: string)
    requires !Cooling(s.cooldown, phone, s.now) && BothMade(s, t, h, phone, ip)
    ensures var last := Next(t, Advance(h));
            var (l, answer) := Limit(Limiter(s.counters, s.cooldown), s.now, phone, ip);
            && last.now == s.now && last.handlers == map[] && last.counters == l.counters
            && last.cooldown == l.cooldown
            && last.grants == s.grants + if answer.Ok?
                                         then [Grant(phone, ip, |LogOf(s, ByPhone(phone))|, |LogOf(s, ByIp(ip))|,
                                                     s.now, s.now, s.now)]
                                         else []
  {
    assert s.grants + [] == s.grants;
    assert t.handlers - {h} == map[];
  }

  /** One code at most, to the phone that asked, which must not be cooling and then is. */
  ghost predicate GrantsAtMost(s: Sys, t: Sys, phone: string) {
    || (t.grants == s.grants && t.cooldown == s.cooldown)
    || (|t.grants| == |s.grants| + 1 && var g := t.grants[|s.grants|];
        && t.grants == s.grants + [g] && g.phone == phone && g.done == s.now
        && !Cooling(s.cooldown, phone, s.now) && t.cooldown == s.cooldown[phone := s.now + 60])
  }

  lemma OneGrantAtMost(s: Sys, h: nat, phone: string, ip: string)
    requires s.handlers == map[]
    ensures GrantsAtMost(s, Served(s, h, phone, ip), phone)
  {
    if !Cooling(s.cooldown, phone, s.now) {
      var t := ServedCalls(s, h, phone, ip);
      DecidedGrants(s, t, Next(t, Advance(h)), h, phone, ip);
    }
  }

  lemma DecidedGrants(s: Sys, t: Sys, last: Sys, h: nat, phone: string, ip: string)
    requires !Cooling(s.cooldown, phone, s.now) && BothMade(s, t, h, phone, ip) && last == Next(t, Advance(h))
    ensures GrantsAtMost(s, last, phone)
  {}

  lemma ServedKeepsInv(s: Sys, h: nat, phone: string, ip: string)
    requires Inv(s)
    ensures Inv(Served(s, h, phone, ip))
  {
    var zero := Next(s, Open(h, phone, ip));
    StepKeepsInv(s, Open(h, phone, ip));
    StepKeepsInv(zero, Advance(h));
    TwiceKeepsInv(Next(zero, Advance(h)), h);
    TwiceKeepsInv(Twice(Next(zero, Advance(h)), h), h);
  }

  lemma TwiceKeepsInv(s: Sys, h: nat)
    requires Inv(s)
    ensures Inv(Twice(s, h))
  {
    StepKeepsInv(s, Advance(h));
    StepKeepsInv(Next(s, Advance(h)), Advance(h));
  }
}
