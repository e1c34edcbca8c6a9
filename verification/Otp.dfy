/** One user's OTP keys: issuing and verifying, interleaved at every Redis command, over a
    clock, with crashes at any point. */
module Otp {
  import opened Common
  import opened WindowCounter

  const OTP_TTL: nat := 300
  const MAX_ATTEMPTS: nat := 5

  /** Key `otp:{user}`; `serial` numbers the codes in the order they were issued. */
  datatype CodeKey = NoCode | Code(code: string, serial: nat, expiry: int) {

    function Get(now: int): CodeKey {
      if Code? && now < expiry then this else NoCode
    }
  }

  /** A verification after its INCR: EXPIRE first if it opened the count, then GET, or the
      deletion of a burnt code; after a match, the deletion of code and count. */
  datatype Handler =
    | Arm(submitted: string)
    | Fetch(submitted: string)
    | Burn(submitted: string)
    | Consume(submitted: string, serial: nat)

  /** What a verification has answered, and which code it was compared with, if any. */
  datatype Answer = Answer(submitted: string, against: Option<nat>, ok: bool)

  /** For each code issued: `compared` counts the comparisons made against it, `pending` the
      verifications that were past INCR but not past GET when it was issued, and `issued` is its
      text.  These and `answers` are logs that no handler reads. */
  datatype Sys = Sys(now: int, code: CodeKey, attempts: Counter, handlers: map<nat, Handler>,
                     compared: seq<nat>, pending: seq<nat>, issued: seq<string>, answers: seq<Answer>)

  datatype Step =
    | Tick(seconds: nat)
    | Issue(code: string)
    | Open(h: nat, submitted: string)
    | Advance(h: nat)
    | Crash(h: nat)

  function Start(now: int): Sys {
    Sys(now, NoCode, NoKey, map[], [], [], [], [])
  }

  /** Handlers that may still compare. */
  predicate WillFetch(handler: Handler) {
    handler.Arm? || handler.Fetch?
  }

  function Fetchers(handlers: map<nat, Handler>): set<nat> {
    set h | h in handlers && WillFetch(handlers[h])
  }

  function Next(s: Sys, step: Step): Sys {
    match step
    case Tick(seconds) => s.(now := s.now + seconds)
    case Issue(code) =>
      s.(code := Code(code, |s.compared|, s.now + OTP_TTL), attempts := NoKey,
         compared := s.compared + [0], pending := s.pending + [|Fetchers(s.handlers)|], issued := s.issued + [code])
    case Open(h, submitted) =>
      if h in s.handlers then s
      else
        var c := s.attempts.Incr(s.now);
        s.(attempts := c, handlers := s.handlers[h := if c.n == 1 then Arm(submitted)
                                                      else if c.n > MAX_ATTEMPTS then Burn(submitted)
                                                      else Fetch(submitted)])
    case Advance(h) => if h in s.handlers then Call(s, h, s.handlers[h]) else s
    case Crash(h) => s.(handlers := s.handlers - {h})
  }

  function Bump(counts: seq<nat>, k: nat): seq<nat> {
    if k < |counts| then counts[k := counts[k] + 1] else counts
  }

  function Call(s: Sys, h: nat, handler: Handler): Sys {
    match handler
    case Arm(submitted) =>
      s.(attempts := s.attempts.Expire(s.now, OTP_TTL), handlers := s.handlers[h := Fetch(submitted)])
    case Fetch(submitted) =>
      var stored := s.code.Get(s.now);
      if stored == NoCode then Answered(s, h, Answer(submitted, None, false))
      else
        var t := s.(compared := Bump(s.compared, stored.serial));
        if stored.code == submitted then t.(handlers := s.handlers[h := Consume(submitted, stored.serial)])
        else Answered(t, h, Answer(submitted, Some(stored.serial), false))
    case Burn(submitted) => Answered(s.(code := NoCode), h, Answer(submitted, None, false))
    case Consume(submitted, serial) =>
      Answered(s.(code := NoCode, attempts := NoKey), h, Answer(submitted, Some(serial), true))
  }

  function Answered(s: Sys, h: nat, answer: Answer): Sys {
    s.(handlers := s.handlers - {h}, answers := s.answers + [answer])
  }

  function Run(now: int, steps: seq<Step>): Sys {
    if steps == [] then Start(now) else Next(Run(now, steps[..|steps| - 1]), steps[|steps| - 1])
  }

  function Tries(c: Counter): nat {
    if c.Count? then c.n else 0
  }

  /** While a code is alive its attempts key is too, and comparisons, made and to come, are
      covered by the attempts counted and the handlers already under way at its issue. */
  ghost predicate Inv(s: Sys) {
    && |s.pending| == |s.compared|
    && (forall k | 0 <= k < |s.compared| :: s.compared[k] <= MAX_ATTEMPTS + s.pending[k])
    && (s.code.Code? ==> s.code.serial == |s.compared| - 1)
    && (s.code.Code? && s.attempts.Count? && s.attempts.expiry.Some? ==> s.code.expiry <= s.attempts.expiry.value)
    && (s.code.Get(s.now) != NoCode ==>
          s.compared[s.code.serial] + |Fetchers(s.handlers)| <=
          Min(Tries(s.attempts), MAX_ATTEMPTS) + s.pending[s.code.serial])
    && (s.code.Code? ==> s.code.expiry <= s.now + OTP_TTL)
  }

  lemma FetchersWithout(handlers: map<nat, Handler>, h: nat)
    ensures |Fetchers(handlers - {h})| == |Fetchers(handlers)| - if h in Fetchers(handlers) then 1 else 0
  {
    assert Fetchers(handlers - {h}) == Fetchers(handlers) - {h};
  }

  lemma FetchersWith(handlers: map<nat, Handler>, h: nat, handler: Handler)
    ensures |Fetchers(handlers[h := handler])| ==
            |Fetchers(handlers)| - (if h in Fetchers(handlers) then 1 else 0) + if WillFetch(handler) then 1 else 0
  {
    assert Fetchers(handlers[h := handler]) ==
             if WillFetch(handler) then Fetchers(handlers - {h}) + {h} else Fetchers(handlers - {h});
    FetchersWithout(handlers, h);
  }

  lemma StepKeepsInv(s: Sys, step: Step)
    requires Inv(s)
    ensures Inv(Next(s, step))
  {
    match step
    case Tick(_) =>
    case Issue(_) =>
    case Open(h, submitted) =>
      FetchersWith(s.handlers, h, Next(s, step).handlers[h]);
    case Advance(h) =>
      if h in s.handlers {
        FetchersWithout(s.handlers, h);
        FetchersWith(s.handlers, h, Consume(s.handlers[h].submitted, if s.code.Code? then s.code.serial else 0));
        if s.handlers[h].Arm? { FetchersWith(s.handlers, h, Fetch(s.handlers[h].submitted)); }
      }
    case Crash(h) => FetchersWithout(s.handlers, h);
  }

  lemma {:induction false} RunKeepsInv(now: int, steps: seq<Step>)
    ensures Inv(Run(now, steps))
  {
    if steps != [] {
      RunKeepsInv(now, steps[..|steps| - 1]);
      StepKeepsInv(Run(now, steps[..|steps| - 1]), steps[|steps| - 1]);
    }
  }

  /** Under every interleaving, the comparisons ever made against the k-th code are at most
      five plus the verifications past INCR but not past GET when it was issued. */
  lemma ComparisonBound(now: int, steps: seq<Step>, k: nat)
    requires k < |Run(now, steps).compared|
    ensures var s := Run(now, steps);
            k < |s.pending| && s.compared[k] <= MAX_ATTEMPTS + s.pending[k]
  {
    RunKeepsInv(now, steps);
  }

  // ---------------------------------------------------------------- the answers

  ghost predicate IsIssued(s: Sys, serial: nat, code: string) {
    serial < |s.issued| && s.issued[serial] == code
  }

  /** Yes to a submission that was compared with its own text, no to every other. */
  ghost predicate AnswerOk(s: Sys, a: Answer) {
    && (a.against.Some? ==> a.against.value < |s.issued|)
    && (a.ok <==> a.against.Some? && IsIssued(s, a.against.value, a.submitted))
  }

  ghost predicate AnswersOk(s: Sys) {
    && |s.issued| == |s.compared|
    && (s.code.Code? ==> IsIssued(s, s.code.serial, s.code.code))
    && (forall h | h in s.handlers && s.handlers[h].Consume? ::
          IsIssued(s, s.handlers[h].serial, s.handlers[h].submitted))
    && forall k | 0 <= k < |s.answers| :: AnswerOk(s, s.answers[k])
  }

  lemma StepKeepsAnswers(s: Sys, step: Step)
    requires AnswersOk(s)
    ensures AnswersOk(Next(s, step))
  {
    var t := Next(s, step);
    forall k | 0 <= k < |t.answers| ensures AnswerOk(t, t.answers[k]) {
      assert k < |s.answers| ==> AnswerOk(s, s.answers[k]);
    }
  }

  /** Under every interleaving each answer is right: yes if and only if a code has been fetched
      and it is the one submitted. */
  lemma {:induction false} AnswersAreRight(now: int, steps: seq<Step>)
    ensures AnswersOk(Run(now, steps))
  {
    if steps != [] {
      AnswersAreRight(now, steps[..|steps| - 1]);
      StepKeepsAnswers(Run(now, steps[..|steps| - 1]), steps[|steps| - 1]);
    }
  }

  lemma RunSnoc(now: int, steps: seq<Step>, step: Step)
    ensures Run(now, steps + [step]) == Next(Run(now, steps), step)
  {
    assert (steps + [step])[..|steps|] == steps;
  }

  /** Two verifications that both fetch the code before either deletes it are both told yes. */
  lemma UsedTwice(now: int, code: string) returns (steps: seq<Step>)
    ensures Run(now, steps).issued == [code]
    ensures Run(now, steps).answers == [Answer(code, Some(0), true), Answer(code, Some(0), true)]
  {
    var fetched := BothFetched(now, code);
    RunSnoc(now, fetched, Advance(0));
    RunSnoc(now, fetched + [Advance(0)], Advance(1));
    steps := fetched + [Advance(0)] + [Advance(1)];
  }

  lemma BothFetched(now: int, code: string) returns (steps: seq<Step>)
    ensures Run(now, steps).issued == [code] && Run(now, steps).answers == []
    ensures Run(now, steps).handlers == map[0 := Consume(code, 0), 1 := Consume(code, 0)]
  {
    var one := [] + [Issue(code)];
    RunSnoc(now, [], Issue(code));
    var two := one + [Open(0, code)];
    RunSnoc(now, one, Open(0, code));
    var three := two + [Open(1, code)];
    RunSnoc(now, two, Open(1, code));
    var four := three + [Advance(0)];
    RunSnoc(now, three, Advance(0));
    var five := four + [Advance(0)];
    RunSnoc(now, four, Advance(0));
    steps := five + [Advance(1)];
    RunSnoc(now, five, Advance(1));
    assert Run(now, two).handlers == map[0 := Arm(code)];
    assert Run(now, three).handlers == map[0 := Arm(code), 1 := Fetch(code)];
    assert Run(now, four).handlers == map[0 := Fetch(code), 1 := Fetch(code)];
    assert Run(now, five).handlers == map[0 := Consume(code, 0), 1 := Fetch(code)];
  }

  // ---------------------------------------------------------------- one request at a time

  /** What a verification alone does: new code and attempts keys, whether it compared, and
      its answer. */
  function Verify(code: CodeKey, attempts: Counter, now: int, submitted: string): (CodeKey, Counter, bool, bool) {
    var c := attempts.Incr(now);
    var armed := if c.n == 1 then c.Expire(now, OTP_TTL) else c;
    var stored := code.Get(now);
    if c.n > MAX_ATTEMPTS then (NoCode, armed, false, false)
    else if stored == NoCode then (code, armed, false, false)
    else if stored.code == submitted then (NoCode, NoKey, true, true)
    else (code, armed, true, false)
  }

  /** A verification nothing interleaves with: its handler's calls back to back. */
  function Verified(s: Sys, h: nat, submitted: string): Sys {
    Next(Next(Next(Next(s, Open(h, submitted)), Advance(h)), Advance(h)), Advance(h))
  }

  lemma VerifiedKeepsInv(s: Sys, h: nat, submitted: string)
    requires Inv(s)
    ensures Inv(Verified(s, h, submitted))
  {
    var open := Next(s, Open(h, submitted));
    StepKeepsInv(s, Open(h, submitted));
    StepKeepsInv(open, Advance(h));
    StepKeepsInv(Next(open, Advance(h)), Advance(h));
    StepKeepsInv(Next(Next(open, Advance(h)), Advance(h)), Advance(h));
  }

  lemma VerifiedKeepsAnswers(s: Sys, h: nat, submitted: string)
    requires AnswersOk(s)
    ensures AnswersOk(Verified(s, h, submitted))
  {
    var open := Next(s, Open(h, submitted));
    StepKeepsAnswers(s, Open(h, submitted));
    StepKeepsAnswers(open, Advance(h));
    StepKeepsAnswers(Next(open, Advance(h)), Advance(h));
    StepKeepsAnswers(Next(Next(open, Advance(h)), Advance(h)), Advance(h));
  }

  lemma VerifiedIsVerify(s: Sys, h: nat, submitted: string)
    requires s.handlers == map[]
    ensures var t := Verified(s, h, submitted);
            var (code, attempts, compared, ok) := Verify(s.code, s.attempts, s.now, submitted);
            && t.now == s.now && t.code == code && t.attempts == attempts && t.handlers == map[]
            && t.compared == (if compared then Bump(s.compared, s.code.serial) else s.compared)
            && t.pending == s.pending && t.issued == s.issued
            && t.answers == s.answers + [Answer(submitted, if compared then Some(s.code.serial) else None, ok)]
  {}

  /** As many attempts have been counted as the limit allows, in a count that has not run out. */
  predicate Exhausted(attempts: Counter, now: int) {
    attempts.Count? && (attempts.expiry.Some? ==> now < attempts.expiry.value) && 5 <= attempts.n
  }

  /** Alone, a verification says yes if and only if the code is alive, is the one submitted, and
      fewer than five attempts have been counted; then code and count are gone.  Otherwise the
      code stays, unless the attempts were used up, and the count is one more. */
  lemma VerifyExactly(code: CodeKey, attempts: Counter, now: int, submitted: string)
    ensures var (code', attempts', compared, ok) := Verify(code, attempts, now, submitted);
            && (ok <==> code.Code? && now < code.expiry && code.code == submitted && !Exhausted(attempts, now))
            && (compared <==> code.Code? && now < code.expiry && !Exhausted(attempts, now))
            && (ok ==> code' == NoCode && attempts' == NoKey)
            && (!ok ==> code' == (if Exhausted(attempts, now) then NoCode else code)
                        && attempts'.Count?
                        && attempts'.n == Tries(attempts.Live(now)) + 1
                        && (attempts'.n == 1 ==> attempts'.expiry == Some(now + 300)))
  {}
}
