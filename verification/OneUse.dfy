/** When a one-time code is used twice: exactly when a verification fetches it that another one
    has fetched and not yet deleted. */
module OneUse {
  import opened Common
  import opened Otp

  /** How often the `k`-th code has been answered yes, and who has matched it and not deleted it. */
  function Uses(answers: seq<Answer>, k: nat): nat {
    if answers == [] then 0
    else Uses(answers[..|answers| - 1], k) + if IsUse(answers[|answers| - 1], k) then 1 else 0
  }

  predicate IsUse(a: Answer, k: nat) {
    a.ok && a.against == Some(k)
  }

  function Holders(handlers: map<nat, Handler>, k: nat): set<nat> {
    set h | h in handlers && handlers[h].Consume? && handlers[h].serial == k
  }

  /** Two yeses name two answers. */
  lemma {:induction false} UsesAreAnswers(answers: seq<Answer>, k: nat)
    ensures Uses(answers, k) == 0 <==> forall i | 0 <= i < |answers| :: !IsUse(answers[i], k)
    ensures Uses(answers, k) >= 2 <==>
              exists i, j :: 0 <= i < j < |answers| && IsUse(answers[i], k) && IsUse(answers[j], k)
  {
    if answers != [] {
      var n := |answers| - 1;
      UsesAreAnswers(answers[..n], k);
      assert forall i | 0 <= i < n :: answers[..n][i] == answers[i];
    }
  }

  lemma UsesSnoc(answers: seq<Answer>, a: Answer, k: nat)
    ensures Uses(answers + [a], k) == Uses(answers, k) + if IsUse(a, k) then 1 else 0
  {
    assert (answers + [a])[..|answers|] == answers;
  }

  lemma HoldersWith(handlers: map<nat, Handler>, h: nat, handler: Handler, k: nat)
    requires h !in Holders(handlers, k)
    ensures |Holders(handlers[h := handler], k)| ==
            |Holders(handlers, k)| + if handler.Consume? && handler.serial == k then 1 else 0
  {
    assert Holders(handlers[h := handler], k) ==
             Holders(handlers, k) + if handler.Consume? && handler.serial == k then {h} else {};
  }

  lemma HoldersWithout(handlers: map<nat, Handler>, h: nat, k: nat)
    ensures |Holders(handlers - {h}, k)| == |Holders(handlers, k)| - if h in Holders(handlers, k) then 1 else 0
  {
    assert Holders(handlers - {h}, k) == Holders(handlers, k) - {h};
  }

  function Total(s: Sys, k: nat): nat {
    Uses(s.answers, k) + |Holders(s.handlers, k)|
  }

  /** The step is a GET that finds the `k`-th code alive and the one submitted. */
  predicate Takes(s: Sys, step: Step, k: nat) {
    && step.Advance? && step.h in s.handlers && s.handlers[step.h].Fetch?
    && s.code.Code? && s.now < s.code.expiry && s.code.serial == k && s.code.code == s.handlers[step.h].submitted
  }

  /** Another verification holds that code already. */
  predicate Overlaps(s: Sys, step: Step, k: nat) {
    Takes(s, step, k) && Holders(s.handlers, k) != {}
  }

  /** A verification dies between GET and DEL. */
  predicate DiesHolding(s: Sys, step: Step) {
    step.Crash? && step.h in s.handlers && s.handlers[step.h].Consume?
  }

  predicate SomeOverlap(now: int, steps: seq<Step>, k: nat) {
    steps != [] &&
    var front := steps[..|steps| - 1];
    SomeOverlap(now, front, k) || Overlaps(Run(now, front), steps[|steps| - 1], k)
  }

  predicate NoneDies(now: int, steps: seq<Step>) {
    steps != [] ==>
      var front := steps[..|steps| - 1];
      NoneDies(now, front) && !DiesHolding(Run(now, front), steps[|steps| - 1])
  }

  /** A code that has been used is stored no more; serials are never given out again. */
  ghost predicate Gone(s: Sys, k: nat) {
    && (s.code.Code? ==> s.code.serial < |s.compared|)
    && (Total(s, k) > 0 ==> k < |s.compared|)
    && (Uses(s.answers, k) > 0 && s.code.Code? ==> s.code.serial != k)
  }

  /** What a step adds to the uses made and due. */
  lemma StepTotals(s: Sys, step: Step, k: nat)
    ensures var t := Next(s, step);
            if DiesHolding(s, step) then Total(t, k) <= Total(s, k) && t.answers == s.answers
            else Total(t, k) == Total(s, k) + if Takes(s, step, k) then 1 else 0
  {
    match step
    case Tick(_) =>
    case Issue(_) =>
    case Open(h, submitted) =>
      if h !in s.handlers { HoldersWith(s.handlers, h, Next(s, step).handlers[h], k); }
    case Advance(h) => if h in s.handlers { CallTotals(s, h, k); }
    case Crash(h) => HoldersWithout(s.handlers, h, k);
  }

  lemma CallTotals(s: Sys, h: nat, k: nat)
    requires h in s.handlers
    ensures Total(Next(s, Advance(h)), k) == Total(s, k) + if Takes(s, Advance(h), k) then 1 else 0
  {
    var t := Next(s, Advance(h));
    HoldersWithout(s.handlers, h, k);
    if h in t.handlers {
      HoldersWith(s.handlers, h, t.handlers[h], k);
    } else {
      UsesSnoc(s.answers, t.answers[|s.answers|], k);
    }
  }

  lemma StepKeepsGone(s: Sys, step: Step, k: nat)
    requires Gone(s, k)
    ensures Gone(Next(s, step), k)
  {
    var t := Next(s, step);
    StepTotals(s, step, k);
    if t.answers != s.answers { UsesSnoc(s.answers, t.answers[|s.answers|], k); }
  }

  /** Two uses made or due mean an overlap; and an overlap means that, if no verification has
      died in between. */
  lemma {:induction false} OverlapsCount(now: int, steps: seq<Step>, k: nat)
    ensures Gone(Run(now, steps), k)
    ensures Total(Run(now, steps), k) >= 2 ==> SomeOverlap(now, steps, k)
    ensures NoneDies(now, steps) && SomeOverlap(now, steps, k) ==> Total(Run(now, steps), k) >= 2
  {
    if steps != [] {
      var front, step := steps[..|steps| - 1], steps[|steps| - 1];
      var s := Run(now, front);
      OverlapsCount(now, front, k);
      StepTotals(s, step, k);
      StepKeepsGone(s, step, k);
      if Holders(s.handlers, k) == {} { assert |Holders(s.handlers, k)| == 0; }
    }
  }

  /** A code is answered yes twice only if a verification has fetched it that another one had in
      hand; and if none has died with a code in hand and all have finished, exactly then. */
  lemma UsedTwiceExactly(now: int, steps: seq<Step>, k: nat)
    ensures var s := Run(now, steps);
            var twice := exists i, j ::
                           0 <= i < j < |s.answers| && IsUse(s.answers[i], k) && IsUse(s.answers[j], k);
            && (twice ==> SomeOverlap(now, steps, k))
            && (NoneDies(now, steps) && s.handlers == map[] ==> (twice <==> SomeOverlap(now, steps, k)))
  {
    var s := Run(now, steps);
    OverlapsCount(now, steps, k);
    UsesAreAnswers(s.answers, k);
    if s.handlers == map[] { assert Holders(s.handlers, k) == {}; }
  }
}
