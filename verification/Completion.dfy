/** The limiter's grants dated by when the handler finished, instead of by the INCR that counted
    them: what a handler that stalls in between does to the hourly bounds. */
module Completion {
  import opened WindowCounter
  import opened RateLimit

  predicate DoneIn(g: Grant, key: Key, from: int, to: int) {
    HitOf(g, key).Some? && from <= g.done < to
  }

  /** Granted in the span, but counted before it. */
  predicate CarriedIn(g: Grant, key: Key, from: int, to: int) {
    DoneIn(g, key, from, to) && HitOf(g, key).value.1 < from
  }

  function Completed(grants: seq<Grant>, key: Key, from: int, to: int): nat {
    if grants == [] then 0
    else Completed(grants[..|grants| - 1], key, from, to) + if DoneIn(grants[|grants| - 1], key, from, to) then 1 else 0
  }

  function Carried(grants: seq<Grant>, key: Key, from: int, to: int): nat {
    if grants == [] then 0
    else Carried(grants[..|grants| - 1], key, from, to) + if CarriedIn(grants[|grants| - 1], key, from, to) then 1
    else 0
  }

  // ---------------------------------------------------------------- counted first, granted later

  predicate InOrder(g: Grant) {
    g.counted <= g.done && g.ipCounted <= g.done
  }

  lemma {:induction false} HitsArePast(log: seq<Hit>, p: nat, now: int)
    requires Windowed(log) && p < |log| && Last(log).t <= now
    ensures log[p].t <= now
  {
    if p < |log| - 1 { HitsArePast(log[..|log| - 1], p, now); }
  }

  lemma GrantInOrder(s: Sys, handler: Handler)
    requires CountersOk(s)
    ensures InOrder(GrantOf(s, handler))
  {
    var phone, ip := ByPhone(handler.phone), ByIp(handler.ip);
    assert Explains(LogOf(s, phone), CounterOf(s.counters, phone), s.now);
    assert Explains(LogOf(s, ip), CounterOf(s.counters, ip), s.now);
    if handler.p < |LogOf(s, phone)| { HitsArePast(LogOf(s, phone), handler.p, s.now); }
    if handler.i < |LogOf(s, ip)| { HitsArePast(LogOf(s, ip), handler.i, s.now); }
  }

  lemma {:induction false} GrantsInOrder(now: int, steps: seq<Step>)
    ensures forall k | 0 <= k < |Run(now, steps).grants| :: InOrder(Run(now, steps).grants[k])
  {
    if steps != [] {
      var front, step := steps[..|steps| - 1], steps[|steps| - 1];
      var s := Run(now, front);
      GrantsInOrder(now, front);
      RunKeepsInv(now, front);
      if step.Advance? && step.h in s.handlers { GrantInOrder(s, s.handlers[step.h]); }
    }
  }

  // ---------------------------------------------------------------- bounds

  lemma {:induction false} CompletedSplits(grants: seq<Grant>, key: Key, from: int, to: int)
    requires forall k | 0 <= k < |grants| :: InOrder(grants[k])
    ensures Completed(grants, key, from, to) <= Granted(grants, key, from, to) + Carried(grants, key, from, to)
  {
    if grants != [] {
      var front := grants[..|grants| - 1];
      assert forall k | 0 <= k < |front| :: front[k] == grants[k];
      CompletedSplits(front, key, from, to);
      assert InOrder(grants[|grants| - 1]);
    }
  }

  /** Under every interleaving: what is granted in a span beyond `SpanMax` was counted before
      it.  So nine and thirty-nine stand for an hour in which nothing completes that was counted
      before it. */
  lemma ExcessWasCarriedIn(now: int, steps: seq<Step>, key: Key, from: int, span: nat)
    requires span > 0
    ensures Completed(Run(now, steps).grants, key, from, from + span) <=
            SpanMax(LimitOf(key), span) + Carried(Run(now, steps).grants, key, from, from + span)
  {
    GrantsInOrder(now, steps);
    CompletedSplits(Run(now, steps).grants, key, from, from + span);
    GrantSpanBound(now, steps, key, from, span);
  }

  /** Every grant follows its counting INCR by at most `stall` seconds. */
  predicate Prompt(grants: seq<Grant>, key: Key, stall: nat) {
    forall k | 0 <= k < |grants| && HitOf(grants[k], key).Some? ::
      grants[k].done - HitOf(grants[k], key).value.1 <= stall
  }

  lemma {:induction false} CompletedWasCounted(grants: seq<Grant>, key: Key, from: int, to: int, stall: nat)
    requires Prompt(grants, key, stall)
    requires forall k | 0 <= k < |grants| :: InOrder(grants[k])
    ensures Completed(grants, key, from, to) <= Granted(grants, key, from - stall, to)
  {
    if grants != [] {
      var n := |grants| - 1;
      assert forall k | 0 <= k < n :: grants[..n][k] == grants[k];
      CompletedWasCounted(grants[..n], key, from, to, stall);
      assert InOrder(grants[n]);
    }
  }

  /** If no handler stalls for more than `stall` seconds between counting and granting, a span
      sees no more grants than one that is `stall` seconds longer sees counts. */
  lemma CompletionBound(now: int, steps: seq<Step>, key: Key, from: int, span: nat, stall: nat)
    requires span > 0 && Prompt(Run(now, steps).grants, key, stall)
    ensures Completed(Run(now, steps).grants, key, from, from + span) <= SpanMax(LimitOf(key), stall + span)
  {
    GrantsInOrder(now, steps);
    CompletedWasCounted(Run(now, steps).grants, key, from, from + span, stall);
    GrantSpanBound(now, steps, key, from - stall, stall + span);
  }
}
