/** The two login endpoints together, one request at a time: how often one user's codes can
    be compared with a guess. */
module Login {
  import opened Common
  import Otp
  import RateLimit
  import WindowCounter

  /** What happened to this user's codes, and when. */
  datatype Event = Issued(t: int) | Compared(t: int)

  /** `phone` is the user's; other phones share the address counters. */
  datatype World = World(phone: string, limiter: RateLimit.Sys, otp: Otp.Sys, log: seq<Event>)

  /** `active` says whether the phone belongs to an active account just then. */
  datatype Request =
    | Wait(seconds: nat)
    | RequestOtp(phone: string, ip: string, active: bool, code: string)
    | VerifyOtp(submitted: string)

  function Start(now: int, phone: string): World {
    World(phone, RateLimit.Start(now), Otp.Start(now), [])
  }

  function Serve(w: World, r: Request): World {
    match r
    case Wait(seconds) =>
      w.(limiter := RateLimit.Next(w.limiter, RateLimit.Tick(seconds)), otp := Otp.Next(w.otp, Otp.Tick(seconds)))
    case RequestOtp(phone, ip, active, code) =>
      Decided(w, RateLimit.Served(w.limiter, 0, phone, ip), active && phone == w.phone, code)
    case VerifyOtp(submitted) =>
      var verified := Otp.Verified(w.otp, 0, submitted);
      w.(otp := verified, log := if verified.compared != w.otp.compared then w.log + [Compared(w.otp.now)] else w.log)
  }

  /** After the limiter has decided: a code for the user if there is one, and it was granted. */
  function Decided(w: World, limiter: RateLimit.Sys, known: bool, code: string): World {
    if |limiter.grants| > |w.limiter.grants| && known then
      w.(limiter := limiter, otp := Otp.Next(w.otp, Otp.Issue(code)), log := w.log + [Issued(w.otp.now)])
    else w.(limiter := limiter)
  }

  function Run(now: int, phone: string, requests: seq<Request>): World {
    if requests == [] then Start(now, phone)
       else Serve(Run(now, phone, requests[..|requests| - 1]), requests[|requests| - 1])
  }

  lemma DecidedExactly(w: World, limiter: RateLimit.Sys, granted: bool, known: bool, code: string)
    requires |limiter.grants| == |w.limiter.grants| + if granted then 1 else 0
    ensures var t := Decided(w, limiter, known, code);
            if granted && known then
              t.otp.code == Otp.Code(code, |w.otp.compared|, w.otp.now + 300) && t.otp.attempts == WindowCounter.NoKey
              && t.log == w.log + [Issued(w.otp.now)]
            else t.otp == w.otp && t.log == w.log
  {}

  lemma ServedGrants(s: RateLimit.Sys, phone: string, ip: string)
    requires s.handlers == map[]
    ensures |RateLimit.Served(s, 0, phone, ip).grants| ==
            |s.grants| + if RateLimit.Limit(RateLimit.Limiter(s.counters, s.cooldown), s.now, phone, ip).1.Ok?
                         then 1 else 0
  {
    RateLimit.ServedIsLimit(s, 0, phone, ip);
  }

  /** A code is issued if and only if the limiter grants it, to this user's phone, while the
      account is active. */
  lemma GrantsIssue(w: World, phone: string, ip: string, active: bool, code: string, granted: bool)
    requires w.limiter.handlers == map[]
    requires granted == RateLimit.Limit(RateLimit.Limiter(w.limiter.counters, w.limiter.cooldown), w.limiter.now,
                                        phone, ip).1.Ok?
    ensures var t := Serve(w, RequestOtp(phone, ip, active, code));
            if granted && active && phone == w.phone then
              t.otp.code == Otp.Code(code, |w.otp.compared|, w.otp.now + 300) && t.otp.attempts == WindowCounter.NoKey
              && t.log == w.log + [Issued(w.otp.now)]
            else t.otp == w.otp && t.log == w.log
  {
    ServedGrants(w.limiter, phone, ip);
    DecidedExactly(w, RateLimit.Served(w.limiter, 0, phone, ip), granted, active && phone == w.phone, code);
  }

  /** A guess is compared if and only if a code is alive and its attempts are not used up. */
  lemma GuessesCompare(w: World, submitted: string)
    requires Otp.Inv(w.otp) && w.otp.handlers == map[]
    ensures var t := Serve(w, VerifyOtp(submitted));
            var code := w.otp.code;
            t.log == if code.Code? && w.otp.now < code.expiry && !Otp.Exhausted(w.otp.attempts, w.otp.now)
                     then w.log + [Compared(w.otp.now)] else w.log
  {
    Otp.VerifiedIsVerify(w.otp, 0, submitted);
    Otp.VerifyExactly(w.otp.code, w.otp.attempts, w.otp.now, submitted);
  }

  function Comparisons(log: seq<Event>, from: int, to: int): nat {
    if log == [] then 0
    else
      var last := log[|log| - 1];
      Comparisons(log[..|log| - 1], from, to) + if last.Compared? && from <= last.t < to then 1 else 0
  }

  function Issues(log: seq<Event>, from: int, to: int): nat {
    if log == [] then 0
    else
      var last := log[|log| - 1];
      Issues(log[..|log| - 1], from, to) + if last.Issued? && from <= last.t < to then 1 else 0
  }

  /** Comparisons since the last issue. */
  function Streak(log: seq<Event>): nat {
    if log == [] || log[|log| - 1].Issued? then 0 else 1 + Streak(log[..|log| - 1])
  }

  /** Times never go back, and no code is compared more than five times. */
  ghost predicate Tame(log: seq<Event>) {
    log == [] ||
    var front := log[..|log| - 1];
    && Tame(front) && Streak(log) <= Otp.MAX_ATTEMPTS
    && (front != [] ==> front[|front| - 1].t <= log[|log| - 1].t)
  }

  lemma {:induction false} NothingBefore(log: seq<Event>, from: int, to: int)
    requires Tame(log) && (log != [] ==> log[|log| - 1].t < from)
    ensures Comparisons(log, from, to) == 0
  {
    if log != [] {
      NothingBefore(log[..|log| - 1], from, to);
    }
  }

  /** Between two issues there are at most five comparisons, and one code may be carried in. */
  lemma {:induction false} ComparisonsPerIssue(log: seq<Event>, from: int, to: int)
    requires Tame(log)
    ensures Comparisons(log, from, to) <= Otp.MAX_ATTEMPTS * Issues(log, from, to) + Otp.MAX_ATTEMPTS
    ensures log != [] && log[|log| - 1].t < to ==>
              Comparisons(log, from, to) <= Otp.MAX_ATTEMPTS * Issues(log, from, to) + Streak(log)
  {
    if log != [] {
      var front := log[..|log| - 1];
      ComparisonsPerIssue(front, from, to);
      if log[|log| - 1].t < from {
        NothingBefore(log, from, to);
      }
    }
  }

  /** The log tells what the user's keys went through, and every code was issued with no
      verification under way. */
  ghost predicate Logged(otp: Otp.Sys, log: seq<Event>) {
    && Otp.Inv(otp) && otp.handlers == map[]
    && (forall k | 0 <= k < |otp.pending| :: otp.pending[k] == 0)
    && Tame(log) && (log != [] ==> log[|log| - 1].t <= otp.now)
    && Streak(log) == if otp.compared == [] then 0 else otp.compared[|otp.compared| - 1]
  }

  ghost predicate Inv(w: World) {
    RateLimit.Inv(w.limiter) && w.limiter.handlers == map[] && w.limiter.now == w.otp.now && Logged(w.otp, w.log)
  }

  lemma LogSnoc(log: seq<Event>, e: Event)
    ensures (log + [e])[..|log + [e]| - 1] == log
  {}

  lemma IssueKeepsLogged(otp: Otp.Sys, log: seq<Event>, code: string)
    requires Logged(otp, log)
    ensures Logged(Otp.Next(otp, Otp.Issue(code)), log + [Issued(otp.now)])
  {}

  lemma ComparedKeepsLogged(otp: Otp.Sys, log: seq<Event>, after: Otp.Sys, compared: bool)
    requires Logged(otp, log) && Otp.Inv(after) && after.handlers == map[] && after.now == otp.now
    requires after.pending == otp.pending && (compared ==> otp.code.Code?)
    requires after.compared == if compared then Otp.Bump(otp.compared, otp.code.serial) else otp.compared
    ensures Logged(after, if after.compared != otp.compared then log + [Compared(otp.now)] else log)
  {
    LogSnoc(log, Compared(otp.now));
  }

  lemma VerifyKeepsLogged(otp: Otp.Sys, log: seq<Event>, submitted: string)
    requires Logged(otp, log)
    ensures var after := Otp.Verified(otp, 0, submitted);
            Logged(after, if after.compared != otp.compared then log + [Compared(otp.now)] else log)
  {
    Otp.VerifiedKeepsInv(otp, 0, submitted);
    Otp.VerifiedIsVerify(otp, 0, submitted);
    Otp.VerifyExactly(otp.code, otp.attempts, otp.now, submitted);
    ComparedKeepsLogged(otp, log, Otp.Verified(otp, 0, submitted),
                        Otp.Verify(otp.code, otp.attempts, otp.now, submitted).2);
  }

  lemma WaitKeepsInv(w: World, seconds: nat)
    requires Inv(w)
    ensures Inv(Serve(w, Wait(seconds)))
  {}

  lemma RequestKeepsInv(s: RateLimit.Sys, phone: string, ip: string)
    requires RateLimit.Inv(s) && s.handlers == map[]
    ensures var t := RateLimit.Served(s, 0, phone, ip); RateLimit.Inv(t) && t.handlers == map[] && t.now == s.now
  {
    RateLimit.ServedIsLimit(s, 0, phone, ip);
    RateLimit.ServedKeepsInv(s, 0, phone, ip);
  }

  lemma RequestServed(w: World, phone: string, ip: string, active: bool, code: string)
    requires Inv(w)
    ensures Inv(Serve(w, RequestOtp(phone, ip, active, code)))
  {
    RequestKeepsInv(w.limiter, phone, ip);
    IssueKeepsLogged(w.otp, w.log, code);
  }

  lemma VerifyServed(w: World, submitted: string)
    requires Inv(w)
    ensures Inv(Serve(w, VerifyOtp(submitted)))
  {
    Otp.VerifiedIsVerify(w.otp, 0, submitted);
    VerifyKeepsLogged(w.otp, w.log, submitted);
  }

  lemma ServeKeepsInv(w: World, r: Request)
    requires Inv(w)
    ensures Inv(Serve(w, r))
  {
    match r
    case Wait(seconds) => WaitKeepsInv(w, seconds);
    case RequestOtp(phone, ip, active, code) => RequestServed(w, phone, ip, active, code);
    case VerifyOtp(submitted) => VerifyServed(w, submitted);
  }

  lemma {:induction false} RunKeepsInv(now: int, phone: string, requests: seq<Request>)
    ensures Inv(Run(now, phone, requests))
  {
    if requests == [] {
      assert RateLimit.Inv(RateLimit.Run(now, [])) by { RateLimit.RunKeepsInv(now, []); }
    } else {
      RunKeepsInv(now, phone, requests[..|requests| - 1]);
      ServeKeepsInv(Run(now, phone, requests[..|requests| - 1]), requests[|requests| - 1]);
    }
  }

  // ---------------------------------------------------------------- used once

  /** No two yeses are for the same code, and none is for a code still stored. */
  ghost predicate UsedOnce(otp: Otp.Sys) {
    && (otp.code.Code? ==> otp.code.serial == |otp.issued| - 1)
    && (forall k | 0 <= k < |otp.answers| && otp.answers[k].ok :: UsedOk(otp, otp.answers[k]))
    && forall j, k | 0 <= j < k < |otp.answers| && otp.answers[j].ok && otp.answers[k].ok ::
         otp.answers[j].against != otp.answers[k].against
  }

  ghost predicate UsedOk(otp: Otp.Sys, a: Otp.Answer) {
    a.against.Some? && a.against.value < |otp.issued| && (otp.code.Code? ==> a.against.value != otp.code.serial)
  }

  lemma IssueKeepsUsed(otp: Otp.Sys, code: string)
    requires UsedOnce(otp) && |otp.issued| == |otp.compared|
    ensures UsedOnce(Otp.Next(otp, Otp.Issue(code)))
  {
    var t := Otp.Next(otp, Otp.Issue(code));
    forall k | 0 <= k < |t.answers| && t.answers[k].ok ensures UsedOk(t, t.answers[k]) {
      assert UsedOk(otp, otp.answers[k]);
    }
  }

  lemma AnswerKeepsUsed(otp: Otp.Sys, t: Otp.Sys, last: Otp.Answer)
    requires UsedOnce(otp) && t.issued == otp.issued && (t.code == otp.code || t.code == Otp.NoCode)
    requires t.answers == otp.answers + [last]
    requires last.ok ==> otp.code.Code? && last.against == Some(otp.code.serial) && t.code == Otp.NoCode
    ensures UsedOnce(t)
  {
    forall k | 0 <= k < |t.answers| && t.answers[k].ok ensures UsedOk(t, t.answers[k]) {
      assert k < |otp.answers| ==> UsedOk(otp, otp.answers[k]);
    }
    forall j, k | 0 <= j < k < |t.answers| && t.answers[j].ok && t.answers[k].ok
      ensures t.answers[j].against != t.answers[k].against
    {
      assert UsedOk(otp, otp.answers[j]);
    }
  }

  lemma VerifyKeepsUsed(otp: Otp.Sys, submitted: string)
    requires UsedOnce(otp) && otp.handlers == map[]
    ensures UsedOnce(Otp.Verified(otp, 0, submitted))
  {
    var t := Otp.Verified(otp, 0, submitted);
    Otp.VerifiedIsVerify(otp, 0, submitted);
    Otp.VerifyExactly(otp.code, otp.attempts, otp.now, submitted);
    AnswerKeepsUsed(otp, t, t.answers[|otp.answers|]);
  }

  /** One request at a time no code is answered yes twice; and every answer is right. */
  lemma {:induction false} EachCodeOnce(now: int, phone: string, requests: seq<Request>)
    ensures UsedOnce(Run(now, phone, requests).otp) && Otp.AnswersOk(Run(now, phone, requests).otp)
  {
    if requests != [] {
      var front := requests[..|requests| - 1];
      var otp := Run(now, phone, front).otp;
      EachCodeOnce(now, phone, front);
      RunKeepsInv(now, phone, front);
      match requests[|requests| - 1]
      case Wait(seconds) => Otp.StepKeepsAnswers(otp, Otp.Tick(seconds));
      case RequestOtp(_, _, _, code) =>
        Otp.StepKeepsAnswers(otp, Otp.Issue(code));
        IssueKeepsUsed(otp, code);
      case VerifyOtp(submitted) =>
        Otp.VerifiedKeepsAnswers(otp, 0, submitted);
        VerifyKeepsUsed(otp, submitted);
    }
  }

  // ---------------------------------------------------------------- a minute apart

  /** Every grant has the phone cooling for a minute, and the next one came after that. */
  ghost predicate Spaced(s: RateLimit.Sys) {
    && (forall k | 0 <= k < |s.grants| :: CoolsFor(s, s.grants[k]))
    && forall j, k | 0 <= j < k < |s.grants| && s.grants[j].phone == s.grants[k].phone ::
         s.grants[j].done + 60 <= s.grants[k].done
  }

  ghost predicate CoolsFor(s: RateLimit.Sys, g: RateLimit.Grant) {
    g.phone in s.cooldown && g.done + 60 <= s.cooldown[g.phone]
  }

  lemma GrantKeepsSpaced(s: RateLimit.Sys, t: RateLimit.Sys, g: RateLimit.Grant)
    requires Spaced(s) && t.grants == s.grants + [g] && g.done == s.now
    requires !RateLimit.Cooling(s.cooldown, g.phone, s.now) && t.cooldown == s.cooldown[g.phone := s.now + 60]
    ensures Spaced(t)
  {
    forall k | 0 <= k < |s.grants|
      ensures CoolsFor(t, s.grants[k]) && (s.grants[k].phone == g.phone ==> s.grants[k].done + 60 <= g.done)
    {
      assert CoolsFor(s, s.grants[k]);
    }
  }

  lemma RequestKeepsSpaced(s: RateLimit.Sys, phone: string, ip: string)
    requires Spaced(s) && s.handlers == map[]
    ensures Spaced(RateLimit.Served(s, 0, phone, ip))
  {
    var t := RateLimit.Served(s, 0, phone, ip);
    RateLimit.OneGrantAtMost(s, 0, phone, ip);
    SpacedEitherWay(s, t, phone);
  }

  lemma SpacedEitherWay(s: RateLimit.Sys, t: RateLimit.Sys, phone: string)
    requires Spaced(s) && RateLimit.GrantsAtMost(s, t, phone)
    ensures Spaced(t)
  {
    if t.grants == s.grants { SameGrants(s, t); } else { GrantKeepsSpaced(s, t, t.grants[|s.grants|]); }
  }

  lemma SameGrants(s: RateLimit.Sys, t: RateLimit.Sys)
    requires Spaced(s) && t.grants == s.grants && t.cooldown == s.cooldown
    ensures Spaced(t)
  {
    forall k | 0 <= k < |t.grants| ensures CoolsFor(t, t.grants[k]) { assert CoolsFor(s, s.grants[k]); }
  }

  /** One request at a time, two codes granted to one phone are at least a minute apart. */
  lemma {:induction false} MinuteApart(now: int, phone: string, requests: seq<Request>)
    ensures Spaced(Run(now, phone, requests).limiter)
  {
    if requests != [] {
      var front := requests[..|requests| - 1];
      var w := Run(now, phone, front);
      MinuteApart(now, phone, front);
      RunKeepsInv(now, phone, front);
      match requests[|requests| - 1]
      case Wait(seconds) => SameGrants(w.limiter, RateLimit.Next(w.limiter, RateLimit.Tick(seconds)));
      case RequestOtp(p, ip, _, _) => RequestKeepsSpaced(w.limiter, p, ip);
      case VerifyOtp(_) =>
    }
  }

  // ---------------------------------------------------------------- comparisons in an hour

  lemma GrantsSnoc(grants: seq<RateLimit.Grant>, g: RateLimit.Grant, key: RateLimit.Key, from: int, to: int)
    ensures RateLimit.Granted(grants + [g], key, from, to) ==
            RateLimit.Granted(grants, key, from, to) + if RateLimit.GrantIn(g, key, from, to) then 1 else 0
  {}

  /** One request adds an issue only together with a grant counted just then. */
  lemma RequestGrants(w: World, phone: string, ip: string, active: bool, code: string, from: int, to: int)
    requires Inv(w)
    ensures var after := Serve(w, RequestOtp(phone, ip, active, code));
            var key := RateLimit.ByPhone(w.phone);
            Issues(after.log, from, to) - Issues(w.log, from, to) <=
            RateLimit.Granted(after.limiter.grants, key, from, to) - RateLimit.Granted(w.limiter.grants, key, from, to)
  {
    var p, i := |RateLimit.LogOf(w.limiter, RateLimit.ByPhone(phone))|,
    |RateLimit.LogOf(w.limiter, RateLimit.ByIp(ip))|;
    var g := RateLimit.Grant(phone, ip, p, i, w.limiter.now, w.limiter.now, w.limiter.now);
    RateLimit.ServedIsLimit(w.limiter, 0, phone, ip);
    LogSnoc(w.log, Issued(w.otp.now));
    GrantsSnoc(w.limiter.grants, g, RateLimit.ByPhone(w.phone), from, to);
    assert w.limiter.grants + [] == w.limiter.grants;
  }

  /** Every issue was granted, at the time it was counted. */
  lemma {:induction false} IssuesWereGranted(now: int, phone: string, requests: seq<Request>, from: int, to: int)
    ensures var w := Run(now, phone, requests);
            w.phone == phone
            && Issues(w.log, from, to) <= RateLimit.Granted(w.limiter.grants, RateLimit.ByPhone(phone), from, to)
  {
    if requests != [] {
      var front := requests[..|requests| - 1];
      var w := Run(now, phone, front);
      IssuesWereGranted(now, phone, front, from, to);
      RunKeepsInv(now, phone, front);
      match requests[|requests| - 1]
      case Wait(_) =>
      case RequestOtp(p, ip, active, code) => RequestGrants(w, p, ip, active, code, from, to);
      case VerifyOtp(_) => LogSnoc(w.log, Compared(w.otp.now));
    }
  }

  /** Over every run of requests and verifications, one user's codes are compared with at most
      5 * (9 + 1) = 50 guesses in any half-open hour. */
  lemma FiftyGuessesAnHour(now: int, phone: string, requests: seq<Request>, from: int)
    ensures Comparisons(Run(now, phone, requests).log, from, from + 3600) <= 50
  {
    var w := Run(now, phone, requests);
    RunKeepsInv(now, phone, requests);
    IssuesWereGranted(now, phone, requests, from, from + 3600);
    RateLimit.GrantSpanBoundAt(w.limiter, RateLimit.ByPhone(phone), from, WindowCounter.WINDOW);
    WindowCounter.SpanOfWindows(RateLimit.MAX_PER_HOUR, 1);
    ComparisonsPerIssue(w.log, from, from + 3600);
  }
}
