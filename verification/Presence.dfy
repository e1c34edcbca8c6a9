/** The presence registry in Redis, with replicas registering and unregistering connections
    at the same time.  Registering is one pipeline; unregistering takes three round trips. */
module Presence {
  type User = string
  type Conn = string

  const CONN_TTL: nat := 90

  /** An `unregister` after its pipeline: SCARD next, or, having read zero, SREM next.  A
      handler that never makes its next call stands for one whose process died. */
  datatype Handler = CountLeft(user: User) | GoOffline(user: User)

  /** Keys `ws:conn:{c}` (with a TTL), `ws:user:{u}` and `ws:online` (without). */
  datatype Sys = Sys(now: int, alive: map<Conn, int>, conns: map<User, set<Conn>>, online: set<User>,
                     handlers: map<nat, Handler>)

  datatype Step =
    | Tick(seconds: nat)
    | Register(user: User, conn: Conn)
    | Heartbeat(conn: Conn)
    | Unregister(h: nat, user: User, conn: Conn)
    | Advance(h: nat)

  const EMPTY := Sys(0, map[], map[], {}, map[])

  function ConnsOf(conns: map<User, set<Conn>>, user: User): set<Conn> {
    if user in conns then conns[user] else {}
  }

  function Next(s: Sys, step: Step): Sys {
    match step
    case Tick(seconds) => s.(now := s.now + seconds)
    case Register(user, conn) =>
      s.(alive := s.alive[conn := s.now + CONN_TTL], conns := s.conns[user := ConnsOf(s.conns, user) + {conn}],
         online := s.online + {user})
    case Heartbeat(conn) =>
      if conn in s.alive && s.now < s.alive[conn] then s.(alive := s.alive[conn := s.now + CONN_TTL]) else s
    case Unregister(h, user, conn) =>
      if h in s.handlers then s
      else s.(alive := s.alive - {conn}, conns := s.conns[user := ConnsOf(s.conns, user) - {conn}],
              handlers := s.handlers[h := CountLeft(user)])
    case Advance(h) => if h in s.handlers then Call(s, h, s.handlers[h]) else s
  }

  function Call(s: Sys, h: nat, handler: Handler): Sys {
    match handler
    case CountLeft(user) =>
      if ConnsOf(s.conns, user) == {} then s.(handlers := s.handlers[h := GoOffline(user)])
      else s.(handlers := s.handlers - {h})
    case GoOffline(user) => s.(online := s.online - {user}, handlers := s.handlers - {h})
  }

  function Run(steps: seq<Step>): Sys {
    if steps == [] then EMPTY else Next(Run(steps[..|steps| - 1]), steps[|steps| - 1])
  }

  // ---------------------------------------------------------------- online implies connected

  ghost predicate Leaving(s: Sys, user: User) {
    exists h :: h in s.handlers && s.handlers[h].user == user
  }

  ghost predicate OnlineExplained(s: Sys) {
    forall u | u in s.online :: ConnsOf(s.conns, u) != {} || Leaving(s, u)
  }

  lemma StepKeepsExplained(s: Sys, step: Step)
    requires OnlineExplained(s)
    ensures OnlineExplained(Next(s, step))
  {
    var t := Next(s, step);
    forall u | u in t.online ensures ConnsOf(t.conns, u) != {} || Leaving(t, u) {
      if step.Register? && u == step.user {
        assert step.conn in ConnsOf(t.conns, u);
      } else if ConnsOf(t.conns, u) == {} {
        if step.Unregister? && step.h !in s.handlers && u == step.user {
          assert t.handlers[step.h].user == u;
        } else {
          var g :| g in s.handlers && s.handlers[g].user == u;
          assert g in t.handlers && t.handlers[g].user == u;
        }
      }
    }
  }

  /** Under every interleaving, a user in `ws:online` without connections has an unfinished
      unregister; when none is in flight, everybody online is connected. */
  lemma {:induction false} OnlineIsExplained(steps: seq<Step>)
    ensures OnlineExplained(Run(steps))
    ensures Run(steps).handlers == map[] ==> forall u | u in Run(steps).online :: ConnsOf(Run(steps).conns, u) != {}
  {
    if steps != [] {
      OnlineIsExplained(steps[..|steps| - 1]);
      StepKeepsExplained(Run(steps[..|steps| - 1]), steps[|steps| - 1]);
    }
  }

  // ---------------------------------------------------------------- connected implies online

  /** A register landing between another handler's SCARD = 0 and its SREM. */
  ghost predicate Overtakes(s: Sys, step: Step) {
    step.Register? && exists h :: h in s.handlers && s.handlers[h] == GoOffline(step.user)
  }

  ghost predicate NoOvertaking(steps: seq<Step>) {
    forall k | 0 <= k < |steps| :: !Overtakes(Run(steps[..k]), steps[k])
  }

  ghost predicate ConnectedOnline(s: Sys) {
    && (forall u | u in s.conns && s.conns[u] != {} :: u in s.online)
    && (forall h | h in s.handlers && s.handlers[h].GoOffline? :: ConnsOf(s.conns, s.handlers[h].user) == {})
  }

  lemma StepKeepsConnected(s: Sys, step: Step)
    requires ConnectedOnline(s) && !Overtakes(s, step)
    ensures ConnectedOnline(Next(s, step))
  {}

  /** If no register overtakes, connected users are online, and when no unregister is in
      flight, online users are exactly the connected ones. */
  lemma {:induction false} OnlineIsConnected(steps: seq<Step>)
    requires NoOvertaking(steps)
    ensures ConnectedOnline(Run(steps))
    ensures Run(steps).handlers == map[] ==> forall u :: u in Run(steps).online <==> ConnsOf(Run(steps).conns, u) != {}
  {
    OnlineIsExplained(steps);
    if steps != [] {
      var n := |steps| - 1;
      var front := steps[..n];
      assert NoOvertaking(front) by {
        forall k | 0 <= k < n ensures !Overtakes(Run(front[..k]), front[k]) {
          assert front[..k] == steps[..k] && !Overtakes(Run(steps[..k]), steps[k]);
        }
      }
      OnlineIsConnected(front);
      assert !Overtakes(Run(steps[..n]), steps[n]);
      StepKeepsConnected(Run(front), steps[n]);
    }
  }

  /** Exactly one step can hide a connected user: the SREM of an overtaken unregister.  Any
      register of the user shows it again. */
  lemma HiddenExactly(s: Sys, step: Step, user: User)
    requires ConnsOf(s.conns, user) != {} ==> user in s.online
    ensures var t := Next(s, step);
            (ConnsOf(t.conns, user) != {} && user !in t.online) <==>
              (step.Advance? && step.h in s.handlers && s.handlers[step.h] == GoOffline(user)
               && ConnsOf(s.conns, user) != {})
    ensures forall conn :: user in Next(s, Register(user, conn)).online
  {}

  ghost predicate AllShown(s: Sys) {
    forall u | u in s.conns && s.conns[u] != {} :: u in s.online
  }

  /** The SREM of an unregister whose user has connected again. */
  predicate Hides(s: Sys, step: Step) {
    && step.Advance? && step.h in s.handlers && s.handlers[step.h].GoOffline?
    && ConnsOf(s.conns, s.handlers[step.h].user) != {}
  }

  ghost predicate AlwaysShown(steps: seq<Step>) {
    AllShown(Run(steps)) && (steps != [] ==> AlwaysShown(steps[..|steps| - 1]))
  }

  predicate NeverHides(steps: seq<Step>) {
    steps != [] ==> NeverHides(steps[..|steps| - 1]) && !Hides(Run(steps[..|steps| - 1]), steps[|steps| - 1])
  }

  /** Connected users are in `ws:online` throughout a run if and only if no SREM falls on one. */
  lemma {:induction false} ShownExactly(steps: seq<Step>)
    ensures AlwaysShown(steps) <==> NeverHides(steps)
  {
    if steps != [] {
      var front, step := steps[..|steps| - 1], steps[|steps| - 1];
      ShownExactly(front);
      var s, t := Run(front), Run(steps);
      if Hides(s, step) {
        var user := s.handlers[step.h].user;
        assert user in t.conns && t.conns[user] != {} && user !in t.online;
      }
    }
  }

  /** The race is real: a connected user who is not in `ws:online`. */
  lemma OvertakingHides()
    ensures exists steps ::
              ConnsOf(Run(steps).conns, "u") == {"c2"} && "u" !in Run(steps).online && Run(steps).handlers == map[]
  {
    var s1 := [Register("u", "c1")];
    var s2 := s1 + [Unregister(0, "u", "c1")];
    var s3 := s2 + [Advance(0)];
    var s4 := s3 + [Register("u", "c2")];
    var s5 := s4 + [Advance(0)];
    RunSnoc([], Register("u", "c1"));
    assert [] + [Register("u", "c1")] == s1;
    RunSnoc(s1, Unregister(0, "u", "c1"));
    RunSnoc(s2, Advance(0));
    RunSnoc(s3, Register("u", "c2"));
    RunSnoc(s4, Advance(0));
    assert Run(s3).handlers == map[0 := GoOffline("u")];
    assert ConnsOf(Run(s5).conns, "u") == {"c2"};
  }

  lemma RunSnoc(steps: seq<Step>, step: Step)
    ensures Run(steps + [step]) == Next(Run(steps), step)
  {}

  // ---------------------------------------------------------------- no reaping

  /** After step `k`, nobody unregisters this connection of this user. */
  predicate NeverLeft(steps: seq<Step>, k: nat, user: User, conn: Conn) {
    forall j | k < j < |steps| && steps[j].Unregister? :: steps[j].user != user || steps[j].conn != conn
  }

  predicate AboutToHide(s: Sys, user: User) {
    exists h :: h in s.handlers && s.handlers[h] == GoOffline(user)
  }

  /** A socket that dies without an unregister of its own stays in `ws:user` for ever, however
      long ago its `ws:conn` key expired and whatever the user's other sockets do; and its
      user stays in `ws:online`, unless an SREM was already due when it was registered. */
  lemma {:induction false} SilentSocketsStay(steps: seq<Step>, k: nat)
    requires k < |steps| && steps[k].Register?
    requires NeverLeft(steps, k, steps[k].user, steps[k].conn)
    ensures steps[k].conn in ConnsOf(Run(steps).conns, steps[k].user)
    ensures !AboutToHide(Run(steps[..k]), steps[k].user) ==>
              steps[k].user in Run(steps).online && !AboutToHide(Run(steps), steps[k].user)
  {
    var n := |steps| - 1;
    if k == n {
      assert steps[..k] == steps[..n];
    } else {
      var front := steps[..n];
      assert front[k] == steps[k] && front[..k] == steps[..k];
      assert NeverLeft(front, k, steps[k].user, steps[k].conn) by {
        assert forall j | 0 <= j < n :: front[j] == steps[j];
      }
      SilentSocketsStay(front, k);
      StepKeepsSilent(Run(front), steps[n], steps[k].user, steps[k].conn);
    }
  }

  /** While one connection stays, no unregister of the user can read zero. */
  lemma StepKeepsSilent(s: Sys, step: Step, user: User, conn: Conn)
    requires conn in ConnsOf(s.conns, user)
    requires step.Unregister? ==> step.user != user || step.conn != conn
    ensures conn in ConnsOf(Next(s, step).conns, user)
    ensures user in s.online && !AboutToHide(s, user) ==>
              user in Next(s, step).online && !AboutToHide(Next(s, step), user)
  {
    var t := Next(s, step);
    forall h | h in t.handlers && t.handlers[h] == GoOffline(user)
      ensures h in s.handlers && s.handlers[h] == GoOffline(user) {}
  }

  // ---------------------------------------------------------------- who is connected

  /** A new handler takes this connection out of this user's set. */
  predicate Leaves(s: Sys, step: Step, user: User, conn: Conn) {
    step.Unregister? && step.user == user && step.conn == conn && step.h !in s.handlers
  }

  predicate LeavesAt(steps: seq<Step>, j: nat, user: User, conn: Conn) {
    j < |steps| && Leaves(Run(steps[..j]), steps[j], user, conn)
  }

  /** Registered at `k` and not unregistered since. */
  ghost predicate JoinedAt(steps: seq<Step>, k: nat, user: User, conn: Conn) {
    k < |steps| && steps[k] == Register(user, conn) && forall j: nat | k < j :: !LeavesAt(steps, j, user, conn)
  }

  lemma JoinedAtSnoc(steps: seq<Step>, step: Step, k: nat, user: User, conn: Conn)
    requires k < |steps|
    ensures JoinedAt(steps + [step], k, user, conn) <==>
              JoinedAt(steps, k, user, conn) && !Leaves(Run(steps), step, user, conn)
  {
    var longer := steps + [step];
    assert longer[..|steps|] == steps;
    assert LeavesAt(longer, |steps|, user, conn) <==> Leaves(Run(steps), step, user, conn);
    forall j: nat | j < |steps| ensures LeavesAt(longer, j, user, conn) <==> LeavesAt(steps, j, user, conn) {
      assert longer[..j] == steps[..j];
    }
    assert forall j: nat | j > |steps| :: !LeavesAt(longer, j, user, conn);
  }

  /** In every run `ws:user` holds a connection of a user if and only if it was registered and
      has not been unregistered since. */
  lemma {:induction false} ConnectedExactly(steps: seq<Step>, user: User, conn: Conn)
    ensures conn in ConnsOf(Run(steps).conns, user) <==> exists k: nat :: JoinedAt(steps, k, user, conn)
  {
    if steps != [] {
      var n := |steps| - 1;
      var front, step := steps[..n], steps[n];
      ConnectedExactly(front, user, conn);
      assert steps == front + [step];
      forall k: nat | k < n ensures
          JoinedAt(steps, k, user, conn) <==> JoinedAt(front, k, user, conn) && !Leaves(Run(front), step, user, conn)
      {
        JoinedAtSnoc(front, step, k, user, conn);
      }
      if step == Register(user, conn) {
        assert JoinedAt(steps, n, user, conn);
      }
    }
  }

  // ---------------------------------------------------------------- one replica

  lemma UnregisterAlone(s: Sys, user: User, conn: Conn)
    requires s.handlers == map[]
    ensures var rest := ConnsOf(s.conns, user) - {conn};
            Next(Next(Next(s, Unregister(0, user, conn)), Advance(0)), Advance(0)) ==
            s.(alive := s.alive - {conn}, conns := s.conns[user := rest],
               online := if rest == {} then s.online - {user} else s.online)
  {}

  function Connected(conns: map<User, set<Conn>>): set<User> {
    set u | u in conns && conns[u] != {}
  }

  class ConnectionManager {
    var now: int
    var local: set<Conn>
    var alive: map<Conn, int>
    var conns: map<User, set<Conn>>
    var online: set<User>

    constructor ()
      ensures View() == EMPTY && local == {} && Valid()
    {
      now, local, alive, conns, online := 0, {}, map[], map[], {};
    }

    function View(): Sys
      reads this
    {
      Sys(now, alive, conns, online, map[])
    }

    /** Online means having a connection; a single replica at work keeps it so. */
    ghost predicate Valid()
      reads this
    {
      forall u :: u in online <==> ConnsOf(conns, u) != {}
    }

    /** `conn` is the random connection id. */
    method Register(user: User, conn: Conn)
      modifies this
      ensures old(Valid()) ==> Valid()
      ensures View() == Next(old(View()), Step.Register(user, conn)) && local == old(local) + {conn}
      ensures alive == old(alive)[conn := now + 90] && online == old(online) + {user}
      ensures conns == old(conns)[user := ConnsOf(old(conns), user) + {conn}]
    {
      local := local + {conn};
      alive := alive[conn := now + CONN_TTL];
      conns := conns[user := ConnsOf(conns, user) + {conn}];
      online := online + {user};
      assert conn in ConnsOf(conns, user);
    }

    method Heartbeat(conn: Conn)
      modifies this
      ensures old(Valid()) ==> Valid()
      ensures View() == Next(old(View()), Step.Heartbeat(conn)) && local == old(local)
      ensures alive == if conn in old(alive) && now < old(alive)[conn] then old(alive)[conn := now + 90] else old(alive)
    {
      if conn in alive && now < alive[conn] {
        alive := alive[conn := now + CONN_TTL];
      }
    }

    /** The three round trips without interference. */
    method Unregister(user: User, conn: Conn)
      modifies this
      ensures old(Valid()) ==> Valid()
      ensures local == old(local) - {conn}
      ensures View() == Next(Next(Next(old(View()), Step.Unregister(0, user, conn)), Advance(0)), Advance(0))
      ensures old(Valid()) ==> (user in online <==> ConnsOf(old(conns), user) - {conn} != {})
      ensures alive == old(alive) - {conn} && conns == old(conns)[user := ConnsOf(old(conns), user) - {conn}]
      ensures online == if ConnsOf(conns, user) == {} then old(online) - {user} else old(online)
    {
      UnregisterAlone(View(), user, conn);
      local := local - {conn};
      alive := alive - {conn};
      conns := conns[user := ConnsOf(conns, user) - {conn}];
      var remaining := |ConnsOf(conns, user)|;
      if remaining == 0 {
        online := online - {user};
      }
    }

    /** With nothing in flight, the number of users who have a connection. */
    method OnlineCount() returns (n: nat)
      ensures n == |online|
      ensures Valid() ==> n == |Connected(conns)|
    {
      if Valid() { assert online == Connected(conns); }
      n := |online|;
    }

    method IsOnline(user: User) returns (yes: bool)
      ensures yes <==> user in online
      ensures Valid() ==> (yes <==> ConnsOf(conns, user) != {})
    {
      yes := user in online;
    }
  }
}
