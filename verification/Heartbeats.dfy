/** How long a connection's own key `ws:conn:{c}` lives. */
module Heartbeats {
  import opened Common
  import opened Presence

  /** What a step means to one connection. */
  datatype Kind = Registered | Beat | Dropped | Other

  /** The time, and when the connection's key runs out. */
  datatype Moment = Moment(now: int, expiry: Option<int>) {
    predicate Live() {
      expiry.Some? && now < expiry.value
    }
  }

  function KindOf(s: Sys, step: Step, conn: Conn): Kind {
    match step
    case Register(_, c) => if c == conn then Registered else Other
    case Heartbeat(c) => if c == conn then Beat else Other
    case Unregister(h, _, c) => if c == conn && h !in s.handlers then Dropped else Other
    case _ => Other
  }

  function MomentOf(s: Sys, conn: Conn): Moment {
    Moment(s.now, if conn in s.alive then Some(s.alive[conn]) else None)
  }

  /** What the `j`-th step of a run means to the connection, and how things are before it. */
  function Kinds(steps: seq<Step>, conn: Conn): seq<Kind> {
    seq(|steps|, (j: nat) requires j < |steps| => KindOf(Run(steps[..j]), steps[j], conn))
  }

  function Moments(steps: seq<Step>, conn: Conn): seq<Moment> {
    seq(|steps| + 1, (j: nat) requires j <= |steps| => MomentOf(Run(steps[..j]), conn))
  }

  // ---------------------------------------------------------------- over any course of moments

  /** A register sets the key for 90 seconds; a beat only renews it. */
  ghost predicate Moves(a: Moment, kind: Kind, b: Moment) {
    && a.now <= b.now
    && (kind == Registered || (kind == Beat && a.Live()) ==> b.now == a.now && b.expiry == Some(b.now + 90))
    && (kind == Dropped ==> b.expiry.None?)
    && (kind == Other || (kind == Beat && !a.Live()) ==> b.expiry == a.expiry)
  }

  ghost predicate Course(ms: seq<Moment>, kinds: seq<Kind>) {
    |ms| == |kinds| + 1 && forall j: nat | j < |kinds| :: MovesAt(ms, kinds, j)
  }

  ghost predicate MovesAt(ms: seq<Moment>, kinds: seq<Kind>, j: nat) {
    j < |kinds| && j + 1 < |ms| && Moves(ms[j], kinds[j], ms[j + 1])
  }

  predicate BeatAt(kinds: seq<Kind>, i: nat) {
    i < |kinds| && (kinds[i] == Registered || kinds[i] == Beat)
  }

  /** The beat at `i` is less than 90 seconds ago at moment `j`. */
  ghost predicate Lately(ms: seq<Moment>, kinds: seq<Kind>, i: nat, j: nat) {
    BeatAt(kinds, i) && i + 1 < |ms| && j < |ms| && i < j && ms[j].now < ms[i + 1].now + 90
  }

  ghost predicate BeatenLately(ms: seq<Moment>, kinds: seq<Kind>, k: nat, j: nat) {
    exists i: nat :: k <= i && Lately(ms, kinds, i, j)
  }

  /** Registered at `k`, up to moment `n` not dropped since, and at every moment since the last
      beat was less than 90 seconds ago. */
  ghost predicate BeatsSince(ms: seq<Moment>, kinds: seq<Kind>, k: nat, n: nat) {
    && k < n <= |kinds| && kinds[k] == Registered
    && (forall i | k < i < n :: kinds[i] != Dropped)
    && (forall j: nat | k < j <= n :: BeatenLately(ms, kinds, k, j))
  }

  /** The key outlasts every beat since `k` by 90 seconds. */
  ghost predicate Covers(ms: seq<Moment>, kinds: seq<Kind>, k: nat, n: nat) {
    && n < |ms| && ms[n].expiry.Some?
    && forall i: nat | k <= i < n && BeatAt(kinds, i) ::
         i + 1 < |ms| && ms[i + 1].now + 90 <= ms[n].expiry.value
  }

  lemma CoveredIsLive(ms: seq<Moment>, kinds: seq<Kind>, k: nat, n: nat)
    requires Covers(ms, kinds, k, n) && BeatenLately(ms, kinds, k, n)
    ensures ms[n].Live()
  {}

  lemma {:induction false} NowRises(ms: seq<Moment>, kinds: seq<Kind>, i: nat, j: nat)
    requires Course(ms, kinds) && i <= j < |ms|
    ensures ms[i].now <= ms[j].now
  {
    if i < j {
      NowRises(ms, kinds, i, j - 1);
      assert MovesAt(ms, kinds, j - 1);
    }
  }

  lemma {:induction false} BeatingCovers(ms: seq<Moment>, kinds: seq<Kind>, k: nat, n: nat)
    requires Course(ms, kinds) && BeatsSince(ms, kinds, k, n)
    ensures Covers(ms, kinds, k, n) && ms[n].Live()
  {
    assert MovesAt(ms, kinds, n - 1);
    if n > k + 1 {
      BeatingCovers(ms, kinds, k, n - 1);
      if BeatAt(kinds, n - 1) {
        forall i: nat | k <= i < n && BeatAt(kinds, i) ensures ms[i + 1].now + 90 <= ms[n].expiry.value {
          NowRises(ms, kinds, i + 1, n);
        }
      }
    }
    assert BeatenLately(ms, kinds, k, n);
    CoveredIsLive(ms, kinds, k, n);
  }

  /** A live key goes back to a register, and runs out 90 seconds after a beat since. */
  lemma {:induction false} LiveWasBeaten(ms: seq<Moment>, kinds: seq<Kind>, n: nat) returns (k: nat, i: nat)
    requires Course(ms, kinds) && n <= |kinds| && ms[n].Live() && ms[0].expiry.None?
    ensures BeatsSince(ms, kinds, k, n) && k <= i < n && BeatAt(kinds, i)
    ensures ms[n].expiry == Some(ms[i + 1].now + 90)
  {
    assert MovesAt(ms, kinds, n - 1);
    if kinds[n - 1] == Registered {
      k, i := n - 1, n - 1;
    } else {
      k, i := LiveWasBeaten(ms, kinds, n - 1);
      if kinds[n - 1] == Beat { i := n - 1; }
    }
    assert Lately(ms, kinds, i, n);
  }

  // ---------------------------------------------------------------- runs

  lemma StepMoves(s: Sys, step: Step, conn: Conn)
    ensures Moves(MomentOf(s, conn), KindOf(s, step, conn), MomentOf(Next(s, step), conn))
  {}

  lemma RunIsCourse(steps: seq<Step>, conn: Conn)
    ensures Course(Moments(steps, conn), Kinds(steps, conn))
  {
    forall j: nat | j < |steps| ensures MovesAt(Moments(steps, conn), Kinds(steps, conn), j) {
      assert steps[..j + 1][..j] == steps[..j];
      StepMoves(Run(steps[..j]), steps[j], conn);
    }
  }

  /** After every run: the connection's key is there if and only if the connection was registered,
      has not been unregistered since, and at every moment since has registered or beaten less
      than 90 seconds before.  A beat that comes later is in vain. */
  lemma KeyLivesExactly(steps: seq<Step>, conn: Conn)
    ensures var s := Run(steps);
            conn in s.alive && s.now < s.alive[conn] <==>
              exists k: nat :: BeatsSince(Moments(steps, conn), Kinds(steps, conn), k, |steps|)
  {
    var ms, kinds := Moments(steps, conn), Kinds(steps, conn);
    RunIsCourse(steps, conn);
    assert steps[..|steps|] == steps && steps[..0] == [];
    assert ms[|steps|] == MomentOf(Run(steps), conn) && ms[0] == MomentOf(EMPTY, conn);
    if ms[|steps|].Live() {
      var k, i := LiveWasBeaten(ms, kinds, |steps|);
    }
    if k: nat :| BeatsSince(ms, kinds, k, |steps|) {
      BeatingCovers(ms, kinds, k, |steps|);
    }
  }
}
