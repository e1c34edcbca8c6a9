/** How many sweeps it takes to wipe what has expired when part of it keeps failing. */
module SweepProgress {
  import opened Common
  import opened Slicing
  import opened Storage
  import opened Messages
  import opened SelfDestruct
  import opened Retention

  /** Expired messages whose media the store keeps refusing to remove, and the others. */
  function Failing(rows: map<MsgId, Row>, now: int, outage: Outage): set<MsgId> {
    set id | id in Expired(rows, now) && Fails(rows[id], outage)
  }

  function Wipeable(rows: map<MsgId, Row>, now: int, outage: Outage): set<MsgId> {
    Expired(rows, now) - Failing(rows, now, outage)
  }

  /** Nothing newly expires between the two times. */
  ghost predicate NoneExpire(rows: map<MsgId, Row>, from: int, to: int) {
    forall id | id in rows && rows[id].destructAt.Some? ::
      rows[id].destructAt.value <= from || to < rows[id].destructAt.value
  }

  function Swept(p: Pass, batch: seq<MsgId>, now: int, outage: Outage): Pass
    requires forall i | 0 <= i < |batch| :: batch[i] in p.rows
  {
    SweepPass(p, batch, now, outage, |batch|)
  }

  /** A committed sweep, row by row: messages of the batch that do not fail are wiped, all
      other rows are untouched. */
  lemma SweptRows(p: Pass, batch: seq<MsgId>, now: int, outage: Outage, id: MsgId)
    requires IsBatch(p.rows, now, batch) && id in p.rows
    ensures forall i | 0 <= i < |batch| :: batch[i] in p.rows
    ensures var q := Swept(p, batch, now, outage);
            q.rows[id] == if id in batch && !Fails(p.rows[id], outage) then WipedRow(p.rows[id], now) else p.rows[id]
  {
    BatchInRows(p.rows, now, batch);
    if id in batch {
      var i: nat :| i < |batch| && batch[i] == id;
      WipedExactly(p, batch, now, outage, |batch|, i);
    } else {
      SweepPassFrame(p, batch, now, outage, |batch|, id);
    }
  }

  /** The rows of the batch that do not fail are wiped, the others as they were. */
  ghost predicate WipedIn(rows: map<MsgId, Row>, rows': map<MsgId, Row>, batch: seq<MsgId>, now: int, outage: Outage) {
    && rows'.Keys == rows.Keys
    && forall id | id in rows ::
         rows'[id] == if id in batch && !Fails(rows[id], outage) then WipedRow(rows[id], now) else rows[id]
  }

  lemma WipedSets(rows: map<MsgId, Row>, rows': map<MsgId, Row>, batch: seq<MsgId>, now: int, later: int,
                  outage: Outage)
    requires WipedIn(rows, rows', batch, now, outage) && now <= later && NoneExpire(rows, now, later)
    requires forall id | id in batch :: id in Expired(rows, now)
    ensures Failing(rows', later, outage) == Failing(rows, now, outage)
    ensures Wipeable(rows', later, outage) == Wipeable(rows, now, outage) - Elements(batch)
  {}

  /** What is left: the batch's share of the wipeable messages is gone, the failing ones stay. */
  lemma SweptSets(p: Pass, batch: seq<MsgId>, now: int, later: int, outage: Outage)
    requires IsBatch(p.rows, now, batch) && now <= later && NoneExpire(p.rows, now, later)
    ensures forall i | 0 <= i < |batch| :: batch[i] in p.rows
    ensures var q := Swept(p, batch, now, outage);
            && Failing(q.rows, later, outage) == Failing(p.rows, now, outage)
            && Wipeable(q.rows, later, outage) == Wipeable(p.rows, now, outage) - Elements(batch)
  {
    BatchInRows(p.rows, now, batch);
    var q := Swept(p, batch, now, outage);
    forall id | id in p.rows
      ensures q.rows[id] == if id in batch && !Fails(p.rows[id], outage) then WipedRow(p.rows[id], now) else p.rows[id]
    {
      SweptRows(p, batch, now, outage, id);
    }
    WipedSets(p.rows, q.rows, batch, now, later, outage);
  }

  lemma ShareOfBatch(w: set<MsgId>, f: set<MsgId>, b: set<MsgId>, cap: nat)
    requires w !! f && b <= w + f && |b| == Min(cap, |w + f|)
    ensures |w * b| >= Min(|w|, cap - |f|) && |w - b| == |w| - |w * b|
  {
    assert b == w * b + f * b;
    SizeMono(f * b, f);
    SizeMono(b, w + f);
    assert w == (w - b) + w * b;
    if b == w + f {
      assert w * b == w;
    }
  }

  /** Whichever rows LIMIT picks, a sweep wipes at least min(|W|, 500 - |F|) wipeable ones. */
  lemma SweepWipesEnough(p: Pass, batch: seq<MsgId>, now: int, outage: Outage)
    requires IsBatch(p.rows, now, batch)
    ensures var w := Wipeable(p.rows, now, outage);
            var b := Elements(batch);
            && |w * b| >= Min(|w|, BATCH_SIZE - |Failing(p.rows, now, outage)|)
            && |w - b| == |w| - |w * b| <= Max(0, |w| - (BATCH_SIZE - |Failing(p.rows, now, outage)|))
  {
    var w := Wipeable(p.rows, now, outage);
    var f := Failing(p.rows, now, outage);
    var b := Elements(batch);
    DistinctCount(batch);
    assert Expired(p.rows, now) == w + f;
    ShareOfBatch(w, f, b, BATCH_SIZE);
  }

  datatype Round = Round(now: int, batch: seq<MsgId>)

  /** A committed sweep, with some answer of the query at its time. */
  ghost predicate OneSweep(p: Pass, round: Round, outage: Outage, q: Pass) {
    && IsBatch(p.rows, round.now, round.batch)
    && (forall i | 0 <= i < |round.batch| :: round.batch[i] in p.rows)
    && q == Swept(p, round.batch, round.now, outage)
  }

  /** From each pass to the next by one such sweep, all between `from` and `to`. */
  ghost predicate Rounds(passes: seq<Pass>, rounds: seq<Round>, outage: Outage, from: int, to: int) {
    |passes| == |rounds| + 1 && forall i: nat | i < |rounds| :: RoundAt(passes, rounds, outage, from, to, i)
  }

  ghost predicate RoundAt(passes: seq<Pass>, rounds: seq<Round>, outage: Outage, from: int, to: int, i: nat)
    requires |passes| == |rounds| + 1 && i < |rounds|
  {
    OneSweep(passes[i], rounds[i], outage, passes[i + 1]) && from <= rounds[i].now <= to
  }

  lemma SetsUntil(rows: map<MsgId, Row>, now: int, later: int, outage: Outage)
    requires now <= later && NoneExpire(rows, now, later)
    ensures Failing(rows, now, outage) == Failing(rows, later, outage)
    ensures Wipeable(rows, now, outage) == Wipeable(rows, later, outage)
  {}

  lemma NoneExpiresLater(p: Pass, batch: seq<MsgId>, now: int, outage: Outage, from: int, to: int)
    requires IsBatch(p.rows, now, batch) && NoneExpire(p.rows, from, to)
    ensures forall i | 0 <= i < |batch| :: batch[i] in p.rows
    ensures NoneExpire(Swept(p, batch, now, outage).rows, from, to)
  {
    BatchInRows(p.rows, now, batch);
    var q := Swept(p, batch, now, outage);
    forall id | id in q.rows && q.rows[id].destructAt.Some?
      ensures q.rows[id].destructAt.value <= from || to < q.rows[id].destructAt.value
    {
      SweptRows(p, batch, now, outage, id);
    }
  }

  /** One round: as many fail as before, the wipeable set shrinks by 500 - |F| or to nothing. */
  lemma OneRound(p: Pass, round: Round, outage: Outage, from: int, to: int, q: Pass)
    requires OneSweep(p, round, outage, q) && from <= round.now <= to && NoneExpire(p.rows, from, to)
    ensures |Failing(q.rows, to, outage)| == |Failing(p.rows, to, outage)|
    ensures |Wipeable(q.rows, to, outage)| <=
            Max(0, |Wipeable(p.rows, to, outage)| - (BATCH_SIZE - |Failing(p.rows, to, outage)|))
  {
    SetsUntil(p.rows, round.now, to, outage);
    SweptSets(p, round.batch, round.now, to, outage);
    SweepWipesEnough(p, round.batch, round.now, outage);
  }

  /** How many wipeable messages each pass still has, if every round wipes `m` or all. */
  lemma {:induction false} AfterRounds(left: seq<nat>, m: nat, j: nat)
    requires j < |left| && forall i: nat | i + 1 < |left| :: Shrinks(left, i, m)
    ensures left[j] <= Max(0, left[0] - Times(m, j))
  {
    if j > 0 {
      AfterRounds(left, m, j - 1);
      assert Shrinks(left, j - 1, m);
    }
  }

  predicate Shrinks(left: seq<nat>, i: nat, m: nat)
    requires i + 1 < |left|
  {
    left[i + 1] <= Max(0, left[i] - m)
  }

  ghost predicate Same(p: Pass, from: int, to: int, outage: Outage, failing: nat) {
    NoneExpire(p.rows, from, to) && |Failing(p.rows, to, outage)| == failing
  }

  lemma {:induction false} StaysSame(passes: seq<Pass>, rounds: seq<Round>, outage: Outage, from: int, to: int,
                                     failing: nat, j: nat)
    requires Rounds(passes, rounds, outage, from, to) && Same(passes[0], from, to, outage, failing) && j <= |rounds|
    ensures Same(passes[j], from, to, outage, failing)
  {
    if j > 0 {
      StaysSame(passes, rounds, outage, from, to, failing, j - 1);
      assert RoundAt(passes, rounds, outage, from, to, j - 1);
      var round := rounds[j - 1];
      OneRound(passes[j - 1], round, outage, from, to, passes[j]);
      NoneExpiresLater(passes[j - 1], round.batch, round.now, outage, from, to);
    }
  }

  lemma RoundShrinks(passes: seq<Pass>, rounds: seq<Round>, outage: Outage, from: int, to: int, m: nat, i: nat)
    requires Rounds(passes, rounds, outage, from, to) && i < |rounds| && m <= BATCH_SIZE
    requires Same(passes[0], from, to, outage, BATCH_SIZE - m)
    ensures |Wipeable(passes[i + 1].rows, to, outage)| <= Max(0, |Wipeable(passes[i].rows, to, outage)| - m)
  {
    StaysSame(passes, rounds, outage, from, to, BATCH_SIZE - m, i);
    assert RoundAt(passes, rounds, outage, from, to, i);
    OneRound(passes[i], rounds[i], outage, from, to, passes[i + 1]);
  }

  lemma RoundsWipe(passes: seq<Pass>, rounds: seq<Round>, outage: Outage, from: int, to: int, m: nat)
    requires Rounds(passes, rounds, outage, from, to) && NoneExpire(passes[0].rows, from, to)
    requires m == BATCH_SIZE - |Failing(passes[0].rows, to, outage)|
    requires |Wipeable(passes[0].rows, to, outage)| <= Times(m, |rounds|)
    ensures Wipeable(passes[|rounds|].rows, to, outage) == {}
  {
    var left := seq(|passes|, (i: nat) requires i < |passes| => |Wipeable(passes[i].rows, to, outage)|);
    forall i: nat | i + 1 < |left| ensures Shrinks(left, i, m) {
      RoundShrinks(passes, rounds, outage, from, to, m, i);
    }
    AfterRounds(left, m, |rounds|);
  }

  /** Every message whose time has come, and whose media the store would remove, is destructed. */
  predicate NoneOverdue(rows: map<MsgId, Row>, now: int, outage: Outage) {
    forall id | id in rows && rows[id].destructAt.Some? && rows[id].destructAt.value <= now
                && !Raises(rows[id], outage) ::
      rows[id].destructed
  }

  lemma NothingWipeable(rows: map<MsgId, Row>, now: int, outage: Outage)
    ensures Wipeable(rows, now, outage) == {} <==> NoneOverdue(rows, now, outage)
  {
    forall id | id in rows
      ensures id in Wipeable(rows, now, outage) <==>
                !rows[id].destructed && rows[id].destructAt.Some? && rows[id].destructAt.value <= now
                && !Raises(rows[id], outage)
    {}
  }

  /** Enough sweeps finish W, whichever rows each query picks; each wipes `m` = 500 - |F|. */
  lemma SweepsFinish(passes: seq<Pass>, rounds: seq<Round>, outage: Outage, from: int, to: int, m: nat)
    requires Rounds(passes, rounds, outage, from, to) && NoneExpire(passes[0].rows, from, to)
    requires m == BATCH_SIZE - |Failing(passes[0].rows, to, outage)|
    requires |Wipeable(passes[0].rows, to, outage)| <= Times(m, |rounds|)
    ensures Wipeable(passes[|rounds|].rows, to, outage) == {} && NoneOverdue(passes[|rounds|].rows, to, outage)
  {
    RoundsWipe(passes, rounds, outage, from, to, m);
    NothingWipeable(passes[|rounds|].rows, to, outage);
  }

  lemma CeilIsEnough(w: nat, m: nat)
    requires m > 0
    ensures w <= Times(m, CeilDiv(w, m))
  {
    TimesIsProduct(m, CeilDiv(w, m));
  }

  /** With fewer than 500 failing messages and none newly expiring, ceil(|W| / (500 - |F|))
      sweeps finish W. */
  lemma CeilSweepsFinish(passes: seq<Pass>, rounds: seq<Round>, outage: Outage, from: int, to: int)
    requires Rounds(passes, rounds, outage, from, to) && NoneExpire(passes[0].rows, from, to)
    requires |Failing(passes[0].rows, to, outage)| < BATCH_SIZE
    requires |rounds| ==
             CeilDiv(|Wipeable(passes[0].rows, to, outage)|, BATCH_SIZE - |Failing(passes[0].rows, to, outage)|)
    ensures Wipeable(passes[|rounds|].rows, to, outage) == {} && NoneOverdue(passes[|rounds|].rows, to, outage)
  {
    var m := BATCH_SIZE - |Failing(passes[0].rows, to, outage)|;
    CeilIsEnough(|Wipeable(passes[0].rows, to, outage)|, m);
    SweepsFinish(passes, rounds, outage, from, to, m);
  }

  lemma {:induction false} Pick(s: set<MsgId>, n: nat) returns (picked: seq<MsgId>)
    requires n <= |s|
    ensures |picked| == n && forall i | 0 <= i < n :: picked[i] in s
    ensures forall i, j | 0 <= i < j < n :: picked[i] != picked[j]
  {
    if n == 0 {
      picked := [];
    } else {
      var x :| x in s;
      var rest := Pick(s - {x}, n - 1);
      picked := [x] + rest;
    }
  }

  /** With 500 or more failing messages the query may pick only those, and then the sweep
      changes no row: a choice of rows exists that never makes progress. */
  lemma StarvationIsPossible(p: Pass, now: int, outage: Outage) returns (batch: seq<MsgId>)
    requires |Failing(p.rows, now, outage)| >= BATCH_SIZE
    ensures IsBatch(p.rows, now, batch) && forall i | 0 <= i < |batch| :: batch[i] in p.rows
    ensures Swept(p, batch, now, outage).rows == p.rows
  {
    batch := Pick(Failing(p.rows, now, outage), BATCH_SIZE);
    SizeMono(Failing(p.rows, now, outage), Expired(p.rows, now));
    BatchInRows(p.rows, now, batch);
    var q := Swept(p, batch, now, outage);
    forall id | id in p.rows ensures q.rows[id] == p.rows[id] {
      SweptRows(p, batch, now, outage, id);
    }
  }
}
