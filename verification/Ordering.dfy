/** `ORDER BY time DESC LIMIT n`, as the database may answer it: equal times come in any order. */
module Ordering {
  import opened Common

  /** Times fall from left to right. */
  ghost predicate Falling<K>(time: map<K, int>, s: seq<K>) {
    && (forall k | k in s :: k in time)
    && forall i, j | 0 <= i < j < |s| :: time[s[i]] >= time[s[j]]
  }

  ghost predicate Rising<K>(time: map<K, int>, s: seq<K>) {
    && (forall k | k in s :: k in time)
    && forall i, j | 0 <= i < j < |s| :: time[s[i]] <= time[s[j]]
  }

  lemma RisingJoin<K>(time: map<K, int>, a: seq<K>, b: seq<K>)
    requires Distinct(a) && Rising(time, a) && Distinct(b) && Rising(time, b)
    requires forall x, y | x in a && y in b :: time[x] < time[y]
    ensures Distinct(a + b) && Rising(time, a + b)
  {}

  /** The chosen keys are as many as the limit allows, and no key left out is newer than a
      chosen one. */
  ghost predicate IsNewest<K>(time: map<K, int>, keys: set<K>, limit: nat, chosen: seq<K>) {
    && (forall k | k in keys :: k in time)
    && (forall k | k in chosen :: k in keys)
    && |chosen| == Min(limit, |keys|)
    && forall k, c | k in keys && k !in chosen && c in chosen :: time[k] <= time[c]
  }

  lemma {:induction false} NewestExists<K>(time: map<K, int>, keys: set<K>)
    requires keys != {} && forall k | k in keys :: k in time
    ensures exists k :: k in keys && forall j | j in keys :: time[j] <= time[k]
    decreases |keys|
  {
    var k :| k in keys;
    var rest := keys - {k};
    assert forall j | j in keys :: j == k || j in rest;
    if rest != {} {
      NewestExists(time, rest);
      var best :| best in rest && forall j | j in rest :: time[j] <= time[best];
      var winner := if time[best] <= time[k] then k else best;
      assert winner in keys && forall j | j in keys :: time[j] <= time[winner];
    }
  }

  /** The keys chosen so far are the newest, and the others are left. */
  ghost predicate Picked<K>(time: map<K, int>, keys: set<K>, chosen: seq<K>, left: set<K>) {
    && left <= keys && |chosen| + |left| == |keys|
    && (forall k | k in keys :: k in time && (k in left <==> k !in chosen))
    && (forall k | k in chosen :: k in keys)
    && Distinct(chosen) && Falling(time, chosen)
    && forall k, c | k in left && c in chosen :: time[k] <= time[c]
  }

  lemma PickOne<K>(time: map<K, int>, keys: set<K>, chosen: seq<K>, left: set<K>, k: K)
    requires Picked(time, keys, chosen, left)
    requires k in left && forall j | j in left :: time[j] <= time[k]
    ensures Picked(time, keys, chosen + [k], left - {k})
  {}

  method OrderDesc<K(==)>(time: map<K, int>, keys: set<K>, limit: nat) returns (chosen: seq<K>)
    requires forall k | k in keys :: k in time
    ensures Distinct(chosen) && Falling(time, chosen) && IsNewest(time, keys, limit, chosen)
  {
    chosen := [];
    var left := keys;
    while |chosen| < limit && left != {}
      invariant Picked(time, keys, chosen, left) && |chosen| <= limit
      decreases |left|
    {
      NewestExists(time, left);
      var k :| k in left && forall j | j in left :: time[j] <= time[k];
      PickOne(time, keys, chosen, left, k);
      chosen, left := chosen + [k], left - {k};
    }
  }

  /** `messages.reverse()`. */
  function Backwards<K>(s: seq<K>): seq<K> {
    seq(|s|, i requires 0 <= i < |s| => s[|s| - 1 - i])
  }

  /** Newest first becomes oldest first, with the same messages. */
  lemma BackwardsTurns<K>(time: map<K, int>, s: seq<K>)
    requires Distinct(s) && Falling(time, s)
    ensures Distinct(Backwards(s)) && Rising(time, Backwards(s))
    ensures forall k :: k in Backwards(s) <==> k in s
    ensures Backwards(Backwards(s)) == s
  {
    var r := Backwards(s);
    forall k | k in s ensures k in r {
      var i :| 0 <= i < |s| && s[i] == k;
      assert r[|s| - 1 - i] == k;
    }
  }

  /** The newest keys in falling order, turned round, are the newest keys in rising order. */
  lemma NewestTurned<K>(time: map<K, int>, keys: set<K>, limit: nat, s: seq<K>)
    requires Distinct(s) && Falling(time, s) && IsNewest(time, keys, limit, s)
    ensures Distinct(Backwards(s)) && Rising(time, Backwards(s)) && IsNewest(time, keys, limit, Backwards(s))
  {
    BackwardsTurns(time, s);
  }
}
