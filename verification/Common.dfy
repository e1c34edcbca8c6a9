/** Small shared vocabulary: optional values, request outcomes, sums and counting. */
module Common {

  datatype Option<+T> = None | Some(value: T)

  /** What an endpoint answers: a value, or the HTTP status it raises. */
  datatype Outcome<+T> = Ok(value: T) | Refused(status: nat)

  type byte = bv8
  type Bytes = seq<byte>

  function Min(a: int, b: int): int {
    if a <= b then a else b
  }

  function Max(a: int, b: int): int {
    if a <= b then b else a
  }

  /** i * c, written as a sum so that proofs about it stay linear. */
  function Times(c: nat, i: nat): nat {
    if i == 0 then 0 else Times(c, i - 1) + c
  }

  lemma {:induction false} TimesIsProduct(c: nat, i: nat)
    ensures Times(c, i) == i * c
  {
    if i > 0 {
      TimesIsProduct(c, i - 1);
    }
  }

  lemma {:induction false} TimesMono(c: nat, i: nat, j: nat)
    requires i <= j
    ensures Times(c, i) <= Times(c, j)
  {
    if i < j {
      TimesMono(c, i, j - 1);
    }
  }

  lemma {:induction false} TimesGap(r: nat, c: nat, i: nat)
    requires r <= c
    ensures Times(r, i) <= Times(c, i)
    ensures i > 0 ==> Times(r, i) + (c - r) <= Times(c, i)
  {
    if i > 0 {
      TimesGap(r, c, i - 1);
    }
  }

  ghost predicate Distinct<K>(s: seq<K>) {
    forall i, j | 0 <= i < j < |s| :: s[i] != s[j]
  }

  function Elements<K>(s: seq<K>): set<K> {
    set k | k in s
  }

  lemma {:induction false} DistinctCount<K>(s: seq<K>)
    requires Distinct(s)
    ensures |Elements(s)| == |s|
  {
    if s != [] {
      var n := |s| - 1;
      DistinctCount(s[..n]);
      assert Elements(s) == Elements(s[..n]) + {s[n]};
      assert s[n] !in s[..n];
    }
  }

  lemma SizeMono<K>(a: set<K>, b: set<K>)
    requires a <= b
    ensures |a| <= |b|
    ensures |a| == |b| ==> a == b
  {
    assert b == a + (b - a);
    if a != b {
      var x :| x in b && x !in a;
      assert x in b - a;
    }
  }

  lemma AnElement<T>(s: set<T>) returns (x: T)
    requires s != {}
    ensures x in s
  {
    x :| x in s;
  }
}
