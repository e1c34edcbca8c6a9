/** How a file is cut into upload chunks, and what a mixture of two cuts can assemble to.

    The server fixes a chunk size C and promises n = ceil(N / C) chunks.  A fresh client
    cuts with C, but a resuming client only learns n and cuts with R = ceil(N / n).  Both
    cuts have n non-empty slices; they differ unless R == C. */
module Slicing {
  import opened Common

  const CHUNK_SIZE: nat := 5 * 1024 * 1024
  const MAX_UPLOAD_BYTES: nat := 50 * 1024 * 1024

  function CeilDiv(a: nat, b: nat): (q: nat)
    requires b > 0
    ensures a <= q * b && (a > 0 ==> q > 0 && (q - 1) * b < a)
  {
    var q := (a + b - 1) / b;
    assert q * b + (a + b - 1) % b == a + b - 1;
    q
  }

  /** A cut of `size` bytes into `n` slices of `c` bytes, the last one possibly shorter. */
  ghost predicate Cuts(size: nat, c: nat, n: nat) {
    n > 0 && Times(c, n - 1) < size <= Times(c, n)
  }

  function Slice(file: Bytes, c: nat, i: nat): Bytes
    requires Times(c, i) <= |file|
  {
    file[Times(c, i) .. Min(Times(c, i) + c, |file|)]
  }

  function Join(parts: seq<Bytes>): Bytes {
    if parts == [] then [] else Join(parts[..|parts| - 1]) + parts[|parts| - 1]
  }

  lemma ProductMono(a: nat, b: nat, n: nat)
    requires a <= b
    ensures a * n <= b * n
  {}

  /** The two cuts of one file: the fresh client's C and the resuming client's R.  Both have
      n slices, R <= C, and they coincide exactly when N > n (C - 1). */
  lemma ResumeCut(size: nat, c: nat)
    requires size > 0 && c > 0
    ensures var n := CeilDiv(size, c);
            var r := CeilDiv(size, n);
            Cuts(size, c, n) && Cuts(size, r, n) && 0 < r <= c
            && (r == c <==> size > n * (c - 1))
  {
    var n := CeilDiv(size, c);
    var r := CeilDiv(size, n);
    TimesIsProduct(c, n);
    TimesIsProduct(c, n - 1);
    TimesIsProduct(r, n);
    assert c * n == n * c && r * n == n * r && (c - 1) * n == n * (c - 1);
    if r > c {
      ProductMono(c, r - 1, n);
      assert false;
    }
    TimesGap(r, c, n - 1);
    if r < c {
      ProductMono(r, c - 1, n);
    }
  }

  /** Slice `i` of a cut is never empty and never longer than the cut's chunk size. */
  lemma SliceLength(file: Bytes, c: nat, n: nat, i: nat)
    requires Cuts(|file|, c, n) && i < n
    ensures Times(c, i) < |file|
    ensures 0 < |Slice(file, c, i)| <= c
    ensures |Slice(file, c, i)| == if i < n - 1 then c else |file| - Times(c, n - 1)
  {
    TimesMono(c, i, n - 1);
    if i < n - 1 {
      TimesMono(c, i + 1, n - 1);
    }
  }

  ghost predicate IsSlice(file: Bytes, c: nat, i: nat, data: Bytes) {
    Times(c, i) <= |file| && data == Slice(file, c, i)
  }

  ghost predicate Uniform(file: Bytes, c: nat, parts: seq<Bytes>) {
    forall i: nat | i < |parts| :: IsSlice(file, c, i, parts[i])
  }

  /** Each chunk holds slice `i` of one of the two cuts; which one may differ per chunk. */
  ghost predicate Mixed(file: Bytes, c: nat, r: nat, parts: seq<Bytes>) {
    forall i: nat | i < |parts| :: IsSlice(file, c, i, parts[i]) || IsSlice(file, r, i, parts[i])
  }

  /** Slices of one cut are disjoint and covering: joined in order they are a prefix. */
  lemma {:induction false} JoinPrefix(file: Bytes, c: nat, n: nat, parts: seq<Bytes>)
    requires Cuts(|file|, c, n) && |parts| <= n && Uniform(file, c, parts)
    ensures Join(parts) == file[..Min(Times(c, |parts|), |file|)]
  {
    var k := |parts|;
    if k > 0 {
      JoinPrefix(file, c, n, parts[..k - 1]);
      SliceLength(file, c, n, k - 1);
      assert IsSlice(file, c, k - 1, parts[k - 1]);
      PrefixGrows(file, Times(c, k - 1), Min(Times(c, k), |file|));
    }
  }

  lemma PrefixGrows(file: Bytes, from: nat, to: nat)
    requires from <= to <= |file|
    ensures file[..to] == file[..from] + file[from..to]
  {}

  lemma JoinUniform(file: Bytes, c: nat, n: nat, parts: seq<Bytes>)
    requires Cuts(|file|, c, n) && |parts| == n && Uniform(file, c, parts)
    ensures Join(parts) == file
  {
    JoinPrefix(file, c, n, parts);
  }

  lemma UniformSnoc(file: Bytes, c: nat, parts: seq<Bytes>)
    requires |parts| > 0 && Uniform(file, c, parts[..|parts| - 1])
    requires IsSlice(file, c, |parts| - 1, parts[|parts| - 1])
    ensures Uniform(file, c, parts)
  {}

  lemma MixedFront(file: Bytes, c: nat, r: nat, parts: seq<Bytes>)
    requires |parts| > 0 && Mixed(file, c, r, parts)
    ensures Mixed(file, c, r, parts[..|parts| - 1])
    ensures var k := |parts| - 1; IsSlice(file, c, k, parts[k]) || IsSlice(file, r, k, parts[k])
  {}

  /** One chunk of a mixture, not the last: its length says which cut it can come from. */
  lemma PartLength(file: Bytes, c: nat, r: nat, n: nat, i: nat, part: Bytes)
    requires Cuts(|file|, c, n) && Cuts(|file|, r, n) && r <= c && i < n - 1
    requires IsSlice(file, c, i, part) || IsSlice(file, r, i, part)
    ensures r <= |part| <= c
    ensures |part| == c ==> IsSlice(file, c, i, part)
    ensures |part| == r ==> IsSlice(file, r, i, part)
  {
    SliceLength(file, c, n, i);
    SliceLength(file, r, n, i);
  }

  /** All but the last chunk of a mixture: the length lies between the two uniform lengths,
      and reaches either one only for the uniform choice. */
  lemma {:induction false} MixedPrefix(file: Bytes, c: nat, r: nat, n: nat, parts: seq<Bytes>)
    requires Cuts(|file|, c, n) && Cuts(|file|, r, n) && r <= c
    requires |parts| < n && Mixed(file, c, r, parts)
    ensures Times(r, |parts|) <= |Join(parts)| <= Times(c, |parts|)
    ensures |Join(parts)| == Times(c, |parts|) ==> Uniform(file, c, parts)
    ensures |Join(parts)| == Times(r, |parts|) ==> Uniform(file, r, parts)
  {
    var k := |parts|;
    if k > 0 {
      var front := parts[..k - 1];
      MixedFront(file, c, r, parts);
      MixedPrefix(file, c, r, n, front);
      PartLength(file, c, r, n, k - 1, parts[k - 1]);
      assert |Join(parts)| == |Join(front)| + |parts[k - 1]|;
      if |Join(front)| == Times(c, k - 1) && |parts[k - 1]| == c { UniformSnoc(file, c, parts); }
      if |Join(front)| == Times(r, k - 1) && |parts[k - 1]| == r { UniformSnoc(file, r, parts); }
    }
  }

  /** A mixture of the right length is uniform, by what its last slice is of. */
  lemma RightLengthUniform(file: Bytes, c: nat, r: nat, n: nat, parts: seq<Bytes>)
    requires Cuts(|file|, c, n) && Cuts(|file|, r, n) && r <= c
    requires |parts| == n && Mixed(file, c, r, parts) && |Join(parts)| == |file|
    ensures Uniform(file, c, parts) || Uniform(file, r, parts)
  {
    MixedFront(file, c, r, parts);
    MixedPrefix(file, c, r, n, parts[..n - 1]);
    SliceLength(file, c, n, n - 1);
    SliceLength(file, r, n, n - 1);
    UniformSnoc(file, if IsSlice(file, c, n - 1, parts[n - 1]) then c else r, parts);
  }

  /** The final length check is exact: a mixture of the two cuts has the file's length only
      if it is the file, and then the mixture was uniform (or the two cuts coincide). */
  lemma MixedLengthExact(file: Bytes, c: nat, r: nat, n: nat, parts: seq<Bytes>)
    requires Cuts(|file|, c, n) && Cuts(|file|, r, n) && r <= c
    requires |parts| == n && Mixed(file, c, r, parts)
    ensures |Join(parts)| == |file| <==> Join(parts) == file
    ensures Join(parts) == file <==> Uniform(file, c, parts) || Uniform(file, r, parts)
  {
    if |Join(parts)| == |file| { RightLengthUniform(file, c, r, n, parts); }
    if Uniform(file, c, parts) { JoinUniform(file, c, n, parts); }
    if Uniform(file, r, parts) { JoinUniform(file, r, n, parts); }
  }

  /** What a resume assembles: the chunks received before keep the C slice, the others get
      the R slice. */
  ghost predicate Resumed(file: Bytes, c: nat, r: nat, received: set<int>, parts: seq<Bytes>) {
    forall i: nat | i < |parts| :: IsSlice(file, if i in received then c else r, i, parts[i])
  }

  /** Exact resume condition.  With some chunk `i` received and some chunk `j` not, the
      resumed upload has the right length, and is the file, iff N > n (C - 1). */
  lemma ResumeExact(file: Bytes, c: nat, received: set<int>, parts: seq<Bytes>, i: nat, j: nat)
    requires |file| > 0 && c > 0
    requires |parts| == CeilDiv(|file|, c)
    requires Resumed(file, c, CeilDiv(|file|, |parts|), received, parts)
    requires i < |parts| && j < |parts| && i in received && j !in received
    ensures |Join(parts)| == |file| <==> |file| > |parts| * (c - 1)
    ensures Join(parts) == file <==> |file| > |parts| * (c - 1)
  {
    var n := |parts|;
    var r := CeilDiv(|file|, n);
    ResumeCut(|file|, c);
    assert Mixed(file, c, r, parts);
    MixedLengthExact(file, c, r, n, parts);
    SlicesDiffer(file, c, r, n, i);
    SlicesDiffer(file, c, r, n, j);
    assert IsSlice(file, c, i, parts[i]) && IsSlice(file, r, j, parts[j]);
  }

  /** Every way a resume can end: the file is assembled if both cuts agree, or if all chunks
      or none had been received; otherwise the length is wrong. */
  lemma ResumeOutcome(file: Bytes, c: nat, cut: nat, received: set<int>, parts: seq<Bytes>)
    requires |file| > 0 && c > 0
    requires |parts| == CeilDiv(|file|, c)
    requires cut == c || cut == CeilDiv(|file|, |parts|)
    requires Resumed(file, c, cut, received, parts)
    ensures |Join(parts)| == |file| ==> Join(parts) == file
    ensures |Join(parts)| == |file| <==>
              || cut == c || |file| > |parts| * (c - 1)
              || (forall i: nat | i < |parts| :: i in received)
              || (forall i: nat | i < |parts| :: i !in received)
  {
    ResumeCut(|file|, c);
    if cut == c || forall i: nat | i < |parts| :: i in received {
      assert Uniform(file, c, parts);
      JoinUniform(file, c, |parts|, parts);
    } else if forall i: nat | i < |parts| :: i !in received {
      assert Uniform(file, cut, parts);
      JoinUniform(file, cut, |parts|, parts);
    } else {
      var j: nat :| j < |parts| && j !in received;
      var i: nat :| i < |parts| && i in received;
      ResumeExact(file, c, received, parts, i, j);
    }
  }

  /** With at least two chunks, slice `i` has different lengths under different cuts. */
  lemma SlicesDiffer(file: Bytes, c: nat, r: nat, n: nat, i: nat)
    requires Cuts(|file|, c, n) && Cuts(|file|, r, n) && n > 1 && i < n && r <= c
    ensures Times(c, i) <= |file| && Times(r, i) <= |file|
    ensures |Slice(file, c, i)| == |Slice(file, r, i)| <==> r == c
  {
    SliceLength(file, c, n, i);
    SliceLength(file, r, n, i);
    TimesGap(r, c, n - 1);
  }

  /** The 50 MiB cap means at most ten chunks, and every total is positive. */
  lemma ChunkCountBound(size: nat)
    requires 0 < size <= MAX_UPLOAD_BYTES
    ensures 1 <= CeilDiv(size, CHUNK_SIZE) <= 10
  {}
}
