/** Splitting a text at white space, whatever counts as white space. */
module Splitting {
  /** The longest suffix without white space. */
  function Tail(space: char -> bool, s: string): (t: string)
    ensures |t| <= |s|
    ensures s != [] && !space(s[|s| - 1]) ==> t != []
  {
    if s == [] || space(s[|s| - 1]) then [] else Tail(space, s[..|s| - 1]) + [s[|s| - 1]]
  }

  /** `split()`: the maximal runs without white space. */
  function Words(space: char -> bool, s: string): seq<string>
    decreases |s|
  {
    if s == [] then []
    else if space(s[|s| - 1]) then Words(space, s[..|s| - 1])
    else Words(space, s[..|s| - |Tail(space, s)|]) + [Tail(space, s)]
  }

  predicate MatchesAt(w: string, s: string, i: int) {
    0 <= i <= |s| - |w| && s[i..i + |w|] == w
  }

  /** The word stands in the text at i, with its ends at the text's ends or at white space. */
  predicate StandsAt(space: char -> bool, w: string, s: string, i: int) {
    && MatchesAt(w, s, i)
    && (i > 0 ==> space(s[i - 1]))
    && (i + |w| < |s| ==> space(s[i + |w|]))
  }

  predicate IsWord(space: char -> bool, w: string) {
    w != [] && forall k | 0 <= k < |w| :: !space(w[k])
  }

  predicate Infix(w: string, s: string) {
    exists i :: 0 <= i <= |s| - |w| && MatchesAt(w, s, i)
  }

  /** The suffix, and what is before it. */
  ghost predicate TailOk(space: char -> bool, s: string, t: string) {
    && |t| <= |s| && s[|s| - |t|..] == t
    && (forall k | 0 <= k < |t| :: !space(t[k]))
    && (|t| < |s| ==> space(s[|s| - |t| - 1]))
  }

  lemma TailSnoc(space: char -> bool, front: string, last: char, t: string)
    requires TailOk(space, front, t) && !space(last)
    ensures TailOk(space, front + [last], t + [last])
  {
    assert (front + [last])[|front| - |t|..] == front[|front| - |t|..] + [last];
  }

  lemma TailNone(space: char -> bool, s: string)
    requires s == [] || space(s[|s| - 1])
    ensures TailOk(space, s, [])
  {}

  lemma {:induction false} TailStands(space: char -> bool, s: string, t: string)
    requires t == Tail(space, s)
    ensures TailOk(space, s, t)
    decreases |s|
  {
    if s == [] || space(s[|s| - 1]) {
      TailNone(space, s);
    } else {
      var front, last := s[..|s| - 1], s[|s| - 1];
      var before := Tail(space, front);
      TailStands(space, front, before);
      TailSnoc(space, front, last, before);
      assert front + [last] == s;
    }
  }

  /** A run without white space, after white space or at the start. */
  predicate IsRunAfter(space: char -> bool, a: string, t: string) {
    && (a == [] || space(a[|a| - 1]))
    && forall k | 0 <= k < |t| :: !space(t[k])
  }

  lemma JoinSnoc(a: string, t: string)
    requires t != []
    ensures (a + t)[..|a + t| - 1] == a + t[..|t| - 1]
    ensures (a + t)[|a + t| - 1] == t[|t| - 1] && t[..|t| - 1] + [t[|t| - 1]] == t
  {}

  lemma {:induction false} TailOfRun(space: char -> bool, a: string, t: string)
    requires IsRunAfter(space, a, t)
    ensures Tail(space, a + t) == t
  {
    if t == [] {
      assert a + t == a;
    } else {
      JoinSnoc(a, t);
      TailOfRun(space, a, t[..|t| - 1]);
    }
  }

  lemma WordsOfRun(space: char -> bool, a: string, t: string)
    requires IsRunAfter(space, a, t) && t != []
    ensures Words(space, a + t) == Words(space, a) + [t]
  {
    TailOfRun(space, a, t);
    JoinSnoc(a, t);
    assert (a + t)[..|a|] == a;
  }

  /** A text that does not end in white space is a run after what is before it. */
  lemma TailIsRun(space: char -> bool, s: string, before: string, t: string)
    requires s != [] && !space(s[|s| - 1]) && t == Tail(space, s) && before == s[..|s| - |t|]
    ensures t != [] && s == before + t && IsRunAfter(space, before, t)
  {
    TailStands(space, s, t);
    CutIsRun(space, s, before, t);
  }

  lemma CutIsRun(space: char -> bool, s: string, before: string, t: string)
    requires TailOk(space, s, t) && before == s[..|s| - |t|]
    ensures s == before + t && IsRunAfter(space, before, t)
  {}

  lemma WordsOfSpace(space: char -> bool, s: string, c: char)
    requires space(c)
    ensures Words(space, s + [c]) == Words(space, s)
  {}

  lemma LeadingSpaceRun(space: char -> bool, c: char, before: string, t: string)
    requires space(c) && IsRunAfter(space, before, t) && t != [] && Words(space, [c] + before) == Words(space, before)
    ensures Words(space, [c] + (before + t)) == Words(space, before + t)
  {
    var spaced := [c] + before;
    assert spaced[|spaced| - 1] == if before == [] then c else before[|before| - 1];
    WordsOfRun(space, before, t);
    WordsOfRun(space, spaced, t);
    assert [c] + (before + t) == spaced + t;
  }

  lemma LeadingSpaceSpace(space: char -> bool, c: char, front: string, d: char)
    requires space(c) && space(d) && Words(space, [c] + front) == Words(space, front)
    ensures Words(space, [c] + (front + [d])) == Words(space, front + [d])
  {
    WordsOfSpace(space, front, d);
    WordsOfSpace(space, [c] + front, d);
    assert [c] + (front + [d]) == [c] + front + [d];
  }

  lemma {:induction false} LeadingSpace(space: char -> bool, c: char, s: string)
    requires space(c)
    ensures Words(space, [c] + s) == Words(space, s)
    decreases |s|
  {
    if s == [] {
      WordsOfSpace(space, [], c);
      assert [c] + s == [] + [c];
    } else if space(s[|s| - 1]) {
      var front, d := s[..|s| - 1], s[|s| - 1];
      LeadingSpace(space, c, front);
      LeadingSpaceSpace(space, c, front, d);
      assert front + [d] == s;
    } else {
      var t := Tail(space, s);
      var before := s[..|s| - |t|];
      TailIsRun(space, s, before, t);
      LeadingSpace(space, c, before);
      LeadingSpaceRun(space, c, before, t);
    }
  }

  ghost predicate Stands(space: char -> bool, w: string, s: string) {
    IsWord(space, w) && exists i :: StandsAt(space, w, s, i)
  }

  lemma MatchIsPointwise(w: string, s: string, i: int)
    ensures MatchesAt(w, s, i) <==> 0 <= i <= |s| - |w| && forall k | 0 <= k < |w| :: s[i + k] == w[k]
  {
    if 0 <= i <= |s| - |w| {
      var part := s[i..i + |w|];
      assert forall k | 0 <= k < |w| :: part[k] == s[i + k];
    }
  }

  /** A match in a prefix that ends before what follows it. */
  lemma MatchInPrefix(w: string, a: string, b: string, i: int)
    requires i + |w| <= |a|
    ensures MatchesAt(w, a + b, i) <==> MatchesAt(w, a, i)
  {
    MatchIsPointwise(w, a, i);
    MatchIsPointwise(w, a + b, i);
  }

  /** White space at the end makes no word. */
  lemma StandsBeforeSpace(space: char -> bool, w: string, front: string, c: char)
    requires space(c)
    ensures Stands(space, w, front + [c]) <==> Stands(space, w, front)
  {
    var s := front + [c];
    if Stands(space, w, s) {
      var i :| StandsAt(space, w, s, i);
      MatchIsPointwise(w, s, i);
      assert s[i + (|w| - 1)] == w[|w| - 1];
      MatchInPrefix(w, front, [c], i);
      assert StandsAt(space, w, front, i);
    }
    if Stands(space, w, front) {
      var i :| StandsAt(space, w, front, i);
      MatchInPrefix(w, front, [c], i);
      assert StandsAt(space, w, s, i);
    }
  }

  /** A word that stands in a text is its last run, or ends before it. */
  lemma StandsThenTail(space: char -> bool, w: string, before: string, t: string, i: int)
    requires t != [] && IsRunAfter(space, before, t) && IsWord(space, w) && StandsAt(space, w, before + t, i)
    ensures w == t || StandsAt(space, w, before, i)
  {
    var s := before + t;
    MatchIsPointwise(w, s, i);
    if i < |before| {
      EndsBefore(space, w, before, t, i);
      MatchInPrefix(w, before, t, i);
    } else {
      assert forall k | |before| <= k < |s| :: !space(s[k]);
      assert i == |before| && |w| == |t|;
      assert forall k | 0 <= k < |t| :: s[i + k] == t[k];
    }
  }

  lemma EndsBefore(space: char -> bool, w: string, before: string, t: string, i: int)
    requires IsRunAfter(space, before, t) && IsWord(space, w) && 0 <= i < |before| && i + |w| <= |before| + |t|
    requires forall k | 0 <= k < |w| :: (before + t)[i + k] == w[k]
    ensures i + |w| < |before|
  {
    if |before| - 1 - i < |w| {
      NoSpaceInside(space, w, before + t, i, |before| - 1 - i);
    }
  }

  lemma NoSpaceInside(space: char -> bool, w: string, s: string, i: int, k: int)
    requires IsWord(space, w) && 0 <= k < |w| && 0 <= i + k < |s| && s[i + k] == w[k]
    ensures !space(s[i + k])
  {}

  lemma TailThenStands(space: char -> bool, w: string, before: string, t: string)
    requires t != [] && IsRunAfter(space, before, t) && (w == t || Stands(space, w, before))
    ensures Stands(space, w, before + t)
  {
    var s := before + t;
    if w == t {
      MatchIsPointwise(t, s, |before|);
      assert StandsAt(space, t, s, |before|);
    } else {
      var i :| StandsAt(space, w, before, i);
      MatchIsPointwise(w, before, i);
      assert before[i + (|w| - 1)] == w[|w| - 1];
      MatchInPrefix(w, before, t, i);
      assert StandsAt(space, w, s, i);
    }
  }

  lemma StandsWithTail(space: char -> bool, w: string, before: string, t: string)
    requires t != [] && IsRunAfter(space, before, t)
    ensures Stands(space, w, before + t) <==> w == t || Stands(space, w, before)
  {
    if Stands(space, w, before + t) {
      var i :| StandsAt(space, w, before + t, i);
      StandsThenTail(space, w, before, t, i);
    }
    if w == t || Stands(space, w, before) {
      TailThenStands(space, w, before, t);
    }
  }

  /** The words of a text are exactly what stands in it between white space or the ends. */
  lemma {:induction false} WordsAreExact(space: char -> bool, w: string, s: string)
    ensures w in Words(space, s) <==> Stands(space, w, s)
    decreases |s|
  {
    if s != [] {
      if space(s[|s| - 1]) {
        var front := s[..|s| - 1];
        WordsAreExact(space, w, front);
        StandsBeforeSpace(space, w, front, s[|s| - 1]);
        assert front + [s[|s| - 1]] == s;
      } else {
        var t := Tail(space, s);
        var before := s[..|s| - |t|];
        TailIsRun(space, s, before, t);
        WordsAreExact(space, w, before);
        StandsWithTail(space, w, before, t);
      }
    }
  }

  lemma OnlyWord(space: char -> bool, w: string, n: string)
    requires IsWord(space, n) && Stands(space, w, n)
    ensures w == n
  {}
}
