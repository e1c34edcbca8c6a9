/** Text normalization and keyword matching for scanned uploads. */
module Keywords {
  import opened Common
  import opened Splitting

  predicate IsAlnum(c: char) {
    'a' <= c <= 'z' || '0' <= c <= '9'
  }

  /** What `\s` matches, and what `strip` and `split` take for white space. */
  predicate IsSpace(c: char): (r: bool)
    ensures c == ' ' ==> r
    ensures IsAlnum(c) ==> !r
  {
    || c == ' ' || '\t' <= c <= '\r' || '\U{1C}' <= c <= '\U{1F}' || c == '\U{85}' || c == '\U{A0}' || c == '\U{1680}'
    || '\U{2000}' <= c <= '\U{200A}' || '\U{2028}' <= c <= '\U{2029}' || c == '\U{202F}' || c == '\U{205F}'
    || c == '\U{3000}'
  }

  /** The Kelvin sign and the dotted capital I are the only letters beyond A to Z whose lower
      case has an ASCII letter in it; the others stay outside ASCII and are left as they are. */
  function LowerChar(c: char): string {
    if 'A' <= c <= 'Z' then [((c as int) + 32) as char]
    else if c == '\U{212A}' then "k"
    else if c == '\U{130}' then "i\U{307}"
    else [c]
  }

  function Lower(s: string): string {
    if s == [] then [] else Lower(s[..|s| - 1]) + LowerChar(s[|s| - 1])
  }

  function BlankChar(c: char): char {
    if IsAlnum(c) || IsSpace(c) then c else ' '
  }

  /** Everything but letters, digits and white space becomes a space. */
  function Blanked(s: string): string {
    if s == [] then [] else Blanked(s[..|s| - 1]) + [BlankChar(s[|s| - 1])]
  }

  /** Every run of white space becomes one space. */
  function Collapsed(s: string): string {
    if s == [] then []
    else
      var front, last := s[..|s| - 1], s[|s| - 1];
      if !IsSpace(last) then Collapsed(front) + [last]
      else if front != [] && IsSpace(front[|front| - 1]) then Collapsed(front)
      else Collapsed(front) + " "
  }

  function StripRight(s: string): string {
    if s != [] && IsSpace(s[|s| - 1]) then StripRight(s[..|s| - 1]) else s
  }

  function StripLeft(s: string): string {
    if s != [] && IsSpace(s[0]) then StripLeft(s[1..]) else s
  }

  function Strip(s: string): string {
    StripRight(StripLeft(s))
  }

  function Normalize(text: string): string {
    Strip(Collapsed(Blanked(Lower(text))))
  }

  /** The text is this, between white space, and neither begins nor ends with any. */
  ghost predicate StripsTo(s: string, t: string) {
    && (t != [] ==> !IsSpace(t[0]) && !IsSpace(t[|t| - 1]))
    && exists a, b :: s == a + t + b && AllSpace(a) && AllSpace(b)
  }

  predicate AllSpace(s: string) {
    forall i | 0 <= i < |s| :: IsSpace(s[i])
  }

  lemma {:induction false} StripLeftCuts(s: string) returns (a: string)
    ensures s == a + StripLeft(s) && AllSpace(a) && (StripLeft(s) != [] ==> !IsSpace(StripLeft(s)[0]))
  {
    a := [];
    if s != [] && IsSpace(s[0]) {
      a := StripLeftCuts(s[1..]);
      a := [s[0]] + a;
    }
  }

  lemma {:induction false} StripRightCuts(s: string) returns (b: string)
    ensures s == StripRight(s) + b && AllSpace(b)
    ensures StripRight(s) != [] ==> StripRight(s)[0] == s[0] && !IsSpace(StripRight(s)[|StripRight(s)| - 1])
  {
    b := [];
    if s != [] && IsSpace(s[|s| - 1]) {
      b := StripRightCuts(s[..|s| - 1]);
      b := b + [s[|s| - 1]];
    }
  }

  /** A character that is no white space lies in the part kept. */
  lemma KeptPart(s: string, a: string, t: string, b: string, i: nat)
    requires s == a + t + b && AllSpace(a) && AllSpace(b) && i < |s| && !IsSpace(s[i])
    ensures |a| <= i < |a| + |t|
  {
    assert forall k | 0 <= k < |a| :: s[k] == a[k];
    var rest := s[|a| + |t|..];
    assert rest == b && forall k | 0 <= k < |rest| :: s[|a| + |t| + k] == rest[k];
  }

  lemma NoShorter(s: string, a: string, t: string, b: string, c: string, u: string, d: string)
    requires s == a + t + b && AllSpace(a) && AllSpace(b) && s == c + u + d
    requires u != [] && !IsSpace(u[0]) && !IsSpace(u[|u| - 1])
    ensures |a| <= |c| && |c| + |u| <= |a| + |t|
  {
    assert s[|c|] == u[0] && s[|c| + |u| - 1] == u[|u| - 1];
    KeptPart(s, a, t, b, |c|);
    KeptPart(s, a, t, b, |c| + |u| - 1);
  }

  lemma StripsToOne(s: string, t: string, u: string)
    requires StripsTo(s, t) && StripsTo(s, u)
    ensures t == u
  {
    var a, b :| s == a + t + b && AllSpace(a) && AllSpace(b);
    var c, d :| s == c + u + d && AllSpace(c) && AllSpace(d);
    if u != [] { NoShorter(s, a, t, b, c, u, d); }
    if t != [] {
      NoShorter(s, c, u, d, a, t, b);
      assert t == s[|a|..|a| + |t|] && u == s[|c|..|c| + |u|];
    }
  }

  lemma StripExactly(s: string, t: string)
    ensures t == Strip(s) <==> StripsTo(s, t)
  {
    var a := StripLeftCuts(s);
    var b := StripRightCuts(StripLeft(s));
    assert s == a + Strip(s) + b;
    if StripsTo(s, t) { StripsToOne(s, t, Strip(s)); }
  }

  // ---------------------------------------------------------------- normal text

  predicate IsPlain(s: string) {
    && (forall i | 0 <= i < |s| :: IsAlnum(s[i]) || s[i] == ' ')
    && (forall i | 0 < i < |s| :: !(s[i - 1] == ' ' && s[i] == ' '))
  }

  /** Over [a-z0-9 ], with no leading, trailing or doubled space. */
  predicate IsNormal(s: string) {
    IsPlain(s) && (s != [] ==> s[0] != ' ' && s[|s| - 1] != ' ')
  }

  lemma {:induction false} BlankedIsClean(s: string)
    ensures |Blanked(s)| == |s|
    ensures forall i | 0 <= i < |s| :: Blanked(s)[i] == BlankChar(s[i])
  {
    if s != [] { BlankedIsClean(s[..|s| - 1]); }
  }

  lemma {:induction false} CollapsedIsPlain(s: string)
    requires forall i | 0 <= i < |s| :: IsAlnum(s[i]) || IsSpace(s[i])
    ensures IsPlain(Collapsed(s))
    ensures s == [] <==> Collapsed(s) == []
    ensures s != [] ==> (IsSpace(s[|s| - 1]) <==> Collapsed(s)[|Collapsed(s)| - 1] == ' ')
  {
    if s != [] { CollapsedIsPlain(s[..|s| - 1]); }
  }

  lemma {:induction false} StripLeftIsPlain(s: string)
    requires IsPlain(s)
    ensures IsPlain(StripLeft(s)) && (StripLeft(s) != [] ==> StripLeft(s)[0] != ' ')
  {}

  lemma {:induction false} StripRightIsNormal(s: string)
    requires IsPlain(s) && (s != [] ==> s[0] != ' ')
    ensures IsNormal(StripRight(s))
  {}

  lemma NormalizeIsNormal(text: string)
    ensures IsNormal(Normalize(text))
  {
    var blanked := Blanked(Lower(text));
    BlankedIsClean(Lower(text));
    CollapsedIsPlain(blanked);
    StripLeftIsPlain(Collapsed(blanked));
    StripRightIsNormal(StripLeft(Collapsed(blanked)));
  }

  lemma PlainCharStays(c: char)
    requires IsAlnum(c) || c == ' '
    ensures LowerChar(c) == [c]
  {}

  lemma {:induction false} PlainLower(s: string)
    requires forall i | 0 <= i < |s| :: IsAlnum(s[i]) || s[i] == ' '
    ensures Lower(s) == s
  {
    if s != [] {
      PlainLower(s[..|s| - 1]);
      PlainCharStays(s[|s| - 1]);
      assert s[..|s| - 1] + [s[|s| - 1]] == s;
    }
  }

  lemma {:induction false} PlainCollapsed(s: string)
    requires IsPlain(s)
    ensures Collapsed(s) == s
  {
    if s != [] {
      var front, last := s[..|s| - 1], s[|s| - 1];
      PlainCollapsed(front);
      assert IsAlnum(last) || last == ' ';
      assert front != [] ==> IsAlnum(s[|s| - 2]) || s[|s| - 2] == ' ';
      assert front + [last] == s;
    }
  }

  lemma PlainStays(s: string)
    requires IsPlain(s)
    ensures Lower(s) == s && Blanked(s) == s && Collapsed(s) == s
  {
    PlainLower(s);
    BlankedIsClean(s);
    PlainCollapsed(s);
  }

  /** Normalization changes a text if and only if the text is not normal; so it is idempotent. */
  lemma NormalIsFixed(text: string)
    ensures IsNormal(text) <==> Normalize(text) == text
    ensures Normalize(Normalize(text)) == Normalize(text)
  {
    NormalizeIsNormal(text);
    FixedIfNormal(Normalize(text));
    if IsNormal(text) { FixedIfNormal(text); }
  }

  lemma FixedIfNormal(s: string)
    requires IsNormal(s)
    ensures Normalize(s) == s
  {
    PlainStays(s);
    if s != [] { assert IsAlnum(s[0]) && IsAlnum(s[|s| - 1]); }
  }

  // ---------------------------------------------------------------- words and substrings

  lemma {:induction false} CollapsedRun(a: string, t: string)
    requires IsRunAfter(IsSpace, a, t)
    ensures Collapsed(a + t) == Collapsed(a) + t
  {
    if t == [] {
      assert a + t == a;
    } else {
      JoinSnoc(a, t);
      CollapsedRun(a, t[..|t| - 1]);
      assert Collapsed(a) + t == Collapsed(a) + t[..|t| - 1] + [t[|t| - 1]];
    }
  }

  lemma {:induction false} CollapsedEnds(s: string)
    ensures s == [] <==> Collapsed(s) == []
    ensures s != [] ==> (IsSpace(s[|s| - 1]) <==> IsSpace(Collapsed(s)[|Collapsed(s)| - 1]))
  {
    if s != [] { CollapsedEnds(s[..|s| - 1]); }
  }

  lemma {:induction false} CollapsedWords(s: string)
    ensures Words(IsSpace, Collapsed(s)) == Words(IsSpace, s)
    decreases |s|
  {
    if s != [] {
      if IsSpace(s[|s| - 1]) {
        CollapsedWords(s[..|s| - 1]);
        WordsOfSpace(IsSpace, Collapsed(s[..|s| - 1]), ' ');
      } else {
        var t := Tail(IsSpace, s);
        var before := s[..|s| - |t|];
        TailIsRun(IsSpace, s, before, t);
        CollapsedWords(before);
        CollapsedEnds(before);
        CollapsedRun(before, t);
        WordsOfRun(IsSpace, before, t);
        WordsOfRun(IsSpace, Collapsed(before), t);
      }
    }
  }

  lemma {:induction false} StripLeftWords(s: string)
    ensures Words(IsSpace, StripLeft(s)) == Words(IsSpace, s)
  {
    if s != [] && IsSpace(s[0]) {
      StripLeftWords(s[1..]);
      LeadingSpace(IsSpace, s[0], s[1..]);
      assert [s[0]] + s[1..] == s;
    }
  }

  lemma {:induction false} StripRightWords(s: string)
    ensures Words(IsSpace, StripRight(s)) == Words(IsSpace, s)
  {
    if s != [] && IsSpace(s[|s| - 1]) { StripRightWords(s[..|s| - 1]); }
  }

  function Spaced(words: seq<string>): string {
    if words == [] then []
    else if |words| == 1 then words[0]
    else Spaced(words[..|words| - 1]) + " " + words[|words| - 1]
  }

  /** A normal text of several words is a normal text, a space, and the last word. */
  lemma NormalSplits(s: string, before: string, t: string)
    requires IsNormal(s) && s == before + t && t != [] && IsRunAfter(IsSpace, before, t) && before != []
    ensures var front := before[..|before| - 1];
            front != [] && IsNormal(front) && s == front + " " + t
  {
    var p := |before|;
    assert forall k | 0 <= k < p :: before[k] == s[k];
    assert IsAlnum(s[0]) && s[p - 1] == ' ';
    assert p > 1 && s[p - 2] != ' ';
    assert before == before[..p - 1] + " ";
  }

  lemma WordsOfSplit(before: string, t: string)
    requires t != [] && forall k | 0 <= k < |t| :: !IsSpace(t[k])
    ensures Words(IsSpace, before + " " + t) == Words(IsSpace, before) + [t]
  {
    WordsOfRun(IsSpace, before + " ", t);
    WordsOfSpace(IsSpace, before, ' ');
  }

  lemma SpacedSnoc(words: seq<string>, w: string)
    requires words != []
    ensures Spaced(words + [w]) == Spaced(words) + " " + w
  {}

  lemma {:induction false} NormalIsSpaced(s: string)
    requires IsNormal(s)
    ensures Spaced(Words(IsSpace, s)) == s
    ensures s != [] ==> Words(IsSpace, s) != []
    decreases |s|
  {
    if s != [] {
      assert IsAlnum(s[|s| - 1]);
      var t := Tail(IsSpace, s);
      var before := s[..|s| - |t|];
      TailIsRun(IsSpace, s, before, t);
      if before == [] {
        WordsOfRun(IsSpace, before, t);
        assert Words(IsSpace, s) == [s];
      } else {
        NormalSplits(s, before, t);
        var front := before[..|before| - 1];
        NormalIsSpaced(front);
        WordsOfSplit(front, t);
        SpacedSnoc(Words(IsSpace, front), t);
      }
    }
  }

  /** What normalization computes: the runs of lower-case letters and digits, one space apart. */
  lemma NormalizeSpacesWords(text: string)
    ensures Normalize(text) == Spaced(Words(IsSpace, Blanked(Lower(text))))
    ensures Words(IsSpace, Normalize(text)) == Words(IsSpace, Blanked(Lower(text)))
  {
    var blanked := Blanked(Lower(text));
    CollapsedWords(blanked);
    StripLeftWords(Collapsed(blanked));
    StripRightWords(StripLeft(Collapsed(blanked)));
    NormalizeIsNormal(text);
    NormalIsSpaced(Normalize(text));
  }

  // ---------------------------------------------------------------- words of the raw text

  /** The dotted capital I reads like an i and a separator. */
  function Expanded(text: string): string {
    if text == [] then []
    else
      var front, last := Expanded(text[..|text| - 1]), text[|text| - 1];
      if last == '\U{130}' then front + "i " else front + [last]
  }

  /** A capital A to Z, or the Kelvin sign, stands for its small letter; a small letter or a digit
      stands for itself. */
  predicate StandsFor(c: char, d: char) {
    && ('a' <= d <= 'z' || '0' <= d <= '9')
    && (c == d || ('A' <= c <= 'Z' && (c as int) + 32 == d as int) || (c == '\U{212A}' && d == 'k'))
  }

  predicate Separates(c: char) {
    !('a' <= c <= 'z') && !('0' <= c <= '9') && !('A' <= c <= 'Z') && c != '\U{212A}'
  }

  /** The word is read at `i`, in either case, between separators or the ends. */
  predicate ReadsAt(w: string, text: string, i: int) {
    && 0 <= i <= |text| - |w| && w != []
    && (forall k | 0 <= k < |w| :: StandsFor(text[i + k], w[k]))
    && (i > 0 ==> Separates(text[i - 1]))
    && (i + |w| < |text| ==> Separates(text[i + |w|]))
  }

  /** One character of the text, in lower case and with the separators blanked. */
  predicate Folds(c: char, b: char) {
    if Separates(c) then IsSpace(b) else IsAlnum(b) && StandsFor(c, b)
  }

  lemma {:induction false} BlankedSnoc(s: string, c: char)
    ensures Blanked(s + [c]) == Blanked(s) + [BlankChar(c)]
  {
    assert (s + [c])[..|s|] == s;
  }

  lemma LowerSnoc(s: string, c: char)
    ensures Lower(s + [c]) == Lower(s) + LowerChar(c)
  {
    assert (s + [c])[..|s|] == s;
  }

  lemma CharFolds(c: char)
    requires c != '\U{130}'
    ensures |LowerChar(c)| == 1 && Folds(c, BlankChar(LowerChar(c)[0]))
  {}

  ghost predicate AllFold(text: string, b: string) {
    |b| == |text| && forall i | 0 <= i < |b| :: Folds(text[i], b[i])
  }

  lemma OneMoreFolds(text: string, front: string, last: char)
    requires text == front + [last] && last != '\U{130}' && AllFold(front, Blanked(Lower(front)))
    ensures AllFold(text, Blanked(Lower(text)))
  {
    LowerSnoc(front, last);
    CharFolds(last);
    var c := LowerChar(last)[0];
    BlankedSnoc(Lower(front), c);
    var b := Blanked(Lower(front)) + [BlankChar(c)];
    forall i | 0 <= i < |b| ensures Folds(text[i], b[i]) {
      assert i < |front| ==> Folds(front[i], Blanked(Lower(front))[i]);
    }
  }

  /** Blanking what is in lower case works character by character. */
  lemma {:induction false} BlankedFolds(text: string)
    requires forall i | 0 <= i < |text| :: text[i] != '\U{130}'
    ensures AllFold(text, Blanked(Lower(text)))
  {
    if text != [] {
      var front, last := text[..|text| - 1], text[|text| - 1];
      BlankedFolds(front);
      OneMoreFolds(text, front, last);
    }
  }

  lemma BlankedTwo(s: string, c: char, d: char)
    ensures Blanked(s + [c, d]) == Blanked(s) + [BlankChar(c), BlankChar(d)]
  {
    assert s + [c, d] == s + [c] + [d];
    BlankedSnoc(s + [c], d);
    BlankedSnoc(s, c);
  }

  lemma DotIsBlanked()
    ensures BlankChar('\U{307}') == ' '
  {}

  lemma LowerTwo(e: string)
    ensures Lower(e + "i ") == Lower(e) + ['i', ' ']
  {
    assert e + "i " == e + ['i'] + [' '];
    LowerSnoc(e, 'i');
    LowerSnoc(e + ['i'], ' ');
  }

  /** The text in lower case, with all but letters and digits blanked. */
  function Reading(text: string): string {
    Blanked(Lower(text))
  }

  lemma DottedReadsAlike(e: string, front: string)
    requires Reading(e) == Reading(front)
    ensures Reading(e + "i ") == Reading(front + ['\U{130}'])
  {
    LowerTwo(e);
    LowerSnoc(front, '\U{130}');
    BlankedTwo(Lower(e), 'i', ' ');
    BlankedTwo(Lower(front), 'i', '\U{307}');
    DotIsBlanked();
  }

  lemma CharReadsAlike(e: string, front: string, c: char)
    requires Reading(e) == Reading(front) && c != '\U{130}'
    ensures Reading(e + [c]) == Reading(front + [c])
  {
    CharFolds(c);
    LowerSnoc(e, c);
    LowerSnoc(front, c);
    BlankedSnoc(Lower(e), LowerChar(c)[0]);
    BlankedSnoc(Lower(front), LowerChar(c)[0]);
  }

  lemma ExpandedSnoc(text: string, front: string, c: char, e: string, f: string)
    requires text == front + [c] && e == Expanded(text) && f == Expanded(front)
    ensures e == f + if c == '\U{130}' then "i " else [c]
  {
    assert text[..|front|] == front;
  }

  lemma {:induction false} NoneDotted(text: string)
    ensures forall i | 0 <= i < |Expanded(text)| :: Expanded(text)[i] != '\U{130}'
  {
    if text != [] { NoneDotted(text[..|text| - 1]); }
  }

  lemma OneMoreReadsAlike(text: string, front: string, c: char, e: string, f: string)
    requires text == front + [c] && Reading(f) == Reading(front)
    requires e == f + if c == '\U{130}' then "i " else [c]
    ensures Reading(e) == Reading(text)
  {
    if c == '\U{130}' { DottedReadsAlike(f, front); } else { CharReadsAlike(f, front, c); }
  }

  lemma {:induction false} ExpandedReadsAlike(text: string, e: string)
    requires e == Expanded(text)
    ensures Reading(e) == Reading(text)
  {
    if text == [] {
      assert e == text;
    } else {
      var front, last := text[..|text| - 1], text[|text| - 1];
      var f := Expanded(front);
      ExpandedReadsAlike(front, f);
      ExpandedSnoc(text, front, last, e, f);
      OneMoreReadsAlike(text, front, last, e, f);
    }
  }

  lemma StandsIsRead(w: string, text: string, b: string, i: int)
    requires AllFold(text, b)
    requires IsWord(IsSpace, w)
    ensures StandsAt(IsSpace, w, b, i) <==> ReadsAt(w, text, i)
  {
    if StandsAt(IsSpace, w, b, i) {
      forall k | 0 <= k < |w| ensures StandsFor(text[i + k], w[k]) { assert b[i..i + |w|][k] == b[i + k]; }
    }
    if ReadsAt(w, text, i) {
      forall k | 0 <= k < |w| ensures b[i + k] == w[k] { assert Folds(text[i + k], b[i + k]); }
      assert b[i..i + |w|] == w;
    }
  }

  /** The words of a normalized text are those read in the raw text: letters in either case and
      digits, between anything that is neither. */
  lemma WordsAreRead(text: string, w: string)
    ensures w in Words(IsSpace, Normalize(text)) <==> exists i :: ReadsAt(w, Expanded(text), i)
  {
    var b := Blanked(Lower(Expanded(text)));
    ExpandedReadsAlike(text, Expanded(text));
    NoneDotted(text);
    BlankedFolds(Expanded(text));
    NormalizeSpacesWords(text);
    WordsAreExact(IsSpace, w, b);
    if i :| ReadsAt(w, Expanded(text), i) {
      forall k | 0 <= k < |w| ensures !IsSpace(w[k]) { assert StandsFor(Expanded(text)[i + k], w[k]); }
      StandsIsRead(w, Expanded(text), b, i);
    }
    if Stands(IsSpace, w, b) {
      var i :| StandsAt(IsSpace, w, b, i);
      StandsIsRead(w, Expanded(text), b, i);
    }
  }

  // ---------------------------------------------------------------- matching by words

  predicate ContainsKeywords(text: string, keywords: set<string>) {
    exists w :: w in Words(IsSpace, Normalize(text)) && w in keywords
  }

  /** Keywords match alike on raw and on normalized text. */
  lemma RawOrNormalized(text: string, keywords: set<string>)
    ensures ContainsKeywords(text, keywords) <==> ContainsKeywords(Normalize(text), keywords)
  {
    NormalIsFixed(text);
  }

  /** A keyword matched as a word is matched as a substring; the other way only when it stands
      between spaces or the ends. */
  lemma WordMatchIsInfix(text: string, keywords: set<string>)
    ensures ContainsKeywords(text, keywords) <==> exists w :: w in keywords && Stands(IsSpace, w, Normalize(text))
    ensures ContainsKeywords(text, keywords) ==> exists w :: w in keywords && Infix(w, Normalize(text))
  {
    var n := Normalize(text);
    if ContainsKeywords(text, keywords) {
      var w :| w in Words(IsSpace, n) && w in keywords;
      WordsAreExact(IsSpace, w, n);
      var i :| StandsAt(IsSpace, w, n, i);
      assert w in keywords && Infix(w, n);
    }
    if w :| w in keywords && Stands(IsSpace, w, n) { WordsAreExact(IsSpace, w, n); }
  }

  /** As a substring a keyword matches within a longer word, where as a word it does not. */
  lemma InfixNeedNotBeWord(n: string, kw: string)
    requires IsNormal(n) && IsWord(IsSpace, n) && Infix(kw, n) && kw != n
    ensures Infix(kw, Normalize(n)) && !ContainsKeywords(n, {kw})
  {
    NormalIsFixed(n);
    WordsAreExact(IsSpace, kw, n);
    if kw in Words(IsSpace, n) { OnlyWord(IsSpace, kw, n); }
  }

  lemma InfixOfPlain(kw: string, n: string)
    requires IsPlain(n) && Infix(kw, n)
    ensures IsPlain(kw)
  {}

  // ---------------------------------------------------------------- which keywords can match

  /** A keyword can be found in some text if and only if it is plain: letters, digits and single
      spaces. One stored with a hyphen never raises an alert. */
  lemma OnlyPlainKeywordsMatch(kw: string)
    ensures (exists text :: Infix(kw, Normalize(text))) <==> IsPlain(kw)
  {
    if text :| Infix(kw, Normalize(text)) {
      NormalizeIsNormal(text);
      InfixOfPlain(kw, Normalize(text));
    }
    if IsPlain(kw) { PlainIsFound(kw); }
  }

  lemma PlainIsFound(kw: string)
    requires IsPlain(kw)
    ensures Infix(kw, Normalize("a" + kw + "a"))
  {
    var n := "a" + kw + "a";
    PlainInside(kw, n);
    FixedIfNormal(n);
    assert n[1..1 + |kw|] == kw;
    assert MatchesAt(kw, n, 1);
  }

  lemma PlainInside(kw: string, n: string)
    requires IsPlain(kw) && n == "a" + kw + "a"
    ensures IsNormal(n)
  {
    forall i | 0 <= i < |n| ensures IsAlnum(n[i]) || n[i] == ' ' {
      if 0 < i < |n| - 1 { assert n[i] == kw[i - 1]; }
    }
    forall i | 0 < i < |n| ensures !(n[i - 1] == ' ' && n[i] == ' ') {
      if 1 < i < |n| - 1 { assert n[i - 1] == kw[i - 2] && n[i] == kw[i - 1]; }
    }
  }

  /** The keywords a user sets: stripped, in lower case, blank ones dropped. */
  function Stored(keywords: seq<string>): seq<string> {
    if keywords == [] then []
    else
      var rest, kw := Stored(keywords[..|keywords| - 1]), Strip(keywords[|keywords| - 1]);
      if kw == [] then rest else rest + [Lower(kw)]
  }

  lemma {:induction false} LowerIsNotEmpty(s: string)
    requires s != []
    ensures Lower(s) != []
  {}

  lemma {:induction false} StoredAreNotEmpty(keywords: seq<string>)
    ensures "" !in Stored(keywords)
  {
    if keywords != [] {
      StoredAreNotEmpty(keywords[..|keywords| - 1]);
      var kw := Strip(keywords[|keywords| - 1]);
      if kw != [] { LowerIsNotEmpty(kw); }
    }
  }

  /** The entry is not blank, and this is what it becomes stripped and in lower case. */
  predicate Gives(kw: string, s: string) {
    Strip(kw) != [] && s == Lower(Strip(kw))
  }

  lemma StoredSnoc(front: seq<string>, last: string, s: string)
    ensures s in Stored(front + [last]) <==> s in Stored(front) || Gives(last, s)
  {
    assert (front + [last])[..|front|] == front;
  }

  lemma {:induction false} StoredExactly(keywords: seq<string>, s: string)
    ensures s in Stored(keywords) <==> exists kw :: kw in keywords && Gives(kw, s)
  {
    if keywords != [] {
      var front, last := keywords[..|keywords| - 1], keywords[|keywords| - 1];
      StoredExactly(front, s);
      StoredSnoc(front, last, s);
      assert keywords == front + [last];
    }
  }

  predicate Usable(kw: string) {
    Strip(kw) != [] && IsPlain(Lower(Strip(kw)))
  }

  /** What a user sets can raise an alert on some text if and only if one entry is usable: not
      blank, and letters, digits and single spaces once stripped and in lower case. */
  lemma UsableEntriesMatch(keywords: seq<string>)
    ensures (exists s, text :: s in Stored(keywords) && Infix(s, Normalize(text))) <==>
              exists kw :: kw in keywords && Usable(kw)
  {
    if s, text :| s in Stored(keywords) && Infix(s, Normalize(text)) {
      StoredExactly(keywords, s);
      OnlyPlainKeywordsMatch(s);
    }
    if kw :| kw in keywords && Usable(kw) {
      StoredExactly(keywords, Lower(Strip(kw)));
      OnlyPlainKeywordsMatch(Lower(Strip(kw)));
    }
  }

  /** The first keyword of the set's iteration order that occurs in the text. */
  ghost predicate IsFirst(order: seq<string>, normalized: string, k: int) {
    0 <= k < |order| && Infix(order[k], normalized) && NoneBefore(order, normalized, k)
  }

  /** The first keyword that occurs is this one. */
  ghost predicate FirstIs(order: seq<string>, normalized: string, kw: string) {
    exists k :: IsFirst(order, normalized, k) && order[k] == kw
  }

  /** None of the first `k` keywords occurs. */
  ghost predicate NoneBefore(order: seq<string>, normalized: string, k: int) {
    k <= |order| && forall j | 0 <= j < k :: !Infix(order[j], normalized)
  }

  /** The first keyword of the iteration that occurs, if one does. */
  method FirstMatch(order: seq<string>, normalized: string) returns (matched: Option<string>)
    ensures matched.Some? ==> FirstIs(order, normalized, matched.value)
    ensures matched.None? ==> NoneBefore(order, normalized, |order|)
  {
    for k := 0 to |order|
      invariant NoneBefore(order, normalized, k)
    {
      if Infix(order[k], normalized) {
        assert IsFirst(order, normalized, k);
        return Some(order[k]);
      }
    }
    return None;
  }

  lemma SomeOccurs(order: seq<string>, normalized: string, kw: string)
    requires FirstIs(order, normalized, kw)
    ensures kw in order && !NoneBefore(order, normalized, |order|)
  {}

  /** The alert names the first keyword that occurs. An empty one always occurs and raises
      nothing, so it may hide others; without it the order does not matter to whether there is
      an alert. */
  method ProcessOcr(text: string, order: seq<string>) returns (alert: Option<string>)
    ensures alert.Some? ==> text != [] && alert.value != [] && FirstIs(order, Normalize(text), alert.value)
    ensures alert.None? ==> text == [] || NoneBefore(order, Normalize(text), |order|)
                            || FirstIs(order, Normalize(text), [])
    ensures [] !in order ==> (alert.Some? <==> text != [] && !NoneBefore(order, Normalize(text), |order|))
  {
    if text == [] || order == [] { return None; }
    var normalized := Normalize(text);
    var matched := FirstMatch(order, normalized);
    if matched.Some? { SomeOccurs(order, normalized, matched.value); }
    if matched.Some? && matched.value != [] { return matched; }
    return None;
  }
}
