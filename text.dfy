/**
 * The string operations the chatbots and the ingestion chunker use, as
 * Python's `str` methods behave on ASCII text: `lower`, `strip`, `in`,
 * slicing `s[:n]`, `split`, `sep.join` and the sentence split
 * `re.split(r'[.!?]+', s)`.
 */
module Text {

  import opened Wrappers

  /**
   * Python's `str.isspace` on one character, the whitespace of `strip()` and
   * `split()`: tab to carriage return, the separators U+001C to U+001F, space,
   * U+0085, U+00A0, U+1680, U+2000 to U+200A, U+2028, U+2029, U+202F, U+205F
   * and U+3000.
   */
  predicate IsSpace(c: char) {
    || '\t' <= c <= '\r'
    || '\U{1C}' <= c <= ' '
    || c == '\U{85}' || c == '\U{A0}' || c == '\U{1680}'
    || '\U{2000}' <= c <= '\U{200A}'
    || c == '\U{2028}' || c == '\U{2029}' || c == '\U{202F}' || c == '\U{205F}' || c == '\U{3000}'
  }

  predicate IsUpper(c: char) {
    'A' <= c <= 'Z'
  }

  /** `str.lower` on one character, ASCII letters only. */
  function LowerChar(c: char): char {
    if IsUpper(c) then (c as int + 32) as char else c
  }

  /** `str.lower`, ASCII letters only. */
  function Lower(s: string): (r: string)
    ensures |r| == |s|
    ensures forall i | 0 <= i < |s| :: r[i] == LowerChar(s[i])
  {
    seq(|s|, i requires 0 <= i < |s| => LowerChar(s[i]))
  }

  lemma LowerIdempotent(s: string)
    ensures Lower(Lower(s)) == Lower(s)
  {
  }

  /** A string without upper-case letters is its own lower-case form. */
  lemma LowerOfLower(s: string)
    requires forall i | 0 <= i < |s| :: !IsUpper(s[i])
    ensures Lower(s) == s
  {
  }

  /** Python's `t in s` on strings: `t` occurs in `s` as a contiguous block. */
  predicate Contains(s: string, t: string) {
    exists i | 0 <= i <= |s| - |t| :: OccursAt(s, t, i)
  }

  /** `t` is spelled by the block of `s` that starts at `i`. */
  predicate OccursAt(s: string, t: string, i: nat) {
    i + |t| <= |s| && s[i..i + |t|] == t
  }

  /** A block of `s` that spells `t` is a witness of `t in s`. */
  lemma ContainsAt(s: string, t: string, i: nat)
    requires OccursAt(s, t, i)
    ensures Contains(s, t)
  {
  }

  /** An occurrence in a block of `s` is an occurrence in `s`. */
  lemma ContainsSlice(s: string, a: nat, b: nat, t: string)
    requires a <= b <= |s| && Contains(s[a..b], t)
    ensures Contains(s, t)
  {
    var i :| 0 <= i <= (b - a) - |t| && OccursAt(s[a..b], t, i);
    forall m | 0 <= m < |t| ensures s[a + i + m] == t[m] {
      assert s[a..b][i..i + |t|][m] == t[m];
    }
    assert s[a + i..a + i + |t|] == t;
    assert OccursAt(s, t, a + i);
  }

  /** `s.startswith(p)`. */
  predicate StartsWith(s: string, p: string) {
    p <= s
  }

  /** `s.endswith(p)`. */
  predicate EndsWith(s: string, p: string) {
    |p| <= |s| && s[|s| - |p|..] == p
  }

  lemma EndsWithConcat(a: string, p: string)
    ensures EndsWith(a + p, p)
  {
    assert (a + p)[|a|..] == p;
  }

  /** No whitespace at either end: what `strip` leaves. */
  predicate Trimmed(s: string) {
    s == [] || (!IsSpace(s[0]) && !IsSpace(s[|s| - 1]))
  }

  /** How many whitespace characters `lstrip` removes from the front of `s`. */
  function LeadingSpace(s: string): (n: nat)
    ensures n <= |s|
    ensures n < |s| ==> !IsSpace(s[n])
    ensures forall i | 0 <= i < n :: IsSpace(s[i])
  {
    if s != [] && IsSpace(s[0]) then
      var n := 1 + LeadingSpace(s[1..]);
      assert forall i | 1 <= i < |s| :: s[i] == s[1..][i - 1];
      n
    else 0
  }

  /** How long `s` is once `rstrip` removes the whitespace at its end. */
  function TrailingCut(s: string): (n: nat)
    ensures n <= |s|
    ensures n > 0 ==> !IsSpace(s[n - 1])
    ensures forall i | n <= i < |s| :: IsSpace(s[i])
  {
    if s != [] && IsSpace(s[|s| - 1]) then
      var n := TrailingCut(s[..|s| - 1]);
      assert forall i | 0 <= i < |s| - 1 :: s[i] == s[..|s| - 1][i];
      n
    else |s|
  }

  /** `str.lstrip()`. */
  function StripLeft(s: string): (r: string)
    ensures r == [] || !IsSpace(r[0])
  {
    s[LeadingSpace(s)..]
  }

  /** `str.rstrip()`. */
  function StripRight(s: string): (r: string)
    ensures r == [] || !IsSpace(r[|r| - 1])
  {
    s[..TrailingCut(s)]
  }

  /** `str.strip()`: the block of `s` left after removing whitespace at both ends. */
  function Strip(s: string): (r: string)
    ensures Trimmed(r)
    ensures |r| <= |s|
    ensures var k := LeadingSpace(s);
      && k + |r| <= |s| && r == s[k..k + |r|]
      && Blank(s[..k]) && Blank(s[k + |r|..])
  {
    StripRight(StripLeft(s))
  }

  /** Nothing but whitespace. */
  predicate Blank(s: string) {
    forall i | 0 <= i < |s| :: IsSpace(s[i])
  }

  /** `s.strip()` is empty exactly when `s` is all whitespace (Python's falsy `s.strip()`). */
  lemma StripEmptyIffBlank(s: string)
    ensures Strip(s) == [] <==> Blank(s)
  {
    var n := LeadingSpace(s);
    if n < |s| {
      assert s[n..][0] == s[n];
    }
  }

  /** Stripping a trimmed string changes nothing. */
  lemma StripTrimmed(s: string)
    requires Trimmed(s)
    ensures Strip(s) == s
  {
  }

  /**
   * A trimmed head survives `strip`: a text that begins with `name` still
   * begins with it once stripped, whatever follows.
   */
  lemma StripKeepsTrimmedHead(name: string, s: string)
    requires Trimmed(name) && StartsWith(s, name)
    ensures StartsWith(Strip(s), name)
  {
    if name != [] {
      assert s[0] == name[0];
      assert StripLeft(s) == s;
      assert s[|name| - 1] == name[|name| - 1];
      assert StripRight(s)[..|name|] == s[..|name|] == name;
    }
  }

  /** Python's `s[:n]` for `n >= 0`. */
  function Take(s: string, n: nat): (r: string)
    ensures r <= s
    ensures |r| == if |s| <= n then |s| else n
  {
    if |s| <= n then s else s[..n]
  }

  /** `s[:n] + ("..." if len(s) > n else "")`, the clip every chatbot applies. */
  function Clip(s: string, n: nat): (r: string)
    ensures |r| <= n + 3
    ensures |s| <= n ==> r == s
    ensures |s| > n ==> r == s[..n] + "..."
  {
    Take(s, n) + (if |s| > n then "..." else "")
  }

  /** `sep.join(xs)`. */
  function Join(sep: string, xs: seq<string>): string
    decreases |xs|
  {
    if xs == [] then "" else if |xs| == 1 then xs[0] else xs[0] + sep + Join(sep, xs[1..])
  }

  /** `len(sep.join(xs))`, computed from the lengths alone. */
  function JoinedLength(sep: string, xs: seq<string>): nat
    decreases |xs|
  {
    if xs == [] then 0 else if |xs| == 1 then |xs[0]| else |xs[0]| + |sep| + JoinedLength(sep, xs[1..])
  }

  lemma {:induction false} JoinLength(sep: string, xs: seq<string>)
    ensures |Join(sep, xs)| == JoinedLength(sep, xs)
    decreases |xs|
  {
    if |xs| > 1 {
      JoinLength(sep, xs[1..]);
    }
  }

  lemma {:induction false} JoinSnoc(sep: string, xs: seq<string>, x: string)
    requires xs != []
    ensures Join(sep, xs + [x]) == Join(sep, xs) + sep + x
    decreases |xs|
  {
    if |xs| > 1 {
      assert (xs + [x])[1..] == xs[1..] + [x];
      JoinSnoc(sep, xs[1..], x);
    }
  }

  /** `s.split(c)` for a one-character separator: never empty, empty pieces kept. */
  function SplitOn(s: string, c: char): (r: seq<string>)
    ensures |r| >= 1
  {
    if s == [] then [""]
    else
      var rest := SplitOn(s[1..], c);
      if s[0] == c then [""] + rest else [[s[0]] + rest[0]] + rest[1..]
  }

  /** The pieces of `s.split(c)` hold no `c`, and joining them with `c` gives `s` back. */
  lemma {:induction false} SplitOnRoundTrip(s: string, c: char)
    ensures forall i | 0 <= i < |SplitOn(s, c)| :: c !in SplitOn(s, c)[i]
    ensures Join([c], SplitOn(s, c)) == s
  {
    if s != [] {
      SplitOnRoundTrip(s[1..], c);
      var rest := SplitOn(s[1..], c);
      if s[0] == c {
        assert SplitOn(s, c) == [""] + rest;
        assert Join([c], [""] + rest) == "" + [c] + Join([c], rest);
      } else {
        var r := SplitOn(s, c);
        assert r == [[s[0]] + rest[0]] + rest[1..];
        if |rest| == 1 {
          assert Join([c], r) == [s[0]] + rest[0];
        } else {
          assert r[1..] == rest[1..];
          assert Join([c], rest) == rest[0] + [c] + Join([c], rest[1..]);
          assert Join([c], r) == [s[0]] + rest[0] + [c] + Join([c], rest[1..]);
        }
        assert s == [s[0]] + s[1..];
      }
    }
  }

  /** The first index from `p` on that is not whitespace, or `|s|` when there is none. */
  function SkipSpace(s: string, p: nat): (k: nat)
    requires p <= |s|
    ensures p <= k <= |s|
    ensures k < |s| ==> !IsSpace(s[k])
    ensures forall m | p <= m < k :: IsSpace(s[m])
    decreases |s| - p
  {
    if p < |s| && IsSpace(s[p]) then SkipSpace(s, p + 1) else p
  }

  /** The first index from `p` on that is whitespace, or `|s|` when there is none. */
  function SkipWord(s: string, p: nat): (e: nat)
    requires p <= |s|
    ensures p <= e <= |s|
    ensures e < |s| ==> IsSpace(s[e])
    ensures forall m | p <= m < e :: !IsSpace(s[m])
    decreases |s| - p
  {
    if p < |s| && !IsSpace(s[p]) then SkipWord(s, p + 1) else p
  }

  /** The words of `s.split()` from index `p` on. */
  function WordsFrom(s: string, p: nat): (r: seq<string>)
    requires p <= |s|
    ensures forall i | 0 <= i < |r| :: r[i] != [] && forall j | 0 <= j < |r[i]| :: !IsSpace(r[i][j])
    decreases |s| - p
  {
    var k := SkipSpace(s, p);
    if k == |s| then []
    else
      var e := SkipWord(s, k);
      [s[k..e]] + WordsFrom(s, e)
  }

  /** `str.split()` with no argument: the maximal runs of non-whitespace, in order. */
  function Words(s: string): (r: seq<string>)
    ensures forall i | 0 <= i < |r| :: r[i] != [] && forall j | 0 <= j < |r[i]| :: !IsSpace(r[i][j])
  {
    WordsFrom(s, 0)
  }

  /** `s[i..j]` is a maximal run of non-whitespace: a word of `s.split()`. */
  predicate WordAt(s: string, i: nat, j: nat) {
    && i < j <= |s|
    && (i == 0 || IsSpace(s[i - 1]))
    && (j == |s| || IsSpace(s[j]))
    && forall m | i <= m < j :: !IsSpace(s[m])
  }

  /** Every word `WordsFrom(s, p)` lists is a maximal run that starts at `p` or later. */
  lemma {:induction false} WordsFromAreRuns(s: string, p: nat, w: string)
    requires p <= |s| && (p == 0 || p == |s| || IsSpace(s[p]))
    requires w in WordsFrom(s, p)
    ensures exists i: nat, j: nat | p <= i && WordAt(s, i, j) :: w == s[i..j]
    decreases |s| - p
  {
    var k := SkipSpace(s, p);
    var e := SkipWord(s, k);
    if w == s[k..e] {
      assert k > p ==> IsSpace(s[k - 1]);
      assert WordAt(s, k, e);
    } else {
      WordsFromAreRuns(s, e, w);
    }
  }

  /** Every maximal run that starts at `p` or later is a word `WordsFrom(s, p)` lists. */
  lemma {:induction false} RunsAreWordsFrom(s: string, p: nat, i: nat, j: nat)
    requires p <= i && WordAt(s, i, j)
    ensures s[i..j] in WordsFrom(s, p)
    decreases |s| - p
  {
    assert !IsSpace(s[i]);
    var k := SkipSpace(s, p);
    var e := SkipWord(s, k);
    if i < e {
      assert i == k && j == e;
    } else {
      RunsAreWordsFrom(s, e, i, j);
    }
  }

  /** The words of `s.split()` are exactly the maximal runs of non-whitespace in `s`. */
  lemma WordsAreMaximalRuns(s: string, w: string)
    ensures w in Words(s) <==> exists i: nat, j: nat | WordAt(s, i, j) :: w == s[i..j]
  {
    if w in Words(s) {
      WordsFromAreRuns(s, 0, w);
    }
    if exists i: nat, j: nat | WordAt(s, i, j) :: w == s[i..j] {
      var i: nat, j: nat :| WordAt(s, i, j) && w == s[i..j];
      RunsAreWordsFrom(s, 0, i, j);
    }
  }

  /** The words two strings share, as the sets `set(a.split()) & set(b.split())`. */
  function SharedWords(a: string, b: string): set<string> {
    (set w | w in Words(a)) * (set w | w in Words(b))
  }

  /** The separators of the sentence split: `.`, `!` and `?`. */
  predicate IsPunct(c: char) {
    c == '.' || c == '!' || c == '?'
  }

  /** Drops the run of sentence punctuation at the front of `s`. */
  function DropPunct(s: string): (r: string)
    ensures |r| <= |s| && r == s[|s| - |r|..]
    ensures forall i | 0 <= i < |s| - |r| :: IsPunct(s[i])
    ensures r == [] || !IsPunct(r[0])
  {
    if s != [] && IsPunct(s[0]) then
      var r := DropPunct(s[1..]);
      assert s[1..][|s| - 1 - |r|..] == s[|s| - |r|..];
      assert forall i | 1 <= i < |s| - |r| :: s[i] == s[1..][i - 1];
      r
    else s
  }

  /** `re.split(r'[.!?]+', s)`: split at every maximal run of `.`, `!`, `?`; empty pieces kept. */
  function SplitSentences(s: string): (r: seq<string>)
    ensures |r| >= 1
    decreases |s|
  {
    if s == [] then [""]
    else if IsPunct(s[0]) then [""] + SplitSentences(DropPunct(s))
    else
      var rest := SplitSentences(s[1..]);
      [[s[0]] + rest[0]] + rest[1..]
  }

  /** `s` with every `.`, `!` and `?` removed. */
  function WithoutPunct(s: string): string {
    if s == [] then "" else (if IsPunct(s[0]) then "" else [s[0]]) + WithoutPunct(s[1..])
  }

  /** Concatenation of a sequence of sequences (of strings into a string, of lists into a list). */
  function Concat<T>(xs: seq<seq<T>>): seq<T> {
    if xs == [] then [] else xs[0] + Concat(xs[1..])
  }

  lemma {:induction false} WithoutPunctRun(s: string)
    ensures WithoutPunct(s) == WithoutPunct(DropPunct(s))
  {
    if s != [] && IsPunct(s[0]) {
      WithoutPunctRun(s[1..]);
    }
  }

  /** The pieces of the sentence split hold no `.`, `!` or `?`. */
  lemma {:induction false} SentencesHaveNoPunct(s: string)
    ensures forall i, j | 0 <= i < |SplitSentences(s)| && 0 <= j < |SplitSentences(s)[i]| :: !IsPunct(SplitSentences(s)[i][j])
    decreases |s|
  {
    if s == [] {
    } else if IsPunct(s[0]) {
      SentencesHaveNoPunct(DropPunct(s));
    } else {
      SentencesHaveNoPunct(s[1..]);
      var rest := SplitSentences(s[1..]);
      var r := SplitSentences(s);
      forall i, j | 0 <= i < |r| && 0 <= j < |r[i]| ensures !IsPunct(r[i][j]) {
        if i == 0 && j > 0 {
          assert r[0] == [s[0]] + rest[0];
          assert r[0][j] == rest[0][j - 1];
        } else if i > 0 {
          assert r[i] == rest[i];
        }
      }
    }
  }

  /** Together the pieces of the sentence split hold every other character of `s`, in order. */
  lemma {:induction false} SentencesKeepText(s: string)
    ensures Concat(SplitSentences(s)) == WithoutPunct(s)
    decreases |s|
  {
    if s == [] {
    } else if IsPunct(s[0]) {
      var d := DropPunct(s);
      SentencesKeepText(d);
      WithoutPunctRun(s);
      ConcatCons("", SplitSentences(d));
    } else {
      SentencesKeepText(s[1..]);
      var rest := SplitSentences(s[1..]);
      ConcatCons(rest[0], rest[1..]);
      ConcatCons([s[0]] + rest[0], rest[1..]);
      assert rest == [rest[0]] + rest[1..];
      assert WithoutPunct(s) == [s[0]] + WithoutPunct(s[1..]);
    }
  }

  /** The separators `re.split(r'[.!?]+', s)` cuts at: the maximal runs of `.`, `!` and `?`, in order. */
  function PunctRuns(s: string): (r: seq<string>)
    ensures forall i | 0 <= i < |r| :: r[i] != [] && forall j | 0 <= j < |r[i]| :: IsPunct(r[i][j])
    decreases |s|
  {
    if s == [] then []
    else if IsPunct(s[0]) then
      var d := DropPunct(s);
      [s[..|s| - |d|]] + PunctRuns(d)
    else PunctRuns(s[1..])
  }

  /** `pieces[0] + seps[0] + pieces[1] + ... + seps[n - 1] + pieces[n]`. */
  function Interleave(pieces: seq<string>, seps: seq<string>): string
    requires |pieces| == |seps| + 1
    decreases |seps|
  {
    if seps == [] then pieces[0] else pieces[0] + seps[0] + Interleave(pieces[1..], seps[1..])
  }

  /**
   * The sentence split cuts exactly at the punctuation runs: there is one
   * piece more than there are runs, and the pieces with the runs between
   * them give the text back. As no piece holds punctuation
   * (`SentencesHaveNoPunct`), this fixes the pieces.
   */
  lemma {:induction false} SentencesRoundTrip(s: string)
    ensures |SplitSentences(s)| == |PunctRuns(s)| + 1
    ensures Interleave(SplitSentences(s), PunctRuns(s)) == s
    decreases |s|
  {
    if s == [] {
    } else if IsPunct(s[0]) {
      var d := DropPunct(s);
      SentencesRoundTrip(d);
      InterleaveEmptyHead(s[..|s| - |d|], SplitSentences(d), PunctRuns(d));
      assert s == s[..|s| - |d|] + d;
    } else {
      SentencesRoundTrip(s[1..]);
      InterleaveExtendHead([s[0]], SplitSentences(s[1..]), PunctRuns(s[1..]));
      assert s == [s[0]] + s[1..];
    }
  }

  /** An empty first piece leaves the first separator at the front. */
  lemma InterleaveEmptyHead(sep: string, pieces: seq<string>, seps: seq<string>)
    requires |pieces| == |seps| + 1
    ensures Interleave([""] + pieces, [sep] + seps) == sep + Interleave(pieces, seps)
  {
    assert ([""] + pieces)[1..] == pieces;
    assert ([sep] + seps)[1..] == seps;
  }

  /** Text put in front of the first piece ends up in front of the whole. */
  lemma InterleaveExtendHead(x: string, pieces: seq<string>, seps: seq<string>)
    requires |pieces| == |seps| + 1
    ensures Interleave([x + pieces[0]] + pieces[1..], seps) == x + Interleave(pieces, seps)
  {
    assert ([x + pieces[0]] + pieces[1..])[1..] == pieces[1..];
  }

  lemma AppendAssoc<T>(a: seq<T>, b: seq<T>, c: seq<T>)
    ensures a + (b + c) == (a + b) + c
  {
  }

  lemma {:induction false} ConcatSnoc<T>(xs: seq<seq<T>>, x: seq<T>)
    ensures Concat(xs + [x]) == Concat(xs) + x
  {
    if xs != [] {
      assert (xs + [x])[1..] == xs[1..] + [x];
      ConcatSnoc(xs[1..], x);
    }
  }

  /** Concatenating one more part of `xs` appends that part. */
  lemma ConcatPrefixStep<T>(xs: seq<seq<T>>, j: nat)
    requires j < |xs|
    ensures Concat(xs[..j + 1]) == Concat(xs[..j]) + xs[j]
  {
    assert xs[..j + 1] == xs[..j] + [xs[j]];
    ConcatSnoc(xs[..j], xs[j]);
  }

  lemma ConcatCons<T>(x: seq<T>, xs: seq<seq<T>>)
    ensures Concat([x] + xs) == x + Concat(xs)
  {
    assert ([x] + xs)[1..] == xs;
  }

  /** Every element of a concatenation comes from one of the parts. */
  lemma {:induction false} ConcatMember<T>(xs: seq<seq<T>>, x: T)
    requires x in Concat(xs)
    ensures exists k | 0 <= k < |xs| :: x in xs[k]
  {
    if x !in xs[0] {
      ConcatMember(xs[1..], x);
      var k :| 0 <= k < |xs[1..]| && x in xs[1..][k];
      assert x in xs[k + 1];
    }
  }

  /** `[s.strip() for s in xs]`. */
  function StripEach(xs: seq<string>): (r: seq<string>)
    ensures |r| == |xs|
    ensures forall i | 0 <= i < |r| :: r[i] == Strip(xs[i])
  {
    seq(|xs|, i requires 0 <= i < |xs| => Strip(xs[i]))
  }

  lemma StripEachSnoc(xs: seq<string>, x: string)
    ensures StripEach(xs + [x]) == StripEach(xs) + [Strip(x)]
  {
    var l, r := StripEach(xs + [x]), StripEach(xs) + [Strip(x)];
    forall i | 0 <= i < |l| ensures l[i] == r[i] {
      if i < |xs| {
        assert (xs + [x])[i] == xs[i];
      }
    }
  }

  /** `[x for x in candidates if qualifies(x)]`: the candidates that pass, in their order. */
  function Qualifying(candidates: seq<string>, qualifies: string -> bool): (r: seq<string>)
    ensures |r| <= |candidates|
    ensures forall i | 0 <= i < |r| :: qualifies(r[i])
    ensures forall x :: x in r <==> x in candidates && qualifies(x)
  {
    if candidates == [] then []
    else (if qualifies(candidates[0]) then [candidates[0]] else []) + Qualifying(candidates[1..], qualifies)
  }

  /** `out = []; for x in xs: out.extend(f(x))`: the pieces of every element, element by element. */
  function Flatten(xs: seq<string>, f: string -> seq<string>): seq<string> {
    if xs == [] then [] else Flatten(xs[..|xs| - 1], f) + f(xs[|xs| - 1])
  }

  /** The pieces of earlier elements come before those of later ones. */
  lemma {:induction false} FlattenAppend(xs: seq<string>, ys: seq<string>, f: string -> seq<string>)
    ensures Flatten(xs + ys, f) == Flatten(xs, f) + Flatten(ys, f)
    decreases |ys|
  {
    if ys == [] {
      assert xs + ys == xs;
    } else {
      var front, last := ys[..|ys| - 1], ys[|ys| - 1];
      calc {
        Flatten(xs + ys, f);
        { assert xs + ys == (xs + front) + [last]; FlattenSnoc(xs + front, last, f); }
        Flatten(xs + front, f) + f(last);
        { FlattenAppend(xs, front, f); }
        (Flatten(xs, f) + Flatten(front, f)) + f(last);
        { AppendAssoc(Flatten(xs, f), Flatten(front, f), f(last)); }
        Flatten(xs, f) + (Flatten(front, f) + f(last));
        { assert front + [last] == ys; FlattenSnoc(front, last, f); }
        Flatten(xs, f) + Flatten(ys, f);
      }
    }
  }

  lemma FlattenSnoc(xs: seq<string>, x: string, f: string -> seq<string>)
    ensures Flatten(xs + [x], f) == Flatten(xs, f) + f(x)
  {
    assert (xs + [x])[..|xs|] == xs;
  }

  /** Filtering one more candidate adds it at the end when it passes. */
  lemma {:induction false} QualifyingSnoc(candidates: seq<string>, x: string, qualifies: string -> bool)
    ensures Qualifying(candidates + [x], qualifies) == Qualifying(candidates, qualifies) + (if qualifies(x) then [x] else [])
  {
    var last := if qualifies(x) then [x] else [];
    if candidates != [] {
      var c, rest := candidates[0], candidates[1..];
      var head := if qualifies(c) then [c] else [];
      calc {
        Qualifying(candidates + [x], qualifies);
        { assert (candidates + [x])[0] == c && (candidates + [x])[1..] == rest + [x]; }
        head + Qualifying(rest + [x], qualifies);
        { QualifyingSnoc(rest, x, qualifies); }
        head + (Qualifying(rest, qualifies) + last);
        { AppendAssoc(head, Qualifying(rest, qualifies), last); }
        (head + Qualifying(rest, qualifies)) + last;
        Qualifying(candidates, qualifies) + last;
      }
    } else {
      assert Qualifying([x], qualifies) == (if qualifies(x) then [x] else []) + Qualifying([], qualifies);
    }
  }

  /** `strip` leaves a block of `s`: whatever occurs in the stripped, lower-cased text occurs in the lower-cased original. */
  lemma {:induction false} ContainsAfterStrip(s: string, t: string)
    requires Contains(Lower(Strip(s)), t)
    ensures Contains(Lower(s), t)
  {
    var k := LeadingSpace(s);
    var e := k + TrailingCut(s[k..]);
    assert Strip(s) == s[k..e];
    LowerSlice(s, k, e);
    ContainsSlice(Lower(s), k, e, t);
  }

  /** Lower-casing commutes with slicing. */
  lemma LowerSlice(s: string, a: nat, b: nat)
    requires a <= b <= |s|
    ensures Lower(s[a..b]) == Lower(s)[a..b]
  {
  }

  /**
   * The first piece longer than `n`: the `for sentence in sentences: if
   * len(sentence) > n: return ...` search of the fallbacks.
   */
  function FirstLongerThan(pieces: seq<string>, n: nat): (r: Option<string>)
    ensures r.None? <==> forall i | 0 <= i < |pieces| :: |pieces[i]| <= n
    ensures r.Some? ==> |r.value| > n
    ensures forall i | 0 <= i < |pieces| && |pieces[i]| > n && (forall j | 0 <= j < i :: |pieces[j]| <= n) :: r == Some(pieces[i])
  {
    if pieces == [] then None
    else if |pieces[0]| > n then Some(pieces[0])
    else FirstLongerThan(pieces[1..], n)
  }
}
