/** The `Converter` of `campbot/processors/core.py`: a rule that replaces
    every match of a pattern, scanning from the left and never reusing a
    character of an earlier match (Python's `re.sub`). A pattern is given
    here as a matcher, a function saying whether a match starts at a
    position and, if so, where it ends and what replaces it; each processor
    writes its patterns as such matchers. */
module Rewrite {
  import opened Wrappers

  datatype Match = Match(end: nat, out: string)

  type Matcher = (string, nat) -> Option<Match>

  /** A match at `i` that consumes at least one character of `s`. */
  predicate Valid(s: string, i: nat, m: Option<Match>)
  {
    m.Some? && i < m.value.end <= |s|
  }

  /** `re.sub` on `s[i:]`: at each position either the matcher fires and its
      replacement is emitted, or the character is copied. */
  function SubFrom(s: string, f: Matcher, i: nat): string
    decreases |s| - i
  {
    if i >= |s| then ""
    else
      var m := f(s, i);
      if Valid(s, i, m) then m.value.out + SubFrom(s, f, m.value.end)
      else [s[i]] + SubFrom(s, f, i + 1)
  }

  function Sub(s: string, f: Matcher): string { SubFrom(s, f, 0) }

  /** A `Converter`: the rule as a text-to-text modifier. */
  function Converter(f: Matcher): string -> string { (s: string) => Sub(s, f) }

  /** A text in which no match starts is left unchanged. */
  lemma {:induction false} SubFromNoMatch(s: string, f: Matcher, i: nat)
    requires i <= |s|
    requires forall j :: i <= j < |s| ==> !Valid(s, j, f(s, j))
    ensures SubFrom(s, f, i) == s[i..]
    decreases |s| - i
  {
    if i < |s| {
      SubFromNoMatch(s, f, i + 1);
      assert s[i..] == [s[i]] + s[i + 1..];
    }
  }

  lemma SubNoMatch(s: string, f: Matcher)
    requires forall j :: 0 <= j < |s| ==> !Valid(s, j, f(s, j))
    ensures Sub(s, f) == s
  {
    SubFromNoMatch(s, f, 0);
  }

  // ---------------------------------------------------------------------
  // What a rewrite keeps: a property of every single replacement that
  // carries over to the whole text.

  /** The text each character stands for under `g`, concatenated. */
  function FlatMap(s: string, g: char -> string): string
  {
    if |s| == 0 then "" else g(s[0]) + FlatMap(s[1..], g)
  }

  lemma {:induction false} FlatMapConcat(a: string, b: string, g: char -> string)
    ensures FlatMap(a + b, g) == FlatMap(a, g) + FlatMap(b, g)
  {
    if |a| == 0 {
      assert a + b == b;
    } else {
      assert (a + b)[1..] == a[1..] + b;
      FlatMapConcat(a[1..], b, g);
    }
  }

  /** When every replacement has the same image under `g` as the text it
      replaces, so has the whole rewritten text. */
  lemma {:induction false} SubFromFlatMap(s: string, f: Matcher, g: char -> string, i: nat)
    requires i <= |s|
    requires forall j :: i <= j < |s| && Valid(s, j, f(s, j)) ==>
               FlatMap(f(s, j).value.out, g) == FlatMap(s[j..f(s, j).value.end], g)
    ensures FlatMap(SubFrom(s, f, i), g) == FlatMap(s[i..], g)
    decreases |s| - i
  {
    if i < |s| {
      var m := f(s, i);
      if Valid(s, i, m) {
        var e := m.value.end;
        SubFromFlatMap(s, f, g, e);
        FlatMapConcat(m.value.out, SubFrom(s, f, e), g);
        assert s[i..] == s[i..e] + s[e..];
        FlatMapConcat(s[i..e], s[e..], g);
      } else {
        SubFromFlatMap(s, f, g, i + 1);
        FlatMapConcat([s[i]], SubFrom(s, f, i + 1), g);
        assert s[i..] == [s[i]] + s[i + 1..];
        FlatMapConcat([s[i]], s[i + 1..], g);
      }
    }
  }
  /** Copying: where no match starts before `q`, the text up to `q` is kept
      as it is. */
  lemma {:induction false} SubFromCopy(s: string, f: Matcher, i: nat, q: nat)
    requires i <= q <= |s|
    requires forall j :: i <= j < q ==> !Valid(s, j, f(s, j))
    ensures SubFrom(s, f, i) == s[i..q] + SubFrom(s, f, q)
    decreases q - i
  {
    if i < q {
      assert !Valid(s, i, f(s, i));
      assert SubFrom(s, f, i) == [s[i]] + SubFrom(s, f, i + 1);
      SubFromCopy(s, f, i + 1, q);
      var rest := SubFrom(s, f, q);
      assert s[i..q] == [s[i]] + s[i + 1..q];
      assert s[i..q] + rest == [s[i]] + (s[i + 1..q] + rest);
    }
  }

  /** `x` is `y` moved `d` characters to the right. */
  predicate Shifted(x: Option<Match>, y: Option<Match>, d: nat)
  {
    (x.None? <==> y.None?) && (x.Some? ==> x.value.out == y.value.out && x.value.end == y.value.end + d)
  }

  /** A matcher that behaves on `a + b` past `a` as `g` does on `b` rewrites
      that part as `g` rewrites `b`. */
  lemma {:induction false} SubFromShift(a: string, b: string, f: Matcher, g: Matcher, j: nat)
    requires j <= |b|
    requires forall k :: j <= k < |b| ==> Shifted(f(a + b, |a| + k), g(b, k), |a|)
    ensures SubFrom(a + b, f, |a| + j) == SubFrom(b, g, j)
    decreases |b| - j
  {
    if j < |b| {
      var x := f(a + b, |a| + j);
      var y := g(b, j);
      assert Valid(a + b, |a| + j, x) <==> Valid(b, j, y);
      if Valid(b, j, y) {
        SubFromShift(a, b, f, g, y.value.end);
      } else {
        assert (a + b)[|a| + j] == b[j];
        SubFromShift(a, b, f, g, j + 1);
      }
    }
  }
  /** A match at `i`, then plain copying up to `q`. */
  lemma SubFromMatchThenCopy(s: string, f: Matcher, i: nat, q: nat, m: Match, mid: string)
    requires f(s, i) == Some(m) && i < m.end <= q <= |s|
    requires forall j :: m.end <= j < q ==> !Valid(s, j, f(s, j))
    requires s[m.end..q] == mid
    ensures SubFrom(s, f, i) == m.out + mid + SubFrom(s, f, q)
  {
    SubFromCopy(s, f, m.end, q);
  }

  /** Plain copying up to `m`, then a match deleting `s[m..hi]`. */
  lemma SubFromCopyThenDrop(s: string, f: Matcher, lo: nat, m: nat, hi: nat, a: string)
    requires lo <= m < hi <= |s| && s[lo..m] == a
    requires forall j :: lo <= j < m ==> !Valid(s, j, f(s, j))
    requires f(s, m) == Some(Match(hi, ""))
    ensures SubFrom(s, f, lo) == a + SubFrom(s, f, hi)
  {
    SubFromCopy(s, f, lo, m);
    SubFromMatch(s, f, m, Match(hi, ""));
  }

  /** A match at `i` emits its replacement and resumes at its end. */
  /** Copying one character where no match starts. */
  lemma SubFromStep(s: string, f: Matcher, i: nat)
    requires i < |s| && !Valid(s, i, f(s, i))
    ensures SubFrom(s, f, i) == [s[i]] + SubFrom(s, f, i + 1)
  {
  }

  lemma SubFromMatch(s: string, f: Matcher, i: nat, m: Match)
    requires f(s, i) == Some(m) && i < m.end <= |s|
    ensures SubFrom(s, f, i) == m.out + SubFrom(s, f, m.end)
  {
  }
  /** One match in a text where none starts before or after it. */
  lemma SubOneMatch(s: string, f: Matcher, i: nat, m: Match)
    requires f(s, i) == Some(m) && i < m.end <= |s|
    requires forall j :: 0 <= j < i ==> !Valid(s, j, f(s, j))
    requires forall j :: m.end <= j < |s| ==> !Valid(s, j, f(s, j))
    ensures Sub(s, f) == s[..i] + m.out + s[m.end..]
  {
    SubFromCopy(s, f, 0, i);
    SubFromNoMatch(s, f, m.end);
  }
}
