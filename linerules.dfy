/** Patterns of the form `(^|\n)X` where `X` never crosses a newline: the
    converters of `campbot/processors/cleaners.py` that fix the start of a
    line. Such a pattern is given by what `X` does on one line, and the
    rewrite of the whole text is then proved to be that line rule applied to
    every line. */
module LineRules {
  import opened Wrappers
  import opened Text
  import opened Rewrite

  /** What `X` does at the start of one line: how much of the line it
      consumes and what replaces it. */
  type LineRule = string -> Option<(nat, string)>

  /** The rule matches the line, consuming part of it. */
  predicate Fires(rule: LineRule, l: string)
  {
    rule(l).Some? && 0 < rule(l).value.0 <= |l|
  }

  /** The line rewritten by the rule. */
  function ApplyRule(rule: LineRule, l: string): string
  {
    if Fires(rule, l) then rule(l).value.1 + l[rule(l).value.0..] else l
  }

  /** End of the line that starts at `p`. */
  function LineEnd(s: string, p: nat): (e: nat)
    requires p <= |s|
    ensures p <= e <= |s|
    ensures forall k :: p <= k < e ==> s[k] != '\n'
    ensures e < |s| ==> s[e] == '\n'
    decreases |s| - p
  {
    if p < |s| && s[p] != '\n' then LineEnd(s, p + 1) else p
  }

  /** The matcher of `(^|\n)X`: at the very start, `X` on the first line;
      at a newline, the newline and `X` on the line after it. */
  function StartMatch(rule: LineRule, s: string, i: nat): Option<Match>
  {
    if i == 0 && Fires(rule, s[..LineEnd(s, 0)]) then
      Some(Match(rule(s[..LineEnd(s, 0)]).value.0, rule(s[..LineEnd(s, 0)]).value.1))
    else if i < |s| && s[i] == '\n' && Fires(rule, s[i + 1..LineEnd(s, i + 1)]) then
      Some(Match(i + 1 + rule(s[i + 1..LineEnd(s, i + 1)]).value.0,
                 "\n" + rule(s[i + 1..LineEnd(s, i + 1)]).value.1))
    else None
  }

  function AtLineStart(rule: LineRule): Matcher
  {
    (s: string, i: nat) => StartMatch(rule, s, i)
  }

  /** The rule applied to each line. */
  function MapRule(rule: LineRule, ls: seq<string>): (r: seq<string>)
    ensures |r| == |ls|
    decreases |ls|
  {
    if |ls| == 0 then [] else [ApplyRule(rule, ls[0])] + MapRule(rule, ls[1..])
  }

  predicate NoNewline(ls: seq<string>)
  {
    forall k :: 0 <= k < |ls| ==> '\n' !in ls[k]
  }

  // ---------------------------------------------------------------------
  // Proof

  /** Every line after the first, each with the newline in front of it. */
  function Following(ms: seq<string>): string
    decreases |ms|
  {
    if |ms| == 0 then "" else "\n" + ms[0] + Following(ms[1..])
  }

  lemma {:induction false} LinesFollowing(l: string, ms: seq<string>)
    ensures Lines([l] + ms) == l + Following(ms)
    decreases |ms|
  {
    if |ms| > 0 {
      JoinCons(l, ms, "\n");
      LinesFollowing(ms[0], ms[1..]);
      assert [ms[0]] + ms[1..] == ms;
    }
  }

  lemma LineEndAt(s: string, p: nat, e: nat)
    requires p <= e <= |s|
    requires forall k :: p <= k < e ==> s[k] != '\n'
    requires e == |s| || s[e] == '\n'
    ensures LineEnd(s, p) == e
    decreases e - p
  {
    if p < e { LineEndAt(s, p + 1, e); }
  }

  lemma {:induction false} LineEndShift(a: string, b: string, p: nat)
    requires p <= |b|
    ensures LineEnd(a + b, |a| + p) == |a| + LineEnd(b, p)
    decreases |b| - p
  {
    if p < |b| && b[p] != '\n' {
      LineEndShift(a, b, p + 1);
    }
  }

  /** Past a line end, the matcher on `a + b` is the matcher on `b`. */
  lemma AtLineStartShift(rule: LineRule, a: string, b: string, k: nat)
    requires |a| > 0 && k < |b|
    requires b[0] == '\n'
    ensures Shifted(AtLineStart(rule)(a + b, |a| + k), AtLineStart(rule)(b, k), |a|)
  {
    var s := a + b;
    var x := AtLineStart(rule)(s, |a| + k);
    var y := AtLineStart(rule)(b, k);
    assert s[|a| + k] == b[k];
    if k == 0 {
      LineEndAt(b, 0, 0);
      assert b[..0] == "";
      assert !Fires(rule, b[..LineEnd(b, 0)]);
    }
    if b[k] == '\n' {
      LineEndShift(a, b, k + 1);
      var l := b[k + 1..LineEnd(b, k + 1)];
      assert s[|a| + k + 1..LineEnd(s, |a| + k + 1)] == l;
      if Fires(rule, l) {
        assert x == Some(Match(|a| + k + 1 + rule(l).value.0, "\n" + rule(l).value.1));
        assert y == Some(Match(k + 1 + rule(l).value.0, "\n" + rule(l).value.1));
      } else {
        assert x == None && y == None;
      }
    } else {
      assert x == None && y == None;
    }
  }

  /** No match starts inside a line, past its first character. */
  lemma NoMatchInside(rule: LineRule, s: string, p: nat, e: nat)
    requires 0 < p <= e <= |s|
    requires forall k :: p <= k < e ==> s[k] != '\n'
    ensures forall j :: p <= j < e ==> !Valid(s, j, AtLineStart(rule)(s, j))
  {
  }

  /** The first line. */
  lemma FirstLine(rule: LineRule, l: string, b: string)
    requires '\n' !in l
    requires b == "" || b[0] == '\n'
    ensures Sub(l + b, AtLineStart(rule)) == ApplyRule(rule, l) + Sub(b, AtLineStart(rule))
  {
    if |l| == 0 {
      assert l + b == b;
    } else {
      FirstLineText(rule, l, b);
      FollowingShift(rule, l, b);
    }
  }

  /** The first line is rewritten by the rule, and the text after it is
      left to the matches that start there. */
  lemma FirstLineText(rule: LineRule, l: string, b: string)
    requires '\n' !in l && |l| > 0
    requires b == "" || b[0] == '\n'
    ensures SubFrom(l + b, AtLineStart(rule), 0) == ApplyRule(rule, l) + SubFrom(l + b, AtLineStart(rule), |l|)
  {
    var f := AtLineStart(rule);
    var s := l + b;
    LineEndAt(s, 0, |l|);
    assert s[..|l|] == l;
    if Fires(rule, l) {
      var e := rule(l).value.0;
      NoMatchInside(rule, s, e, |l|);
      assert s[e..|l|] == l[e..];
      SubFromMatchThenCopy(s, f, 0, |l|, Match(e, rule(l).value.1), l[e..]);
    } else {
      NoMatchInside(rule, s, 1, |l|);
      assert !Valid(s, 0, f(s, 0));
      SubFromCopy(s, f, 0, |l|);
      assert s[0..|l|] == l;
    }
  }

  lemma FollowingShift(rule: LineRule, a: string, b: string)
    requires |a| > 0
    requires b == "" || b[0] == '\n'
    ensures SubFrom(a + b, AtLineStart(rule), |a|) == Sub(b, AtLineStart(rule))
  {
    forall k | 0 <= k < |b|
      ensures Shifted(AtLineStart(rule)(a + b, |a| + k), AtLineStart(rule)(b, k), |a|)
    {
      AtLineStartShift(rule, a, b, k);
    }
    SubFromShift(a, b, AtLineStart(rule), AtLineStart(rule), 0);
  }

  /** A line after a newline. */
  lemma NextLine(rule: LineRule, l: string, b: string)
    requires '\n' !in l
    requires b == "" || b[0] == '\n'
    ensures Sub("\n" + l + b, AtLineStart(rule)) == "\n" + ApplyRule(rule, l) + Sub(b, AtLineStart(rule))
  {
    var s := "\n" + l + b;
    assert s[1..1 + |l|] == l;
    NextLineHead(rule, l, s);
    assert s == ("\n" + l) + b;
    FollowingShift(rule, "\n" + l, b);
  }

  /** `s` holds a newline, then the line `l` up to its end. */
  predicate NewlineThen(s: string, l: string)
  {
    && 1 + |l| <= |s| && s[0] == '\n' && s[1..1 + |l|] == l && '\n' !in l
    && (1 + |l| == |s| || s[1 + |l|] == '\n')
  }

  /** The matcher at the newline sees the line after it. */
  lemma NextLineMatch(rule: LineRule, l: string, s: string)
    requires NewlineThen(s, l)
    ensures AtLineStart(rule)(s, 0) ==
        if Fires(rule, l) then Some(Match(1 + rule(l).value.0, "\n" + rule(l).value.1)) else None
  {
    LineEndAt(s, 0, 0);
    assert s[..0] == "";
    assert forall k :: 1 <= k < 1 + |l| ==> s[k] == l[k - 1];
    LineEndAt(s, 1, 1 + |l|);
  }

  lemma NextLineHead(rule: LineRule, l: string, s: string)
    requires NewlineThen(s, l)
    ensures Sub(s, AtLineStart(rule)) == "\n" + ApplyRule(rule, l) + SubFrom(s, AtLineStart(rule), 1 + |l|)
  {
    NextLineMatch(rule, l, s);
    if Fires(rule, l) {
      NextLineFires(rule, l, s);
    } else {
      NextLineQuiet(rule, l, s);
    }
  }

  lemma NextLineFires(rule: LineRule, l: string, s: string)
    requires 1 + |l| <= |s| && s[1..1 + |l|] == l && '\n' !in l
    requires Fires(rule, l)
    requires AtLineStart(rule)(s, 0) == Some(Match(1 + rule(l).value.0, "\n" + rule(l).value.1))
    ensures Sub(s, AtLineStart(rule)) == "\n" + rule(l).value.1 + l[rule(l).value.0..] + SubFrom(s, AtLineStart(rule), 1 + |l|)
  {
    var e := rule(l).value.0;
    LineRest(s, l, e);
    NoMatchInside(rule, s, 1 + e, 1 + |l|);
    SubFromMatchThenCopy(s, AtLineStart(rule), 0, 1 + |l|, Match(1 + e, "\n" + rule(l).value.1), l[e..]);
  }

  /** The rest of a line copied at 1, from its `e`-th character. */
  lemma LineRest(s: string, l: string, e: nat)
    requires 1 + |l| <= |s| && s[1..1 + |l|] == l && '\n' !in l && e <= |l|
    ensures forall k :: 1 + e <= k < 1 + |l| ==> s[k] != '\n'
    ensures s[1 + e..1 + |l|] == l[e..]
  {
    assert forall k :: 1 + e <= k < 1 + |l| ==> s[k] == l[k - 1];
  }

  lemma NextLineQuiet(rule: LineRule, l: string, s: string)
    requires NewlineThen(s, l)
    requires AtLineStart(rule)(s, 0) == None
    ensures Sub(s, AtLineStart(rule)) == "\n" + l + SubFrom(s, AtLineStart(rule), 1 + |l|)
  {
    var f := AtLineStart(rule);
    var n := 1 + |l|;
    assert forall k :: 1 <= k < n ==> s[k] == l[k - 1];
    NoMatchInside(rule, s, 1, n);
    SubFromCopy(s, f, 0, n);
    assert s[0..n] == "\n" + l;
  }

  lemma {:induction false} FollowingSub(rule: LineRule, ms: seq<string>)
    requires NoNewline(ms)
    ensures Sub(Following(ms), AtLineStart(rule)) == Following(MapRule(rule, ms))
    decreases |ms|
  {
    if |ms| > 0 {
      var rest := Following(ms[1..]);
      assert NoNewline(ms[1..]) by {
        forall k | 0 <= k < |ms[1..]| ensures '\n' !in ms[1..][k] { assert ms[1..][k] == ms[k + 1]; }
      }
      FollowingSub(rule, ms[1..]);
      assert '\n' !in ms[0];
      NextLine(rule, ms[0], rest);
      assert Following(ms) == "\n" + ms[0] + rest;
    } else {
      SubNoMatch("", AtLineStart(rule));
    }
  }

  /** A `(^|\n)X` rewrite is the line rule applied to each line. */
  lemma LinesSub(rule: LineRule, ls: seq<string>)
    requires |ls| > 0 && NoNewline(ls)
    ensures Sub(Lines(ls), AtLineStart(rule)) == Lines(MapRule(rule, ls))
  {
    assert ls == [ls[0]] + ls[1..];
    LinesFollowing(ls[0], ls[1..]);
    var m := MapRule(rule, ls);
    assert m == [m[0]] + m[1..];
    LinesFollowing(m[0], m[1..]);
    assert NoNewline(ls[1..]) by {
      forall k | 0 <= k < |ls[1..]| ensures '\n' !in ls[1..][k] { assert ls[1..][k] == ls[k + 1]; }
    }
    FollowingSub(rule, ls[1..]);
    assert '\n' !in ls[0];
    FirstLine(rule, ls[0], Following(ls[1..]));
  }

  /** The same for any text, cut into its lines. */
  lemma SubByLines(rule: LineRule, s: string)
    ensures Sub(s, AtLineStart(rule)) == Lines(MapRule(rule, Split(s, "\n")))
  {
    SplitFromCharParts(s, '\n', 0);
    JoinSplit(s, "\n");
    LinesSub(rule, Split(s, "\n"));
  }
}
