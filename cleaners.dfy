/** The fixed rewrite lists of `campbot/processors/cleaners.py`: the
    markdown cleaner, the automatic replacements read from the wiki, the
    header-colon remover and the diacritics fix. Each is a list of
    modifiers for `Processor.ApplyAll`. */
module Cleaners {
  import opened Wrappers
  import opened Text
  import opened Rewrite
  import opened LineRules
  import opened Processor

  // =====================================================================
  // MarkdownCleaner

  /** Number of newline characters at the front of `t`. */
  function Lead(t: string): (n: nat)
    ensures n <= |t|
    ensures n < |t| ==> t[n] != '\n'
  {
    if |t| > 0 && t[0] == '\n' then 1 + Lead(t[1..]) else 0
  }

  /** The run counted by `Lead` is made of newlines. */
  lemma {:induction false} LeadRun(t: string)
    ensures forall k :: 0 <= k < Lead(t) ==> t[k] == '\n'
  {
    if |t| > 0 && t[0] == '\n' {
      LeadRun(t[1..]);
      assert forall k :: 1 <= k < Lead(t) ==> t[k] == t[1..][k - 1];
    }
  }

  /** `\n{3,}` replaced by `\n\n`. */
  function BlankLines(): Matcher
  {
    (s: string, i: nat) =>
      if i <= |s| && Lead(s[i..]) >= 3 then Some(Match(i + Lead(s[i..]), "\n\n")) else None
  }

  /** `^\n*` replaced by nothing. */
  function LeadingNewlines(): Matcher
  {
    (s: string, i: nat) => if i == 0 && Lead(s) > 0 then Some(Match(Lead(s), "")) else None
  }

  predicate AllNewlines(t: string)
  {
    forall k :: 0 <= k < |t| ==> t[k] == '\n'
  }

  /** `\n*$` replaced by nothing: the run of newlines that reaches the end. */
  function TrailingNewlines(): Matcher
  {
    (s: string, i: nat) => if i < |s| && AllNewlines(s[i..]) then Some(Match(|s|, "")) else None
  }

  /** `(^|\n)(#+) *` replaced by `\1\2 `, on one line: the run of `#` and
      the spaces after it become the run and one space. */
  function HeaderRule(l: string): Option<(nat, string)>
  {
    if |l| > 0 && l[0] == '#' then
      var h := CharRun(l, 0, '#');
      Some((CharRun(l, h, ' '), l[..h] + " "))
    else None
  }

  function MarkdownCleanerModifiers(): seq<Modifier>
  {
    [ (s: string) => Sub(s, BlankLines()),
      (s: string) => Sub(s, LeadingNewlines()),
      (s: string) => Sub(s, TrailingNewlines()),
      (s: string) => Sub(s, AtLineStart(HeaderRule)) ]
  }

  // ---------------------------------------------------------------------
  // Three or more newlines collapse to two

  /** No three newlines in a row. */
  predicate NoTriple(t: string)
  {
    forall k :: 0 <= k < |t| - 2 ==> !(t[k] == '\n' && t[k + 1] == '\n' && t[k + 2] == '\n')
  }

  lemma LeadCons(c: char, t: string)
    ensures Lead([c] + t) == if c == '\n' then 1 + Lead(t) else 0
  {
    assert ([c] + t)[1..] == t;
  }

  lemma NoTripleCons(c: char, t: string)
    requires NoTriple(t)
    requires c == '\n' ==> Lead(t) <= 1
    ensures NoTriple([c] + t)
  {
    var u := [c] + t;
    forall k | 0 <= k < |u| - 2
      ensures !(u[k] == '\n' && u[k + 1] == '\n' && u[k + 2] == '\n')
    {
      if k > 0 {
        assert u[k] == t[k - 1] && u[k + 1] == t[k] && u[k + 2] == t[k + 1];
      } else if c == '\n' {
        assert u[1] == t[0] && u[2] == t[1];
      }
    }
  }

  function AtMostTwo(n: nat): nat { if n >= 3 then 2 else n }

  /** The rewrite from `i` has no triple newline, and starts with the newline
      run of `s` at `i`, cut down to two. */
  lemma {:induction false} BlankLinesFrom(s: string, i: nat)
    requires i <= |s|
    ensures NoTriple(SubFrom(s, BlankLines(), i))
    ensures Lead(SubFrom(s, BlankLines(), i)) == AtMostTwo(Lead(s[i..]))
    decreases |s| - i
  {
    if i < |s| {
      var n := Lead(s[i..]);
      if n >= 3 {
        BlankLinesFrom(s, i + n);
        BlankRunCase(s, i, n);
      } else {
        BlankLinesFrom(s, i + 1);
        BlankCopyStep(s, i);
      }
    }
  }

  lemma BlankRunCase(s: string, i: nat, n: nat)
    requires i < |s| && n == Lead(s[i..]) && n >= 3
    requires NoTriple(SubFrom(s, BlankLines(), i + n))
    requires Lead(SubFrom(s, BlankLines(), i + n)) == AtMostTwo(Lead(s[i + n..]))
    ensures NoTriple(SubFrom(s, BlankLines(), i))
    ensures Lead(SubFrom(s, BlankLines(), i)) == AtMostTwo(n)
  {
    BlankRunStep(s, i);
    TwoThen(SubFrom(s, BlankLines(), i), SubFrom(s, BlankLines(), i + n));
  }

  /** A run of three or more newlines becomes two. */
  lemma BlankRunStep(s: string, i: nat)
    requires i < |s| && Lead(s[i..]) >= 3
    ensures SubFrom(s, BlankLines(), i) == "\n\n" + SubFrom(s, BlankLines(), i + Lead(s[i..]))
    ensures Lead(s[i + Lead(s[i..])..]) == 0
  {
    var t := s[i..];
    var n := Lead(t);
    LeadAfterRun(t);
    assert s[i + n..] == t[n..];
    var m := Match(i + n, "\n\n");
    assert BlankLines()(s, i) == Some(m);
    SubFromMatch(s, BlankLines(), i, m);
  }

  /** After its run of newlines, a text does not start with one. */
  lemma LeadAfterRun(t: string)
    ensures Lead(t[Lead(t)..]) == 0
  {
    var n := Lead(t);
    if n < |t| { assert t[n..][0] == t[n]; }
  }

  lemma TwoThen(u: string, rest: string)
    requires u == "\n\n" + rest
    requires NoTriple(rest) && Lead(rest) == 0
    ensures NoTriple(u) && Lead(u) == 2
  {
    NoTripleCons('\n', rest);
    LeadCons('\n', rest);
    NoTripleCons('\n', "\n" + rest);
    LeadCons('\n', "\n" + rest);
    assert "\n\n" + rest == "\n" + ("\n" + rest);
  }

  /** A character outside such a run is copied. */
  lemma BlankCopyStep(s: string, i: nat)
    requires i < |s| && Lead(s[i..]) < 3
    requires NoTriple(SubFrom(s, BlankLines(), i + 1))
    requires Lead(SubFrom(s, BlankLines(), i + 1)) == AtMostTwo(Lead(s[i + 1..]))
    ensures NoTriple(SubFrom(s, BlankLines(), i))
    ensures Lead(SubFrom(s, BlankLines(), i)) == AtMostTwo(Lead(s[i..]))
  {
    var f := BlankLines();
    assert s[i..] == [s[i]] + s[i + 1..];
    LeadCons(s[i], s[i + 1..]);
    assert !Valid(s, i, f(s, i));
    NoTripleCons(s[i], SubFrom(s, f, i + 1));
    LeadCons(s[i], SubFrom(s, f, i + 1));
  }

  function DropNewline(c: char): string { if c == '\n' then "" else [c] }

  lemma {:induction false} DropNewlines(t: string)
    requires AllNewlines(t)
    ensures FlatMap(t, DropNewline) == ""
  {
    if |t| > 0 { DropNewlines(t[1..]); }
  }

  /** `\n{3,}`: no three newlines are left in a row, and only newlines are
      dropped. */
  lemma BlankLinesSpec(s: string)
    ensures NoTriple(Sub(s, BlankLines()))
    ensures FlatMap(Sub(s, BlankLines()), DropNewline) == FlatMap(s, DropNewline)
  {
    BlankLinesFrom(s, 0);
    var f := BlankLines();
    forall j | 0 <= j < |s| && Valid(s, j, f(s, j))
      ensures FlatMap(f(s, j).value.out, DropNewline) == FlatMap(s[j..f(s, j).value.end], DropNewline)
    {
      var n := Lead(s[j..]);
      LeadRun(s[j..]);
      assert s[j..f(s, j).value.end] == s[j..][..n];
      DropNewlines(s[j..][..n]);
      DropNewlines("\n\n");
    }
    SubFromFlatMap(s, f, DropNewline, 0);
  }

  /** A text without three newlines in a row is left as it is. */
  lemma BlankLinesKeep(s: string)
    requires NoTriple(s)
    ensures Sub(s, BlankLines()) == s
  {
    var f := BlankLines();
    forall j | 0 <= j < |s| ensures !Valid(s, j, f(s, j)) {
      NoTripleAt(s, j);
    }
    SubNoMatch(s, f);
  }

  lemma NoTripleAt(s: string, j: nat)
    requires NoTriple(s) && j <= |s|
    ensures Lead(s[j..]) < 3
  {
    LeadRun(s[j..]);
    if j + 2 < |s| {
      assert s[j..][0] == s[j] && s[j..][1] == s[j + 1] && s[j..][2] == s[j + 2];
    }
  }

  // ---------------------------------------------------------------------
  // Leading and trailing newlines

  function NewlineSet(): set<char> { {'\n'} }

  lemma {:induction false} LStripLead(s: string)
    ensures LStrip(s, NewlineSet()) == s[Lead(s)..]
  {
    if |s| > 0 && s[0] == '\n' {
      LStripLead(s[1..]);
      assert s[1..][Lead(s[1..])..] == s[1 + Lead(s[1..])..];
    }
  }

  /** `^\n*` is `lstrip("\n")`. */
  lemma LeadingSpec(s: string)
    ensures Sub(s, LeadingNewlines()) == LStrip(s, NewlineSet())
  {
    var f := LeadingNewlines();
    var n := Lead(s);
    LStripLead(s);
    if n > 0 {
      SubFromNoMatch(s, f, n);
      assert Sub(s, f) == "" + SubFrom(s, f, n);
    } else {
      SubNoMatch(s, f);
    }
  }

  /** `\n*$` is `rstrip("\n")`. */
  lemma TrailingSpec(s: string)
    ensures Sub(s, TrailingNewlines()) == RStrip(s, NewlineSet())
  {
    var f := TrailingNewlines();
    var r := RStrip(s, NewlineSet());
    var q := |r|;
    forall j | 0 <= j < q ensures !Valid(s, j, f(s, j)) {
      assert s[j..][q - 1 - j] == s[q - 1] == r[q - 1];
    }
    SubFromCopy(s, f, 0, q);
    if q < |s| {
      assert AllNewlines(s[q..]) by {
        forall k | 0 <= k < |s[q..]| ensures s[q..][k] == '\n' { assert s[q..][k] == s[q + k]; }
      }
      assert SubFrom(s, f, q) == "" + SubFrom(s, f, |s|);
    }
    assert s[0..q] == r;
  }

  // ---------------------------------------------------------------------
  // One space after the `#` run of a header

  /** Each line starting with `#` keeps its run of `#`, followed by exactly
      one space and the rest of the line after its spaces; other lines are
      left as they are. */
  lemma HeaderLineSpec(l: string)
    ensures var r := ApplyRule(HeaderRule, l);
      && ((|l| == 0 || l[0] != '#') ==> r == l)
      && (|l| > 0 && l[0] == '#' ==>
            var h := CharRun(l, 0, '#');
            && CharRun(r, 0, '#') == h && r[..h] == l[..h] && r[h] == ' '
            && (h + 1 < |r| ==> r[h + 1] != ' ')
            && FlatMap(r, DropSpace) == FlatMap(l, DropSpace))
  {
    if |l| > 0 && l[0] == '#' {
      var h := CharRun(l, 0, '#');
      var e := CharRun(l, h, ' ');
      HeaderRuleOn(l, h, e);
      HeaderPieces(l, h, e, ApplyRule(HeaderRule, l));
    }
  }

  lemma HeaderRuleOn(l: string, h: nat, e: nat)
    requires |l| > 0 && l[0] == '#' && h == CharRun(l, 0, '#') && e == CharRun(l, h, ' ')
    ensures ApplyRule(HeaderRule, l) == l[..h] + " " + l[e..]
  {
  }

  /** The header run, one space, and the line after its spaces. */
  lemma HeaderPieces(l: string, h: nat, e: nat, r: string)
    requires |l| > 0 && l[0] == '#' && h == CharRun(l, 0, '#') && e == CharRun(l, h, ' ')
    requires r == l[..h] + " " + l[e..]
    ensures CharRun(r, 0, '#') == h && r[..h] == l[..h] && r[h] == ' '
    ensures h + 1 < |r| ==> r[h + 1] != ' '
    ensures FlatMap(r, DropSpace) == FlatMap(l, DropSpace)
  {
    CharRunAt(r, 0, h, '#');
    if h + 1 < |r| { assert r[h + 1] == l[e]; }
    HeaderKeepsText(l, h, e);
  }

  /** Dropping the spaces after the run and putting one back keeps the text
      without spaces. */
  lemma HeaderKeepsText(l: string, h: nat, e: nat)
    requires h <= e <= |l|
    requires forall k :: h <= k < e ==> l[k] == ' '
    ensures FlatMap(l[..h] + " " + l[e..], DropSpace) == FlatMap(l, DropSpace)
  {
    SliceThree(l, h, e);
    SpacesBetween(l[..h], l[h..e], l[e..]);
  }

  /** Spaces between two texts count for nothing once spaces are dropped. */
  lemma SpacesBetween(a: string, mid: string, b: string)
    requires forall k :: 0 <= k < |mid| ==> mid[k] == ' '
    ensures FlatMap(a + " " + b, DropSpace) == FlatMap(a + mid + b, DropSpace)
  {
    DropSpaces(" ");
    DropSpaces(mid);
    DropMiddle(a, " ", b, DropSpace);
    DropMiddle(a, mid, b, DropSpace);
  }

  lemma DropMiddle(a: string, x: string, b: string, g: char -> string)
    requires FlatMap(x, g) == ""
    ensures FlatMap(a + x + b, g) == FlatMap(a, g) + FlatMap(b, g)
  {
    FlatMapConcat(a + x, b, g);
    FlatMapConcat(a, x, g);
  }

  function DropSpace(c: char): string { if c == ' ' then "" else [c] }

  lemma {:induction false} DropSpaces(t: string)
    requires forall k :: 0 <= k < |t| ==> t[k] == ' '
    ensures FlatMap(t, DropSpace) == ""
  {
    if |t| > 0 { DropSpaces(t[1..]); }
  }

  /** Fixing a header line twice changes nothing more. */
  lemma HeaderLineIdempotent(l: string)
    ensures ApplyRule(HeaderRule, ApplyRule(HeaderRule, l)) == ApplyRule(HeaderRule, l)
  {
    if |l| > 0 && l[0] == '#' {
      var h := CharRun(l, 0, '#');
      var e := CharRun(l, h, ' ');
      var r := ApplyRule(HeaderRule, l);
      assert r == l[..h] + " " + l[e..];
      CharRunAt(r, 0, h, '#');
      var e2 := h + 1;
      CharRunAt(r, h, e2, ' ');
      assert r[e2..] == l[e..];
      assert r[..h] + " " == r[..e2];
    }
  }

  /** `(^|\n)(#+) *`: every line is fixed on its own. */
  lemma HeaderSpaceLines(s: string)
    ensures Sub(s, AtLineStart(HeaderRule)) == Lines(MapRule(HeaderRule, Split(s, "\n")))
  {
    SubByLines(HeaderRule, s);
  }

  /** Before the header pass, the text neither starts nor ends with a
      newline and has no three newlines in a row. */
  lemma NewlinesCleaned(s: string)
    ensures var t := RStrip(LStrip(Sub(s, BlankLines()), NewlineSet()), NewlineSet());
      && NoTriple(t) && (|t| > 0 ==> t[0] != '\n' && t[|t| - 1] != '\n')
  {
    BlankLinesSpec(s);
    StripKeepsNoTriple(Sub(s, BlankLines()));
  }

  lemma StripKeepsNoTriple(t1: string)
    requires NoTriple(t1)
    ensures var t := RStrip(LStrip(t1, NewlineSet()), NewlineSet());
      && NoTriple(t) && (|t| > 0 ==> t[0] != '\n' && t[|t| - 1] != '\n')
  {
    LStripNoTriple(t1);
    RStripNoTriple(LStrip(t1, NewlineSet()));
  }

  lemma LStripNoTriple(t1: string)
    requires NoTriple(t1)
    ensures var t2 := LStrip(t1, NewlineSet());
      NoTriple(t2) && (|t2| > 0 ==> t2[0] != '\n')
  {
    var t2 := LStrip(t1, NewlineSet());
    var d := |t1| - |t2|;
    assert t2 == t1[d..] == t1[d..|t1|];
    NoTripleSlice(t1, d, |t1|);
    if |t2| > 0 { assert t2[0] !in NewlineSet(); }
  }

  lemma RStripNoTriple(t2: string)
    requires NoTriple(t2) && (|t2| > 0 ==> t2[0] != '\n')
    ensures var t := RStrip(t2, NewlineSet());
      NoTriple(t) && (|t| > 0 ==> t[0] != '\n' && t[|t| - 1] != '\n')
  {
    var t := RStrip(t2, NewlineSet());
    NoTripleSlice(t2, 0, |t|);
    assert t2[0..|t|] == t;
    if |t| > 0 { assert t[0] == t2[0]; }
  }

  lemma NoTripleSlice(t: string, a: nat, b: nat)
    requires NoTriple(t) && a <= b <= |t|
    ensures NoTriple(t[a..b])
  {
    var u := t[a..b];
    forall k | 0 <= k < |u| - 2 ensures !(u[k] == '\n' && u[k + 1] == '\n' && u[k + 2] == '\n') {
      assert u[k] == t[a + k] && u[k + 1] == t[a + k + 1] && u[k + 2] == t[a + k + 2];
    }
  }

  /** The cleaner: triple newlines collapsed, the text stripped of its
      leading and trailing newlines, then each line's header run fixed. */
  lemma MarkdownCleanerSteps(s: string)
    ensures ApplyAll(MarkdownCleanerModifiers(), s) ==
      Lines(MapRule(HeaderRule, Split(RStrip(LStrip(Sub(s, BlankLines()), NewlineSet()), NewlineSet()), "\n")))
  {
    var ms := MarkdownCleanerModifiers();
    var t1 := Sub(s, BlankLines());
    var t2 := Sub(t1, LeadingNewlines());
    var t3 := Sub(t2, TrailingNewlines());
    ApplyAllAppend(ms[..3], [ms[3]], s);
    ApplyAllAppend(ms[..2], [ms[2]], s);
    ApplyAllAppend(ms[..1], [ms[1]], s);
    assert ms[..3] + [ms[3]] == ms;
    assert ms[..2] + [ms[2]] == ms[..3];
    assert ms[..1] + [ms[1]] == ms[..2];
    assert ApplyAll(ms[..1], s) == ApplyAll([], ms[0](s));
    LeadingSpec(t1);
    TrailingSpec(t2);
    HeaderSpaceLines(t3);
  }

  // =====================================================================
  // DiacriticsFix

  /** `re.sub` of the two-character text `[x, y]` by the letter `z`. */
  function PairFix(x: char, y: char, z: char): Matcher
  {
    (s: string, i: nat) => if i + 1 < |s| && s[i] == x && s[i + 1] == y then Some(Match(i + 2, [z])) else None
  }

  function FixModifier(x: char, y: char, z: char): Modifier
  {
    (s: string) => Sub(s, PairFix(x, y, z))
  }

  /** A base letter followed by a combining grave, acute or circumflex
      accent becomes the precomposed letter. */
  function DiacriticsModifiers(): seq<Modifier>
  {
    [ FixModifier('a', '\U{300}', '\U{E0}'),
      FixModifier('e', '\U{300}', '\U{E8}'),
      FixModifier('e', '\U{301}', '\U{E9}'),
      FixModifier('a', '\U{302}', '\U{E2}'),
      FixModifier('e', '\U{302}', '\U{EA}') ]
  }

  function DiacriticsFix(s: string): string { ApplyAll(DiacriticsModifiers(), s) }

  /** The five passes, one after the other. */
  lemma DiacriticsSteps(s: string)
    ensures DiacriticsFix(s) ==
      Sub(Sub(Sub(Sub(Sub(s, PairFix('a', '\U{300}', '\U{E0}')),
        PairFix('e', '\U{300}', '\U{E8}')), PairFix('e', '\U{301}', '\U{E9}')),
        PairFix('a', '\U{302}', '\U{E2}')), PairFix('e', '\U{302}', '\U{EA}'))
  {
    var ms := DiacriticsModifiers();
    ApplyAllAppend(ms[..4], [ms[4]], s);
    ApplyAllAppend(ms[..3], [ms[3]], s);
    ApplyAllAppend(ms[..2], [ms[2]], s);
    ApplyAllAppend(ms[..1], [ms[1]], s);
    assert ms[..4] + [ms[4]] == ms;
    assert ms[..3] + [ms[3]] == ms[..4];
    assert ms[..2] + [ms[2]] == ms[..3];
    assert ms[..1] + [ms[1]] == ms[..2];
    assert ApplyAll(ms[..1], s) == ApplyAll([], ms[0](s));
  }

  /** No `x` directly followed by `y`. */
  predicate NoPair(t: string, x: char, y: char)
  {
    forall j :: 0 <= j < |t| - 1 ==> !(t[j] == x && t[j + 1] == y)
  }

  lemma NoPairCons(c: char, t: string, x: char, y: char)
    requires NoPair(t, x, y)
    requires c == x && |t| > 0 ==> t[0] != y
    ensures NoPair([c] + t, x, y)
  {
    var u := [c] + t;
    forall j | 0 <= j < |u| - 1 ensures !(u[j] == x && u[j + 1] == y) {
      if j > 0 { assert u[j] == t[j - 1] && u[j + 1] == t[j]; } else { assert u[1] == t[0]; }
    }
  }

  /** The rewrite from `i` starts with the letter the pair at `i` becomes,
      or with the character at `i`. */
  lemma PairFixHead(s: string, x: char, y: char, z: char, i: nat)
    requires i < |s|
    ensures var r := SubFrom(s, PairFix(x, y, z), i);
      |r| > 0 && r[0] == if i + 1 < |s| && s[i] == x && s[i + 1] == y then z else s[i]
  {
  }

  /** After the pass no `x` is directly followed by `y`, provided the letter
      it writes is neither. */
  lemma {:induction false} PairFixRemoves(s: string, x: char, y: char, z: char, i: nat)
    requires i <= |s| && z != x && z != y
    ensures NoPair(SubFrom(s, PairFix(x, y, z), i), x, y)
    decreases |s| - i
  {
    var f := PairFix(x, y, z);
    if i < |s| {
      if i + 1 < |s| && s[i] == x && s[i + 1] == y {
        PairFixRemoves(s, x, y, z, i + 2);
        SubFromMatch(s, f, i, Match(i + 2, [z]));
        NoPairCons(z, SubFrom(s, f, i + 2), x, y);
      } else {
        PairFixRemoves(s, x, y, z, i + 1);
        if i + 1 < |s| { PairFixHead(s, x, y, z, i + 1); }
        NoPairCons(s[i], SubFrom(s, f, i + 1), x, y);
      }
    }
  }

  /** The pass adds no `a` directly followed by `b`, provided the letter it
      writes is neither. */
  lemma {:induction false} PairFixKeeps(s: string, x: char, y: char, z: char, a: char, b: char, i: nat)
    requires i <= |s| && NoPair(s, a, b) && z != a && z != b
    ensures NoPair(SubFrom(s, PairFix(x, y, z), i), a, b)
    decreases |s| - i
  {
    var f := PairFix(x, y, z);
    if i < |s| {
      if i + 1 < |s| && s[i] == x && s[i + 1] == y {
        PairFixKeeps(s, x, y, z, a, b, i + 2);
        SubFromMatch(s, f, i, Match(i + 2, [z]));
        NoPairCons(z, SubFrom(s, f, i + 2), a, b);
      } else {
        PairFixKeeps(s, x, y, z, a, b, i + 1);
        if i + 1 < |s| { PairFixHead(s, x, y, z, i + 1); }
        NoPairCons(s[i], SubFrom(s, f, i + 1), a, b);
      }
    }
  }

  /** A text without the pair is left as it is. */
  lemma PairFixAbsent(s: string, x: char, y: char, z: char)
    requires NoPair(s, x, y)
    ensures Sub(s, PairFix(x, y, z)) == s
  {
    var f := PairFix(x, y, z);
    forall j | 0 <= j < |s| ensures !Valid(s, j, f(s, j)) {
      if j + 1 < |s| { assert !(s[j] == x && s[j + 1] == y); }
    }
    SubNoMatch(s, f);
  }

  /** When the letter stands for the pair under `g`, so does the whole text. */
  lemma PairFixFlatMap(s: string, x: char, y: char, z: char, g: char -> string)
    requires g(z) == g(x) + g(y)
    ensures FlatMap(Sub(s, PairFix(x, y, z)), g) == FlatMap(s, g)
  {
    var f := PairFix(x, y, z);
    forall j | 0 <= j < |s| && Valid(s, j, f(s, j))
      ensures FlatMap(f(s, j).value.out, g) == FlatMap(s[j..f(s, j).value.end], g)
    {
      var t := s[j..j + 2];
      assert t == [x] + [y];
      FlatMapConcat([x], [y], g);
      assert FlatMap([x], g) == g(x) + FlatMap([], g);
      assert FlatMap([y], g) == g(y) + FlatMap([], g);
      assert FlatMap([z], g) == g(z) + FlatMap([], g);
    }
    SubFromFlatMap(s, f, g, 0);
  }

  // ---------------------------------------------------------------------
  // What DiacriticsFix guarantees

  /** The letter each precomposed letter of the fix stands for. */
  function Decompose(c: char): string
  {
    if c == '\U{E0}' then "a\U{300}"
    else if c == '\U{E8}' then "e\U{300}"
    else if c == '\U{E9}' then "e\U{301}"
    else if c == '\U{E2}' then "a\U{302}"
    else if c == '\U{EA}' then "e\U{302}"
    else [c]
  }

  /** None of the five decomposed pairs. */
  predicate Composed(t: string)
  {
    && NoPair(t, 'a', '\U{300}') && NoPair(t, 'e', '\U{300}') && NoPair(t, 'e', '\U{301}')
    && NoPair(t, 'a', '\U{302}') && NoPair(t, 'e', '\U{302}')
  }

  /** The fix leaves none of the five pairs. */
  lemma DiacriticsComposed(s: string)
    ensures Composed(DiacriticsFix(s))
  {
    DiacriticsSteps(s);
    var t1 := Sub(s, PairFix('a', '\U{300}', '\U{E0}'));
    var t2 := Sub(t1, PairFix('e', '\U{300}', '\U{E8}'));
    var t3 := Sub(t2, PairFix('e', '\U{301}', '\U{E9}'));
    var t4 := Sub(t3, PairFix('a', '\U{302}', '\U{E2}'));
    var t5 := Sub(t4, PairFix('e', '\U{302}', '\U{EA}'));
    PairFixRemoves(s, 'a', '\U{300}', '\U{E0}', 0);
    PairFixKeeps(t1, 'e', '\U{300}', '\U{E8}', 'a', '\U{300}', 0);
    PairFixRemoves(t1, 'e', '\U{300}', '\U{E8}', 0);
    KeepsAfterThird(t2);
    FixedByFourth(t3);
    PairFixRemoves(t4, 'e', '\U{302}', '\U{EA}', 0);
    PairFixKeeps(t4, 'e', '\U{302}', '\U{EA}', 'a', '\U{300}', 0);
    PairFixKeeps(t4, 'e', '\U{302}', '\U{EA}', 'e', '\U{300}', 0);
    PairFixKeeps(t4, 'e', '\U{302}', '\U{EA}', 'e', '\U{301}', 0);
    PairFixKeeps(t4, 'e', '\U{302}', '\U{EA}', 'a', '\U{302}', 0);
  }

  lemma KeepsAfterThird(t2: string)
    requires NoPair(t2, 'a', '\U{300}') && NoPair(t2, 'e', '\U{300}')
    ensures var t3 := Sub(t2, PairFix('e', '\U{301}', '\U{E9}'));
      NoPair(t3, 'a', '\U{300}') && NoPair(t3, 'e', '\U{300}') && NoPair(t3, 'e', '\U{301}')
  {
    PairFixRemoves(t2, 'e', '\U{301}', '\U{E9}', 0);
    PairFixKeeps(t2, 'e', '\U{301}', '\U{E9}', 'a', '\U{300}', 0);
    PairFixKeeps(t2, 'e', '\U{301}', '\U{E9}', 'e', '\U{300}', 0);
  }

  lemma FixedByFourth(t3: string)
    requires NoPair(t3, 'a', '\U{300}') && NoPair(t3, 'e', '\U{300}') && NoPair(t3, 'e', '\U{301}')
    ensures var t4 := Sub(t3, PairFix('a', '\U{302}', '\U{E2}'));
      && NoPair(t4, 'a', '\U{300}') && NoPair(t4, 'e', '\U{300}') && NoPair(t4, 'e', '\U{301}')
      && NoPair(t4, 'a', '\U{302}')
  {
    PairFixRemoves(t3, 'a', '\U{302}', '\U{E2}', 0);
    PairFixKeeps(t3, 'a', '\U{302}', '\U{E2}', 'a', '\U{300}', 0);
    PairFixKeeps(t3, 'a', '\U{302}', '\U{E2}', 'e', '\U{300}', 0);
    PairFixKeeps(t3, 'a', '\U{302}', '\U{E2}', 'e', '\U{301}', 0);
  }

  /** The fix changes only how the accented letters are written: with each
      precomposed letter written as its pair, the text is the same. */
  lemma DiacriticsKeepsText(s: string)
    ensures FlatMap(DiacriticsFix(s), Decompose) == FlatMap(s, Decompose)
  {
    DiacriticsSteps(s);
    var t2 := Sub(Sub(s, PairFix('a', '\U{300}', '\U{E0}')), PairFix('e', '\U{300}', '\U{E8}'));
    FirstTwoKeep(s);
    LastThreeKeep(t2);
  }

  lemma FirstTwoKeep(s: string)
    ensures FlatMap(Sub(Sub(s, PairFix('a', '\U{300}', '\U{E0}')), PairFix('e', '\U{300}', '\U{E8}')), Decompose)
         == FlatMap(s, Decompose)
  {
    PairFixFlatMap(s, 'a', '\U{300}', '\U{E0}', Decompose);
    PairFixFlatMap(Sub(s, PairFix('a', '\U{300}', '\U{E0}')), 'e', '\U{300}', '\U{E8}', Decompose);
  }

  lemma LastThreeKeep(t2: string)
    ensures FlatMap(Sub(Sub(Sub(t2, PairFix('e', '\U{301}', '\U{E9}')),
        PairFix('a', '\U{302}', '\U{E2}')), PairFix('e', '\U{302}', '\U{EA}')), Decompose)
         == FlatMap(t2, Decompose)
  {
    var t3 := Sub(t2, PairFix('e', '\U{301}', '\U{E9}'));
    var t4 := Sub(t3, PairFix('a', '\U{302}', '\U{E2}'));
    PairFixFlatMap(t2, 'e', '\U{301}', '\U{E9}', Decompose);
    PairFixFlatMap(t3, 'a', '\U{302}', '\U{E2}', Decompose);
    PairFixFlatMap(t4, 'e', '\U{302}', '\U{EA}', Decompose);
  }

  /** A text with none of the pairs is left as it is. */
  lemma DiacriticsUntouched(s: string)
    requires Composed(s)
    ensures DiacriticsFix(s) == s
  {
    DiacriticsSteps(s);
    PairFixAbsent(s, 'a', '\U{300}', '\U{E0}');
    PairFixAbsent(s, 'e', '\U{300}', '\U{E8}');
    PairFixAbsent(s, 'e', '\U{301}', '\U{E9}');
    PairFixAbsent(s, 'a', '\U{302}', '\U{E2}');
    PairFixAbsent(s, 'e', '\U{302}', '\U{EA}');
  }

  lemma PairFixSelf(x: char, y: char, z: char)
    ensures Sub([x, y], PairFix(x, y, z)) == [z]
  {
    SubFromMatch([x, y], PairFix(x, y, z), 0, Match(2, [z]));
  }

  /** The pairs other than its own, and the letters, are left as they are
      by a pass. */
  lemma PairFixOther(t: string, x: char, y: char, z: char)
    requires |t| == 1 || (|t| == 2 && !(t[0] == x && t[1] == y))
    ensures Sub(t, PairFix(x, y, z)) == t
  {
    PairFixAbsent(t, x, y, z);
  }

  /** Each of the five pairs becomes its precomposed letter. */
  lemma DiacriticsVectors()
    ensures DiacriticsFix("a\U{300}") == "\U{E0}"
    ensures DiacriticsFix("e\U{300}") == "\U{E8}"
    ensures DiacriticsFix("e\U{301}") == "\U{E9}"
    ensures DiacriticsFix("a\U{302}") == "\U{E2}"
    ensures DiacriticsFix("e\U{302}") == "\U{EA}"
  {
    DiacriticVector1();
    DiacriticVector2();
    DiacriticVector3();
    DiacriticVector4();
    DiacriticVector5();
  }

  lemma DiacriticVector1()
    ensures DiacriticsFix("a\U{300}") == "\U{E0}"
  {
    DiacriticsSteps("a\U{300}");
    PairFixSelf('a', '\U{300}', '\U{E0}');
    PairFixOther("\U{E0}", 'e', '\U{300}', '\U{E8}');
    PairFixOther("\U{E0}", 'e', '\U{301}', '\U{E9}');
    PairFixOther("\U{E0}", 'a', '\U{302}', '\U{E2}');
    PairFixOther("\U{E0}", 'e', '\U{302}', '\U{EA}');
  }

  lemma DiacriticVector2()
    ensures DiacriticsFix("e\U{300}") == "\U{E8}"
  {
    DiacriticsSteps("e\U{300}");
    PairFixOther("e\U{300}", 'a', '\U{300}', '\U{E0}');
    PairFixSelf('e', '\U{300}', '\U{E8}');
    PairFixOther("\U{E8}", 'e', '\U{301}', '\U{E9}');
    PairFixOther("\U{E8}", 'a', '\U{302}', '\U{E2}');
    PairFixOther("\U{E8}", 'e', '\U{302}', '\U{EA}');
  }

  lemma DiacriticVector3()
    ensures DiacriticsFix("e\U{301}") == "\U{E9}"
  {
    DiacriticsSteps("e\U{301}");
    PairFixOther("e\U{301}", 'a', '\U{300}', '\U{E0}');
    PairFixOther("e\U{301}", 'e', '\U{300}', '\U{E8}');
    PairFixSelf('e', '\U{301}', '\U{E9}');
    PairFixOther("\U{E9}", 'a', '\U{302}', '\U{E2}');
    PairFixOther("\U{E9}", 'e', '\U{302}', '\U{EA}');
  }

  lemma DiacriticVector4()
    ensures DiacriticsFix("a\U{302}") == "\U{E2}"
  {
    DiacriticsSteps("a\U{302}");
    PairFixOther("a\U{302}", 'a', '\U{300}', '\U{E0}');
    PairFixOther("a\U{302}", 'e', '\U{300}', '\U{E8}');
    PairFixOther("a\U{302}", 'e', '\U{301}', '\U{E9}');
    PairFixSelf('a', '\U{302}', '\U{E2}');
    PairFixOther("\U{E2}", 'e', '\U{302}', '\U{EA}');
  }

  lemma DiacriticVector5()
    ensures DiacriticsFix("e\U{302}") == "\U{EA}"
  {
    DiacriticsSteps("e\U{302}");
    PairFixOther("e\U{302}", 'a', '\U{300}', '\U{E0}');
    PairFixOther("e\U{302}", 'e', '\U{300}', '\U{E8}');
    PairFixOther("e\U{302}", 'e', '\U{301}', '\U{E9}');
    PairFixOther("e\U{302}", 'a', '\U{302}', '\U{E2}');
    PairFixSelf('e', '\U{302}', '\U{EA}');
  }

  // =====================================================================
  // RemoveColonInHeader: `(^|\n)(#+.*): *($|\n)` replaced by `\1\2\3`

  function SpaceSet(): set<char> { {' '} }

  /** Where the colon to drop sits on a header line: the last character
      before the trailing spaces, when it is a colon. */
  function ColonCut(l: string): (c: Option<nat>)
    ensures c.Some? ==> 0 < c.value < |l| && l[0] == '#' && l[c.value] == ':'
    ensures c.Some? ==> forall k :: c.value < k < |l| ==> l[k] == ' '
  {
    var r := RStrip(l, SpaceSet());
    if |l| > 0 && l[0] == '#' && |r| > 1 && r[|r| - 1] == ':' then Some(|r| - 1) else None
  }

  /** The header line without its colon and the spaces after it. */
  function ColonRule(l: string): Option<(nat, string)>
  {
    if ColonCut(l).Some? then Some((|l|, l[..ColonCut(l).value])) else None
  }

  // ---------------------------------------------------------------------
  // As written

  /** The match at a line start `b` (after `prefix`, the `\1` group) when
      the line has a colon to drop: the newline ending the line is part of
      the match, unless `$` matches there first, which it does at the end of
      the text and before a newline that ends the text. */
  function ColonTail(s: string, b: nat, prefix: string, c: nat): Match
    requires b <= |s| && b + c <= LineEnd(s, b)
  {
    var le := LineEnd(s, b);
    if le + 1 >= |s| then Match(le, prefix + s[b..b + c])
    else Match(le + 1, prefix + s[b..b + c] + "\n")
  }

  function ColonAt(s: string, i: nat): Option<Match>
  {
    if i == 0 && ColonCut(s[..LineEnd(s, 0)]).Some? then
      Some(ColonTail(s, 0, "", ColonCut(s[..LineEnd(s, 0)]).value))
    else if i < |s| && s[i] == '\n' && ColonCut(s[i + 1..LineEnd(s, i + 1)]).Some? then
      Some(ColonTail(s, i + 1, "\n", ColonCut(s[i + 1..LineEnd(s, i + 1)]).value))
    else None
  }

  function ColonAsWritten(): Matcher
  {
    (s: string, i: nat) => ColonAt(s, i)
  }

  function RemoveColonAsWritten(s: string): string { Sub(s, ColonAsWritten()) }

  /** On a text of two header lines that both end with a colon, the pattern
      as written drops only the first colon: the newline that would start
      the second match was consumed by the first. */
  lemma ColonSecondHeaderKept(l1: string, l2: string)
    requires '\n' !in l1 && '\n' !in l2
    requires ColonCut(l1).Some? && ColonCut(l2).Some?
    ensures RemoveColonAsWritten(l1 + "\n" + l2) == ApplyRule(ColonRule, l1) + "\n" + l2
    ensures RemoveColonAsWritten(l1 + "\n" + l2) != Lines(MapRule(ColonRule, [l1, l2]))
  {
    var s := l1 + "\n" + l2;
    var f := ColonAsWritten();
    var c := ColonCut(l1).value;
    assert s[|l1|] == '\n';
    LineEndAt(s, 0, |l1|);
    assert s[..|l1|] == l1;
    var m := Match(|l1| + 1, l1[..c] + "\n");
    assert ColonCut(s[..LineEnd(s, 0)]) == Some(c);
    assert s[0..c] == l1[..c];
    assert ColonTail(s, 0, "", c) == m;
    assert f(s, 0) == Some(m);
    forall j | |l1| + 1 <= j < |s| ensures !Valid(s, j, f(s, j)) {
      assert s[j] == l2[j - |l1| - 1];
    }
    assert s[|l1| + 1..|s|] == l2;
    SubFromMatchThenCopy(s, f, 0, |s|, m, l2);
    assert ApplyRule(ColonRule, l1) == l1[..c];
    LinesTwo(l1, l2);
    LinesTwo(ApplyRule(ColonRule, l1), ApplyRule(ColonRule, l2));
    assert |ApplyRule(ColonRule, l2)| < |l2|;
  }

  lemma LinesTwo(a: string, b: string)
    ensures MapRule(ColonRule, [a, b]) == [ApplyRule(ColonRule, a), ApplyRule(ColonRule, b)]
    ensures Lines([a, b]) == a + "\n" + b
  {
    assert [a, b][1..] == [b];
    JoinCons(a, [b], "\n");
  }

  /** On a single line the pattern as written does what it means. */
  lemma ColonAsWrittenLine(l: string)
    requires '\n' !in l
    ensures RemoveColonAsWritten(l) == ApplyRule(ColonRule, l)
  {
    var f := ColonAsWritten();
    LineEndAt(l, 0, |l|);
    assert l[..|l|] == l;
    if ColonCut(l).Some? {
      var c := ColonCut(l).value;
      assert ColonTail(l, 0, "", c) == Match(|l|, l[..c]);
      SubFromMatchThenCopy(l, f, 0, |l|, Match(|l|, l[..c]), "");
      assert l[|l|..] == "";
    } else {
      forall j | 0 <= j < |l| ensures !Valid(l, j, f(l, j)) {
        assert j == 0 || l[j] != '\n';
      }
      SubNoMatch(l, f);
    }
  }

  // ---------------------------------------------------------------------
  // Intended: every header line loses its trailing colon

  function RemoveColonModifiers(): seq<Modifier>
  {
    [(s: string) => Sub(s, AtLineStart(ColonRule))]
  }

  /** A colon at `c` followed by nothing but spaces. */
  predicate ColonThenSpaces(l: string, c: nat)
  {
    c < |l| && l[c] == ':' && forall k :: c < k < |l| ==> l[k] == ' '
  }

  /** A line has a colon to drop exactly when it is a header whose last
      character before its trailing spaces is a colon, after the first
      `#`. */
  lemma ColonCutSpec(l: string, c: nat)
    ensures ColonCut(l) == Some(c) <==> |l| > 0 && l[0] == '#' && 0 < c && ColonThenSpaces(l, c)
  {
    if |l| > 0 && l[0] == '#' && 0 < c && ColonThenSpaces(l, c) {
      var r := RStrip(l, SpaceSet());
      assert l[c] !in SpaceSet();
      assert |r| > c;
      assert r[c] == l[c];
    }
  }

  /** One line: a header with a colon to drop loses it and the spaces after
      it and stays a header; every other line is kept. */
  lemma DropColonSpec(l: string)
    ensures ApplyRule(ColonRule, l) != l <==> ColonCut(l).Some?
    ensures (|l| == 0 || l[0] != '#') ==> ApplyRule(ColonRule, l) == l
    ensures ColonCut(l).Some? ==> var r := ApplyRule(ColonRule, l);
      |r| > 0 && r[0] == '#' && ColonThenSpaces(l, |r|) && l[..|r|] == r
  {
    if ColonCut(l).Some? {
      var c := ColonCut(l).value;
      assert ApplyRule(ColonRule, l) == l[..c];
    }
  }

  /** The whole text: each line on its own. */
  lemma RemoveColonLines(s: string)
    ensures ApplyAll(RemoveColonModifiers(), s) == Lines(MapRule(ColonRule, Split(s, "\n")))
  {
    var ms := RemoveColonModifiers();
    assert ApplyAll(ms, s) == ApplyAll(ms[1..], ms[0](s));
    assert ms[1..] == [];
    SubByLines(ColonRule, s);
  }

  /** So two header lines that end with a colon both lose it. */
  lemma RemoveColonBothHeaders(l1: string, l2: string)
    requires '\n' !in l1 && '\n' !in l2
    requires ColonCut(l1).Some? && ColonCut(l2).Some?
    ensures ApplyAll(RemoveColonModifiers(), l1 + "\n" + l2)
      == ApplyRule(ColonRule, l1) + "\n" + ApplyRule(ColonRule, l2)
  {
    RemoveColonLines(l1 + "\n" + l2);
    SplitTwoLines(l1, l2);
    LinesTwo(l1, l2);
    LinesTwo(ApplyRule(ColonRule, l1), ApplyRule(ColonRule, l2));
  }

  lemma SplitTwoLines(a: string, b: string)
    requires '\n' !in a && '\n' !in b
    ensures Split(a + "\n" + b, "\n") == [a, b]
  {
    SplitCharConcat(a, '\n', b);
    SplitCharAbsent(b, '\n');
  }

  // =====================================================================
  // AutomaticReplacements: one `\bold\b` rule per (old, new) pair

  /** `\b` at position `p`: a word character on exactly one side. */
  predicate WordBoundary(s: string, p: nat)
  {
    (0 < p <= |s| && IsWordChar(s[p - 1])) != (p < |s| && IsWordChar(s[p]))
  }

  /** `\bold\b`, with `old` taken literally, replaced by `new`. */
  function WordAt(o: string, n: string, s: string, i: nat): Option<Match>
  {
    if |o| > 0 && StartsAt(s, i, o) && WordBoundary(s, i) && WordBoundary(s, i + |o|)
    then Some(Match(i + |o|, n)) else None
  }

  function WordMatcher(o: string, n: string): Matcher
  {
    (s: string, i: nat) => WordAt(o, n, s, i)
  }

  function WordModifier(o: string, n: string): Modifier
  {
    (s: string) => Sub(s, WordMatcher(o, n))
  }

  /** `init_modifiers`: one rule per pair, in the order given. */
  method InitModifiers(replacements: seq<(string, string)>) returns (ms: seq<Modifier>)
    ensures |ms| == |replacements|
    ensures forall k :: 0 <= k < |ms| ==> ms[k] == WordModifier(replacements[k].0, replacements[k].1)
  {
    ms := [];
    var i := 0;
    while i < |replacements|
      invariant 0 <= i <= |replacements| && |ms| == i
      invariant forall k :: 0 <= k < i ==> ms[k] == WordModifier(replacements[k].0, replacements[k].1)
    {
      ms := ms + [WordModifier(replacements[i].0, replacements[i].1)];
      i := i + 1;
    }
  }

  /** The rules, as a list. */
  function WordModifiers(replacements: seq<(string, string)>): (ms: seq<Modifier>)
    ensures |ms| == |replacements|
    ensures forall k :: 0 <= k < |ms| ==> ms[k] == WordModifier(replacements[k].0, replacements[k].1)
  {
    seq(|replacements|, k requires 0 <= k < |replacements| =>
      WordModifier(replacements[k].0, replacements[k].1))
  }

  /** The pairs are applied in order, each to what the ones before left. */
  lemma ReplacementsInOrder(replacements: seq<(string, string)>, o: string, n: string, s: string)
    ensures ApplyAll(WordModifiers([]), s) == s
    ensures ApplyAll(WordModifiers(replacements + [(o, n)]), s)
      == Sub(ApplyAll(WordModifiers(replacements), s), WordMatcher(o, n))
  {
    assert WordModifiers(replacements + [(o, n)]) == WordModifiers(replacements) + [WordModifier(o, n)];
    ApplyAllShape(WordModifiers(replacements), WordModifier(o, n), s);
    assert WordModifiers([]) == [];
  }

  /** A word standing alone is replaced. */
  lemma WordAlone(o: string, n: string)
    requires |o| > 0 && IsWordChar(o[0]) && IsWordChar(o[|o| - 1])
    ensures Sub(o, WordMatcher(o, n)) == n
  {
    StartsAtSlice(o, 0, o);
    assert o[0..|o|] == o;
    SubFromMatch(o, WordMatcher(o, n), 0, Match(|o|, n));
  }

  /** A text made only of word characters is left as it is unless it is
      the word itself: the word is never replaced inside a longer word. */
  lemma WholeWordOnly(o: string, n: string, s: string)
    requires forall k :: 0 <= k < |s| ==> IsWordChar(s[k])
    requires s != o
    ensures Sub(s, WordMatcher(o, n)) == s
  {
    var f := WordMatcher(o, n);
    forall j | 0 <= j < |s| ensures !Valid(s, j, f(s, j)) {
      if j == 0 && |o| > 0 && StartsAt(s, 0, o) {
        StartsAtSlice(s, 0, o);
      }
    }
    SubNoMatch(s, f);
  }

  /** The one occurrence of the word, at `a`, with a word boundary on both
      sides, is replaced and the rest of the text kept. */
  lemma WordInText(s: string, a: nat, o: string, n: string)
    requires |o| > 0 && a + |o| <= |s| && s[a..a + |o|] == o
    requires WordBoundary(s, a) && WordBoundary(s, a + |o|)
    requires forall j :: 0 <= j < |s| && j != a ==> !StartsAt(s, j, o)
    ensures Sub(s, WordMatcher(o, n)) == s[..a] + n + s[a + |o|..]
  {
    var f := WordMatcher(o, n);
    StartsAtSlice(s, a, o);
    forall j | 0 <= j < |s| && j != a ensures !Valid(s, j, f(s, j)) {
      assert !StartsAt(s, j, o);
    }
    SubFromCopy(s, f, 0, a);
    SubFromMatchThenCopy(s, f, a, |s|, Match(a + |o|, n), s[a + |o|..]);
    assert s[0..a] == s[..a];
  }

  /** No two occurrences of `o` can overlap: no proper suffix of `o` is
      also a prefix of it. */
  predicate Unbordered(o: string)
  {
    forall d :: 0 < d < |o| ==> o[d..] != o[..|o| - d]
  }

  /** A word for `\bold\b`: word characters at both ends, and occurrences
      that cannot overlap. */
  predicate WholeWord(o: string)
  {
    |o| > 0 && IsWordChar(o[0]) && IsWordChar(o[|o| - 1]) && Unbordered(o)
  }

  /** The pieces of a text between the occurrences of `o`: none holds `o`,
      and every occurrence has a non-word character, or an end of the
      text, on each side. */
  predicate Separated(pieces: seq<string>, o: string)
  {
    && (forall k :: 0 <= k < |pieces| ==> Absent(pieces[k], o))
    && (forall k :: 0 <= k < |pieces| - 1 ==>
          if pieces[k] == [] then k == 0 else !IsWordChar(pieces[k][|pieces[k]| - 1]))
    && (forall k :: 0 < k < |pieces| ==>
          if pieces[k] == [] then k == |pieces| - 1 else !IsWordChar(pieces[k][0]))
  }

  /** Every occurrence of the word is replaced and nothing else changes:
      the text `Join(pieces, o)` becomes `Join(pieces, n)`. */
  lemma {:induction false} EveryOccurrence(pieces: seq<string>, o: string, n: string)
    requires |pieces| > 0 && WholeWord(o) && Separated(pieces, o)
    ensures Sub(Join(pieces, o), WordMatcher(o, n)) == Join(pieces, n)
    decreases |pieces|
  {
    var f := WordMatcher(o, n);
    if |pieces| == 1 {
      var s := pieces[0];
      forall j | 0 <= j < |s| ensures !Valid(s, j, f(s, j)) {
        assert !StartsAt(s, j, o);
      }
      SubNoMatch(s, f);
    } else {
      OccurrenceStep(pieces, o, n);
      SeparatedTail(pieces, o);
      EveryOccurrence(pieces[1..], o, n);
      JoinStep(pieces, n);
    }
  }

  /** One step: the first occurrence is replaced, the first piece copied,
      and the rest rewritten on its own. */
  lemma OccurrenceStep(pieces: seq<string>, o: string, n: string)
    requires |pieces| > 1 && WholeWord(o) && Separated(pieces, o)
    ensures Sub(Join(pieces, o), WordMatcher(o, n))
      == pieces[0] + n + Sub(Join(pieces[1..], o), WordMatcher(o, n))
  {
    var p := pieces[0];
    var b := Join(pieces[1..], o);
    JoinStep(pieces, o);
    RestHead(pieces, o);
    assert Absent(p, o) && (|p| == 0 || !IsWordChar(p[|p| - 1]));
    WordStep(p, o, n, b);
  }

  /** The piece before the first occurrence is copied, the occurrence
      replaced, and the rest rewritten on its own. */
  lemma WordStep(p: string, o: string, n: string, b: string)
    requires WholeWord(o) && Absent(p, o)
    requires |p| == 0 || !IsWordChar(p[|p| - 1])
    requires |b| == 0 || !IsWordChar(b[0])
    ensures Sub((p + o) + b, WordMatcher(o, n)) == p + n + Sub(b, WordMatcher(o, n))
  {
    FirstOccurrence(p, o, n, b);
    TailShift(p + o, b, o, n);
  }

  /** Past a prefix ending in the word, the rest is rewritten on its own. */
  lemma TailShift(a: string, b: string, o: string, n: string)
    requires WholeWord(o) && 0 < |a|
    requires |b| == 0 || !IsWordChar(b[0])
    ensures SubFrom(a + b, WordMatcher(o, n), |a|) == Sub(b, WordMatcher(o, n))
  {
    var f := WordMatcher(o, n);
    ShiftedAll(a, b, o, n);
    SubFromShift(a, b, f, f, 0);
    assert |a| + 0 == |a|;
  }

  lemma JoinStep(pieces: seq<string>, x: string)
    requires |pieces| > 1
    ensures Join(pieces, x) == pieces[0] + x + Join(pieces[1..], x)
    ensures pieces[0] + x + Join(pieces[1..], x) == (pieces[0] + x) + Join(pieces[1..], x)
  {
  }

  /** What follows the first occurrence starts with a non-word character,
      when anything follows it. */
  lemma RestHead(pieces: seq<string>, o: string)
    requires |pieces| > 1 && Separated(pieces, o)
    ensures var b := Join(pieces[1..], o); |b| == 0 || !IsWordChar(b[0])
  {
    var b := Join(pieces[1..], o);
    if |pieces| > 2 {
      assert b == pieces[1] + o + Join(pieces[2..], o);
      assert pieces[1] != [] && b[0] == pieces[1][0];
    } else {
      assert b == pieces[1];
    }
  }

  lemma SeparatedTail(pieces: seq<string>, o: string)
    requires |pieces| > 1 && Separated(pieces, o)
    ensures Separated(pieces[1..], o)
  {
    var qs := pieces[1..];
    forall k | 0 <= k < |qs| - 1
      ensures if qs[k] == [] then k == 0 else !IsWordChar(qs[k][|qs[k]| - 1])
    {
      assert qs[k] == pieces[k + 1];
    }
  }

  /** The word rule at every position past the first occurrence. */
  lemma ShiftedAll(a: string, b: string, o: string, n: string)
    requires WholeWord(o) && 0 < |a|
    requires |b| == 0 || !IsWordChar(b[0])
    ensures forall k :: 0 <= k < |b| ==>
      Shifted(WordMatcher(o, n)(a + b, |a| + k), WordMatcher(o, n)(b, k), |a|)
  {
    forall k | 0 <= k < |b|
      ensures Shifted(WordMatcher(o, n)(a + b, |a| + k), WordMatcher(o, n)(b, k), |a|)
    {
      ShiftedWord(a, b, o, n, k);
    }
  }

  /** The first occurrence, after a piece that does not hold the word, is
      replaced and the piece copied. */
  lemma FirstOccurrence(p: string, o: string, n: string, b: string)
    requires WholeWord(o) && Absent(p, o)
    requires |p| == 0 || !IsWordChar(p[|p| - 1])
    requires |b| == 0 || !IsWordChar(b[0])
    ensures SubFrom((p + o) + b, WordMatcher(o, n), 0)
      == p + n + SubFrom((p + o) + b, WordMatcher(o, n), |p| + |o|)
  {
    var s := (p + o) + b;
    var f := WordMatcher(o, n);
    NoneBefore(p, o, n, b);
    MatchAtWord(p, o, n, b);
    CopyThenMatch(s, f, |p|, |p| + |o|, n);
    PrefixPiece(p, o, b);
  }

  lemma PrefixPiece(p: string, o: string, b: string)
    ensures ((p + o) + b)[..|p|] == p
  {
  }

  /** A text with no match before position `q` and a match at `q`. */
  lemma CopyThenMatch(s: string, f: Matcher, q: nat, e: nat, out: string)
    requires q < e <= |s|
    requires forall j :: 0 <= j < q ==> !Valid(s, j, f(s, j))
    requires f(s, q) == Some(Match(e, out))
    ensures SubFrom(s, f, 0) == s[..q] + out + SubFrom(s, f, e)
  {
    SubFromCopy(s, f, 0, q);
    SubFromMatch(s, f, q, Match(e, out));
  }

  lemma NoneBefore(p: string, o: string, n: string, b: string)
    requires Unbordered(o) && Absent(p, o)
    ensures forall j :: 0 <= j < |p| ==> !Valid(p + o + b, j, WordMatcher(o, n)(p + o + b, j))
  {
    forall j | 0 <= j < |p| ensures !Valid(p + o + b, j, WordMatcher(o, n)(p + o + b, j)) {
      NoStartBefore(p, o, b, j);
    }
  }

  /** The word rule matches the occurrence that follows `p`. */
  lemma MatchAtWord(p: string, o: string, n: string, b: string)
    requires WholeWord(o)
    requires |p| == 0 || !IsWordChar(p[|p| - 1])
    requires |b| == 0 || !IsWordChar(b[0])
    ensures WordMatcher(o, n)(p + o + b, |p|) == Some(Match(|p| + |o|, n))
  {
    var s := p + o + b;
    var J := |p|;
    StartsAtConcat(p, o, b);
    assert s[J] == o[0] && s[J + |o| - 1] == o[|o| - 1];
    assert J > 0 ==> s[J - 1] == p[J - 1];
    assert J + |o| < |s| ==> s[J + |o|] == b[0];
  }

  /** Before the first occurrence no other one starts: inside the piece
      there is none, and one reaching into the word would overlap it. */
  lemma NoStartBefore(p: string, o: string, b: string, j: nat)
    requires Unbordered(o) && Absent(p, o) && j < |p|
    ensures !StartsAt(p + o + b, j, o)
  {
    var s := p + o + b;
    StartsAtSlice(s, j, o);
    if j + |o| <= |p| {
      assert s[j..j + |o|] == p[j..j + |o|];
      StartsAtSlice(p, j, o);
    } else if j + |o| <= |s| {
      var d := |p| - j;
      assert s[j..j + |o|][d..] == o[..|o| - d];
      assert o[d..] != o[..|o| - d];
    }
  }

  /** Past the first occurrence, the word rule reads the rest of the text
      as it would on its own. */
  lemma ShiftedWord(a: string, b: string, o: string, n: string, k: nat)
    requires WholeWord(o) && 0 < |a| && k < |b|
    requires !IsWordChar(b[0])
    ensures Shifted(WordAt(o, n, a + b, |a| + k), WordAt(o, n, b, k), |a|)
  {
    StartsAtShift(a, b, o, k);
    if k == 0 {
      StartsAtSlice(b, 0, o);
      if |o| <= |b| {
        assert b[0..|o|][0] == b[0];
      }
    } else {
      BoundaryShift(a, b, k);
      if StartsAt(b, k, o) {
        StartsAtSlice(b, k, o);
        BoundaryShift(a, b, k + |o|);
      }
    }
  }

  /** A word boundary inside `b` is one inside `a + b`. */
  lemma BoundaryShift(a: string, b: string, q: nat)
    requires 0 < q <= |b|
    ensures WordBoundary(a + b, |a| + q) == WordBoundary(b, q)
  {
    assert (a + b)[|a| + q - 1] == b[q - 1];
    if q < |b| {
      assert (a + b)[|a| + q] == b[q];
    }
  }
}
