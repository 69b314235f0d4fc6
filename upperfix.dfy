/** `UpperFix` of `campbot/processors/cleaners.py`: the first letter of a
    header, of the text and of each paragraph is put in upper case, and so
    is the first letter of each cell in the `L#` blocks. The letters
    concerned are `a`-`z`, `é`, `è` and `à`. */
module UpperFix {
  import opened Wrappers
  import opened Text
  import opened Rewrite
  import opened LineRules
  import opened Processor

  /** `[a-zéèà]`. */
  predicate IsLowerTarget(c: char)
  {
    'a' <= c <= 'z' || c == '\U{E9}' || c == '\U{E8}' || c == '\U{E0}'
  }

  /** `str.upper` on those letters; other characters are kept. */
  function Upper(c: char): (u: char)
    ensures IsLowerTarget(c) ==> u != c && !IsLowerTarget(u)
    ensures !IsLowerTarget(c) ==> u == c
  {
    if 'a' <= c <= 'z' then (c as int - 32) as char
    else if c == '\U{E9}' then '\U{C9}'
    else if c == '\U{E8}' then '\U{C8}'
    else if c == '\U{E0}' then '\U{C0}'
    else c
  }

  /** Lower case, for the letters `Upper` produces: the letter a position
      stands for whatever its case. */
  function Fold(c: char): string
  {
    if 'A' <= c <= 'Z' then [(c as int + 32) as char]
    else if c == '\U{C9}' then "\U{E9}"
    else if c == '\U{C8}' then "\U{E8}"
    else if c == '\U{C0}' then "\U{E0}"
    else [c]
  }

  lemma FoldUpper(c: char)
    ensures Fold(Upper(c)) == Fold(c)
  {
  }

  // =====================================================================
  // `(^|\n)#+ *[a-zéèà]`: the first letter of a header

  function UpperHeader(l: string): Option<(nat, string)>
  {
    if |l| > 0 && l[0] == '#' then
      var e := CharRun(l, CharRun(l, 0, '#'), ' ');
      if e < |l| && IsLowerTarget(l[e]) then Some((e + 1, l[..e] + [Upper(l[e])])) else None
    else None
  }

  /** A header line gets its first letter after the `#` run and the spaces
      in upper case; nothing else of the line changes, and other lines are
      kept. */
  lemma UpperHeaderSpec(l: string)
    ensures var r := ApplyRule(UpperHeader, l);
      && |r| == |l|
      && ((|l| == 0 || l[0] != '#') ==> r == l)
      && (|l| > 0 && l[0] == '#' ==>
            var e := CharRun(l, CharRun(l, 0, '#'), ' ');
            && (forall p :: 0 <= p < |l| && p != e ==> r[p] == l[p])
            && (e < |l| ==> r[e] == Upper(l[e])))
  {
    if |l| > 0 && l[0] == '#' {
      var e := CharRun(l, CharRun(l, 0, '#'), ' ');
      if e < |l| && IsLowerTarget(l[e]) {
        var r := ApplyRule(UpperHeader, l);
        assert r == l[..e] + [Upper(l[e])] + l[e + 1..];
      }
    }
  }

  /** Every line on its own. */
  lemma UpperHeaderLines(s: string)
    ensures Sub(s, AtLineStart(UpperHeader)) == Lines(MapRule(UpperHeader, Split(s, "\n")))
  {
    SubByLines(UpperHeader, s);
  }

  // =====================================================================
  // `(^|\n\n)[a-zéèà]`: the first letter of the text and of each paragraph

  function ParagraphAt(s: string, i: nat): Option<Match>
  {
    if i == 0 && |s| > 0 && IsLowerTarget(s[0]) then Some(Match(1, [Upper(s[0])]))
    else if i + 2 < |s| && s[i] == '\n' && s[i + 1] == '\n' && IsLowerTarget(s[i + 2]) then
      Some(Match(i + 3, "\n\n" + [Upper(s[i + 2])]))
    else None
  }

  function ParagraphMatcher(): Matcher
  {
    (s: string, i: nat) => ParagraphAt(s, i)
  }

  /** A letter that starts the text or follows an empty line. */
  predicate ParagraphStart(s: string, p: nat)
  {
    p < |s| && IsLowerTarget(s[p]) && (p == 0 || (p >= 2 && s[p - 1] == '\n' && s[p - 2] == '\n'))
  }

  /** The text with every paragraph start in upper case. */
  function UpperParagraphs(s: string, i: nat): (r: string)
    requires i <= |s|
    ensures |r| == |s| - i
    decreases |s| - i
  {
    if i == |s| then ""
    else [if ParagraphStart(s, i) then Upper(s[i]) else s[i]] + UpperParagraphs(s, i + 1)
  }

  /** Exactly the paragraph starts are put in upper case. */
  lemma ParagraphSpec(s: string)
    ensures Sub(s, ParagraphMatcher()) == UpperParagraphs(s, 0)
  {
    ParagraphFrom(s, 0);
  }

  /** No paragraph start at `i` or `i + 1` whose newlines come before `i`. */
  predicate ParagraphClear(s: string, i: nat)
  {
    (i > 0 ==> !ParagraphStart(s, i)) && !ParagraphStart(s, i + 1)
  }

  lemma {:induction false} ParagraphFrom(s: string, i: nat)
    requires i <= |s| && ParagraphClear(s, i)
    ensures SubFrom(s, ParagraphMatcher(), i) == UpperParagraphs(s, i)
    decreases |s| - i
  {
    var f := ParagraphMatcher();
    if i < |s| {
      if i == 0 && IsLowerTarget(s[0]) {
        ParagraphFrom(s, 1);
        SubFromMatch(s, f, 0, Match(1, [Upper(s[0])]));
      } else if i + 2 < |s| && s[i] == '\n' && s[i + 1] == '\n' && IsLowerTarget(s[i + 2]) {
        ParagraphFrom(s, i + 3);
        ParagraphRun(s, i);
      } else {
        assert !ParagraphStart(s, i + 2);
        ParagraphFrom(s, i + 1);
        assert !Valid(s, i, f(s, i));
        assert !ParagraphStart(s, i);
      }
    }
  }

  lemma ParagraphRun(s: string, i: nat)
    requires i + 2 < |s| && s[i] == '\n' && s[i + 1] == '\n' && IsLowerTarget(s[i + 2])
    requires SubFrom(s, ParagraphMatcher(), i + 3) == UpperParagraphs(s, i + 3)
    ensures SubFrom(s, ParagraphMatcher(), i) == UpperParagraphs(s, i)
  {
    SubFromMatch(s, ParagraphMatcher(), i, Match(i + 3, "\n\n" + [Upper(s[i + 2])]));
    UpperParagraphsRun(s, i);
  }

  lemma UpperParagraphsRun(s: string, i: nat)
    requires i + 2 < |s| && s[i] == '\n' && s[i + 1] == '\n' && IsLowerTarget(s[i + 2])
    ensures UpperParagraphs(s, i) == "\n\n" + [Upper(s[i + 2])] + UpperParagraphs(s, i + 3)
  {
    assert ParagraphStart(s, i + 2);
    assert !IsLowerTarget(s[i]) && !IsLowerTarget(s[i + 1]);
    var rest := UpperParagraphs(s, i + 3);
    var u2 := UpperParagraphs(s, i + 2);
    assert u2 == [Upper(s[i + 2])] + rest;
    var u1 := UpperParagraphs(s, i + 1);
    assert u1 == [s[i + 1]] + u2;
    assert UpperParagraphs(s, i) == [s[i]] + u1;
    assert [s[i]] + ([s[i + 1]] + ([Upper(s[i + 2])] + rest)) == "\n\n" + [Upper(s[i + 2])] + rest;
  }

  // =====================================================================
  // The `L#` blocks

  /** `(?![^|]*\]\])` at `j`: a `]]` comes before the next `|`. */
  predicate ClosesLink(l: string, j: nat)
    decreases |l| - j
  {
    || (j + 1 < |l| && l[j] == ']' && l[j + 1] == ']')
    || (j < |l| && l[j] != '|' && ClosesLink(l, j + 1))
  }

  /** `(\| *[a-zéèà])(?![^|]*\]\])` at `i`. */
  predicate Opens(l: string, i: nat)
  {
    && i < |l| && l[i] == '|'
    && CharRun(l, i + 1, ' ') < |l| && IsLowerTarget(l[CharRun(l, i + 1, ' ')])
    && !ClosesLink(l, CharRun(l, i + 1, ' ') + 1)
  }

  /** The match in upper case: the bar and the spaces are kept. */
  function CellAt(l: string, i: nat): Option<Match>
  {
    if Opens(l, i) then
      var e := CharRun(l, i + 1, ' ');
      Some(Match(e + 1, l[i..e] + [Upper(l[e])]))
    else None
  }

  function CellMatcher(): Matcher
  {
    (l: string, i: nat) => CellAt(l, i)
  }

  function CellFix(line: string): string { Sub(line, CellMatcher()) }

  /** Start of the run of spaces that ends just before `p`. */
  function SpaceStart(l: string, p: nat): (b: nat)
    requires p <= |l|
    ensures b <= p && forall k :: b <= k < p ==> l[k] == ' '
    ensures b > 0 ==> l[b - 1] != ' '
  {
    if p > 0 && l[p - 1] == ' ' then SpaceStart(l, p - 1) else p
  }

  /** The first letter of a cell: a letter after a bar and spaces, with no
      `]]` before the next bar. */
  predicate CellStart(l: string, p: nat)
  {
    && p < |l| && IsLowerTarget(l[p])
    && SpaceStart(l, p) > 0 && l[SpaceStart(l, p) - 1] == '|'
    && !ClosesLink(l, p + 1)
  }

  /** The line with every cell start in upper case. */
  function UpperCells(l: string, i: nat): (r: string)
    requires i <= |l|
    ensures |r| == |l| - i
    decreases |l| - i
  {
    if i == |l| then "" else [if CellStart(l, i) then Upper(l[i]) else l[i]] + UpperCells(l, i + 1)
  }

  /** No cell start at or after `i` has its bar before `i`. */
  predicate Clear(l: string, i: nat)
  {
    forall p :: i <= p < |l| && CellStart(l, p) ==> SpaceStart(l, p) > i
  }

  /** In a line of an `L#` block, exactly the first letters of the cells are
      put in upper case. */
  lemma CellSpec(l: string)
    ensures CellFix(l) == UpperCells(l, 0)
  {
    CellFrom(l, 0);
  }

  lemma {:induction false} CellFrom(l: string, i: nat)
    requires i <= |l| && Clear(l, i)
    ensures SubFrom(l, CellMatcher(), i) == UpperCells(l, i)
    decreases |l| - i
  {
    if i < |l| {
      if Opens(l, i) {
        var e := CharRun(l, i + 1, ' ');
        CellClearAfter(l, i, e);
        CellFrom(l, e + 1);
        CellMatchStep(l, i, e);
      } else {
        CellClearNext(l, i);
        CellFrom(l, i + 1);
        assert !CellStart(l, i);
        assert !Valid(l, i, CellMatcher()(l, i));
      }
    }
  }

  lemma SpaceStartAt(l: string, b: nat, p: nat)
    requires 0 < b <= p <= |l| && l[b - 1] != ' '
    requires forall k :: b <= k < p ==> l[k] == ' '
    ensures SpaceStart(l, p) == b
    decreases p - b
  {
    if b < p { SpaceStartAt(l, b, p - 1); }
  }

  /** After a match the next cell start has its own bar. */
  lemma CellClearAfter(l: string, i: nat, e: nat)
    requires Opens(l, i) && e == CharRun(l, i + 1, ' ')
    ensures Clear(l, e + 1)
  {
    forall p | e + 1 <= p < |l| && CellStart(l, p) ensures SpaceStart(l, p) > e + 1 {
    }
  }

  /** Where no match starts, the next cell start has its bar further on. */
  lemma CellClearNext(l: string, i: nat)
    requires i < |l| && Clear(l, i) && !Opens(l, i)
    ensures Clear(l, i + 1)
  {
    forall p | i + 1 <= p < |l| && CellStart(l, p) ensures SpaceStart(l, p) > i + 1 {
      if SpaceStart(l, p) == i + 1 {
        CharRunAt(l, i + 1, p, ' ');
      }
    }
  }

  /** A match is the bar and the spaces kept, then the letter raised. */
  lemma CellMatchStep(l: string, i: nat, e: nat)
    requires Opens(l, i) && e == CharRun(l, i + 1, ' ')
    requires SubFrom(l, CellMatcher(), e + 1) == UpperCells(l, e + 1)
    ensures SubFrom(l, CellMatcher(), i) == UpperCells(l, i)
  {
    SubFromMatch(l, CellMatcher(), i, Match(e + 1, l[i..e] + [Upper(l[e])]));
    OpensUpper(l, i, e);
  }

  /** Where a match starts, the cells' text is the bar and the spaces, then
      the letter raised. */
  lemma OpensUpper(l: string, i: nat, e: nat)
    requires Opens(l, i) && e == CharRun(l, i + 1, ' ')
    ensures UpperCells(l, i) == l[i..e] + [Upper(l[e])] + UpperCells(l, e + 1)
  {
    SpaceStartAt(l, i + 1, e);
    assert CellStart(l, e);
    CellsKept(l, i, e);
    assert UpperCells(l, e) == [Upper(l[e])] + UpperCells(l, e + 1);
  }

  /** No letter between the bar and the cell's first letter. */
  lemma CellsKept(l: string, i: nat, e: nat)
    requires i < e < |l| && l[i] == '|' && forall k :: i < k < e ==> l[k] == ' '
    ensures UpperCells(l, i) == l[i..e] + UpperCells(l, e)
  {
    BarKept(l, i);
    SpacesKept(l, i + 1, e);
    assert l[i..e] == [l[i]] + l[i + 1..e];
  }

  lemma BarKept(l: string, i: nat)
    requires i < |l| && l[i] == '|'
    ensures UpperCells(l, i) == [l[i]] + UpperCells(l, i + 1)
  {
    assert !CellStart(l, i);
  }

  lemma {:induction false} SpacesKept(l: string, i: nat, e: nat)
    requires i <= e <= |l| && forall k :: i <= k < e ==> l[k] == ' '
    ensures UpperCells(l, i) == l[i..e] + UpperCells(l, e)
    decreases e - i
  {
    if i < e {
      SpaceKept(l, i);
      SpacesKept(l, i + 1, e);
      assert l[i..e] == [l[i]] + l[i + 1..e];
      assert [l[i]] + (l[i + 1..e] + UpperCells(l, e)) == ([l[i]] + l[i + 1..e]) + UpperCells(l, e);
    }
  }

  lemma SpaceKept(l: string, i: nat)
    requires i < |l| && l[i] == ' '
    ensures UpperCells(l, i) == [l[i]] + UpperCells(l, i + 1)
  {
    assert !IsLowerTarget(l[i]);
  }

  // ---------------------------------------------------------------------
  // `ltag_converter`: which lines are in a block

  predicate StartsBlock(line: string)
  {
    |line| >= 2 && (line[0] == 'L' || line[0] == 'R') && line[1] == '#'
  }

  /** `is_ltag` after a line: an `L#`/`R#` line sets it, an empty line
      clears it, any other line keeps it. */
  function NextInBlock(inBlock: bool, line: string): bool
  {
    if StartsBlock(line) then true else if |line| == 0 then false else inBlock
  }

  /** `is_ltag` before line `i`. */
  function FlagBefore(ls: seq<string>, i: nat): bool
    requires i <= |ls|
  {
    if i == 0 then false else NextInBlock(FlagBefore(ls, i - 1), ls[i - 1])
  }

  /** Line `k` is in a block: some line at or before it starts one, and no
      line after that one up to `k` is empty. */
  predicate InBlock(ls: seq<string>, k: nat)
    requires k < |ls|
  {
    exists j :: 0 <= j <= k && InBlockAt(ls, j, k)
  }

  predicate InBlockAt(ls: seq<string>, j: nat, k: nat)
    requires j <= k < |ls|
  {
    StartsBlock(ls[j]) && forall m :: j < m <= k ==> |ls[m]| > 0
  }

  /** The lines of a block get their cells fixed, the others are kept. */
  function LtagLines(ls: seq<string>): (r: seq<string>)
    ensures |r| == |ls|
  {
    seq(|ls|, k requires 0 <= k < |ls| => if InBlock(ls, k) then CellFix(ls[k]) else ls[k])
  }

  function LtagFix(md: string): string { Lines(LtagLines(Split(md, "\n"))) }

  /** The flag the loop keeps is "in a block". */
  lemma {:induction false} FlagInBlock(ls: seq<string>, k: nat)
    requires k < |ls|
    ensures FlagBefore(ls, k + 1) <==> InBlock(ls, k)
  {
    if StartsBlock(ls[k]) {
      assert InBlockAt(ls, k, k);
    } else if |ls[k]| == 0 || k == 0 {
    } else {
      FlagInBlock(ls, k - 1);
      InBlockStep(ls, k);
    }
  }

  /** A line that is neither empty nor a block start is in a block exactly
      when the line before is. */
  lemma InBlockStep(ls: seq<string>, k: nat)
    requires 0 < k < |ls| && |ls[k]| > 0 && !StartsBlock(ls[k])
    ensures InBlock(ls, k) <==> InBlock(ls, k - 1)
  {
    if InBlock(ls, k) {
      var j :| 0 <= j <= k && InBlockAt(ls, j, k);
      assert InBlockAt(ls, j, k - 1);
    }
    if InBlock(ls, k - 1) {
      var j :| 0 <= j <= k - 1 && InBlockAt(ls, j, k - 1);
      assert InBlockAt(ls, j, k);
    }
  }

  /** `ltag_converter`. */
  method LtagConvert(markdown: string) returns (r: string)
    ensures r == LtagFix(markdown)
  {
    var lines := Split(markdown, "\n");
    var result: seq<string> := [];
    var isLtag := false;
    var i := 0;
    while i < |lines|
      invariant 0 <= i <= |lines| && |result| == i
      invariant isLtag == FlagBefore(lines, i)
      invariant forall k :: 0 <= k < i ==> result[k] == LtagLines(lines)[k]
    {
      var line := lines[i];
      if |line| == 0 {
        isLtag := false;
      }
      if StartsBlock(line) {
        isLtag := true;
      }
      assert isLtag == FlagBefore(lines, i + 1);
      FlagInBlock(lines, i);
      if isLtag {
        result := result + [CellFix(line)];
      } else {
        result := result + [line];
      }
      i := i + 1;
    }
    assert result == LtagLines(lines);
    r := Join(result, "\n");
  }

  // =====================================================================
  // The processor

  function UpperFixModifiers(): seq<Modifier>
  {
    [ (s: string) => Sub(s, AtLineStart(UpperHeader)),
      (s: string) => Sub(s, ParagraphMatcher()),
      (s: string) => LtagFix(s) ]
  }

  function UpperFixText(s: string): string { ApplyAll(UpperFixModifiers(), s) }

  // ---------------------------------------------------------------------
  // UpperFix only raises letters

  /** `b` is `a` with some letters put in upper case. */
  predicate Raised(a: string, b: string)
  {
    |a| == |b| && forall p :: 0 <= p < |a| ==> b[p] == a[p] || b[p] == Upper(a[p])
  }

  lemma RaisedTrans(a: string, b: string, c: string)
    requires Raised(a, b) && Raised(b, c)
    ensures Raised(a, c)
  {
    forall p | 0 <= p < |a| ensures c[p] == a[p] || c[p] == Upper(a[p]) {
      if b[p] == Upper(a[p]) && c[p] == Upper(b[p]) { assert Upper(Upper(a[p])) == Upper(a[p]); }
    }
  }

  lemma RaisedConcat(a1: string, b1: string, a2: string, b2: string)
    requires Raised(a1, b1) && Raised(a2, b2)
    ensures Raised(a1 + a2, b1 + b2)
  {
    var a := a1 + a2;
    var b := b1 + b2;
    forall p | 0 <= p < |a| ensures b[p] == a[p] || b[p] == Upper(a[p]) {
      if p < |a1| { assert a[p] == a1[p] && b[p] == b1[p]; }
      else { assert a[p] == a2[p - |a1|] && b[p] == b2[p - |a1|]; }
    }
  }

  lemma {:induction false} LinesRaised(ls: seq<string>, rs: seq<string>)
    requires |ls| == |rs| && forall k :: 0 <= k < |ls| ==> Raised(ls[k], rs[k])
    ensures Raised(Lines(ls), Lines(rs))
    decreases |ls|
  {
    if |ls| == 1 {
      assert Lines(ls) == ls[0] && Lines(rs) == rs[0];
    } else if |ls| > 1 {
      LinesRaised(ls[1..], rs[1..]);
      assert ls == [ls[0]] + ls[1..] && rs == [rs[0]] + rs[1..];
      JoinCons(ls[0], ls[1..], "\n");
      JoinCons(rs[0], rs[1..], "\n");
      RaisedConcat(ls[0], rs[0], "\n", "\n");
      RaisedConcat(ls[0] + "\n", rs[0] + "\n", Lines(ls[1..]), Lines(rs[1..]));
    }
  }

  lemma {:induction false} MapHeaderRaised(ls: seq<string>)
    ensures forall k :: 0 <= k < |ls| ==> Raised(ls[k], MapRule(UpperHeader, ls)[k])
    decreases |ls|
  {
    if |ls| > 0 {
      MapHeaderRaised(ls[1..]);
      UpperHeaderSpec(ls[0]);
      var m := MapRule(UpperHeader, ls);
      forall k | 0 <= k < |ls| ensures Raised(ls[k], m[k]) {
        if k > 0 { assert ls[k] == ls[1..][k - 1] && m[k] == MapRule(UpperHeader, ls[1..])[k - 1]; }
      }
    }
  }

  lemma {:induction false} ParagraphsRaised(s: string, i: nat)
    requires i <= |s|
    ensures Raised(s[i..], UpperParagraphs(s, i))
    decreases |s| - i
  {
    if i < |s| {
      ParagraphsRaised(s, i + 1);
      assert s[i..] == [s[i]] + s[i + 1..];
      RaisedConcat([s[i]], [if ParagraphStart(s, i) then Upper(s[i]) else s[i]], s[i + 1..], UpperParagraphs(s, i + 1));
    }
  }

  lemma {:induction false} CellsRaised(l: string, i: nat)
    requires i <= |l|
    ensures Raised(l[i..], UpperCells(l, i))
    decreases |l| - i
  {
    if i < |l| {
      CellsRaised(l, i + 1);
      assert l[i..] == [l[i]] + l[i + 1..];
      RaisedConcat([l[i]], [if CellStart(l, i) then Upper(l[i]) else l[i]], l[i + 1..], UpperCells(l, i + 1));
    }
  }

  lemma LtagRaised(md: string)
    ensures Raised(md, LtagFix(md))
  {
    var ls := Split(md, "\n");
    var rs := LtagLines(ls);
    forall k | 0 <= k < |ls| ensures Raised(ls[k], rs[k]) {
      if InBlock(ls, k) {
        CellSpec(ls[k]);
        CellsRaised(ls[k], 0);
        assert ls[k][0..] == ls[k];
      }
    }
    LinesRaised(ls, rs);
    JoinSplit(md, "\n");
  }

  lemma HeadersRaised(s: string)
    ensures Raised(s, Sub(s, AtLineStart(UpperHeader)))
  {
    var ls := Split(s, "\n");
    UpperHeaderLines(s);
    MapHeaderRaised(ls);
    LinesRaised(ls, MapRule(UpperHeader, ls));
    JoinSplit(s, "\n");
  }

  /** UpperFix changes nothing but the case of some letters: the text keeps
      its length, and each character is kept or put in upper case. */
  lemma UpperFixRaised(s: string)
    ensures Raised(s, UpperFixText(s))
  {
    var ms := UpperFixModifiers();
    var t1 := Sub(s, AtLineStart(UpperHeader));
    var t2 := Sub(t1, ParagraphMatcher());
    ApplyAllAppend(ms[..2], [ms[2]], s);
    ApplyAllAppend(ms[..1], [ms[1]], s);
    assert ms[..2] + [ms[2]] == ms;
    assert ms[..1] + [ms[1]] == ms[..2];
    assert ApplyAll(ms[..1], s) == ApplyAll([], ms[0](s));
    HeadersRaised(s);
    ParagraphSpec(t1);
    ParagraphsRaised(t1, 0);
    assert t1[0..] == t1;
    LtagRaised(t2);
    RaisedTrans(s, t1, t2);
    RaisedTrans(s, t2, LtagFix(t2));
  }
}
