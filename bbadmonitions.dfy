/** The admonition rules of `BBCodeRemover` in
    `campbot/processors/bbcode.py`: a `[important]` block of one to seven
    lines, or a `[warning]` block of one to six, becomes one markdown
    admonition line per line of the block (`!!! ` or `!!!! ` in front),
    with a blank line before and after. There is one case-insensitive rule
    per line count, tried from one line up; a block that none of them reads
    is left as it is.

    Each rule is `\n*OPEN[ \n]*([^\n]+)\n+([^\n]+)...[ \n]*CLOSE\n*`. Read
    with the regex engine's backtracking, that is: the newlines before the
    opening tag; the blanks after it, given back one by one while the rest
    fails; every group but the last one whole line, followed by one or more
    line breaks; the last group the longest stretch of its line after which
    blanks and the closing tag follow; then the line breaks after the
    closing tag. */
module BBAdmonitions {
  import opened Wrappers
  import opened Text
  import opened Rewrite
  import opened Processor
  import opened Tags

  /** `[important]` (also spelled `[importante]`, with an optional
      ` col_50`) or `[warning]`. */
  datatype Kind = Important | Warning

  function Marker(k: Kind): string { if k == Important then "!!! " else "!!!! " }

  /** Rules per kind: seven for `[important]`, six for `[warning]`. */
  function MaxLines(k: Kind): nat { if k == Important then 7 else 6 }

  predicate IsBlank(c: char) { c == ' ' || c == '\n' }

  /** End of `[ \n]*` from `i`. */
  function BlankRun(s: string, i: nat): (r: nat)
    requires i <= |s|
    ensures i <= r <= |s| && (r < |s| ==> !IsBlank(s[r]))
    decreases |s| - i
  {
    if i < |s| && IsBlank(s[i]) then BlankRun(s, i + 1) else i
  }

  lemma {:induction false} BlankRunAll(s: string, i: nat)
    requires i <= |s|
    ensures forall x :: i <= x < BlankRun(s, i) ==> IsBlank(s[x])
    decreases |s| - i
  {
    if i < |s| && IsBlank(s[i]) { BlankRunAll(s, i + 1); }
  }

  /** The first line break at or after `j`, or the end of the text. */
  function LineEnd(s: string, j: nat): (r: nat)
    requires j <= |s|
    ensures j <= r <= |s| && (r < |s| ==> s[r] == '\n')
    decreases |s| - j
  {
    if j < |s| && s[j] != '\n' then LineEnd(s, j + 1) else j
  }

  lemma {:induction false} LineEndAll(s: string, j: nat)
    requires j <= |s|
    ensures forall x :: j <= x < LineEnd(s, j) ==> s[x] != '\n'
    decreases |s| - j
  {
    if j < |s| && s[j] != '\n' { LineEndAll(s, j + 1); }
  }

  /** End of the opening tag read at `p`: `\[importante?(?: col_50)?\]` or
      `\[warning\]`. */
  function OpenEnd(s: string, p: nat, k: Kind): (r: Option<nat>)
    ensures r.Some? ==> p < r.value <= |s|
  {
    if k == Warning then
      if At(s, p, "[warning]") then Some(p + 9) else None
    else if At(s, p, "[important") then
      var q := if p + 10 < |s| && SameIgnoreCase(s[p + 10], 'e') then p + 11 else p + 10;
      var q2 := if At(s, q, " col_50") then q + 7 else q;
      if q2 < |s| && s[q2] == ']' then Some(q2 + 1) else None
    else None
  }

  /** End of the closing tag read at `r`: `\[/importante?\]` or
      `\[/warning\]`. */
  function CloseEnd(s: string, r: nat, k: Kind): (e: Option<nat>)
    ensures e.Some? ==> r < e.value <= |s|
  {
    if k == Warning then
      if At(s, r, "[/warning]") then Some(r + 10) else None
    else if At(s, r, "[/important") then
      var q := if r + 11 < |s| && SameIgnoreCase(s[r + 11], 'e') then r + 12 else r + 11;
      if q < |s| && s[q] == ']' then Some(q + 1) else None
    else None
  }

  /** The end of the last group, from `j`: the largest `e <= top` after
      which blanks and the closing tag follow. */
  function LastEnd(s: string, j: nat, top: nat, k: Kind): (r: Option<nat>)
    requires top <= |s|
    ensures r.Some? ==> j < r.value <= top
    decreases top
  {
    if top <= j then None
    else if CloseEnd(s, BlankRun(s, top), k).Some? then Some(top)
    else LastEnd(s, j, top - 1, k)
  }

  /** The `n` groups read from `j`, and the end of the match. */
  function Groups(s: string, j: nat, n: nat, k: Kind): (r: Option<(seq<string>, nat)>)
    requires j <= |s| && n >= 1
    decreases n
  {
    if n == 1 then
      match LastEnd(s, j, LineEnd(s, j), k)
      case None => None
      case Some(e) =>
        match CloseEnd(s, BlankRun(s, e), k)
        case None => None
        case Some(ce) => Some(([s[j..e]], CharRun(s, ce, '\n')))
    else
      var le := LineEnd(s, j);
      if le == j || le >= |s| then None
      else match Groups(s, CharRun(s, le, '\n'), n - 1, k)
        case None => None
        case Some((gs, end)) => Some(([s[j..le]] + gs, end))
  }

  /** The first group starts at `j` or, when the rest fails, at an earlier
      blank, down to the end `o` of the opening tag. */
  function FromStart(s: string, o: nat, j: nat, n: nat, k: Kind): Option<(seq<string>, nat)>
    requires o <= j <= |s| && n >= 1
    decreases j - o
  {
    var g := Groups(s, j, n, k);
    if g.Some? then g
    else if j > o then FromStart(s, o, j - 1, n, k)
    else None
  }

  /** One admonition line per group. */
  function Prefixed(gs: seq<string>, m: string): string
  {
    if |gs| == 0 then "" else m + gs[0] + "\n" + Prefixed(gs[1..], m)
  }

  /** The replacement: a blank line, the admonition lines, a blank line. */
  function Render(gs: seq<string>, k: Kind): string { "\n\n" + Prefixed(gs, Marker(k)) + "\n" }

  /** The rule for blocks of `n` lines, with the opening tag looked for at
      `p`. */
  function BlockAt(s: string, p: nat, n: nat, k: Kind): Option<Match>
    requires n >= 1
  {
    match OpenEnd(s, p, k)
    case None => None
    case Some(o) =>
      match FromStart(s, o, BlankRun(s, o), n, k)
      case None => None
      case Some((gs, end)) => Some(Match(end, Render(gs, k)))
  }

  /** The rule for blocks of `n` lines, at `i`: the line breaks, then the
      block. */
  function AdmonitionAt(s: string, i: nat, n: nat, k: Kind): Option<Match>
  {
    if n == 0 || i > |s| then None else BlockAt(s, CharRun(s, i, '\n'), n, k)
  }

  function Admonition(n: nat, k: Kind): Matcher { (s: string, i: nat) => AdmonitionAt(s, i, n, k) }

  /** The kind and the number of lines of the rule at `q`: the seven
      `[important]` rules first, for one to seven lines, then the six
      `[warning]` rules, for one to six. */
  function RuleKind(q: nat): Kind { if q < 7 then Important else Warning }

  function RuleLines(q: nat): nat { if q < 7 then q + 1 else q - 6 }

  /** The thirteen rules, in the source's order. */
  function AdmonitionMatchers(): (r: seq<Matcher>)
    ensures |r| == 13
  {
    seq(13, q requires 0 <= q < 13 => Admonition(RuleLines(q), RuleKind(q)))
  }

  function AdmonitionRules(): seq<Modifier> { Converters(AdmonitionMatchers()) }

  /** Where the rule for `n` lines of kind `k` stands among them. */
  function RuleIndex(k: Kind, n: nat): nat
    requires n >= 1
  { if k == Important then n - 1 else 7 + n - 1 }

  lemma RuleAt(k: Kind, n: nat)
    requires 1 <= n <= MaxLines(k)
    ensures RuleIndex(k, n) < 13 && AdmonitionMatchers()[RuleIndex(k, n)] == Admonition(n, k)
  {
  }

  // ---------------------------------------------------------------------
  // Reading tags

  lemma OpenAtBracket(s: string, p: nat, k: Kind)
    requires OpenEnd(s, p, k).Some?
    ensures p < |s| && s[p] == '['
  {
    if k == Warning { AtChar(s, p, "[warning]", 0); } else { AtChar(s, p, "[important", 0); }
  }

  lemma CloseAtBracket(s: string, r: nat, k: Kind)
    requires CloseEnd(s, r, k).Some?
    ensures r < |s| && s[r] == '['
  {
    if k == Warning { AtChar(s, r, "[/warning]", 0); } else { AtChar(s, r, "[/important", 0); }
  }

  lemma CloseNoBracket(s: string, r: nat, k: Kind)
    requires r >= |s| || s[r] != '['
    ensures CloseEnd(s, r, k).None?
  {
    if CloseEnd(s, r, k).Some? { CloseAtBracket(s, r, k); }
  }

  /** A closing tag is not an opening tag. */
  lemma CloseNotOpen(s: string, r: nat, k: Kind, k': Kind)
    requires CloseEnd(s, r, k).Some?
    ensures OpenEnd(s, r, k').None?
  {
    var cl := if k == Warning then "[/warning]" else "[/important";
    if k' == Warning { AtDiffers(s, r, cl, "[warning]", 1); } else { AtDiffers(s, r, cl, "[important", 1); }
  }

  // ---------------------------------------------------------------------
  // Reading the lines of a block

  /** A line of a block as the lemmas below take it: not empty, no line
      break, no `[`. */
  predicate BodyLine(x: string) { |x| > 0 && '\n' !in x && '[' !in x }

  predicate BodyLines(ls: seq<string>) { forall m :: 0 <= m < |ls| ==> BodyLine(ls[m]) }

  /** No closing tag in reach: the last group finds none. */
  lemma {:induction false} LastEndNone(s: string, j: nat, top: nat, k: Kind)
    requires top <= |s|
    requires forall e :: j < e <= top ==> CloseEnd(s, BlankRun(s, e), k).None?
    ensures LastEnd(s, j, top, k).None?
    decreases top
  {
    if top > j { LastEndNone(s, j, top - 1, k); }
  }

  /** The last group ends at `c`, the largest end followed by the closing
      tag. */
  lemma {:induction false} LastEndAt(s: string, j: nat, top: nat, c: nat, k: Kind)
    requires j < c <= top <= |s| && CloseEnd(s, BlankRun(s, c), k).Some?
    requires forall e :: c < e <= top ==> CloseEnd(s, BlankRun(s, e), k).None?
    ensures LastEnd(s, j, top, k) == Some(c)
    decreases top
  {
    if top > c { LastEndAt(s, j, top - 1, c, k); }
  }

  /** With no `[` from `j` on, no groups are read. */
  lemma {:induction false} GroupsNoBracket(s: string, j: nat, n: nat, k: Kind)
    requires j <= |s| && n >= 1
    requires forall x :: j <= x < |s| ==> s[x] != '['
    ensures Groups(s, j, n, k).None?
    decreases n
  {
    var le := LineEnd(s, j);
    if n == 1 {
      forall e | j < e <= le ensures CloseEnd(s, BlankRun(s, e), k).None? {
        CloseNoBracket(s, BlankRun(s, e), k);
      }
      LastEndNone(s, j, le, k);
    } else if le != j && le < |s| {
      GroupsNoBracket(s, CharRun(s, le, '\n'), n - 1, k);
    }
  }

  /** The first line of `s[j..c]` holding `x + "\n" + rest`. */
  lemma FirstLine(s: string, j: nat, c: nat, x: string, rest: string)
    requires j <= c <= |s| && s[j..c] == x + "\n" + rest && '\n' !in x
    ensures s[j..j + |x|] == x && s[j + |x|] == '\n' && s[j + |x| + 1..c] == rest
    ensures LineEnd(s, j) == j + |x|
  {
    var t := x + "\n" + rest;
    SliceOf(s, j, t, 0, |x|);
    SliceOf(s, j, t, |x| + 1, |rest|);
    assert t[..|x|] == x && t[|x| + 1..] == rest;
    assert s[j + |x|] == s[j..c][|x|];
    forall y | j <= y < j + |x| ensures s[y] != '\n' { assert s[y] == x[y - j]; }
    LineEndAt(s, j, j + |x|);
  }

  /** The line from `j` ends at the first line break. */
  lemma {:induction false} LineEndAt(s: string, j: nat, e: nat)
    requires j <= e <= |s| && (e < |s| ==> s[e] == '\n')
    requires forall y :: j <= y < e ==> s[y] != '\n'
    ensures LineEnd(s, j) == e
    decreases e - j
  {
    if j < e { LineEndAt(s, j + 1, e); }
  }

  /** One group is not enough when the closing tag is on a later line. */
  lemma OneGroupShort(s: string, j: nat, c: nat, k: Kind)
    requires j <= |s| && j < LineEnd(s, j) < c < |s| && !IsBlank(s[c - 1])
    requires forall x :: j <= x < c ==> s[x] != '['
    ensures Groups(s, j, 1, k).None?
  {
    var le := LineEnd(s, j);
    forall e | j < e <= le ensures CloseEnd(s, BlankRun(s, e), k).None? {
      var r := BlankRun(s, e);
      BlankRunAll(s, e);
      assert r <= c - 1;
      CloseNoBracket(s, r, k);
    }
    LastEndNone(s, j, le, k);
  }

  /** A whole line, then the line break before the next group. */
  lemma GroupsStep(s: string, j: nat, n: nat, k: Kind, le: nat, j2: nat, g: Option<(seq<string>, nat)>)
    requires n >= 2 && j <= |s| && le == LineEnd(s, j) && j < le
    requires j2 == le + 1 && j2 < |s| && s[j2] != '\n'
    requires g == Groups(s, j2, n - 1, k)
    ensures Groups(s, j, n, k) == if g.Some? then Some(([s[j..le]] + g.value.0, g.value.1)) else None
  {
    CharRunAt(s, le, le + 1, '\n');
  }

  /** The groups of a block whose lines `ls` run from `j` to the closing
      tag at `c`: as many groups as lines are read, one per line, and no
      other number. */
  lemma {:induction false} GroupsOf(s: string, j: nat, c: nat, ls: seq<string>, n: nat, k: Kind)
    requires |ls| >= 1 && BodyLines(ls) && n >= 1
    requires j < c < |s| && s[j..c] == Lines(ls) && CloseEnd(s, c, k).Some?
    requires forall x :: j <= x < c ==> s[x] != '['
    requires forall x :: c < x < |s| ==> s[x] != '['
    requires !IsBlank(s[c - 1])
    ensures Groups(s, j, n, k) == if n == |ls| then Some((ls, CharRun(s, CloseEnd(s, c, k).value, '\n'))) else None
    decreases |ls|
  {
    CloseAtBracket(s, c, k);
    if |ls| == 1 {
      assert Lines(ls) == ls[0] && [ls[0]] == ls;
      GroupsOfOne(s, j, c, ls[0], n, k);
    } else {
      SplitBlock(s, j, c, ls);
      if n == 1 {
        OneGroupShort(s, j, c, k);
      } else {
        var j2 := j + |ls[0]| + 1;
        assert BodyLine(ls[0]);
        GroupsOf(s, j2, c, ls[1..], n - 1, k);
        GroupsCons(s, j, j2, ls, n, k, CharRun(s, CloseEnd(s, c, k).value, '\n'));
      }
    }
  }

  /** The first line as a group in front of the groups of the others. */
  lemma GroupsCons(s: string, j: nat, j2: nat, ls: seq<string>, n: nat, k: Kind, end: nat)
    requires |ls| >= 2 && n >= 2
    requires |ls[0]| > 0 && j2 == j + |ls[0]| + 1 && j2 < |s|
    requires LineEnd(s, j) == j2 - 1 && s[j..j2 - 1] == ls[0]
    requires s[j2] != '\n'
    requires Groups(s, j2, n - 1, k) == if n - 1 == |ls[1..]| then Some((ls[1..], end)) else None
    ensures Groups(s, j, n, k) == if n == |ls| then Some((ls, end)) else None
  {
    var le := j2 - 1;
    var g := Groups(s, j2, n - 1, k);
    GroupsStep(s, j, n, k, le, j2, g);
    ConsShape(ls, n, end, g, Groups(s, j, n, k), s[j..le]);
  }

  /** The shape of the groups with one more line in front. */
  lemma ConsShape(ls: seq<string>, n: nat, end: nat, g: Option<(seq<string>, nat)>, r: Option<(seq<string>, nat)>, x: string)
    requires |ls| >= 2 && n >= 2 && x == ls[0]
    requires g == if n - 1 == |ls[1..]| then Some((ls[1..], end)) else None
    requires r == if g.Some? then Some(([x] + g.value.0, g.value.1)) else None
    ensures r == if n == |ls| then Some((ls, end)) else None
  {
    if n == |ls| {
      assert [x] + ls[1..] == ls;
    }
  }

  /** The first line of a block of several, and the rest. */
  lemma SplitBlock(s: string, j: nat, c: nat, ls: seq<string>)
    requires |ls| >= 2 && BodyLines(ls)
    requires j < c <= |s| && s[j..c] == Lines(ls)
    ensures BodyLines(ls[1..]) && j + |ls[0]| + 1 < c
    ensures LineEnd(s, j) == j + |ls[0]| && s[j..j + |ls[0]|] == ls[0]
    ensures s[j + |ls[0]| + 1..c] == Lines(ls[1..]) && s[j + |ls[0]| + 1] != '\n'
  {
    var x := ls[0];
    JoinCons(x, ls[1..], "\n");
    assert [x] + ls[1..] == ls;
    FirstLine(s, j, c, x, Lines(ls[1..]));
    assert BodyLine(ls[1]);
    if |ls| > 2 {
      JoinCons(ls[1], ls[2..], "\n");
      assert [ls[1]] + ls[2..] == ls[1..];
    }
    assert Lines(ls[1..])[0] == ls[1][0];
    assert s[j + |x| + 1] == s[j + |x| + 1..c][0];
  }

  /** The one-line case of `GroupsOf`. */
  lemma GroupsOfOne(s: string, j: nat, c: nat, x: string, n: nat, k: Kind)
    requires BodyLine(x) && n >= 1
    requires j < c < |s| && s[j..c] == x && CloseEnd(s, c, k).Some? && s[c] == '['
    requires forall y :: c < y < |s| ==> s[y] != '['
    ensures Groups(s, j, n, k) == if n == 1 then Some(([x], CharRun(s, CloseEnd(s, c, k).value, '\n'))) else None
  {
    forall y | j <= y < c ensures s[y] != '\n' { assert s[y] == x[y - j]; }
    if n == 1 {
      LastLine(s, j, c, k);
    } else {
      var le := LineEnd(s, j);
      if le < |s| { GroupsNoBracket(s, CharRun(s, le, '\n'), n - 1, k); }
    }
  }

  /** The last line runs from `j` to the closing tag at `c`. */
  lemma LastLine(s: string, j: nat, c: nat, k: Kind)
    requires j < c < |s| && CloseEnd(s, c, k).Some? && s[c] == '['
    requires forall y :: j <= y < c ==> s[y] != '\n'
    requires forall y :: c < y < |s| ==> s[y] != '['
    ensures Groups(s, j, 1, k) == Some(([s[j..c]], CharRun(s, CloseEnd(s, c, k).value, '\n')))
  {
    var le := LineEnd(s, j);
    forall e | c < e <= le ensures CloseEnd(s, BlankRun(s, e), k).None? {
      CloseNoBracket(s, BlankRun(s, e), k);
    }
    assert BlankRun(s, c) == c;
    LastEndAt(s, j, le, c, k);
  }

  lemma OpenNoBracket(s: string, p: nat, k: Kind)
    requires p >= |s| || s[p] != '['
    ensures OpenEnd(s, p, k).None?
  {
    if OpenEnd(s, p, k).Some? { OpenAtBracket(s, p, k); }
  }

  /** An opening tag of one kind is not one of the other. */
  lemma OpenNotOther(s: string, p: nat, k: Kind, k': Kind)
    requires OpenEnd(s, p, k).Some? && k' != k
    ensures OpenEnd(s, p, k').None?
  {
    if k == Warning { AtDiffers(s, p, "[warning]", "[important", 1); }
    else { AtDiffers(s, p, "[important", "[warning]", 1); }
  }

  // ---------------------------------------------------------------------
  // A block in a text

  /** The opening tags the rules read, in the spellings the lemmas below
      take; the rules ignore case. */
  function Openers(k: Kind): seq<string>
  {
    if k == Warning then ["[warning]"]
    else ["[important]", "[importante]", "[important col_50]", "[importante col_50]"]
  }

  function Closers(k: Kind): seq<string>
  {
    if k == Warning then ["[/warning]"] else ["[/important]", "[/importante]"]
  }

  lemma OpenerRead(s: string, p: nat, o: string, k: Kind)
    requires o in Openers(k) && p + |o| <= |s| && s[p..p + |o|] == o
    ensures OpenEnd(s, p, k) == Some(p + |o|)
  {
    if k == Warning {
      AtSlice(s, p, o);
    } else if |o| <= 12 {
      ShortOpenerRead(s, p, o);
    } else {
      ColOpenerRead(s, p, o);
    }
  }

  /** `[important]` and `[importante]`. */
  lemma ShortOpenerRead(s: string, p: nat, o: string)
    requires o == "[important]" || o == "[importante]"
    requires p + |o| <= |s| && s[p..p + |o|] == o
    ensures OpenEnd(s, p, Important) == Some(p + |o|)
  {
    AtSlice(s, p, o);
    AtPrefix(s, p, o, 10);
    assert o[..10] == "[important";
    SliceOf(s, p, o, 10, |o| - 10);
    NotAt(s, p + |o| - 1, " col_50", 0);
  }

  /** `[important col_50]` and `[importante col_50]`. */
  lemma ColOpenerRead(s: string, p: nat, o: string)
    requires o == "[important col_50]" || o == "[importante col_50]"
    requires p + |o| <= |s| && s[p..p + |o|] == o
    ensures OpenEnd(s, p, Important) == Some(p + |o|)
  {
    AtSlice(s, p, o);
    AtPrefix(s, p, o, 10);
    assert o[..10] == "[important";
    SliceOf(s, p, o, 10, 1);
    ColTail(s, p, o, p + |o| - 8);
  }

  /** The ` col_50]` that ends both long openers. */
  lemma ColTail(s: string, p: nat, o: string, q: nat)
    requires o == "[important col_50]" || o == "[importante col_50]"
    requires p + |o| <= |s| && s[p..p + |o|] == o && q == p + |o| - 8
    ensures At(s, q, " col_50") && q + 7 < |s| && s[q + 7] == ']'
  {
    ColSuffix(o);
    SliceOf(s, p, o, |o| - 8, 8);
    assert s[q..q + 8] == " col_50]";
    ColAt(s, q);
  }

  lemma ColSuffix(o: string)
    requires o == "[important col_50]" || o == "[importante col_50]"
    ensures 8 <= |o| && o[|o| - 8..|o| - 8 + 8] == " col_50]"
  {
  }

  lemma ColAt(s: string, q: nat)
    requires q + 8 <= |s| && s[q..q + 8] == " col_50]"
    ensures At(s, q, " col_50") && q + 7 < |s| && s[q + 7] == ']'
  {
    assert s[q..q + 7] == s[q..q + 8][..7];
    AtSlice(s, q, " col_50");
    assert s[q + 7] == s[q..q + 8][7];
  }

  lemma CloserRead(s: string, c: nat, cl: string, k: Kind)
    requires cl in Closers(k) && c + |cl| <= |s| && s[c..c + |cl|] == cl
    ensures CloseEnd(s, c, k) == Some(c + |cl|)
  {
    AtSlice(s, c, cl);
    SliceOf(s, c, cl, 0, |cl|);
    if k == Important {
      AtPrefix(s, c, cl, 11);
      assert cl[..11] == "[/important";
    }
  }

  /** A block read by position: the opening tag at `p` ends at `o`, the
      lines `ls` run from `o` to the closing tag at `c`, and no other `[`
      stands in the text. */
  predicate Block(s: string, p: nat, o: nat, c: nat, ls: seq<string>, k: Kind)
  {
    p < o < c < |s| && OpenEnd(s, p, k) == Some(o) && CloseEnd(s, c, k).Some?
    && |ls| >= 1 && BodyLines(ls) && s[o..c] == Lines(ls)
    && !IsBlank(s[o]) && !IsBlank(s[c - 1])
    && OnlyTags(s, p, c)
  }

  /** No `[` but at `p` and `c`. */
  predicate OnlyTags(s: string, p: nat, c: nat)
  {
    forall x :: 0 <= x < |s| && x != p && x != c ==> s[x] != '['
  }

  /** Only the rule for the block's kind and number of lines reads it. */
  lemma BlockRules(s: string, p: nat, o: nat, c: nat, ls: seq<string>, k: Kind, n: nat, k': Kind)
    requires Block(s, p, o, c, ls, k) && n >= 1
    ensures BlockAt(s, p, n, k') ==
      if n == |ls| && k' == k then Some(Match(CharRun(s, CloseEnd(s, c, k).value, '\n'), Render(ls, k))) else None
  {
    if k' != k {
      OpenNotOther(s, p, k, k');
    } else {
      assert BlankRun(s, o) == o;
      assert FromStart(s, o, o, n, k) == Groups(s, o, n, k);
      GroupsOf(s, o, c, ls, n, k);
    }
  }

  /** No rule reads a block elsewhere than at its opening tag. */
  lemma OnlyAtOpener(s: string, p: nat, o: nat, c: nat, ls: seq<string>, k: Kind, q: nat, n: nat, k': Kind)
    requires Block(s, p, o, c, ls, k) && n >= 1 && q != p
    ensures BlockAt(s, q, n, k').None?
  {
    if q == c {
      CloseNotOpen(s, c, k, k');
    } else {
      OpenNoBracket(s, q, k');
    }
  }

  /** Where no rule fires: before the line breaks that open the block,
      after those that follow it, and everywhere for the other rules. */
  lemma QuietAt(s: string, start: nat, p: nat, o: nat, c: nat, ls: seq<string>, k: Kind, n: nat, k': Kind, j: nat)
    requires Block(s, p, o, c, ls, k) && n >= 1 && start <= p
    requires start == 0 || s[start - 1] != '\n'
    requires j < |s| && (j < start || CharRun(s, CloseEnd(s, c, k).value, '\n') <= j || n != |ls| || k' != k)
    ensures AdmonitionAt(s, j, n, k').None?
  {
    var q := CharRun(s, j, '\n');
    if j < start {
      assert q < start;
      OnlyAtOpener(s, p, o, c, ls, k, q, n, k');
    } else if q != p {
      OnlyAtOpener(s, p, o, c, ls, k, q, n, k');
    } else {
      BlockRules(s, p, o, c, ls, k, n, k');
    }
  }

  /** The rule for the block's kind and number of lines replaces the
      block, with the line breaks around it, by the admonition. */
  lemma RuleFires(s: string, start: nat, p: nat, o: nat, c: nat, ls: seq<string>, k: Kind)
    requires Block(s, p, o, c, ls, k) && start <= p
    requires start == 0 || s[start - 1] != '\n'
    requires forall x :: start <= x < p ==> s[x] == '\n'
    ensures var end := CharRun(s, CloseEnd(s, c, k).value, '\n');
      Sub(s, Admonition(|ls|, k)) == s[..start] + Render(ls, k) + s[end..]
  {
    var f := Admonition(|ls|, k);
    var end := CharRun(s, CloseEnd(s, c, k).value, '\n');
    QuietOutside(s, start, p, o, c, ls, k);
    FiresAtStart(s, start, p, o, c, ls, k);
    SubOneMatch(s, f, start, Match(end, Render(ls, k)));
  }

  lemma QuietOutside(s: string, start: nat, p: nat, o: nat, c: nat, ls: seq<string>, k: Kind)
    requires Block(s, p, o, c, ls, k) && start <= p
    requires start == 0 || s[start - 1] != '\n'
    ensures var f := Admonition(|ls|, k);
      var end := CharRun(s, CloseEnd(s, c, k).value, '\n');
      forall j :: 0 <= j < |s| && (j < start || end <= j) ==> !Valid(s, j, f(s, j))
  {
    var f := Admonition(|ls|, k);
    var end := CharRun(s, CloseEnd(s, c, k).value, '\n');
    forall j | 0 <= j < |s| && (j < start || end <= j) ensures !Valid(s, j, f(s, j)) {
      QuietAt(s, start, p, o, c, ls, k, |ls|, k, j);
    }
  }

  lemma FiresAtStart(s: string, start: nat, p: nat, o: nat, c: nat, ls: seq<string>, k: Kind)
    requires Block(s, p, o, c, ls, k) && start <= p
    requires forall x :: start <= x < p ==> s[x] == '\n'
    ensures var end := CharRun(s, CloseEnd(s, c, k).value, '\n');
      Admonition(|ls|, k)(s, start) == Some(Match(end, Render(ls, k))) && start < end <= |s|
  {
    OpenAtBracket(s, p, k);
    CharRunAt(s, start, p, '\n');
    BlockRules(s, p, o, c, ls, k, |ls|, k);
  }

  /** Every other rule leaves a text holding one block as it is. */
  lemma RuleQuiet(s: string, p: nat, o: nat, c: nat, ls: seq<string>, k: Kind, n: nat, k': Kind)
    requires Block(s, p, o, c, ls, k) && n >= 1 && (n != |ls| || k' != k)
    ensures Sub(s, Admonition(n, k')) == s
  {
    var f := Admonition(n, k');
    forall j | 0 <= j < |s| ensures !Valid(s, j, f(s, j)) {
      QuietAt(s, 0, p, o, c, ls, k, n, k', j);
    }
    SubNoMatch(s, f);
  }

  /** A text without `[` is left as it is by every rule. */
  lemma NoBracketKept(t: string, n: nat, k: Kind)
    requires '[' !in t
    ensures Sub(t, Admonition(n, k)) == t
  {
    forall j | 0 <= j < |t| ensures Admonition(n, k)(t, j).None? {
      if n > 0 { OpenNoBracket(t, CharRun(t, j, '\n'), k); }
    }
    SubNoMatch(t, Admonition(n, k));
  }

  // ---------------------------------------------------------------------
  // The rules on a text holding one block

  /** Line breaks only. */
  predicate Breaks(x: string) { forall i :: 0 <= i < |x| ==> x[i] == '\n' }

  /** What stands around the block: no `[`, and the line breaks next to
      the block are not part of it. */
  predicate Surrounding(a: string, b: string)
  {
    '[' !in a && '[' !in b && (|a| == 0 || a[|a| - 1] != '\n') && (|b| == 0 || b[0] != '\n')
  }

  /** The lines of a block as the rules give them back: no blank before
      the first and none after the last. */
  predicate BlockLines(ls: seq<string>)
  {
    |ls| >= 1 && BodyLines(ls) && ls[0][0] != ' ' && ls[|ls| - 1][|ls[|ls| - 1]| - 1] != ' '
  }

  /** The first and last characters of the joined lines, and no `[`. */
  lemma {:induction false} LinesShape(ls: seq<string>)
    requires |ls| >= 1 && BodyLines(ls)
    ensures var t := Lines(ls);
      |t| >= 1 && t[0] == ls[0][0] && t[|t| - 1] == ls[|ls| - 1][|ls[|ls| - 1]| - 1] && '[' !in t
    decreases |ls|
  {
    if |ls| > 1 {
      JoinCons(ls[0], ls[1..], "\n");
      assert [ls[0]] + ls[1..] == ls;
      LinesShape(ls[1..]);
    }
  }

  /** The admonition holds no `[`. */
  lemma {:induction false} PrefixedFree(gs: seq<string>, m: string)
    requires BodyLines(gs) && '[' !in m
    ensures '[' !in Prefixed(gs, m)
    decreases |gs|
  {
    if |gs| > 0 { PrefixedFree(gs[1..], m); }
  }

  /** A tag holds one `[`, in front. */
  predicate Tag(t: string)
  {
    |t| > 0 && t[0] == '[' && forall i :: 0 < i < |t| ==> t[i] != '['
  }

  lemma TagBracket(t: string, k: Kind)
    requires t in Openers(k) || t in Closers(k)
    ensures Tag(t)
  {
  }

  /** A block laid out in a text: the line breaks before it from `start`,
      the opening tag at `p`, the joined lines `l`, the closing tag at `c`,
      the line breaks after it up to `e`; no `[` before or after. */
  predicate Laid(s: string, start: nat, p: nat, o: string, l: string, c: nat, cl: string, e: nat)
  {
    start <= p && c == p + |o| + |l| && c + |cl| <= e <= |s|
    && s[p..p + |o|] == o && s[p + |o|..c] == l && s[c..c + |cl|] == cl
    && (forall i :: start <= i < p ==> s[i] == '\n')
    && (forall i :: c + |cl| <= i < e ==> s[i] == '\n')
    && (forall i :: 0 <= i < start ==> s[i] != '[')
    && (forall i :: e <= i < |s| ==> s[i] != '[')
    && (start == 0 || s[start - 1] != '\n') && (e == |s| || s[e] != '\n')
  }

  /** A block of kind `k` laid out in a text, with the lines `ls`. */
  predicate LaidBlock(s: string, start: nat, p: nat, o: string, ls: seq<string>, c: nat, cl: string, e: nat, k: Kind)
  {
    Laid(s, start, p, o, Lines(ls), c, cl, e) && Tag(o) && Tag(cl) && BlockLines(ls)
    && OpenEnd(s, p, k) == Some(p + |o|) && CloseEnd(s, c, k) == Some(c + |cl|)
  }

  /** The tags of a laid-out block of kind `k`, read where they stand. */
  lemma TagsRead(s: string, start: nat, p: nat, o: string, ls: seq<string>, c: nat, cl: string, e: nat, k: Kind)
    requires Laid(s, start, p, o, Lines(ls), c, cl, e) && BlockLines(ls)
    requires o in Openers(k) && cl in Closers(k)
    ensures LaidBlock(s, start, p, o, ls, c, cl, e, k)
  {
    TagBracket(o, k);
    TagBracket(cl, k);
    OpenerRead(s, p, o, k);
    CloserRead(s, c, cl, k);
  }

  /** Where the pieces of a block and its surroundings stand. */
  lemma Pieces(s: string, a: string, x: string, o: string, l: string, cl: string, y: string, b: string, p: nat, c: nat, e: nat)
    requires Surrounding(a, b) && Breaks(x) && Breaks(y)
    requires s == a + x + (o + l + cl) + y + b
    requires p == |a| + |x| && c == p + |o| + |l| && e == c + |cl| + |y|
    ensures Laid(s, |a|, p, o, l, c, cl, e) && s[..|a|] == a && s[e..] == b
  {
    assert s == a + x + o + l + cl + y + b;
    forall i | 0 <= i < |a| ensures s[i] != '[' { assert s[i] == a[i]; }
    forall i | e <= i < |s| ensures s[i] != '[' { assert s[i] == b[i - e]; }
  }

  /** The only `[` of a text holding one block are those of its tags. */
  lemma TwoBrackets(s: string, start: nat, p: nat, o: string, ls: seq<string>, c: nat, cl: string, e: nat)
    requires Laid(s, start, p, o, Lines(ls), c, cl, e)
    requires Tag(o) && Tag(cl) && BlockLines(ls)
    ensures OnlyTags(s, p, c) && |Lines(ls)| > 0
  {
    var l := Lines(ls);
    LinesShape(ls);
    SliceOf(s, p, o, 0, |o|);
    SliceOf(s, p + |o|, l, 0, |l|);
    SliceOf(s, c, cl, 0, |cl|);
    forall i | 0 <= i < |s| && i != p && i != c ensures s[i] != '[' {
      if p + |o| <= i < c {
        assert s[i] == l[i - p - |o|];
      }
    }
  }

  /** The block's lines start and end with no blank. */
  lemma BlockEdges(s: string, o: nat, c: nat, ls: seq<string>)
    requires o < c <= |s| && s[o..c] == Lines(ls) && BlockLines(ls)
    ensures !IsBlank(s[o]) && !IsBlank(s[c - 1])
  {
    LinesShape(ls);
    assert s[o] == s[o..c][0];
    assert s[c - 1] == s[o..c][c - 1 - o];
    assert BodyLine(ls[0]) && BodyLine(ls[|ls| - 1]);
  }

  /** A block read by position, with the line breaks around it: those
      from `start` to the opening tag and those from the closing tag's end
      to `e`. */
  predicate Framed(s: string, start: nat, p: nat, o: nat, c: nat, ls: seq<string>, k: Kind, e: nat)
  {
    Block(s, p, o, c, ls, k) && start <= p && (start == 0 || s[start - 1] != '\n')
    && (forall x :: start <= x < p ==> s[x] == '\n')
    && CharRun(s, CloseEnd(s, c, k).value, '\n') == e
  }

  /** The same, once the tags are read. */
  lemma FramedAt(s: string, start: nat, p: nat, o: nat, c: nat, ls: seq<string>, k: Kind, ce: nat, e: nat)
    requires p < o < c < ce <= e <= |s| && OpenEnd(s, p, k) == Some(o) && CloseEnd(s, c, k) == Some(ce)
    requires BlockLines(ls) && s[o..c] == Lines(ls) && OnlyTags(s, p, c)
    requires start <= p && (start == 0 || s[start - 1] != '\n')
    requires forall x :: start <= x < p ==> s[x] == '\n'
    requires (forall x :: ce <= x < e ==> s[x] == '\n') && (e == |s| || s[e] != '\n')
    ensures Framed(s, start, p, o, c, ls, k, e)
  {
    LinesShape(ls);
    BlockEdges(s, o, c, ls);
    CharRunAt(s, ce, e, '\n');
  }

  /** The tags of a laid-out block, read by position. */
  lemma TagsOf(s: string, start: nat, p: nat, o: string, ls: seq<string>, c: nat, cl: string, e: nat, k: Kind)
    requires LaidBlock(s, start, p, o, ls, c, cl, e, k)
    ensures OnlyTags(s, p, c) && p < p + |o| < c < c + |cl| <= |s|
  {
    TwoBrackets(s, start, p, o, ls, c, cl, e);
  }

  lemma MatcherAt(q: nat)
    requires q < 13
    ensures 1 <= RuleLines(q) <= MaxLines(RuleKind(q)) && RuleIndex(RuleKind(q), RuleLines(q)) == q
    ensures AdmonitionMatchers()[q] == Admonition(RuleLines(q), RuleKind(q))
  {
  }

  /** The rules for another kind or number of lines leave a text holding
      one block as it is. */
  lemma OthersQuiet(s: string, p: nat, o: nat, c: nat, ls: seq<string>, k: Kind)
    requires Block(s, p, o, c, ls, k)
    ensures forall q :: 0 <= q < 13 && (RuleLines(q) != |ls| || RuleKind(q) != k) ==>
      Sub(s, AdmonitionMatchers()[q]) == s
  {
    forall q | 0 <= q < 13 && (RuleLines(q) != |ls| || RuleKind(q) != k)
      ensures Sub(s, AdmonitionMatchers()[q]) == s
    {
      MatcherAt(q);
      RuleQuiet(s, p, o, c, ls, k, RuleLines(q), RuleKind(q));
    }
  }

  /** The rules on a text holding one block of at most as many lines as
      the rules go to, by position: the rule for its kind and number of
      lines replaces it, with the line breaks from `start` to `e`, by the
      admonition, and the others do nothing. */
  lemma RulesOnBlock(s: string, start: nat, p: nat, o: nat, c: nat, ls: seq<string>, k: Kind, e: nat)
    requires Framed(s, start, p, o, c, ls, k, e) && |ls| <= MaxLines(k)
    ensures ApplyAll(AdmonitionRules(), s) == s[..start] + Render(ls, k) + s[e..]
  {
    OthersQuiet(s, p, o, c, ls, k);
    RuleFires(s, start, p, o, c, ls, k);
    RenderedKept(s, start, e, ls, k);
    OneRuleFires(s, s[..start] + Render(ls, k) + s[e..], |ls|, k);
  }

  /** When only the rule for `n` lines of kind `k` changes the text, and no
      rule changes what it produces, the rules produce what it does. */
  lemma OneRuleFires(s: string, t: string, n: nat, k: Kind)
    requires 1 <= n <= MaxLines(k)
    requires forall q :: 0 <= q < 13 && (RuleLines(q) != n || RuleKind(q) != k) ==>
      Sub(s, AdmonitionMatchers()[q]) == s
    requires Sub(s, Admonition(n, k)) == t
    requires forall q :: 0 <= q < 13 ==> Sub(t, AdmonitionMatchers()[q]) == t
    ensures ApplyAll(AdmonitionRules(), s) == t
  {
    RuleAt(k, n);
    forall q | 0 <= q < RuleIndex(k, n) ensures RuleLines(q) != n || RuleKind(q) != k {
      MatcherAt(q);
    }
    ConvertersFireOnce(AdmonitionMatchers(), RuleIndex(k, n), s, t);
  }

  /** When no rule is for `n` lines of kind `k` and the others leave the
      text as it is, the rules leave it as it is. */
  lemma NoRuleFires(s: string, n: nat, k: Kind)
    requires n > MaxLines(k)
    requires forall q :: 0 <= q < 13 && (RuleLines(q) != n || RuleKind(q) != k) ==>
      Sub(s, AdmonitionMatchers()[q]) == s
    ensures ApplyAll(AdmonitionRules(), s) == s
  {
    forall q | 0 <= q < 13 ensures RuleLines(q) != n || RuleKind(q) != k {
      MatcherAt(q);
    }
    ConvertersFixed(AdmonitionMatchers(), s);
  }

  /** What the rule produces is left as it is by the rules after it. */
  lemma RenderedKept(s: string, start: nat, e: nat, ls: seq<string>, k: Kind)
    requires start <= e <= |s| && BodyLines(ls)
    requires forall i :: 0 <= i < start ==> s[i] != '['
    requires forall i :: e <= i < |s| ==> s[i] != '['
    ensures var t := s[..start] + Render(ls, k) + s[e..];
      forall q :: 0 <= q < 13 ==> Sub(t, AdmonitionMatchers()[q]) == t
  {
    var t := s[..start] + Render(ls, k) + s[e..];
    PrefixedFree(ls, Marker(k));
    assert '[' !in t;
    forall q | 0 <= q < 13 ensures Sub(t, AdmonitionMatchers()[q]) == t {
      MatcherAt(q);
      NoBracketKept(t, RuleLines(q), RuleKind(q));
    }
  }

  /** The rules on a laid-out block of at most as many lines as the rules
      go to. */
  lemma LaidBlockRules(s: string, start: nat, p: nat, o: string, ls: seq<string>, c: nat, cl: string, e: nat, k: Kind)
    requires LaidBlock(s, start, p, o, ls, c, cl, e, k) && |ls| <= MaxLines(k)
    ensures ApplyAll(AdmonitionRules(), s) == s[..start] + Render(ls, k) + s[e..]
  {
    TagsOf(s, start, p, o, ls, c, cl, e, k);
    FramedRules(s, start, p, p + |o|, c, ls, k, c + |cl|, e);
  }

  /** The same, once the tags are read. */
  lemma FramedRules(s: string, start: nat, p: nat, o: nat, c: nat, ls: seq<string>, k: Kind, ce: nat, e: nat)
    requires p < o < c < ce <= e <= |s| && OpenEnd(s, p, k) == Some(o) && CloseEnd(s, c, k) == Some(ce)
    requires BlockLines(ls) && s[o..c] == Lines(ls) && OnlyTags(s, p, c)
    requires start <= p && (start == 0 || s[start - 1] != '\n')
    requires forall x :: start <= x < p ==> s[x] == '\n'
    requires (forall x :: ce <= x < e ==> s[x] == '\n') && (e == |s| || s[e] != '\n')
    requires |ls| <= MaxLines(k)
    ensures ApplyAll(AdmonitionRules(), s) == s[..start] + Render(ls, k) + s[e..]
  {
    FramedAt(s, start, p, o, c, ls, k, ce, e);
    RulesOnBlock(s, start, p, o, c, ls, k, e);
  }

  /** The rules on a laid-out longer block. */
  lemma LaidLongBlockKept(s: string, start: nat, p: nat, o: string, ls: seq<string>, c: nat, cl: string, e: nat, k: Kind)
    requires LaidBlock(s, start, p, o, ls, c, cl, e, k) && |ls| > MaxLines(k)
    ensures ApplyAll(AdmonitionRules(), s) == s
  {
    TagsOf(s, start, p, o, ls, c, cl, e, k);
    FramedTooLong(s, start, p, p + |o|, c, ls, k, c + |cl|, e);
  }

  lemma FramedTooLong(s: string, start: nat, p: nat, o: nat, c: nat, ls: seq<string>, k: Kind, ce: nat, e: nat)
    requires p < o < c < ce <= e <= |s| && OpenEnd(s, p, k) == Some(o) && CloseEnd(s, c, k) == Some(ce)
    requires BlockLines(ls) && s[o..c] == Lines(ls) && OnlyTags(s, p, c)
    requires |ls| > MaxLines(k)
    ensures ApplyAll(AdmonitionRules(), s) == s
  {
    LinesShape(ls);
    BlockEdges(s, o, c, ls);
    BlockTooLong(s, p, o, c, ls, k);
  }

  /** No rule reads a block of more lines than the rules of its kind. */
  lemma BlockTooLong(s: string, p: nat, o: nat, c: nat, ls: seq<string>, k: Kind)
    requires Block(s, p, o, c, ls, k) && |ls| > MaxLines(k)
    ensures ApplyAll(AdmonitionRules(), s) == s
  {
    OthersQuiet(s, p, o, c, ls, k);
    NoRuleFires(s, |ls|, k);
  }

  /** A block of one to seven `[important]` lines, or one to six
      `[warning]` lines, becomes the admonition, and the line breaks
      around it go. */
  lemma BlockBecomesAdmonition(a: string, x: string, o: string, ls: seq<string>, cl: string, y: string, b: string, k: Kind)
    requires Surrounding(a, b) && Breaks(x) && Breaks(y)
    requires o in Openers(k) && cl in Closers(k) && BlockLines(ls) && |ls| <= MaxLines(k)
    ensures ApplyAll(AdmonitionRules(), a + x + (o + Lines(ls) + cl) + y + b) == a + Render(ls, k) + b
  {
    var l := Lines(ls);
    var s := a + x + (o + l + cl) + y + b;
    var p := |a| + |x|;
    var c := p + |o| + |l|;
    var e := c + |cl| + |y|;
    Pieces(s, a, x, o, l, cl, y, b, p, c, e);
    TagsRead(s, |a|, p, o, ls, c, cl, e, k);
    LaidBlockRules(s, |a|, p, o, ls, c, cl, e, k);
  }

  /** A longer block is left as it is. */
  lemma LongBlockKept(a: string, x: string, o: string, ls: seq<string>, cl: string, y: string, b: string, k: Kind)
    requires Surrounding(a, b) && Breaks(x) && Breaks(y)
    requires o in Openers(k) && cl in Closers(k) && BlockLines(ls) && |ls| > MaxLines(k)
    ensures ApplyAll(AdmonitionRules(), a + x + (o + Lines(ls) + cl) + y + b) == a + x + (o + Lines(ls) + cl) + y + b
  {
    var l := Lines(ls);
    var s := a + x + (o + l + cl) + y + b;
    var p := |a| + |x|;
    var c := p + |o| + |l|;
    var e := c + |cl| + |y|;
    Pieces(s, a, x, o, l, cl, y, b, p, c, e);
    TagsRead(s, |a|, p, o, ls, c, cl, e, k);
    LaidLongBlockKept(s, |a|, p, o, ls, c, cl, e, k);
  }
}
