/** The `LtagCleaner` processor of `campbot/processors/ltagmigrator.py`: it
    normalises line endings, removes a blank line between two rows of the
    same kind of table, glues continuation lines onto the table row above
    them with `<br>`, and then tidies the cell separators of every row that
    starts with `L#` or `R#` (except the free-text rows `L#~`). */
module LtagCleaner {
  import opened Wrappers
  import opened Text
  import opened Rewrite

  // ---------------------------------------------------------------------
  // Line endings: `\r\n`, then any remaining `\r`, become `\n`.

  function NormalizeEndings(md: string): string
  {
    Replace(Replace(md, "\r\n", "\n"), "\r", "\n")
  }

  /** No carriage return survives. */
  lemma NoCarriageReturn(md: string)
    ensures '\r' !in NormalizeEndings(md)
  {
    var x := Replace(md, "\r\n", "\n");
    SplitFromCharParts(x, '\r', 0);
    JoinFreeOf(Split(x, "\r"), "\n", '\r');
  }

  /** A text that already uses `\n` alone is left as it is. */
  lemma EndingsUnchanged(md: string)
    requires '\r' !in md
    ensures NormalizeEndings(md) == md
  {
    forall j | 0 <= j < |md| ensures !StartsAt(md, j, "\r\n") && !StartsAt(md, j, "\r") {
      StartsAtSlice(md, j, "\r\n");
      StartsAtSlice(md, j, "\r");
    }
    ReplaceAbsent(md, "\r\n", "\n");
    ReplaceAbsent(md, "\r", "\n");
  }

  // ---------------------------------------------------------------------
  // The newline converters: `\nL#(.*)\n\nL#` becomes `\nL#\1\nL#`, and the
  // same for `R#`, ignoring case.

  /** A match at `i` for the table letter `t`: `\n`, `t#`, the rest of the
      line (the regex dot stops at a newline), then `\n\n` and `t#`. */
  function BlankAt(s: string, i: nat, t: char): Option<Match>
  {
    if StartsAtIC(s, i, ['\n', t, '#']) then
      var j := FindFrom(s, "\n", i + 3);
      if j >= 0 && StartsAtIC(s, j, ['\n', '\n', t, '#']) then
        Some(Match(j + 4, ['\n', t, '#'] + s[i + 3..j] + ['\n', t, '#']))
      else None
    else None
  }

  function BlankMatcher(t: char): Matcher
  {
    (s: string, i: nat) => BlankAt(s, i, t)
  }

  function MergeBlankLines(md: string): string
  {
    Sub(Sub(md, BlankMatcher('L')), BlankMatcher('R'))
  }

  /** The image of a text once its newlines are dropped and its letters
      lowered. */
  function Squash(c: char): string { if c == '\n' then "" else [ToLower(c)] }

  /** Characters equal up to case have the same image. */
  lemma {:induction false} SquashMatchIC(s: string, i: nat, p: string, k: nat)
    requires k <= |p| && i + |p| <= |s| && MatchesFromIC(s, i, p, k)
    ensures FlatMap(s[i + k..i + |p|], Squash) == FlatMap(p[k..], Squash)
    decreases |p| - k
  {
    if k < |p| {
      SquashMatchIC(s, i, p, k + 1);
      var c, d := s[i + k], p[k];
      assert c == '\n' <==> d == '\n';
      assert s[i + k..i + |p|][1..] == s[i + k + 1..i + |p|];
      assert p[k..][1..] == p[k + 1..];
    } else {
      assert s[i + k..i + |p|] == [];
    }
  }

  /** One merge drops a newline and may change the case of the letters of
      the two table markers, nothing else. */
  lemma BlankAtSquash(s: string, i: nat, t: char)
    requires Valid(s, i, BlankAt(s, i, t))
    ensures FlatMap(BlankAt(s, i, t).value.out, Squash) == FlatMap(s[i..BlankAt(s, i, t).value.end], Squash)
  {
    var j := FindFrom(s, "\n", i + 3);
    BlankAtShape(s, i, t, j);
    BlankPiecesSquash(s, i, j, t);
  }

  /** A match of a newline converter, unfolded at the line break `j`. */
  lemma BlankAtShape(s: string, i: nat, t: char, j: int)
    requires BlankAt(s, i, t).Some? && j == FindFrom(s, "\n", i + 3)
    ensures i + 3 <= j && StartsAtIC(s, i, ['\n', t, '#']) && StartsAtIC(s, j, ['\n', '\n', t, '#'])
    ensures BlankAt(s, i, t).value == Match(j + 4, ['\n', t, '#'] + s[i + 3..j] + ['\n', t, '#'])
  {
  }

  lemma BlankPiecesSquash(s: string, i: nat, j: nat, t: char)
    requires i + 3 <= j && StartsAtIC(s, i, ['\n', t, '#']) && StartsAtIC(s, j, ['\n', '\n', t, '#'])
    ensures j + 4 <= |s|
    ensures FlatMap(['\n', t, '#'] + s[i + 3..j] + ['\n', t, '#'], Squash) == FlatMap(s[i..j + 4], Squash)
  {
    var head, tail := ['\n', t, '#'], ['\n', '\n', t, '#'];
    MatchesFromICBound(s, i, head, 0);
    MatchesFromICBound(s, j, tail, 0);
    SquashMatchIC(s, i, head, 0);
    SquashMatchIC(s, j, tail, 0);
    assert head[0..] == head && tail[0..] == tail;
    TailSquash(t);
    SliceThree(s, i, i + 3, j, j + 4);
    SquashJoin(s[i..i + 3], s[i + 3..j], s[j..j + 4], head, tail);
  }

  lemma TailSquash(t: char)
    ensures FlatMap(['\n', '\n', t, '#'], Squash) == FlatMap(['\n', t, '#'], Squash)
  {
    assert FlatMap(['\n', '\n', t, '#'], Squash) == FlatMap(['\n', t, '#'], Squash);
  }

  /** Pieces with the same image, joined around the same body. */
  lemma SquashJoin(x: string, body: string, y: string, head: string, tail: string)
    requires FlatMap(x, Squash) == FlatMap(head, Squash)
    requires FlatMap(y, Squash) == FlatMap(tail, Squash) == FlatMap(head, Squash)
    ensures FlatMap(head + body + head, Squash) == FlatMap(x + body + y, Squash)
  {
    FlatMapConcat(x + body, y, Squash);
    FlatMapConcat(x, body, Squash);
    FlatMapConcat(head + body, head, Squash);
    FlatMapConcat(head, body, Squash);
  }

  lemma SubBlankSquash(s: string, t: char)
    ensures FlatMap(Sub(s, BlankMatcher(t)), Squash) == FlatMap(s, Squash)
  {
    forall j | 0 <= j < |s| && Valid(s, j, BlankMatcher(t)(s, j))
      ensures FlatMap(BlankMatcher(t)(s, j).value.out, Squash) == FlatMap(s[j..BlankMatcher(t)(s, j).value.end], Squash)
    {
      BlankAtSquash(s, j, t);
    }
    SubFromFlatMap(s, BlankMatcher(t), Squash, 0);
  }

  /** The newline converters only delete line breaks (and upper-case the
      `l#`/`r#` markers they meet): every other character is kept, in order. */
  lemma MergeOnlyDropsNewlines(md: string)
    ensures FlatMap(MergeBlankLines(md), Squash) == FlatMap(md, Squash)
  {
    SubBlankSquash(md, 'L');
    SubBlankSquash(Sub(md, BlankMatcher('L')), 'R');
  }

  /** Every match of a newline converter contains an empty line. */
  lemma BlankAtHasBlankLine(s: string, i: nat, t: char)
    ensures BlankAt(s, i, t).Some? ==> StartsAt(s, FindFrom(s, "\n", i + 3), "\n\n")
  {
    var f := FindFrom(s, "\n", i + 3);
    if BlankAt(s, i, t).Some? {
      MatchesFromICBound(s, f, ['\n', '\n', t, '#'], 0);
      assert MatchesFromIC(s, f, ['\n', '\n', t, '#'], 1);
      assert SameIgnoreCase(s[f], '\n') && SameIgnoreCase(s[f + 1], '\n');
      StartsAtSlice(s, f, "\n\n");
      assert s[f..f + 2] == "\n\n";
    }
  }

  lemma SubBlankNoBlank(s: string, t: char)
    requires Absent(s, "\n\n")
    ensures Sub(s, BlankMatcher(t)) == s
  {
    forall j | 0 <= j < |s| ensures !Valid(s, j, BlankMatcher(t)(s, j)) {
      BlankAtHasBlankLine(s, j, t);
    }
    SubNoMatch(s, BlankMatcher(t));
  }

  /** A text without an empty line is not touched by the newline converters. */
  lemma MergeNoBlankLine(md: string)
    requires Absent(md, "\n\n")
    ensures MergeBlankLines(md) == md
  {
    SubBlankNoBlank(md, 'L');
    SubBlankNoBlank(md, 'R');
  }

  // ---------------------------------------------------------------------
  // Gluing continuation lines: the loop with the `last_line_is_ltag` flag.

  predicate IsTagLine(line: string) { StartsWith(line, "L#") || StartsWith(line, "R#") }

  /** A heading or an empty line closes the current table row. */
  predicate EndsRow(line: string) { StartsWith(line, "#") || line == "" }

  /** A line that is glued onto an open table row. */
  predicate IsContinuation(line: string) { !IsTagLine(line) && !EndsRow(line) }

  /** The rows emitted so far and whether the last one is an open table row. */
  datatype Joining = Joining(rows: seq<string>, inRow: bool)

  /** One iteration of the loop. */
  function JoinStep(acc: Joining, line: string): (r: Joining)
    requires acc.inRow ==> |acc.rows| > 0
    ensures r.inRow ==> |r.rows| > 0
  {
    if IsTagLine(line) then Joining(acc.rows + [line], true)
    else if EndsRow(line) then Joining(acc.rows + [line], false)
    else if !acc.inRow then Joining(acc.rows + [line], false)
    else Joining(acc.rows[..|acc.rows| - 1] + [acc.rows[|acc.rows| - 1] + "<br>" + line], true)
  }

  /** The loop run over `lines` from the state `acc`. */
  function JoinFrom(acc: Joining, lines: seq<string>): (r: Joining)
    requires acc.inRow ==> |acc.rows| > 0
    ensures r.inRow ==> |r.rows| > 0
    decreases |lines|
  {
    if |lines| == 0 then acc else JoinFrom(JoinStep(acc, lines[0]), lines[1..])
  }

  function JoinRows(lines: seq<string>): seq<string>
  {
    JoinFrom(Joining([], false), lines).rows
  }

  method JoinContinuations(lines: seq<string>) returns (result: seq<string>)
    ensures result == JoinRows(lines)
  {
    result := [];
    var lastLineIsLtag := false;
    var i := 0;
    while i < |lines|
      invariant 0 <= i <= |lines|
      invariant lastLineIsLtag ==> |result| > 0
      invariant JoinFrom(Joining(result, lastLineIsLtag), lines[i..]) == JoinFrom(Joining([], false), lines)
    {
      var line := lines[i];
      assert lines[i..][1..] == lines[i + 1..];
      if IsTagLine(line) {
        result := result + [line];
        lastLineIsLtag := true;
      } else if EndsRow(line) {
        result := result + [line];
        lastLineIsLtag := false;
      } else if !lastLineIsLtag {
        result := result + [line];
      } else {
        result := result[..|result| - 1] + [result[|result| - 1] + "<br>" + line];
      }
      i := i + 1;
    }
  }

  /** Length of the run of continuation lines at the start of `lines`. */
  function ContinuationRun(lines: seq<string>): (k: nat)
    ensures k <= |lines|
  {
    if |lines| > 0 && IsContinuation(lines[0]) then 1 + ContinuationRun(lines[1..]) else 0
  }

  /** The rows the loop produces, described block by block: a table row
      together with every continuation line after it, joined by `<br>`;
      every other line on its own. */
  function Grouped(lines: seq<string>): seq<string>
    decreases |lines|
  {
    if |lines| == 0 then []
    else if IsTagLine(lines[0]) then
      var k := 1 + ContinuationRun(lines[1..]);
      [Join(lines[..k], "<br>")] + Grouped(lines[k..])
    else [lines[0]] + Grouped(lines[1..])
  }

  lemma JoinGlue(a: string, b: string, rest: seq<string>, sep: string)
    ensures Join([a + sep + b] + rest, sep) == Join([a, b] + rest, sep)
  {
    if |rest| == 0 {
      assert [a, b][1..] == [b];
    } else {
      assert ([a + sep + b] + rest)[1..] == rest;
      assert ([a, b] + rest)[1..] == [b] + rest;
      assert ([b] + rest)[1..] == rest;
    }
  }

  /** The loop outside a table row. */
  lemma {:induction false} JoinOutside(rows: seq<string>, lines: seq<string>)
    ensures JoinFrom(Joining(rows, false), lines).rows == rows + Grouped(lines)
    decreases |lines|, 1
  {
    if |lines| > 0 {
      var l := lines[0];
      if IsTagLine(l) {
        OutsideTag(rows, lines);
      } else {
        JoinOutside(rows + [l], lines[1..]);
      }
    }
  }

  /** Outside a table row, a table row opens one. */
  lemma {:induction false} OutsideTag(rows: seq<string>, lines: seq<string>)
    requires |lines| > 0 && IsTagLine(lines[0])
    ensures JoinFrom(Joining(rows, false), lines).rows == rows + Grouped(lines)
    decreases |lines|, 0
  {
    JoinFromTag(rows, lines);
    JoinInside(rows, lines[0], lines[1..]);
    GroupedTag(lines);
  }

  lemma JoinFromTag(rows: seq<string>, lines: seq<string>)
    requires |lines| > 0 && IsTagLine(lines[0])
    ensures JoinFrom(Joining(rows, false), lines) == JoinFrom(Joining(rows + [lines[0]], true), lines[1..])
  {
  }

  /** The block `Grouped` makes of a table row and its continuations. */
  lemma GroupedTag(lines: seq<string>)
    requires |lines| > 0 && IsTagLine(lines[0])
    ensures Grouped(lines) == [Join([lines[0]] + lines[1..][..ContinuationRun(lines[1..])], "<br>")]
                              + Grouped(lines[1..][ContinuationRun(lines[1..])..])
  {
    var k := ContinuationRun(lines[1..]);
    assert [lines[0]] + lines[1..][..k] == lines[..1 + k];
    assert lines[1..][k..] == lines[1 + k..];
  }

  /** The loop inside the open table row `r`. */
  lemma {:induction false} JoinInside(rows: seq<string>, r: string, lines: seq<string>)
    ensures JoinFrom(Joining(rows + [r], true), lines).rows
            == rows + [Join([r] + lines[..ContinuationRun(lines)], "<br>")] + Grouped(lines[ContinuationRun(lines)..])
    decreases |lines|, 2
  {
    var k := ContinuationRun(lines);
    if |lines| == 0 {
    } else if !IsContinuation(lines[0]) {
      assert JoinStep(Joining(rows + [r], true), lines[0]) == JoinStep(Joining(rows + [r], false), lines[0]);
      JoinOutside(rows + [r], lines);
      assert [r] + lines[..k] == [r];
      assert lines[k..] == lines;
    } else {
      var l := lines[0];
      assert (rows + [r])[..|rows|] == rows;
      JoinInside(rows, r + "<br>" + l, lines[1..]);
      assert [r] + lines[..k] == [r, l] + lines[1..][..k - 1];
      assert lines[1..][k - 1..] == lines[k..];
      JoinGlue(r, l, lines[1..][..k - 1], "<br>");
    }
  }

  /** The loop's rows are exactly the blocks of `Grouped`. */
  lemma JoinRowsGrouped(lines: seq<string>)
    ensures JoinRows(lines) == Grouped(lines)
  {
    JoinOutside([], lines);
  }

  // ---------------------------------------------------------------------
  // The separator converters, run on every table row except `L#~`/`R#~`.

  predicate IsSep(c: char) { c == ':' || c == '|' }

  predicate IsBlank(c: char) { c == ' ' }

  predicate IsColon(c: char) { c == ':' }

  /** `[^\n \|\:]`: a character of the leading cell. */
  predicate IsCellChar(c: char) { c != '\n' && c != ' ' && !IsSep(c) }

  /** `^([LR]#)`, ignoring case. */
  predicate HasTagHead(s: string)
  {
    |s| >= 2 && (ToLower(s[0]) == 'l' || ToLower(s[0]) == 'r') && s[1] == '#'
  }

  /** `^([LR]#)([^\n \|\:]*)( *)\:+` becomes `\1\2\3|`: a run of colons right
      after the leading cell and its spaces becomes one `|`. */
  function LeadingColon(line: string): string
  {
    if HasTagHead(line) then
      var f := Span(line, Span(line, 2, IsCellChar), IsBlank);
      if f < |line| && line[f] == ':' then line[..f] + "|" + line[Span(line, f, IsColon)..]
      else line
    else line
  }

  /** `^([LR]#)([^\n \|\:]*)( +)([^\:\|\ ])` becomes `\1\2\3|\4`: when the
      leading cell is followed by spaces and then text, a `|` is put before
      the text. */
  function MissingSeparator(line: string): string
  {
    if HasTagHead(line) then
      var e := Span(line, 2, IsCellChar);
      var f := Span(line, e, IsBlank);
      if e < f < |line| && !IsSep(line[f]) then line[..f] + "|" + line[f..]
      else line
    else line
  }

  /** The end of an optional `<br>` (any case) at `i`. */
  function BreakSkip(s: string, i: nat): (r: nat)
    ensures i <= |s| ==> i <= r <= |s|
  {
    if StartsAtIC(s, i, "<br>") then
      MatchesFromICBound(s, i, "<br>", 0);
      i + 4
    else i
  }

  /** `( *)(<br>)?( *)([\:\|]{2,}|\|)( *)(<br>)?( *)` at `i`, replaced by
      `\1\3|\5\7`: a run of two or more separators, or a lone `|`, becomes
      one `|`; the spaces around it are kept and a `<br>` next to it is
      dropped. */
  function SepAt(s: string, i: nat): Option<Match>
  {
    if i > |s| then None
    else
      var a := Span(s, i, IsBlank);
      var b := BreakSkip(s, a);
      var c := Span(s, b, IsBlank);
      var d := Span(s, c, IsSep);
      if d - c >= 2 || (d == c + 1 && s[c] == '|') then
        var e := Span(s, d, IsBlank);
        var f := BreakSkip(s, e);
        var g := Span(s, f, IsBlank);
        Some(Match(g, s[i..a] + s[b..c] + "|" + s[d..e] + s[f..g]))
      else None
  }

  function SepMatcher(): Matcher { (s: string, i: nat) => SepAt(s, i) }

  function CollapseSeparators(line: string): string { Sub(line, SepMatcher()) }

  /** The separator pass on one line. A table row of two characters (`L#`
      alone) makes the source read `line[2]`, an `IndexError`. */
  function CleanLine(line: string): Result<string>
  {
    if IsTagLine(line) then
      if |line| <= 2 then Failure("IndexError")
      else if line[2] == '~' then Success(line)
      else Success(CollapseSeparators(MissingSeparator(LeadingColon(line))))
    else Success(line)
  }

  // ---------------------------------------------------------------------
  // What the separator converters do

  /** Neither `<br>` nor `<BR>` (nor any other casing) occurs in `s`. */
  predicate NoBreak(s: string) { forall k :: 0 <= k < |s| ==> !StartsAtIC(s, k, "<br>") }

  predicate NoDoubleSep(t: string) { forall k :: 0 <= k < |t| - 1 ==> !(IsSep(t[k]) && IsSep(t[k + 1])) }

  predicate StartsWithSep(t: string) { |t| > 0 && IsSep(t[0]) }

  /** What a separator match must contain: at its first non-blank position
      past an optional `<br>`, a `|` or two separators. */
  lemma SepAtNeedsSeparator(s: string, i: nat)
    ensures SepAt(s, i).Some? ==>
      var c := Span(s, BreakSkip(s, Span(s, i, IsBlank)), IsBlank);
      c < |s| && (s[c] == '|' || (c + 1 < |s| && IsSep(s[c]) && IsSep(s[c + 1])))
  {
  }

  /** A line with no `|` and no two colons in a row has nothing to collapse:
      a single `:` survives. */
  lemma CollapseKeepsSingleColons(s: string)
    requires '|' !in s
    requires forall k :: 0 <= k < |s| - 1 ==> !(s[k] == ':' && s[k + 1] == ':')
    ensures CollapseSeparators(s) == s
  {
    forall j | 0 <= j < |s| ensures !Valid(s, j, SepMatcher()(s, j)) {
      SepAtNeedsSeparator(s, j);
    }
    SubNoMatch(s, SepMatcher());
  }

  /** Without `<br>`, a match is blanks, a separator run and blanks, and is
      replaced by the same blanks around a single `|`. */
  lemma SepAtShape(s: string, i: nat)
    requires NoBreak(s) && i < |s| && Valid(s, i, SepAt(s, i))
    ensures var a := Span(s, i, IsBlank);
            var d := Span(s, a, IsSep);
            var e := Span(s, d, IsBlank);
            a < d && SepAt(s, i).value == Match(e, s[i..a] + "|" + s[d..e])
  {
    var a := Span(s, i, IsBlank);
    assert BreakSkip(s, a) == a;
    SpanAt(s, a, a, IsBlank);
    var d := Span(s, a, IsSep);
    var e := Span(s, d, IsBlank);
    assert BreakSkip(s, e) == e;
    SpanAt(s, e, e, IsBlank);
    SepAtPos(s, i, a, d, e);
  }

  /** `SepAt` by the positions it finds when no `<br>` stands in the way. */
  lemma SepAtPos(s: string, i: nat, a: nat, d: nat, e: nat)
    requires i <= |s| && SepAt(s, i).Some?
    requires a == Span(s, i, IsBlank) && BreakSkip(s, a) == a && Span(s, a, IsBlank) == a
    requires d == Span(s, a, IsSep) && e == Span(s, d, IsBlank)
    requires BreakSkip(s, e) == e && Span(s, e, IsBlank) == e
    ensures a < d && SepAt(s, i).value == Match(e, s[i..a] + "|" + s[d..e])
  {
    assert s[a..a] == [] && s[e..e] == [];
    assert s[i..a] + s[a..a] + "|" + s[d..e] + s[e..e] == s[i..a] + "|" + s[d..e];
  }

  /** Keeps everything but the separators. */
  function DropSep(c: char): string { if IsSep(c) then "" else [c] }

  lemma {:induction false} DropSepAll(t: string)
    requires forall k :: 0 <= k < |t| ==> IsSep(t[k])
    ensures FlatMap(t, DropSep) == ""
  {
    if |t| > 0 { DropSepAll(t[1..]); }
  }

  lemma SepAtKeepsText(s: string, i: nat)
    requires NoBreak(s) && i < |s| && Valid(s, i, SepAt(s, i))
    ensures FlatMap(SepAt(s, i).value.out, DropSep) == FlatMap(s[i..SepAt(s, i).value.end], DropSep)
  {
    SepAtShape(s, i);
    var a := Span(s, i, IsBlank);
    var d := Span(s, a, IsSep);
    var e := Span(s, d, IsBlank);
    SliceThree(s, i, a, d, e);
    assert forall k :: 0 <= k < |s[a..d]| ==> IsSep(s[a..d][k]);
    DropPipe(s[i..a], s[a..d], s[d..e]);
  }

  lemma SliceThree(s: string, i: nat, a: nat, d: nat, e: nat)
    requires i <= a <= d <= e <= |s|
    ensures s[i..e] == s[i..a] + s[a..d] + s[d..e]
  {
  }

  /** A run of separators and a single `|` drop out alike. */
  lemma DropPipe(x: string, y: string, z: string)
    requires forall k :: 0 <= k < |y| ==> IsSep(y[k])
    ensures FlatMap(x + "|" + z, DropSep) == FlatMap(x + y + z, DropSep)
  {
    DropSepAll(y);
    DropSepAll("|");
    FlatMapConcat(x + y, z, DropSep);
    FlatMapConcat(x, y, DropSep);
    FlatMapConcat(x + "|", z, DropSep);
    FlatMapConcat(x, "|", DropSep);
  }

  /** Collapsing only removes separators (and a `<br>` next to one, which
      this excludes): the text between them is kept, spaces included. */
  lemma CollapseKeepsText(s: string)
    requires NoBreak(s)
    ensures FlatMap(CollapseSeparators(s), DropSep) == FlatMap(s, DropSep)
  {
    forall j | 0 <= j < |s| && Valid(s, j, SepMatcher()(s, j))
      ensures FlatMap(SepMatcher()(s, j).value.out, DropSep) == FlatMap(s[j..SepMatcher()(s, j).value.end], DropSep)
    {
      SepAtKeepsText(s, j);
    }
    SubFromFlatMap(s, SepMatcher(), DropSep, 0);
  }

  lemma NoDoubleSepConcat(x: string, y: string)
    requires NoDoubleSep(x) && NoDoubleSep(y)
    requires |x| > 0 && IsSep(x[|x| - 1]) ==> !StartsWithSep(y)
    ensures NoDoubleSep(x + y)
  {
    forall k | 0 <= k < |x + y| - 1 ensures !(IsSep((x + y)[k]) && IsSep((x + y)[k + 1])) {
      if k < |x| - 1 {
        assert (x + y)[k] == x[k] && (x + y)[k + 1] == x[k + 1];
      } else if k == |x| - 1 {
        assert (x + y)[k] == x[k] && (x + y)[k + 1] == y[0];
      } else {
        assert (x + y)[k] == y[k - |x|] && (x + y)[k + 1] == y[k - |x| + 1];
      }
    }
  }

  /** Blanks, one `|`, blanks. */
  lemma PieceNoDoubleSep(s: string, i: nat, a: nat, d: nat, e: nat)
    requires i <= a <= d <= e <= |s|
    requires forall k :: i <= k < a ==> s[k] == ' '
    requires forall k :: d <= k < e ==> s[k] == ' '
    ensures var t := s[i..a] + "|" + s[d..e];
            NoDoubleSep(t) && (IsSep(t[0]) <==> a == i) && (IsSep(t[|t| - 1]) <==> d == e)
  {
    var t := s[i..a] + "|" + s[d..e];
    forall k | 0 <= k < |t| ensures (k == a - i) == IsSep(t[k]) {
      if k < a - i { assert t[k] == s[i + k]; }
      else if k > a - i { assert t[k] == s[d + k - (a - i) - 1]; }
    }
  }

  lemma {:induction false} CollapseFromNoDouble(s: string, i: nat)
    requires NoBreak(s) && i <= |s|
    ensures NoDoubleSep(SubFrom(s, SepMatcher(), i))
    ensures StartsWithSep(SubFrom(s, SepMatcher(), i)) ==> i < |s| && IsSep(s[i])
    decreases |s| - i
  {
    if i < |s| {
      if Valid(s, i, SepMatcher()(s, i)) {
        var e := SepAt(s, i).value.end;
        CollapseFromNoDouble(s, e);
        CollapseHit(s, i, e);
      } else {
        CollapseFromNoDouble(s, i + 1);
        CollapseMiss(s, i);
      }
    }
  }

  /** A match emits blanks, one `|` and blanks: no separator pair inside
      it or across its end. */
  lemma CollapseHit(s: string, i: nat, e: nat)
    requires NoBreak(s) && i < |s| && Valid(s, i, SepAt(s, i)) && e == SepAt(s, i).value.end
    requires NoDoubleSep(SubFrom(s, SepMatcher(), e))
    requires StartsWithSep(SubFrom(s, SepMatcher(), e)) ==> e < |s| && IsSep(s[e])
    ensures NoDoubleSep(SubFrom(s, SepMatcher(), i))
    ensures StartsWithSep(SubFrom(s, SepMatcher(), i)) ==> IsSep(s[i])
  {
    SepAtShape(s, i);
    var a := Span(s, i, IsBlank);
    var d := Span(s, a, IsSep);
    var out := s[i..a] + "|" + s[d..e];
    var rest := SubFrom(s, SepMatcher(), e);
    SubFromMatch(s, SepMatcher(), i, Match(e, out));
    PieceNoDoubleSep(s, i, a, d, e);
    NoDoubleSepConcat(out, rest);
  }

  /** A copied character: a separator only when it was one, and then no
      match started there, so none follows it in the output. */
  lemma CollapseMiss(s: string, i: nat)
    requires NoBreak(s) && i < |s| && !Valid(s, i, SepMatcher()(s, i))
    requires NoDoubleSep(SubFrom(s, SepMatcher(), i + 1))
    requires StartsWithSep(SubFrom(s, SepMatcher(), i + 1)) ==> i + 1 < |s| && IsSep(s[i + 1])
    ensures NoDoubleSep(SubFrom(s, SepMatcher(), i))
    ensures StartsWithSep(SubFrom(s, SepMatcher(), i)) ==> IsSep(s[i])
  {
    SubFromStep(s, SepMatcher(), i);
    if IsSep(s[i]) {
      assert Span(s, i, IsBlank) == i;
      assert BreakSkip(s, i) == i;
      assert Span(s, i, IsSep) == Span(s, i + 1, IsSep);
    }
    NoDoubleSepConcat([s[i]], SubFrom(s, SepMatcher(), i + 1));
  }

  /** Without `<br>`, collapsing leaves no two separators side by side. */
  lemma CollapseNoDoubleSep(s: string)
    requires NoBreak(s)
    ensures NoDoubleSep(CollapseSeparators(s))
  {
    CollapseFromNoDouble(s, 0);
  }

  /** The leading-colon rule on a row given by its parts: the colons right
      after the leading cell and its spaces become one `|`. */
  lemma LeadingColonRule(tag: string, head: string, spaces: string, colons: string, rest: string)
    requires tag == "L#" || tag == "R#"
    requires forall k :: 0 <= k < |head| ==> IsCellChar(head[k])
    requires forall k :: 0 <= k < |spaces| ==> spaces[k] == ' '
    requires |colons| > 0 && forall k :: 0 <= k < |colons| ==> colons[k] == ':'
    requires |rest| == 0 || rest[0] != ':'
    ensures LeadingColon(tag + head + spaces + colons + rest) == tag + head + spaces + "|" + rest
  {
    var line := tag + head + spaces + colons + rest;
    var p := 2 + |head| + |spaces|;
    assert line == (tag + head + spaces) + (colons + rest);
    HeadSpans(tag, head, spaces, colons + rest, line);
    ColonRun(line, p, colons, rest);
    LeadingColonAt(line, p, p + |colons|);
  }

  /** The leading-colon rule on a row by positions: the colons from `p` to
      `q` follow the leading cell and its spaces. */
  lemma LeadingColonAt(line: string, p: nat, q: nat)
    requires HasTagHead(line) && Span(line, Span(line, 2, IsCellChar), IsBlank) == p
    requires p < |line| && line[p] == ':' && Span(line, p, IsColon) == q
    ensures LeadingColon(line) == line[..p] + "|" + line[q..]
  {
  }

  /** The missing-separator rule on a row given by its parts: text after the
      leading cell and at least one space gets a `|` in front of it. */
  lemma MissingSeparatorRule(tag: string, head: string, spaces: string, rest: string)
    requires tag == "L#" || tag == "R#"
    requires forall k :: 0 <= k < |head| ==> IsCellChar(head[k])
    requires |spaces| > 0 && forall k :: 0 <= k < |spaces| ==> spaces[k] == ' '
    requires |rest| > 0 && !IsSep(rest[0]) && rest[0] != ' '
    ensures MissingSeparator(tag + head + spaces + rest) == tag + head + spaces + "|" + rest
  {
    var line := tag + head + spaces + rest;
    HeadSpans(tag, head, spaces, rest, line);
    assert line[2 + |head| + |spaces|] == rest[0];
  }

  /** Where the leading cell and the spaces after it end in a row. */
  lemma HeadSpans(tag: string, head: string, spaces: string, tail: string, line: string)
    requires tag == "L#" || tag == "R#"
    requires forall k :: 0 <= k < |head| ==> IsCellChar(head[k])
    requires forall k :: 0 <= k < |spaces| ==> spaces[k] == ' '
    requires |tail| == 0 || (tail[0] != ' ' && (|spaces| > 0 || !IsCellChar(tail[0])))
    requires line == tag + head + spaces + tail
    ensures HasTagHead(line) && Span(line, 2, IsCellChar) == 2 + |head|
    ensures Span(line, 2 + |head|, IsBlank) == 2 + |head| + |spaces|
    ensures line[..2 + |head| + |spaces|] == tag + head + spaces
    ensures line[2 + |head| + |spaces|..] == tail
  {
    var rest := spaces + tail;
    assert line[2..] == head + rest;
    assert |rest| == 0 || !IsCellChar(rest[0]) by {
      if |spaces| > 0 { assert rest[0] == spaces[0]; }
    }
    RunOf(line, 2, head, rest, IsCellChar);
    RunOf(line, 2 + |head|, spaces, tail, IsBlank);
    assert line[..2 + |head| + |spaces|] == tag + head + spaces;
  }

  /** The colons at `p` in a row, up to what follows them. */
  lemma ColonRun(line: string, p: nat, colons: string, rest: string)
    requires p <= |line| && line[p..] == colons + rest
    requires |colons| > 0 && forall k :: 0 <= k < |colons| ==> colons[k] == ':'
    requires |rest| == 0 || rest[0] != ':'
    ensures p < |line| && line[p] == ':' && Span(line, p, IsColon) == p + |colons|
    ensures line[p + |colons|..] == rest
  {
    assert line[p] == line[p..][0] == colons[0];
    RunOf(line, p, colons, rest, IsColon);
  }

  /** A run of the class `c` at `i`, up to a character outside it. */
  lemma RunOf(line: string, i: nat, x: string, y: string, c: char -> bool)
    requires i <= |line| && line[i..] == x + y
    requires forall k :: 0 <= k < |x| ==> c(x[k])
    requires |y| == 0 || !c(y[0])
    ensures Span(line, i, c) == i + |x| && line[i + |x|..] == y
  {
    var e := i + |x|;
    forall k | i <= k < e ensures c(line[k]) {
      assert line[k] == line[i..][k - i] == x[k - i];
    }
    assert e < |line| ==> line[e] == line[i..][|x|] == y[0];
    SpanAt(line, i, e, c);
    assert line[e..] == line[i..][|x|..];
  }

  // ---------------------------------------------------------------------
  // The whole modifier

  /** The second loop: every row through `CleanLine`; the first error ends it. */
  function CleanRows(lines: seq<string>): (r: Result<seq<string>>)
    ensures r.Success? ==> |r.value| == |lines|
  {
    if |lines| == 0 then Success([])
    else
      var prev := CleanRows(lines[..|lines| - 1]);
      if prev.Failure? then prev
      else
        var c := CleanLine(lines[|lines| - 1]);
        if c.Failure? then Failure(c.error) else Success(prev.value + [c.value])
  }

  lemma {:induction false} CleanRowsFailurePersists(lines: seq<string>, n: nat)
    requires n <= |lines| && CleanRows(lines[..n]).Failure?
    ensures CleanRows(lines) == CleanRows(lines[..n])
    decreases |lines|
  {
    if n < |lines| {
      var front := lines[..|lines| - 1];
      assert front[..n] == lines[..n];
      CleanRowsFailurePersists(front, n);
    } else {
      assert lines[..n] == lines;
    }
  }

  method CleanAllRows(lines: seq<string>) returns (r: Result<seq<string>>)
    ensures r == CleanRows(lines)
  {
    var result: seq<string> := [];
    var i := 0;
    while i < |lines|
      invariant 0 <= i <= |lines|
      invariant CleanRows(lines[..i]) == Success(result)
    {
      assert lines[..i + 1][..i] == lines[..i];
      var c := CleanLine(lines[i]);
      if c.Failure? {
        CleanRowsFailurePersists(lines, i + 1);
        return Failure(c.error);
      }
      result := result + [c.value];
      i := i + 1;
    }
    assert lines[..i] == lines;
    return Success(result);
  }

  /** The modifier of `LtagCleaner.init_modifiers`, as written. */
  function ModifySpec(md: string): Result<string>
  {
    var joined := JoinRows(Split(MergeBlankLines(NormalizeEndings(md)), "\n"));
    var cleaned := CleanRows(Split(Lines(joined), "\n"));
    if cleaned.Failure? then Failure(cleaned.error) else Success(Lines(cleaned.value))
  }

  method Modify(md: string) returns (r: Result<string>)
    ensures r == ModifySpec(md)
  {
    var markdown := Replace(md, "\r\n", "\n");
    markdown := Replace(markdown, "\r", "\n");
    markdown := Sub(markdown, BlankMatcher('L'));
    markdown := Sub(markdown, BlankMatcher('R'));
    var rows := JoinContinuations(Split(markdown, "\n"));
    markdown := Lines(rows);
    var cleaned := CleanAllRows(Split(markdown, "\n"));
    if cleaned.Failure? {
      return Failure(cleaned.error);
    }
    return Success(Lines(cleaned.value));
  }

  /** The separator pass fails exactly when some row is a bare `L#` or `R#`. */
  lemma {:induction false} CleanRowsFailsOnBareRow(lines: seq<string>)
    ensures CleanRows(lines).Failure? <==> exists k :: 0 <= k < |lines| && (lines[k] == "L#" || lines[k] == "R#")
    ensures CleanRows(lines).Failure? ==> CleanRows(lines).error == "IndexError"
  {
    if |lines| > 0 {
      var n := |lines| - 1;
      var front := lines[..n];
      CleanRowsFailsOnBareRow(front);
      var l := lines[n];
      assert IsTagLine(l) && |l| <= 2 <==> l == "L#" || l == "R#" by {
        if IsTagLine(l) && |l| <= 2 {
          StartsAtSlice(l, 0, "L#");
          StartsAtSlice(l, 0, "R#");
          assert l == l[0..2];
        }
      }
      if exists k :: 0 <= k < n && (front[k] == "L#" || front[k] == "R#") {
        var k :| 0 <= k < n && (front[k] == "L#" || front[k] == "R#");
        assert lines[k] == front[k];
      }
      if exists k :: 0 <= k < |lines| && (lines[k] == "L#" || lines[k] == "R#") {
        var k :| 0 <= k < |lines| && (lines[k] == "L#" || lines[k] == "R#");
        if k < n { assert front[k] == lines[k]; }
      }
    }
  }

  /** Grouping leaves lines alone when none of them is a table row. */
  lemma {:induction false} GroupedWithoutTables(lines: seq<string>)
    requires forall k :: 0 <= k < |lines| ==> !IsTagLine(lines[k])
    ensures Grouped(lines) == lines
  {
    if |lines| > 0 {
      GroupedWithoutTables(lines[1..]);
      assert lines == [lines[0]] + lines[1..];
    }
  }

  lemma {:induction false} CleanRowsWithoutTables(lines: seq<string>)
    requires forall k :: 0 <= k < |lines| ==> !IsTagLine(lines[k])
    ensures CleanRows(lines) == Success(lines)
  {
    if |lines| > 0 {
      CleanRowsWithoutTables(lines[..|lines| - 1]);
      CleanRowsLast(lines);
      assert lines == lines[..|lines| - 1] + [lines[|lines| - 1]];
    }
  }

  /** A text with `\n` line ends, no empty line and no table row comes out
      exactly as it went in. */
  lemma TextWithoutTablesUnchanged(md: string)
    requires '\r' !in md && Absent(md, "\n\n")
    requires forall k :: 0 <= k < |Split(md, "\n")| ==> !IsTagLine(Split(md, "\n")[k])
    ensures ModifySpec(md) == Success(md)
  {
    EndingsUnchanged(md);
    MergeNoBlankLine(md);
    var lines := Split(md, "\n");
    JoinRowsGrouped(lines);
    GroupedWithoutTables(lines);
    JoinSplit(md, "\n");
    CleanRowsWithoutTables(lines);
  }

  // ---------------------------------------------------------------------
  // The bare `L#` row

  /** A bare table row, as written, makes the modifier raise `IndexError`. */
  lemma BareRowRaises()
    ensures ModifySpec("L#") == Failure("IndexError")
    ensures ModifySpec("R#") == Failure("IndexError")
  {
    BareRowRaisesFor("L#");
    BareRowRaisesFor("R#");
  }

  lemma BareRowRaisesFor(md: string)
    requires md == "L#" || md == "R#"
    ensures ModifySpec(md) == Failure("IndexError")
  {
    EndingsUnchanged(md);
    assert Absent(md, "\n\n") by {
      forall j | 0 <= j < |md| ensures !StartsAt(md, j, "\n\n") { StartsAtSlice(md, j, "\n\n"); }
    }
    MergeNoBlankLine(md);
    SplitCharAbsent(md, '\n');
    assert JoinRows([md]) == [md];
    CleanRowsFailsOnBareRow([md]);
  }

  /** The separator pass as evidently intended: a table row is left alone
      when it is a free-text row, and converted otherwise, a bare `L#`
      included. */
  function CleanLineIntended(line: string): string
  {
    if IsTagLine(line) && !(|line| > 2 && line[2] == '~') then
      CollapseSeparators(MissingSeparator(LeadingColon(line)))
    else line
  }

  function CleanedIntended(lines: seq<string>): seq<string>
  {
    seq(|lines|, k requires 0 <= k < |lines| => CleanLineIntended(lines[k]))
  }

  /** The modifier with the corrected separator pass: it never raises. */
  function ModifyIntended(md: string): string
  {
    var joined := JoinRows(Split(MergeBlankLines(NormalizeEndings(md)), "\n"));
    Lines(CleanedIntended(Split(Lines(joined), "\n")))
  }

  lemma {:induction false} CleanRowsIntended(lines: seq<string>)
    ensures CleanRows(lines).Success? ==> CleanRows(lines).value == CleanedIntended(lines)
  {
    if |lines| > 0 {
      var front := lines[..|lines| - 1];
      CleanRowsIntended(front);
      CleanRowsLast(lines);
      if CleanRows(lines).Success? {
        IntendedLast(lines);
      }
    }
  }

  /** `CleanRows` on the rows before the last, then on the last. */
  lemma CleanRowsLast(lines: seq<string>)
    requires |lines| > 0
    ensures CleanRows(lines).Success? <==>
      CleanRows(lines[..|lines| - 1]).Success? && CleanLine(lines[|lines| - 1]).Success?
    ensures CleanRows(lines).Success? ==>
      CleanRows(lines).value == CleanRows(lines[..|lines| - 1]).value + [CleanLine(lines[|lines| - 1]).value]
  {
  }

  /** The corrected pass on the rows before the last, then on the last; where
      the pass as written succeeds on a row, both agree on it. */
  lemma IntendedLast(lines: seq<string>)
    requires |lines| > 0
    ensures CleanedIntended(lines) == CleanedIntended(lines[..|lines| - 1]) + [CleanLineIntended(lines[|lines| - 1])]
    ensures CleanLine(lines[|lines| - 1]).Success? ==>
      CleanLine(lines[|lines| - 1]).value == CleanLineIntended(lines[|lines| - 1])
  {
    var front := lines[..|lines| - 1];
    assert forall k :: 0 <= k < |front| ==> CleanedIntended(lines)[k] == CleanedIntended(front)[k];
  }

  /** Wherever the modifier as written succeeds, the corrected one agrees. */
  lemma IntendedAgrees(md: string)
    ensures ModifySpec(md).Success? ==> ModifyIntended(md) == ModifySpec(md).value
  {
    var joined := JoinRows(Split(MergeBlankLines(NormalizeEndings(md)), "\n"));
    CleanRowsIntended(Split(Lines(joined), "\n"));
  }

  /** The corrected modifier passes a bare row through. */
  lemma IntendedBareRow()
    ensures CleanLineIntended("L#") == "L#" && CleanLineIntended("R#") == "R#"
  {
    CollapseKeepsSingleColons("L#");
    CollapseKeepsSingleColons("R#");
  }
}
