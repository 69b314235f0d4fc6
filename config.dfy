/** `campbot/processors/__init__.py`: the replacement configuration is a
    wiki article whose locales' descriptions list groups of replacements —
    a `#` line opens a group, the indented `needle >> replacement` lines
    under it fill it — and the processors the bot runs come in a fixed
    order around those groups. */
module Config {
  import opened Wrappers
  import opened Text

  /** One group of replacements: the language of its locale, the comment of
      its header line, and its (needle, replacement) pairs. */
  datatype Group = Group(lang: string, comment: string, replacements: seq<(string, string)>)

  /** The groups found so far, and whether a group is open in the current
      locale (the source's `test` is not `None`). */
  datatype Parse = Parse(groups: seq<Group>, open: bool)

  predicate IsHeader(line: string) { StartsWith(line, "#") }

  /** A replacement line: indented by four spaces, with something after the
      indentation. */
  predicate IsEntry(line: string) { StartsWith(line, "    ") && |Strip(line[4..])| != 0 }

  /** The pair on a replacement line; a line without exactly one `>>`
      cannot be unpacked into two names. */
  function Pair(line: string): Result<(string, string)>
  {
    var parts := Split(line, ">>");
    if |parts| != 2 then Failure("ValueError") else Success((Strip(parts[0]), Strip(parts[1])))
  }

  /** The group the line reaches, updated in the list of all groups (it is
      always the last one). */
  function AddToLast(gs: seq<Group>, p: (string, string)): seq<Group>
  {
    if |gs| == 0 then gs
    else gs[..|gs| - 1] + [gs[|gs| - 1].(replacements := gs[|gs| - 1].replacements + [p])]
  }

  function LineStep(lang: string, st: Parse, line: string): Result<Parse>
  {
    if IsHeader(line) then
      Success(Parse(st.groups + [Group(lang, LStrip(line, {'#', ' '}), [])], true))
    else if StartsWith(line, "    ") && st.open && IsEntry(line) then
      var p := Pair(line);
      if p.Failure? then Failure(p.error) else Success(Parse(AddToLast(st.groups, p.value), true))
    else Success(st)
  }

  /** The configuration lines `lines` of one locale, in order. */
  function ParseFrom(lang: string, st: Parse, lines: seq<string>): Result<Parse>
    decreases |lines|
  {
    if |lines| == 0 then Success(st)
    else
      var next := LineStep(lang, st, lines[0]);
      if next.Failure? then next else ParseFrom(lang, next.value, lines[1..])
  }

  /** The groups of all locales, each a (lang, description) pair; no group is
      open when a locale starts. */
  function ParseLocales(locales: seq<(string, string)>, groups: seq<Group>): Result<seq<Group>>
    decreases |locales|
  {
    if |locales| == 0 then Success(groups)
    else
      var r := ParseFrom(locales[0].0, Parse(groups, false), Split(locales[0].1, "\n"));
      if r.Failure? then Failure(r.error) else ParseLocales(locales[1..], r.value.groups)
  }

  /** The inner loop over the lines of one description. */
  method ParseDescription(lang: string, configuration: string, groups: seq<Group>) returns (r: Result<seq<Group>>)
    ensures var p := ParseFrom(lang, Parse(groups, false), Split(configuration, "\n"));
      r == if p.Failure? then Failure(p.error) else Success(p.value.groups)
  {
    var lines := Split(configuration, "\n");
    var result := groups;
    var open := false;
    var i := 0;
    while i < |lines|
      invariant 0 <= i <= |lines|
      invariant ParseFrom(lang, Parse(groups, false), lines) == ParseFrom(lang, Parse(result, open), lines[i..])
    {
      assert lines[i..][1..] == lines[i + 1..];
      var line := lines[i];
      if StartsWith(line, "#") {
        result := result + [Group(lang, LStrip(line, {'#', ' '}), [])];
        open := true;
      } else if StartsWith(line, "    ") && open {
        var pattern := line[4..];
        if |Strip(pattern)| != 0 {
          var parts := Split(line, ">>");
          if |parts| != 2 {
            return Failure("ValueError");
          }
          result := AddToLast(result, (Strip(parts[0]), Strip(parts[1])));
        }
      }
      i := i + 1;
    }
    assert lines[i..] == [];
    r := Success(result);
  }

  /** The loop over the locales of the configuration article. */
  method ReadGroups(locales: seq<(string, string)>) returns (r: Result<seq<Group>>)
    ensures r == ParseLocales(locales, [])
  {
    var result: seq<Group> := [];
    var i := 0;
    while i < |locales|
      invariant 0 <= i <= |locales|
      invariant ParseLocales(locales, []) == ParseLocales(locales[i..], result)
    {
      assert locales[i..][1..] == locales[i + 1..];
      var next := ParseDescription(locales[i].0, locales[i].1, result);
      if next.Failure? {
        return next;
      }
      result := next.value;
      i := i + 1;
    }
    assert locales[i..] == [];
    r := Success(result);
  }

  // ---------------------------------------------------------------------
  // What the parser finds

  function HeaderCount(lines: seq<string>): nat
  {
    if |lines| == 0 then 0 else (if IsHeader(lines[0]) then 1 else 0) + HeaderCount(lines[1..])
  }

  /** A line the parser cannot unpack. */
  predicate Bad(line: string)
  {
    !IsHeader(line) && IsEntry(line) && Pair(line).Failure?
  }

  /** Some line before `k` is a header. */
  predicate OpenBefore(lines: seq<string>, k: nat)
    requires k <= |lines|
  {
    exists j :: 0 <= j < k && IsHeader(lines[j])
  }

  /** The groups that no later line can reach: all but an open last one. */
  function Closed(st: Parse): nat
  {
    if st.open && |st.groups| > 0 then |st.groups| - 1 else |st.groups|
  }

  /** One group per header line, all in the locale's language, appended
      after those already found, which stay as they were (but for a group
      left open). */
  lemma {:induction false} ParseGroups(lang: string, st: Parse, lines: seq<string>)
    requires ParseFrom(lang, st, lines).Success?
    ensures var r := ParseFrom(lang, st, lines).value;
      && |r.groups| == |st.groups| + HeaderCount(lines)
      && r.groups[..Closed(st)] == st.groups[..Closed(st)]
      && (forall k :: 0 <= k < |st.groups| ==> r.groups[k].lang == st.groups[k].lang && r.groups[k].comment == st.groups[k].comment)
      && (forall k :: |st.groups| <= k < |r.groups| ==> r.groups[k].lang == lang)
    decreases |lines|
  {
    if |lines| > 0 {
      ParseCons(lang, st, lines);
      var next := LineStep(lang, st, lines[0]).value;
      StepGroups(lang, st, lines[0]);
      ParseGroups(lang, next, lines[1..]);
      var r := ParseFrom(lang, next, lines[1..]).value;
      ChainGroups(lang, st.groups, Closed(st), next.groups, Closed(next), r.groups);
    }
  }

  /** The parse of lines, by its first step. */
  lemma ParseCons(lang: string, st: Parse, lines: seq<string>)
    requires |lines| > 0 && ParseFrom(lang, st, lines).Success?
    ensures LineStep(lang, st, lines[0]).Success?
    ensures ParseFrom(lang, st, lines) == ParseFrom(lang, LineStep(lang, st, lines[0]).value, lines[1..])
  {
  }

  /** Groups kept by two steps in a row are kept by both together. */
  lemma ChainGroups(lang: string, a: seq<Group>, ca: nat, b: seq<Group>, cb: nat, c: seq<Group>)
    requires ca <= cb <= |b| && ca <= |a| <= |b| <= |c|
    requires b[..ca] == a[..ca] && c[..cb] == b[..cb]
    requires forall k :: 0 <= k < |a| ==> b[k].lang == a[k].lang && b[k].comment == a[k].comment
    requires forall k :: |a| <= k < |b| ==> b[k].lang == lang
    requires forall k :: 0 <= k < |b| ==> c[k].lang == b[k].lang && c[k].comment == b[k].comment
    requires forall k :: |b| <= k < |c| ==> c[k].lang == lang
    ensures c[..ca] == a[..ca]
    ensures forall k :: 0 <= k < |a| ==> c[k].lang == a[k].lang && c[k].comment == a[k].comment
    ensures forall k :: |a| <= k < |c| ==> c[k].lang == lang
  {
    assert c[..ca] == c[..cb][..ca];
  }

  /** What one line does to the groups. */
  lemma StepGroups(lang: string, st: Parse, line: string)
    requires LineStep(lang, st, line).Success?
    ensures var next := LineStep(lang, st, line).value;
      && |next.groups| == |st.groups| + (if IsHeader(line) then 1 else 0)
      && Closed(st) <= Closed(next)
      && next.groups[..Closed(st)] == st.groups[..Closed(st)]
      && (forall k :: 0 <= k < |st.groups| ==> next.groups[k].lang == st.groups[k].lang && next.groups[k].comment == st.groups[k].comment)
      && (forall k :: |st.groups| <= k < |next.groups| ==> next.groups[k].lang == lang)
  {
    if IsHeader(line) {
      var g := Group(lang, LStrip(line, {'#', ' '}), []);
      assert (st.groups + [g])[..Closed(st)] == st.groups[..Closed(st)];
    } else if StartsWith(line, "    ") && st.open && IsEntry(line) {
      AddToLastKeeps(st.groups, Pair(line).value);
    }
  }

  lemma AddToLastKeeps(gs: seq<Group>, p: (string, string))
    ensures var r := AddToLast(gs, p);
      && |r| == |gs|
      && (|gs| > 0 ==> r[..|gs| - 1] == gs[..|gs| - 1])
      && (forall k :: 0 <= k < |gs| ==> r[k].lang == gs[k].lang && r[k].comment == gs[k].comment)
      && (|gs| > 0 ==> r[|gs| - 1].replacements == gs[|gs| - 1].replacements + [p])
  {
  }

  /** A successful line keeps an open group open. */
  lemma StepKeepsOpen(lang: string, st: Parse, line: string)
    requires LineStep(lang, st, line).Success?
    ensures LineStep(lang, st, line).value.open == (st.open || IsHeader(line))
  {
  }

  /** A replacement line that cannot be unpacked, once a group is open,
      makes the parse raise. */
  lemma {:induction false} ParseFailsAt(lang: string, st: Parse, lines: seq<string>, k: nat)
    requires k < |lines| && Bad(lines[k]) && (st.open || OpenBefore(lines, k))
    ensures ParseFrom(lang, st, lines).Failure?
    decreases k
  {
    var step := LineStep(lang, st, lines[0]);
    if k > 0 && step.Success? {
      var tail := lines[1..];
      StepKeepsOpen(lang, st, lines[0]);
      assert tail[k - 1] == lines[k];
      if !step.value.open {
        var j :| 0 <= j < k && IsHeader(lines[j]);
        assert j > 0 && tail[j - 1] == lines[j];
      }
      ParseFailsAt(lang, step.value, tail, k - 1);
    }
  }

  /** And the parse raises only so, with `ValueError`. */
  lemma {:induction false} ParseFailsWhere(lang: string, st: Parse, lines: seq<string>)
    requires ParseFrom(lang, st, lines).Failure?
    ensures ParseFrom(lang, st, lines).error == "ValueError"
    ensures exists k :: 0 <= k < |lines| && Bad(lines[k]) && (st.open || OpenBefore(lines, k))
    decreases |lines|
  {
    var step := LineStep(lang, st, lines[0]);
    if step.Failure? {
      assert Bad(lines[0]) && st.open;
    } else {
      var tail := lines[1..];
      StepKeepsOpen(lang, st, lines[0]);
      ParseFailsWhere(lang, step.value, tail);
      var k :| 0 <= k < |tail| && Bad(tail[k]) && (step.value.open || OpenBefore(tail, k));
      assert lines[k + 1] == tail[k];
      if IsHeader(lines[0]) {
        assert OpenBefore(lines, k + 1);
      } else if !st.open {
        var j :| 0 <= j < k && IsHeader(tail[j]);
        assert lines[j + 1] == tail[j];
        assert OpenBefore(lines, k + 1);
      }
    }
  }

  /** Lines before the first header are ignored, whatever they hold. */
  lemma {:induction false} NoHeaderNoGroups(lang: string, groups: seq<Group>, lines: seq<string>)
    requires forall k :: 0 <= k < |lines| ==> !IsHeader(lines[k])
    ensures ParseFrom(lang, Parse(groups, false), lines) == Success(Parse(groups, false))
    decreases |lines|
  {
    if |lines| > 0 {
      NoHeaderNoGroups(lang, groups, lines[1..]);
    }
  }

  /** A replacement line with one `>>` adds its stripped pair to the open
      group. */
  lemma EntryAdds(lang: string, st: Parse, line: string, a: string, b: string)
    requires st.open && !IsHeader(line) && IsEntry(line)
    requires Split(line, ">>") == [a, b]
    ensures LineStep(lang, st, line) == Success(Parse(AddToLast(st.groups, (Strip(a), Strip(b))), true))
  {
  }

  /** The comment of a header is the line without its leading `#` and
      spaces. */
  lemma HeaderComment(lang: string, st: Parse, line: string)
    requires IsHeader(line)
    ensures var r := LineStep(lang, st, line).value;
      && r.open
      && r.groups == st.groups + [Group(lang, LStrip(line, {'#', ' '}), [])]
      && (|r.groups[|r.groups| - 1].comment| > 0 ==> r.groups[|r.groups| - 1].comment[0] !in {'#', ' '})
  {
  }

  // ---------------------------------------------------------------------
  // The processors, in order

  datatype ProcessorKind =
    | DiacriticsFix
    | AutomaticReplacements(group: Group)
    | BBCodeRemover
    | ColorAndUnderlineRemover
    | InternalLinkCorrector
    | SpaceBetweenNumberAndUnit
    | MultiplicationSign
    | UpperFix
    | RemoveColonInHeader
    | FixFakeExternalLinks

  /** The groups that hold at least one replacement, in order. */
  function Filled(groups: seq<Group>): (r: seq<Group>)
    ensures |r| <= |groups|
    ensures forall k :: 0 <= k < |r| ==> |r[k].replacements| != 0 && r[k] in groups
  {
    if |groups| == 0 then []
    else (if |groups[0].replacements| != 0 then [groups[0]] else []) + Filled(groups[1..])
  }

  function Tail(): seq<ProcessorKind>
  {
    [SpaceBetweenNumberAndUnit, MultiplicationSign, UpperFix, RemoveColonInHeader, FixFakeExternalLinks]
  }

  /** The processor list built from the groups. */
  method BuildProcessors(groups: seq<Group>, cleanBbcode: bool) returns (processors: seq<ProcessorKind>)
    ensures var n := |Filled(groups)|;
      && |processors| == 1 + n + (if cleanBbcode then 3 else 0) + 5
      && processors[0] == DiacriticsFix
      && (forall k :: 0 <= k < n ==> processors[1 + k] == AutomaticReplacements(Filled(groups)[k]))
      && (cleanBbcode ==> processors[1 + n..4 + n] == [BBCodeRemover, ColorAndUnderlineRemover, InternalLinkCorrector])
      && processors[|processors| - 5..] == Tail()
  {
    var filled := Filled(groups);
    processors := [DiacriticsFix];
    processors := processors + seq(|filled|, k requires 0 <= k < |filled| => AutomaticReplacements(filled[k]));
    if cleanBbcode {
      processors := processors + [BBCodeRemover];
      processors := processors + [ColorAndUnderlineRemover];
      processors := processors + [InternalLinkCorrector];
    }
    processors := processors + [SpaceBetweenNumberAndUnit];
    processors := processors + [MultiplicationSign];
    processors := processors + [UpperFix];
    processors := processors + [RemoveColonInHeader];
    processors := processors + [FixFakeExternalLinks];
  }

  /** `get_automatic_replacments`, with the configuration article's locales
      given as (lang, description) pairs. */
  method GetAutomaticReplacements(locales: seq<(string, string)>, cleanBbcode: bool)
    returns (r: Result<seq<ProcessorKind>>)
    ensures r.Failure? <==> ParseLocales(locales, []).Failure?
    ensures r.Success? ==> |r.value| >= 6 && r.value[0] == DiacriticsFix && r.value[|r.value| - 5..] == Tail()
    ensures r.Success? ==> |r.value| > |Filled(ParseLocales(locales, []).value)| && forall k :: 0 <= k < |Filled(ParseLocales(locales, []).value)| ==>
      r.value[1 + k] == AutomaticReplacements(Filled(ParseLocales(locales, []).value)[k])
  {
    var groups := ReadGroups(locales);
    if groups.Failure? {
      return Failure(groups.error);
    }
    var processors := BuildProcessors(groups.value, cleanBbcode);
    r := Success(processors);
  }
}
