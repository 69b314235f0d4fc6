/** `campbot/checkers.py`: the checks run on recent contributions. Each
    test answers, for the version before and the version after a
    contribution, whether it is fine; a contribution report collects the
    markers of the tests whose answer changed and whether the change needs
    a human look. Also the length delta and diff links shown in the report,
    and the tests read from a forum post. */
module Checkers {
  import opened Wrappers
  import opened Text
  import opened Json
  import opened Objects

  // ---------------------------------------------------------------------
  // Report fragments

  /** `"{:+d}".format(d)`: the number with its sign, `+` included. */
  function Signed(d: int): string
  {
    if d < 0 then IntToString(d) else "+" + NatToString(d)
  }

  /** `_format_delta`. */
  function FormatDelta(delta: int): string
  {
    if delta < 0 then "<del>" + Signed(delta) + "</del>"
    else if delta > 0 then "<ins>" + Signed(delta) + "</ins>"
    else "**=**"
  }

  /** The delta can be read back from its rendering: a loss is struck out,
      a gain inserted, and the signed number between the tags is the
      delta; no change is `**=**` and nothing else is. */
  lemma FormatDeltaReadsBack(delta: int)
    ensures var r := FormatDelta(delta);
      && (delta == 0 <==> r == "**=**")
      && (delta < 0 ==> StartsWith(r, "<del>"))
      && (delta > 0 ==> StartsWith(r, "<ins>"))
      && (delta != 0 ==> |r| > 11 && ParseInt(r[5..|r| - 6]) == Some(delta))
  {
    var r := FormatDelta(delta);
    if delta != 0 {
      var tag, close := if delta < 0 then "<del>" else "<ins>", if delta < 0 then "</del>" else "</ins>";
      var n := Signed(delta);
      assert r == tag + n + close;
      assert r[5..|r| - 6] == n;
      assert r[0] == '<';
      StartsAtSlice(r, 0, tag);
      assert r[..5] == tag;
      if delta < 0 {
        ParseIntToString(delta);
      } else {
        NatToStringValue(delta);
        DigitsParse(NatToString(delta));
        assert n[1..] == NatToString(delta);
      }
    }
  }

  /** `_get_diff_url`: the document's URL when there is no previous version
      (`None` or 0), otherwise the diff page between the two versions. */
  function DiffUrl(ui: string, doc: WikiDoc, lang: string, previous: Option<int>, version: int): Result<string>
  {
    if previous.None? || previous.value == 0 then GetUrl(ui, doc, Some(lang))
    else
      var id := Attr(doc.data, "document_id");
      if id.Failure? then Failure(id.error)
      else Success(ui + "/" + UrlPath(doc.kind) + "/diff/" + PyStr(id.value) + "/" + lang + "/" +
                   IntToString(previous.value) + "/" + IntToString(version))
  }

  /** Reading a diff URL back: after `ui/` come the URL path, `diff`, the
      document id, the language and the two version ids. */
  lemma DiffUrlParts(ui: string, doc: WikiDoc, id: int, lang: string, previous: int, version: int)
    requires "document_id" in doc.data && doc.data["document_id"] == Int(id)
    requires '/' !in lang && previous != 0
    ensures DiffUrl(ui, doc, lang, Some(previous), version).Success?
    ensures var url := DiffUrl(ui, doc, lang, Some(previous), version).value;
      && ui + "/" <= url
      && Split(url[|ui| + 1..], "/") ==
           [UrlPath(doc.kind), "diff", IntToString(id), lang, IntToString(previous), IntToString(version)]
  {
    var num, p, v := IntToString(id), IntToString(previous), IntToString(version);
    var parts := [UrlPath(doc.kind), "diff", num, lang, p, v];
    NoSlashInNumber(id);
    NoSlashInNumber(previous);
    NoSlashInNumber(version);
    assert PyStr(Int(id)) == num;
    var url := DiffUrl(ui, doc, lang, Some(previous), version).value;
    var rest := UrlPath(doc.kind) + "/diff/" + num + "/" + lang + "/" + p + "/" + v;
    assert url == (ui + "/") + rest;
    assert url[|ui| + 1..] == rest;
    DiffJoin(UrlPath(doc.kind), num, lang, p, v);
    assert forall k :: 0 <= k < |parts| ==> '/' !in parts[k];
    SplitJoinChar(parts, '/');
  }

  lemma DiffJoin(path: string, num: string, lang: string, p: string, v: string)
    ensures Join([path, "diff", num, lang, p, v], "/") == path + "/diff/" + num + "/" + lang + "/" + p + "/" + v
  {
    JoinFive("diff", num, lang, p, v, "/");
    JoinCons(path, ["diff", num, lang, p, v], "/");
    assert [path] + ["diff", num, lang, p, v] == [path, "diff", num, lang, p, v];
    assert path + "/" + "diff" + "/" == path + "/diff/";
  }

  // ---------------------------------------------------------------------
  // Tests and their verdicts

  /** A version of a document; its document is `None` when the API sent an
      empty one. */
  datatype Version = Version(document: Option<WikiDoc>)

  predicate Redirect(doc: WikiDoc) { "redirects_to" in doc.data }

  /** The document a test looks at: a present version with a document that
      is not a redirection. */
  predicate Tested(v: Option<Version>)
  {
    v.Some? && v.value.document.Some? && !Redirect(v.value.document.value)
  }

  /** `BaseVersionTest.test_version`, for the test's `test_document`. */
  function TestVersion(testDocument: WikiDoc -> Result<bool>, v: Option<Version>): Result<bool>
  {
    if v.None? || v.value.document.None? then Success(true)
    else if Redirect(v.value.document.value) then Success(true)
    else testDocument(v.value.document.value)
  }

  /** `BaseVersionTest.__call__`: both versions tested, the old one first. */
  function VersionCall(testDocument: WikiDoc -> Result<bool>, before: Option<Version>, after: Option<Version>)
    : Result<(bool, bool)>
  {
    var o := TestVersion(testDocument, before);
    if o.Failure? then Failure(o.error)
    else
      var n := TestVersion(testDocument, after);
      if n.Failure? then Failure(n.error) else Success((o.value, n.value))
  }

  /** A version test passes every missing version or document and every
      redirection, and otherwise gives the document test's answer. */
  lemma VersionCallSpec(testDocument: WikiDoc -> Result<bool>, before: Option<Version>, after: Option<Version>)
    ensures var r := VersionCall(testDocument, before, after);
      && (!Tested(before) && !Tested(after) ==> r == Success((true, true)))
      && (r.Success? && !r.value.0 ==> Tested(before) && testDocument(before.value.document.value) == Success(false))
      && (r.Success? && !r.value.1 ==> Tested(after) && testDocument(after.value.document.value) == Success(false))
      && (r.Failure? ==> (Tested(before) && testDocument(before.value.document.value).Failure?) ||
                         (Tested(after) && testDocument(after.value.document.value).Failure?))
  {
  }

  /** `BaseContributionTest.__call__`: a contribution with a missing side or
      a redirection passes; otherwise the old side is taken as fine and the
      test judges the change. */
  function ContributionCall(testContribution: (WikiDoc, WikiDoc) -> Result<bool>,
                            before: Option<Version>, after: Option<Version>): Result<(bool, bool)>
  {
    if before.None? || after.None? then Success((true, true))
    else if before.value.document.None? || after.value.document.None? then Success((true, true))
    else
      var o, n := before.value.document.value, after.value.document.value;
      if Redirect(o) || Redirect(n) then Success((true, true))
      else
        var t := testContribution(o, n);
        if t.Failure? then Failure(t.error) else Success((true, t.value))
  }

  /** The old side of a contribution test is always fine, and the new side
      is judged only when both sides are real documents. */
  lemma ContributionCallSpec(testContribution: (WikiDoc, WikiDoc) -> Result<bool>,
                             before: Option<Version>, after: Option<Version>)
    ensures var r := ContributionCall(testContribution, before, after);
      && (r.Success? ==> r.value.0)
      && (!Tested(before) || !Tested(after) ==> r == Success((true, true)))
      && (Tested(before) && Tested(after) ==>
            var t := testContribution(before.value.document.value, after.value.document.value);
            (r.Success? <==> t.Success?) && (t.Success? ==> r.value.1 == t.value))
  {
  }

  /** `LengthTest`'s verdict on the text lengths before and after: a text
      cut to less than half fails; Python's `new / old < 0.5` is written as
      the integer comparison `2 * new < old`. */
  predicate LengthVerdict(before: nat, after: nat)
  {
    !(before != 0 && 2 * after < before)
  }

  /** The integer comparison is the division the source writes, taken
      exactly. */
  lemma LengthVerdictIsRatio(before: nat, after: nat)
    ensures LengthVerdict(before, after) <==> before == 0 || (after as real) / (before as real) >= 0.5
  {
    if before != 0 {
      RatioAtLeastHalf(after as real, before as real);
    }
  }

  lemma RatioAtLeastHalf(a: real, b: real)
    requires b > 0.0
    ensures a / b >= 0.5 <==> 2.0 * a >= b
  {
    var q := a / b;
    assert q * b == a;
    if q >= 0.5 {
      assert (q - 0.5) * b >= 0.0;
    } else {
      assert (0.5 - q) * b > 0.0;
    }
  }

  /** Adding text never turns a passing length test into a failing one. */
  lemma LengthVerdictMonotone(before: nat, after: nat, more: nat)
    requires LengthVerdict(before, after) && after <= more
    ensures LengthVerdict(before, more)
  {
  }

  /** The text length of a document's locale in `lang`; a document without
      that locale has no `get_length` to call (`None.get_length()`). */
  function DocLength(doc: WikiDoc, lang: string): Result<nat>
  {
    var l := GetLocale(doc, lang);
    if l.Failure? then Failure(l.error)
    else if l.value.None? then Failure("AttributeError")
    else LengthOf(l.value.value, LocaleFields())
  }

  /** `LengthTest.test_contribution`. */
  function LengthTest(lang: string, before: WikiDoc, after: WikiDoc): Result<bool>
  {
    var o := DocLength(before, lang);
    if o.Failure? then Failure(o.error)
    else
      var n := DocLength(after, lang);
      if n.Failure? then Failure(n.error) else Success(LengthVerdict(o.value, n.value))
  }

  /** `QualityTest.test_contribution`: the quality field is unchanged. */
  function QualityTest(before: WikiDoc, after: WikiDoc): Result<bool>
  {
    var o := Attr(before.data, "quality");
    if o.Failure? then Failure(o.error)
    else
      var n := Attr(after.data, "quality");
      if n.Failure? then Failure(n.error) else Success(o.value == n.value)
  }

  /** The quality test passes exactly when both documents have a quality
      and it is the same, and it judges both directions alike. */
  lemma QualityTestSpec(before: WikiDoc, after: WikiDoc)
    ensures QualityTest(before, after) == Success(true) <==>
      "quality" in before.data && "quality" in after.data && before.data["quality"] == after.data["quality"]
    ensures QualityTest(before, after).Success? ==> QualityTest(after, before) == QualityTest(before, after)
    ensures "quality" in before.data ==> QualityTest(before, before) == Success(true)
  {
  }

  /** `NewbieTest.__call__`: the old side is fine; the new side fails for a
      newcomer's contribution. */
  function NewbieCall(isNewbie: bool): (r: (bool, bool))
  {
    if isNewbie then (true, false) else (true, true)
  }

  /** The three fixed contribution tests never blame the old side. */
  lemma OldSideAlwaysFine(lang: string, before: Option<Version>, after: Option<Version>, isNewbie: bool)
    ensures var r := ContributionCall((o, n) => LengthTest(lang, o, n), before, after); r.Success? ==> r.value.0
    ensures var r := ContributionCall(QualityTest, before, after); r.Success? ==> r.value.0
    ensures NewbieCall(isNewbie).0 && (NewbieCall(isNewbie).1 <==> !isNewbie)
  {
    ContributionCallSpec((o, n) => LengthTest(lang, o, n), before, after);
    ContributionCallSpec(QualityTest, before, after);
  }

  // ---------------------------------------------------------------------
  // Contribution and document reports

  /** The markers a test leaves in a report: one for a contribution that
      breaks it, one for a contribution that repairs it. */
  datatype Markers = Markers(fail: string, success: string)

  /** A test as a report runs it: its markers, and its answer for the
      versions before and after a contribution. */
  datatype Check = Check(markers: Markers, call: (Option<Version>, Option<Version>) -> Result<(bool, bool)>)

  /** What one test said of one contribution. */
  datatype Outcome = Outcome(markers: Markers, oldOk: bool, newOk: bool)

  predicate Regressed(o: Outcome) { o.oldOk && !o.newOk }

  predicate Repaired(o: Outcome) { !o.oldOk && o.newOk }

  function MarkerOf(o: Outcome): seq<string>
  {
    if Regressed(o) then [o.markers.fail] else if Repaired(o) then [o.markers.success] else []
  }

  /** The markers of the outcomes, in test order. */
  function Emojis(os: seq<Outcome>): seq<string>
    decreases |os|
  {
    if |os| == 0 then [] else Emojis(os[..|os| - 1]) + MarkerOf(os[|os| - 1])
  }

  /** A contribution needs a look when some test it breaks. */
  predicate NeedsReport(os: seq<Outcome>)
  {
    exists k :: 0 <= k < |os| && Regressed(os[k])
  }

  /** The tests run in order on the two versions; the first one that raises
      ends the report. */
  function Outcomes(checks: seq<Check>, before: Option<Version>, after: Option<Version>): Result<seq<Outcome>>
    decreases |checks|
  {
    if |checks| == 0 then Success([])
    else
      var r := Outcomes(checks[..|checks| - 1], before, after);
      if r.Failure? then r
      else
        var last := checks[|checks| - 1];
        var v := last.call(before, after);
        if v.Failure? then Failure(v.error) else Success(r.value + [Outcome(last.markers, v.value.0, v.value.1)])
  }

  /** `get_locale_length` of a version, 0 for a missing version; a version
      with an empty document has no `get_locale` to call. */
  function VersionLength(v: Option<Version>, lang: string): Result<nat>
  {
    if v.None? then Success(0)
    else if v.value.document.None? then Failure("AttributeError")
    else
      var l := GetLocale(v.value.document.value, lang);
      if l.Failure? then Failure(l.error)
      else if l.value.None? then Success(0)
      else LengthOf(l.value.value, LocaleFields())
  }

  class ContributionReport {
    var needReport: bool
    var emojis: seq<string>
    var delta: int

    constructor ()
      ensures !needReport && emojis == [] && delta == 0
    {
      needReport := false;
      emojis := [];
      delta := 0;
    }

    /** One test's answer: a broken test leaves its fail marker and asks
        for a report, a repaired one leaves its success marker. */
    method Add(o: Outcome)
      modifies this
      ensures emojis == old(emojis) + MarkerOf(o)
      ensures needReport == (old(needReport) || Regressed(o))
      ensures delta == old(delta)
    {
      if o.oldOk && !o.newOk {
        emojis := emojis + [o.markers.fail];
        needReport := true;
      } else if !o.oldOk && o.newOk {
        emojis := emojis + [o.markers.success];
      }
    }

    /** `ContributionReport.__init__`, with the two versions given: each
        test's markers collected, then the change of text length. */
    static method Create(checks: seq<Check>, before: Option<Version>, after: Option<Version>, lang: string)
      returns (r: Result<ContributionReport>)
      ensures var os, n, o := Outcomes(checks, before, after), VersionLength(after, lang), VersionLength(before, lang);
        && (r.Success? <==> os.Success? && n.Success? && o.Success?)
        && (r.Failure? ==> r.error == if os.Failure? then os.error else if n.Failure? then n.error else o.error)
        && (r.Success? ==> && fresh(r.value)
                           && r.value.emojis == Emojis(os.value)
                           && (r.value.needReport <==> NeedsReport(os.value))
                           && r.value.delta == n.value - o.value)
    {
      var report := new ContributionReport();
      ghost var done: seq<Outcome> := [];
      var i := 0;
      while i < |checks|
        invariant 0 <= i <= |checks|
        invariant Outcomes(checks[..i], before, after) == Success(done)
        invariant report.emojis == Emojis(done)
        invariant report.needReport <==> NeedsReport(done)
      {
        var v := checks[i].call(before, after);
        if v.Failure? {
          OutcomesNext(checks, before, after, i, done);
          OutcomesStop(checks, before, after, i + 1);
          return Failure(v.error);
        }
        var o := Outcome(checks[i].markers, v.value.0, v.value.1);
        report.Add(o);
        OutcomeStep(done, o);
        OutcomesNext(checks, before, after, i, done);
        done := done + [o];
        i := i + 1;
      }
      assert checks[..i] == checks;
      var n := VersionLength(after, lang);
      if n.Failure? {
        return Failure(n.error);
      }
      var o := VersionLength(before, lang);
      if o.Failure? {
        return Failure(o.error);
      }
      report.delta := n.value;
      report.delta := report.delta - o.value;
      r := Success(report);
    }
  }

  lemma OutcomeStep(done: seq<Outcome>, o: Outcome)
    ensures Emojis(done + [o]) == Emojis(done) + MarkerOf(o)
    ensures NeedsReport(done + [o]) <==> NeedsReport(done) || Regressed(o)
  {
    assert (done + [o])[..|done|] == done;
    if NeedsReport(done) {
      var k :| 0 <= k < |done| && Regressed(done[k]);
      assert (done + [o])[k] == done[k];
    }
  }

  lemma OutcomesNext(checks: seq<Check>, before: Option<Version>, after: Option<Version>, i: nat, done: seq<Outcome>)
    requires i < |checks| && Outcomes(checks[..i], before, after) == Success(done)
    ensures var v := checks[i].call(before, after);
      v.Success? ==> Outcomes(checks[..i + 1], before, after) == Success(done + [Outcome(checks[i].markers, v.value.0, v.value.1)])
    ensures var v := checks[i].call(before, after);
      v.Failure? ==> Outcomes(checks[..i + 1], before, after) == Failure(v.error)
  {
    assert checks[..i + 1][..i] == checks[..i];
  }

  /** Once a test raises, the later tests do not change the answer. */
  lemma {:induction false} OutcomesStop(checks: seq<Check>, before: Option<Version>, after: Option<Version>, i: nat)
    requires 0 < i <= |checks| && Outcomes(checks[..i], before, after).Failure?
    ensures Outcomes(checks, before, after) == Outcomes(checks[..i], before, after)
    decreases |checks|
  {
    if i < |checks| {
      var init := checks[..|checks| - 1];
      assert init[..i] == checks[..i];
      OutcomesStop(init, before, after, i);
    } else {
      assert checks[..i] == checks;
    }
  }

  /** When no test raises, there is one outcome per test, with the test's
      markers and its two verdicts. */
  lemma {:induction false} OutcomesSpec(checks: seq<Check>, before: Option<Version>, after: Option<Version>)
    ensures var r := Outcomes(checks, before, after);
      r.Success? <==> forall k :: 0 <= k < |checks| ==> checks[k].call(before, after).Success?
    ensures var r := Outcomes(checks, before, after);
      r.Success? ==> |r.value| == |checks| && forall k :: 0 <= k < |checks| ==>
        var v := checks[k].call(before, after).value;
        r.value[k] == Outcome(checks[k].markers, v.0, v.1)
    decreases |checks|
  {
    if |checks| > 0 {
      var init := checks[..|checks| - 1];
      OutcomesSpec(init, before, after);
      assert forall k :: 0 <= k < |init| ==> init[k] == checks[k];
    }
  }

  lemma {:induction false} EmojisAppend(a: seq<Outcome>, b: seq<Outcome>)
    ensures Emojis(a + b) == Emojis(a) + Emojis(b)
    decreases |b|
  {
    if |b| == 0 {
      assert a + b == a;
    } else {
      var b' := b[..|b| - 1];
      assert (a + b)[..|a + b| - 1] == a + b';
      EmojisAppend(a, b');
    }
  }

  /** A test the contribution breaks leaves its fail marker, one it repairs
      its success marker, and every marker comes from one of those. */
  lemma {:induction false} EmojisSpec(os: seq<Outcome>)
    ensures forall k :: 0 <= k < |os| && Regressed(os[k]) ==> os[k].markers.fail in Emojis(os)
    ensures forall k :: 0 <= k < |os| && Repaired(os[k]) ==> os[k].markers.success in Emojis(os)
    ensures forall e :: e in Emojis(os) ==> exists k ::
      && 0 <= k < |os|
      && ((Regressed(os[k]) && e == os[k].markers.fail) || (Repaired(os[k]) && e == os[k].markers.success))
    decreases |os|
  {
    if |os| > 0 {
      var init := os[..|os| - 1];
      EmojisSpec(init);
      assert forall k :: 0 <= k < |init| ==> init[k] == os[k];
    }
  }

  /** A contribution on which no test changes its mind gets no marker and
      no report. */
  lemma {:induction false} NothingChanged(os: seq<Outcome>)
    requires forall k :: 0 <= k < |os| ==> os[k].oldOk == os[k].newOk
    ensures Emojis(os) == [] && !NeedsReport(os)
    decreases |os|
  {
    if |os| > 0 {
      NothingChanged(os[..|os| - 1]);
    }
  }

  class DocumentReport {
    var needReport: bool
    var subReports: seq<ContributionReport>

    /** `DocumentReport.__init__`, with the reports of the document's
        contributions built: the document needs a look when one of its
        contributions does. */
    constructor (reports: seq<ContributionReport>)
      ensures subReports == reports
      ensures needReport <==> exists k :: 0 <= k < |reports| && reports[k].needReport
    {
      needReport := false;
      subReports := [];
      new;
      var i := 0;
      while i < |reports|
        invariant 0 <= i <= |reports|
        invariant subReports == reports[..i]
        invariant needReport <==> exists k :: 0 <= k < i && reports[k].needReport
      {
        subReports := subReports + [reports[i]];
        needReport := needReport || reports[i].needReport;
        i := i + 1;
      }
      assert reports[..i] == reports;
    }
  }

  // ---------------------------------------------------------------------
  // Tests read from the configuration post

  /** A test reading the configuration post defines: a name, a language,
      the patterns a document must not match and its two markers. */
  datatype ReTest = ReTest(name: string, lang: string, patterns: seq<string>, failMarker: string, successMarker: string)

  /** `emoji`: the forum's image tag for an emoji. */
  function Emoji(src: string, text: string): string
  {
    "<img src=\"" + src + "\" class=\"emoji\" title=\"" + text + "\" alt=\"" + text + "\">"
  }

  /** `ReTest.__init__`: no pattern, a red circle when broken, a check
      mark when repaired. */
  function NewReTest(name: string, lang: string): ReTest
  {
    ReTest(name, lang, [], Emoji("/images/emoji/apple/red_circle.png?v=3", name),
           Emoji("/images/emoji/apple/white_check_mark.png?v=3", name + " corrig\U{E9}"))
  }

  function HeaderChars(): set<char> { {'#', ' '} }

  /** A line opening a test. */
  predicate Opens(line: string) { |line| > 0 && line[0] == '#' }

  /** A line starting with four spaces. */
  predicate Indented(line: string) { |line| >= 4 && line[..4] == "    " }

  /** The position of the first `:`, or -1. */
  function Colon(line: string): (c: int)
    ensures c == -1 || 0 <= c < |line|
  {
    FindFrom(line, ":", 0)
  }

  /** `line.split(":", 1)[0].strip()`. */
  function Key(line: string): string
  {
    var c := Colon(line);
    Strip(if c == -1 then line else line[..c])
  }

  /** `line.split(":", 1)[1].strip()`. */
  function Value(line: string): string
    requires Colon(line) != -1
  {
    Strip(line[Colon(line) + 1..])
  }

  predicate SetsFail(line: string) { Key(line) == "* Erreur" }

  predicate SetsSuccess(line: string) { Key(line) == "* Corrig\U{E9}" }

  /** `test.patterns.append(pattern)` on the last test opened. */
  function AddPattern(tests: seq<ReTest>, pattern: string): (r: seq<ReTest>)
    requires |tests| > 0
    ensures |r| == |tests| && r[..|tests| - 1] == tests[..|tests| - 1]
    ensures r[|tests| - 1] == tests[|tests| - 1].(patterns := tests[|tests| - 1].patterns + [pattern])
  {
    var last := tests[|tests| - 1];
    tests[|tests| - 1 := last.(patterns := last.patterns + [pattern])]
  }

  /** `test.fail_marker = marker` or `test.success_marker = marker` on the
      last test opened. */
  function SetMarker(tests: seq<ReTest>, fail: bool, marker: string): (r: seq<ReTest>)
    requires |tests| > 0
    ensures |r| == |tests| && r[..|tests| - 1] == tests[..|tests| - 1]
    ensures var last := tests[|tests| - 1];
      r[|tests| - 1] == if fail then last.(failMarker := marker) else last.(successMarker := marker)
    ensures forall k :: 0 <= k < |tests| ==> r[k].name == tests[k].name && r[k].patterns == tests[k].patterns
  {
    var last := tests[|tests| - 1];
    tests[|tests| - 1 := if fail then last.(failMarker := marker) else last.(successMarker := marker)]
  }

  /** One line of the post; the test the post is at is the last one
      opened. A marker line with no `:` raises `IndexError` before any
      test is looked at; one before any test raises `AttributeError` on
      `None`. */
  function ReStep(lang: string, tests: seq<ReTest>, line: string): (r: Result<seq<ReTest>>)
    ensures r.Failure? ==> !Opens(line) && (SetsFail(line) || SetsSuccess(line))
    ensures r.Failure? ==> r.error == if Colon(line) == -1 then "IndexError" else "AttributeError"
  {
    if Opens(line) then Success(tests + [NewReTest(LStrip(line, HeaderChars()), lang)])
    else if Indented(line) && |tests| > 0 then
      if |Strip(line[4..])| != 0 then Success(AddPattern(tests, line[4..])) else Success(tests)
    else if SetsFail(line) || SetsSuccess(line) then
      if Colon(line) == -1 then Failure("IndexError")
      else if |tests| == 0 then Failure("AttributeError")
      else Success(SetMarker(tests, SetsFail(line), Value(line)))
    else Success(tests)
  }

  /** A `#` line adds one test; any other line keeps the tests there are,
      with their names, and changes at most the last one. */
  lemma ReStepShape(lang: string, tests: seq<ReTest>, line: string)
    requires ReStep(lang, tests, line).Success?
    ensures var r := ReStep(lang, tests, line).value;
      && |r| == |tests| + (if Opens(line) then 1 else 0)
      && (Opens(line) ==> r == tests + [NewReTest(LStrip(line, HeaderChars()), lang)])
      && (!Opens(line) && |tests| > 0 ==> r[..|tests| - 1] == tests[..|tests| - 1])
      && (!Opens(line) && |tests| > 0 ==> r[|tests| - 1].name == tests[|tests| - 1].name)
  {
  }

  /** The tests after the lines `lines`. */
  function ReadTests(lang: string, tests: seq<ReTest>, lines: seq<string>): Result<seq<ReTest>>
    decreases |lines|
  {
    if |lines| == 0 then Success(tests)
    else
      var r := ReStep(lang, tests, lines[0]);
      if r.Failure? then r else ReadTests(lang, r.value, lines[1..])
  }

  /** The tests that have patterns, in order. */
  function WithPatterns(tests: seq<ReTest>): (r: seq<ReTest>)
    ensures |r| <= |tests|
    ensures forall t :: t in r <==> t in tests && |t.patterns| > 0
    decreases |tests|
  {
    if |tests| == 0 then []
    else (if |tests[0].patterns| != 0 then [tests[0]] else []) + WithPatterns(tests[1..])
  }

  /** `get_re_tests` on the text of the configuration post. */
  method GetReTests(raw: string, lang: string) returns (r: Result<seq<ReTest>>)
    ensures var t := ReadTests(lang, [], Split(raw, "\n"));
      r == if t.Failure? then Failure(t.error) else Success(WithPatterns(t.value))
  {
    var lines := Split(raw, "\n");
    var result: seq<ReTest> := [];
    var i := 0;
    while i < |lines|
      invariant 0 <= i <= |lines|
      invariant ReadTests(lang, [], lines) == ReadTests(lang, result, lines[i..])
    {
      ReadTestsNext(lang, result, lines, i);
      var next := ReadLine(lang, result, lines[i]);
      if next.Failure? {
        return Failure(next.error);
      }
      result := next.value;
      i := i + 1;
    }
    assert lines[i..] == [];
    r := Success(WithPatterns(result));
  }

  /** The body of the loop of `get_re_tests`, for one line. */
  method ReadLine(lang: string, tests: seq<ReTest>, line: string) returns (r: Result<seq<ReTest>>)
    ensures r == ReStep(lang, tests, line)
  {
    if |line| > 0 && line[0] == '#' {
      return Success(tests + [NewReTest(LStrip(line, HeaderChars()), lang)]);
    }
    if |line| >= 4 && line[..4] == "    " && |tests| > 0 {
      var pattern := line[4..];
      if |Strip(pattern)| != 0 {
        return Success(AddPattern(tests, line[4..]));
      }
      return Success(tests);
    }
    var c := Colon(line);
    if SetsFail(line) || SetsSuccess(line) {
      if c == -1 {
        return Failure("IndexError");
      }
      if |tests| == 0 {
        return Failure("AttributeError");
      }
      return Success(SetMarker(tests, SetsFail(line), Value(line)));
    }
    r := Success(tests);
  }

  lemma ReadTestsNext(lang: string, tests: seq<ReTest>, lines: seq<string>, i: nat)
    requires i < |lines|
    ensures ReadTests(lang, tests, lines[i..]) ==
      var s := ReStep(lang, tests, lines[i]);
      if s.Failure? then s else ReadTests(lang, s.value, lines[i + 1..])
  {
    assert lines[i..][1..] == lines[i + 1..];
  }

  // What the reading gives

  function Headers(lines: seq<string>): nat
    decreases |lines|
  {
    if |lines| == 0 then 0 else (if Opens(lines[0]) then 1 else 0) + Headers(lines[1..])
  }

  /** Each `#` line opens one test, and the tests already opened keep their
      names. */
  lemma {:induction false} ReadTestsCount(lang: string, tests: seq<ReTest>, lines: seq<string>)
    requires ReadTests(lang, tests, lines).Success?
    ensures |ReadTests(lang, tests, lines).value| == |tests| + Headers(lines)
    ensures forall k :: 0 <= k < |tests| ==> ReadTests(lang, tests, lines).value[k].name == tests[k].name
    decreases |lines|
  {
    if |lines| > 0 {
      ReadTestsStep(lang, tests, lines);
      var r := ReStep(lang, tests, lines[0]).value;
      ReStepNames(lang, tests, lines[0]);
      ReadTestsCount(lang, r, lines[1..]);
    }
  }

  /** `ReadTests` after its first line. */
  lemma ReadTestsStep(lang: string, tests: seq<ReTest>, lines: seq<string>)
    requires |lines| > 0 && ReadTests(lang, tests, lines).Success?
    ensures ReStep(lang, tests, lines[0]).Success?
    ensures ReadTests(lang, tests, lines) == ReadTests(lang, ReStep(lang, tests, lines[0]).value, lines[1..])
    ensures Headers(lines) == (if Opens(lines[0]) then 1 else 0) + Headers(lines[1..])
  {
  }

  /** One line opens at most one test and renames none. */
  lemma ReStepNames(lang: string, tests: seq<ReTest>, line: string)
    requires ReStep(lang, tests, line).Success?
    ensures |ReStep(lang, tests, line).value| == |tests| + (if Opens(line) then 1 else 0)
    ensures forall k :: 0 <= k < |tests| ==> ReStep(lang, tests, line).value[k].name == tests[k].name
  {
    var r := ReStep(lang, tests, line).value;
    ReStepShape(lang, tests, line);
    if !Opens(line) && |tests| > 0 {
      assert forall k :: 0 <= k < |tests| - 1 ==> r[k] == r[..|tests| - 1][k];
    } else {
      assert forall k :: 0 <= k < |tests| ==> r[k] == tests[k];
    }
  }

  predicate NonBlank(tests: seq<ReTest>)
  {
    forall k, j :: 0 <= k < |tests| && 0 <= j < |tests[k].patterns| ==> |Strip(tests[k].patterns[j])| > 0
  }

  lemma ReStepNonBlank(lang: string, tests: seq<ReTest>, line: string)
    requires NonBlank(tests) && ReStep(lang, tests, line).Success?
    ensures NonBlank(ReStep(lang, tests, line).value)
  {
    var r := ReStep(lang, tests, line).value;
    if Opens(line) {
      HeaderNonBlank(tests, NewReTest(LStrip(line, HeaderChars()), lang));
    } else if Indented(line) && |tests| > 0 {
      if |Strip(line[4..])| != 0 {
        AddPatternNonBlank(tests, line[4..]);
      }
    } else if SetsFail(line) || SetsSuccess(line) {
      SetMarkerNonBlank(tests, SetsFail(line), Value(line));
    }
  }

  lemma HeaderNonBlank(tests: seq<ReTest>, t: ReTest)
    requires NonBlank(tests) && t.patterns == []
    ensures NonBlank(tests + [t])
  {
    assert forall k :: 0 <= k < |tests| ==> (tests + [t])[k] == tests[k];
  }

  lemma SetMarkerNonBlank(tests: seq<ReTest>, fail: bool, marker: string)
    requires |tests| > 0 && NonBlank(tests)
    ensures NonBlank(SetMarker(tests, fail, marker))
  {
  }

  lemma AddPatternNonBlank(tests: seq<ReTest>, pattern: string)
    requires |tests| > 0 && NonBlank(tests) && |Strip(pattern)| > 0
    ensures NonBlank(AddPattern(tests, pattern))
  {
    var r, n := AddPattern(tests, pattern), |tests| - 1;
    assert forall k :: 0 <= k < n ==> r[k] == r[..n][k];
  }

  /** Blank pattern lines are never kept. */
  lemma {:induction false} ReadTestsNonBlank(lang: string, tests: seq<ReTest>, lines: seq<string>)
    requires NonBlank(tests) && ReadTests(lang, tests, lines).Success?
    ensures NonBlank(ReadTests(lang, tests, lines).value)
    decreases |lines|
  {
    if |lines| > 0 {
      ReStepNonBlank(lang, tests, lines[0]);
      ReadTestsNonBlank(lang, ReStep(lang, tests, lines[0]).value, lines[1..]);
    }
  }

  /** The tests `get_re_tests` returns all have patterns, none of them
      blank, and one test is opened per `#` line. */
  lemma ReTestsSpec(raw: string, lang: string)
    requires ReadTests(lang, [], Split(raw, "\n")).Success?
    ensures var all := ReadTests(lang, [], Split(raw, "\n")).value;
      && |all| == Headers(Split(raw, "\n"))
      && (forall t :: t in WithPatterns(all) ==> t in all && |t.patterns| > 0)
      && NonBlank(all)
  {
    ReadTestsCount(lang, [], Split(raw, "\n"));
    ReadTestsNonBlank(lang, [], Split(raw, "\n"));
  }

  /** No test has been opened before line `k`. */
  predicate Closed(tests: seq<ReTest>, lines: seq<string>, k: nat)
    requires k <= |lines|
  {
    |tests| == 0 && forall j :: 0 <= j < k ==> !Opens(lines[j])
  }

  /** Line `k` raises: a marker line that is not a header, with no test to
      set or, when it is not a pattern line, with no `:`. */
  predicate BadAt(tests: seq<ReTest>, lines: seq<string>, k: nat)
    requires k < |lines|
  {
    var l := lines[k];
    && !Opens(l) && (SetsFail(l) || SetsSuccess(l))
    && (Closed(tests, lines, k) || (Colon(l) == -1 && !Indented(l)))
  }

  lemma ReStepFails(lang: string, tests: seq<ReTest>, lines: seq<string>)
    requires |lines| > 0
    ensures ReStep(lang, tests, lines[0]).Failure? <==> BadAt(tests, lines, 0)
    ensures ReStep(lang, tests, lines[0]).Success? ==>
      (|ReStep(lang, tests, lines[0]).value| == 0 <==> |tests| == 0 && !Opens(lines[0]))
  {
  }

  lemma BadShift(tests: seq<ReTest>, next: seq<ReTest>, lines: seq<string>, k: nat)
    requires k + 1 < |lines|
    requires |next| == 0 <==> |tests| == 0 && !Opens(lines[0])
    ensures BadAt(tests, lines, k + 1) <==> BadAt(next, lines[1..], k)
  {
    var tail := lines[1..];
    assert lines[k + 1] == tail[k];
    assert Closed(tests, lines, k + 1) <==> Closed(next, tail, k) by {
      assert forall j :: 0 <= j < k ==> tail[j] == lines[j + 1];
      if Closed(next, tail, k) {
        forall j | 0 <= j < k + 1 ensures !Opens(lines[j]) {
          if j > 0 { assert lines[j] == tail[j - 1]; }
        }
      }
    }
  }

  /** Reading the post raises exactly when some line raises. */
  lemma {:induction false} ReadTestsFails(lang: string, tests: seq<ReTest>, lines: seq<string>)
    ensures ReadTests(lang, tests, lines).Failure? <==> exists k :: 0 <= k < |lines| && BadAt(tests, lines, k)
    decreases |lines|
  {
    if |lines| > 0 {
      ReStepFails(lang, tests, lines);
      var s := ReStep(lang, tests, lines[0]);
      if s.Success? {
        ReadTestsFails(lang, s.value, lines[1..]);
        BadShiftAll(tests, s.value, lines);
      }
    }
  }

  /** After a line that does not fail, the later lines fail as they did. */
  lemma BadShiftAll(tests: seq<ReTest>, next: seq<ReTest>, lines: seq<string>)
    requires |lines| > 0 && !BadAt(tests, lines, 0)
    requires |next| == 0 <==> |tests| == 0 && !Opens(lines[0])
    ensures (exists k :: 0 <= k < |lines| && BadAt(tests, lines, k))
        <==> (exists k :: 0 <= k < |lines[1..]| && BadAt(next, lines[1..], k))
  {
    if exists k :: 0 <= k < |lines| && BadAt(tests, lines, k) {
      var k :| 0 <= k < |lines| && BadAt(tests, lines, k);
      BadLater(tests, next, lines, k);
    }
    if exists k :: 0 <= k < |lines[1..]| && BadAt(next, lines[1..], k) {
      var k :| 0 <= k < |lines[1..]| && BadAt(next, lines[1..], k);
      BadEarlier(tests, next, lines, k);
    }
  }

  lemma BadLater(tests: seq<ReTest>, next: seq<ReTest>, lines: seq<string>, k: nat)
    requires 0 < k < |lines| && BadAt(tests, lines, k)
    requires |next| == 0 <==> |tests| == 0 && !Opens(lines[0])
    ensures k - 1 < |lines[1..]| && BadAt(next, lines[1..], k - 1)
  {
    BadShift(tests, next, lines, k - 1);
  }

  lemma BadEarlier(tests: seq<ReTest>, next: seq<ReTest>, lines: seq<string>, k: nat)
    requires |lines| > 0 && k < |lines[1..]| && BadAt(next, lines[1..], k)
    requires |next| == 0 <==> |tests| == 0 && !Opens(lines[0])
    ensures k + 1 < |lines| && BadAt(tests, lines, k + 1)
  {
    BadShift(tests, next, lines, k);
  }
}
