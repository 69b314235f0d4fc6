/** The pitch-numbering migrator of `campbot/processors/ltagmigrator.py`:
    the grammar of the leading `L#`/`R#` cell of a row, the `LTagNumbering`
    state machine that rewrites it, and `LtagMigrator.convert`, which runs it
    over every row and rolls the whole text back when anything was
    unsupported. */
module LtagNumbering {
  import opened Wrappers
  import opened Text

  // ---------------------------------------------------------------------
  // The grammar of the leading cell

  datatype RowType = L | R
  {
    function Char(): char { if this == L then 'L' else 'R' }
  }

  /** What follows `L#`: a header `=`, free text `~`, a range, or a single
      value. Offsets and labels are kept as the text they matched; a label
      that did not match is the empty string. */
  datatype Cell =
    | Header
    | FreeText
    | Range(first: string, firstLabel: string, last: string)
    | Single(value: string, labelText: string)

  /** A parsed leading cell: its type, its body, whether a `!` local
      reference follows, and the row index where the match ends. */
  datatype Leading = Leading(typ: RowType, cell: Cell, localRef: bool, end: nat)

  /** Characters a label may start with: `[a-zA-Z'"]` (or the lone `_`). */
  predicate IsLabelStart(c: char) { IsAsciiLetter(c) || c == '\'' || c == '"' }

  /** Characters of a label after its first one: `[a-zA-Z'"\d_]`. */
  predicate IsLabelChar(c: char) { IsLabelStart(c) || IsDigit(c) || c == '_' }

  /** Characters the grammar can consume after `L#`. */
  predicate IsCellChar(c: char)
  {
    IsLabelChar(c) || c == '+' || c == '-' || c == '!' || c == '=' || c == '~'
  }

  function LabelRun(s: string, i: nat): (e: nat)
    ensures i <= |s| ==> i <= e <= |s|
    ensures forall k :: i <= k < e ==> k < |s| && IsLabelChar(s[k])
    decreases |s| - i
  {
    if i < |s| && IsLabelChar(s[i]) then LabelRun(s, i + 1) else i
  }

  /** End of the (optional) label starting at `i`; `i` itself when there is none. */
  function LabelEnd(s: string, i: nat): (e: nat)
    ensures i <= |s| ==> i <= e <= |s|
    ensures forall k :: i <= k < e ==> k < |s| && IsLabelChar(s[k])
  {
    if i < |s| && IsLabelStart(s[i]) then LabelRun(s, i + 1)
    else if i < |s| && s[i] == '_' then i + 1
    else i
  }

  /** End of an offset `[+\-]?\d*` starting at `i`. */
  function OffsetEnd(s: string, i: nat): (e: nat)
    ensures i <= |s| ==> i <= e <= |s|
    ensures forall k :: i <= k < e ==> k < |s| && (IsDigit(s[k]) || s[k] == '+' || s[k] == '-')
  {
    if i < |s| && (s[i] == '+' || s[i] == '-') then DigitRun(s, i + 1) else DigitRun(s, i)
  }

  /** Position of the `-` of a range whose first offset ends at `d`, when
      the optional label and the dash follow; -1 otherwise. */
  function DashAfter(s: string, d: nat): (r: int)
    ensures r >= 0 ==> d <= r < |s| && s[r] == '-'
    ensures r >= 0 ==> forall k :: d <= k < r ==> IsLabelChar(s[k])
  {
    if d <= |s| && LabelEnd(s, d) < |s| && s[LabelEnd(s, d)] == '-' then LabelEnd(s, d) else -1
  }

  /** The split of a range cell: the first offset is `s[2..firstEnd]`, its
      label `s[firstEnd..dash]`. */
  datatype RangeSplit = RangeSplit(firstEnd: nat, dash: nat)

  /** The range alternative, tried first: a signed first offset, then the
      same without its sign (which only succeeds when the cell starts with `-`). */
  function RangeAt(s: string): (r: Option<RangeSplit>)
    requires |s| >= 2
    ensures r.Some? ==> 2 <= r.value.firstEnd <= r.value.dash < |s| && s[r.value.dash] == '-'
    ensures r.Some? ==> forall k :: 2 <= k < r.value.dash ==> IsCellChar(s[k])
  {
    if 2 < |s| && (s[2] == '+' || s[2] == '-') && DashAfter(s, DigitRun(s, 3)) >= 0 then
      Some(RangeSplit(DigitRun(s, 3), DashAfter(s, DigitRun(s, 3))))
    else if DashAfter(s, DigitRun(s, 2)) >= 0 then
      Some(RangeSplit(DigitRun(s, 2), DashAfter(s, DigitRun(s, 2))))
    else None
  }

  function TypeOf(c: char): RowType { if c == 'L' then L else R }

  /** The start of the row when it begins with `L#` or `R#`. */
  predicate IsLtagRow(row: string)
  {
    StartsWith(row, "L#") || StartsWith(row, "R#")
  }

  function Finish(s: string, typ: RowType, cell: Cell, e: nat): (r: Leading)
    requires e <= |s|
    ensures e <= r.end <= |s|
  {
    if e < |s| && s[e] == '!' then Leading(typ, cell, true, e + 1) else Leading(typ, cell, false, e)
  }

  /** The range alternative once its split is known. */
  function RangeLeading(s: string, typ: RowType, rs: RangeSplit): (r: Leading)
    requires 2 <= rs.firstEnd <= rs.dash < |s| && s[rs.dash] == '-'
    requires forall k :: 2 <= k < rs.dash ==> IsCellChar(s[k])
    ensures r.cell.Range? && rs.dash < r.end <= |s|
    ensures forall k :: 2 <= k < r.end ==> IsCellChar(s[k])
  {
    var e := OffsetEnd(s, rs.dash + 1);
    Finish(s, typ, Range(s[2..rs.firstEnd], s[rs.firstEnd..rs.dash], s[rs.dash + 1..e]), e)
  }

  /** The single-value alternative `\+?\d*` followed by an optional label. */
  function SingleLeading(s: string, typ: RowType): (r: Leading)
    requires |s| >= 2
    ensures r.cell.Single? && 2 <= r.end <= |s|
    ensures forall k :: 2 <= k < r.end ==> IsCellChar(s[k])
  {
    var v := DigitRun(s, if 2 < |s| && s[2] == '+' then 3 else 2);
    Finish(s, typ, Single(s[2..v], s[v..LabelEnd(s, v)]), LabelEnd(s, v))
  }

  /** The `^`-anchored match of the numbering pattern at the start of the row.
      It never reaches past a character the grammar does not use. */
  function ParseLeading(s: string): (r: Option<Leading>)
    ensures r.Some? <==> IsLtagRow(s)
    ensures r.Some? ==> 2 <= r.value.end <= |s|
    ensures r.Some? ==> r.value.typ.Char() == s[0] && s[1] == '#'
    ensures r.Some? ==> forall k :: 2 <= k < r.value.end ==> IsCellChar(s[k])
  {
    if !IsLtagRow(s) then None
    else
      var typ := TypeOf(s[0]);
      if 2 < |s| && s[2] == '=' then Some(Leading(typ, Header, false, 3))
      else if 2 < |s| && s[2] == '~' then Some(Leading(typ, FreeText, false, 3))
      else match RangeAt(s)
        case Some(rs) => Some(RangeLeading(s, typ, rs))
        case None => Some(SingleLeading(s, typ))
  }

  // ---------------------------------------------------------------------
  // The numbering state machine, as values

  datatype Counters = Counters(l: nat, r: nat)
  {
    function Get(t: RowType): nat { if t == L then l else r }

    function Set(t: RowType, v: nat): (c: Counters)
      ensures c.Get(t) == v
      ensures forall u :: u != t ==> c.Get(u) == Get(u)
    {
      if t == L then this.(l := v) else this.(r := v)
    }
  }

  /** The fields of an `LTagNumbering` object. */
  datatype Numbering = Numbering(value: Counters, supported: bool, allowLabels: bool, containsLabel: bool)

  /** A fresh `LTagNumbering()`. */
  const Initial: Numbering := Numbering(Counters(0, 0), true, true, false)

  /** The new state and the rewritten row, or the exception that escaped. */
  datatype Step = Step(state: Numbering, out: Result<string>)

  /** The assertion path: the switch goes off and the row comes back as it was. */
  function Unsupported(st: Numbering, row: string): Step
  {
    Step(st.(supported := false), Success(row))
  }

  function Rendered(t: RowType, text: string, row: string, end: nat): string
    requires end <= |row|
  {
    [t.Char(), '#'] + text + row[end..]
  }

  /** The first offset of a range as it is printed: an empty or `+` offset
      counts as `+1`, a relative one is added to the counter and printed
      with `str`, and digits are kept as written; `None` is a failed assertion. */
  function FirstOffset(counter: nat, first: string): (r: Option<string>)
    ensures r.Some? ==> AllDigits(r.value)
  {
    var f := if first == "" || first == "+" then "+1" else first;
    if f[0] == '+' then
      if AllDigits(f[1..]) then Some(NatToString(counter + DigitsValue(f[1..]))) else None
    else if AllDigits(f) then Some(f)
    else None
  }

  /** The last offset of a range as it is printed, relative to the first
      pitch `base`; `None` is a failed assertion. */
  function LastOffset(base: nat, last: string): (r: Option<string>)
    requires |last| > 0
    ensures r.Some? ==> AllDigits(r.value)
  {
    if last[0] == '+' then
      if AllDigits(last[1..]) then Some(NatToString(base + DigitsValue(last[1..]))) else None
    else if AllDigits(last) then Some(last)
    else None
  }

  /** `handle_multipitch`. The counter is set to the first pitch before the
      last offset is looked at, so a failure after that keeps this update. */
  function RangeStep(st: Numbering, row: string, lead: Leading, isFirstCell: bool): Step
    requires lead.cell.Range? && lead.end <= |row|
  {
    var t := lead.typ;
    var Range(first, labelText, last) := lead.cell;
    if labelText != "" then Unsupported(st, row)
    else match FirstOffset(st.value.Get(t), first)
      case None => Unsupported(st, row)
      case Some(ftext) =>
        var st1 := st.(value := st.value.Set(t, DigitsValue(ftext)));
        if |last| == 0 then Step(st1, Failure("IndexError"))
        else match LastOffset(DigitsValue(ftext), last)
          case None => Unsupported(st1, row)
          case Some(ltext) =>
            var st2 := if isFirstCell then st1.(value := st1.value.Set(t, DigitsValue(ltext))) else st1;
            Step(st2, Success(Rendered(t, ftext + "-" + ltext, row, lead.end)))
  }

  /** `handle_monopitch` with `handle_monopitch_value` and `handle_monopitch_offset`. */
  function SingleStep(st: Numbering, row: string, lead: Leading, rowType: RowType, isFirstCell: bool): Step
    requires lead.cell.Single? && lead.end <= |row|
  {
    var t := lead.typ;
    var Single(value, labelText) := lead.cell;
    if labelText != "" then Unsupported(st, row)
    else if AllDigits(value) then
      var st1 := if isFirstCell then st.(value := st.value.Set(t, DigitsValue(value))) else st;
      Step(st1, Success(Rendered(t, value, row, lead.end)))
    else if |value| > 0 && value[0] != '+' then Unsupported(st, row)
    else
      var digits := if |value| <= 1 then "1" else value[1..];
      if !AllDigits(digits) then Unsupported(st, row)
      else
        var previous := st.value.Get(if isFirstCell then t else rowType);
        var st1 := st.(allowLabels := false);
        if st1.containsLabel then Unsupported(st1, row)
        else
          var v := if isFirstCell then previous + DigitsValue(digits) else previous;
          var st2 := if isFirstCell then st1.(value := st1.value.Set(t, v)) else st1;
          Step(st2, Success(Rendered(t, NatToString(v), row, lead.end)))
  }

  /** `LTagNumbering.compute`: the switch only ever goes off, a successful
      call while the switch is off returns the row unchanged, and only the
      text up to the end of the leading cell can change. */
  function ComputeSpec(st: Numbering, row: string, rowType: RowType, isFirstCell: bool): (r: Step)
    ensures r.state.supported ==> st.supported
    ensures r.out.Success? && !r.state.supported ==> r.out.value == row
    ensures r.out.Failure? ==> st.supported && ParseLeading(row).Some?
  {
    if |row| == 0 || !st.supported then Step(st, Success(row))
    else match ParseLeading(row)
      case None => Step(st, Success(row))
      case Some(lead) =>
        if lead.localRef then Unsupported(st, row)
        else match lead.cell
          case Header => Step(st, Success(row))
          case FreeText => Step(st, Success(row))
          case Range(_, _, _) => RangeStep(st, row, lead, isFirstCell)
          case Single(_, _) => SingleStep(st, row, lead, rowType, isFirstCell)
  }

  /** What `convert` does with one row. */
  function RowStep(st: Numbering, row: string): Step
  {
    if IsLtagRow(row) then ComputeSpec(st, row, TypeOf(row[0]), true) else Step(st, Success(row))
  }

  datatype Run = Run(state: Numbering, out: Result<seq<string>>)

  /** One more row of `convert`'s loop; an exception stops the loop. */
  function Next(prev: Run, row: string): Run
  {
    if prev.out.Failure? then prev
    else
      var step := RowStep(prev.state, row);
      if step.out.Failure? then Run(step.state, Failure(step.out.error))
      else Run(step.state, Success(prev.out.value + [step.out.value]))
  }

  /** The rows produced by `convert`'s loop over `rows`, from state `st`. */
  function RunRows(st: Numbering, rows: seq<string>): (r: Run)
    ensures r.out.Success? ==> |r.out.value| == |rows|
    ensures r.state.supported ==> st.supported
  {
    if |rows| == 0 then Run(st, Success([])) else Next(RunRows(st, rows[..|rows| - 1]), rows[|rows| - 1])
  }

  lemma RunRowsPrefix(st: Numbering, rows: seq<string>, i: nat)
    requires i < |rows|
    ensures RunRows(st, rows[..i + 1]) == Next(RunRows(st, rows[..i]), rows[i])
  {
    assert rows[..i + 1][..i] == rows[..i];
  }

  /** `LtagMigrator.convert`, as written. */
  function ConvertSpec(markdown: string): Result<string>
  {
    var run := RunRows(Initial, Split(markdown, "\n"));
    if run.out.Failure? then Failure(run.out.error)
    else if !run.state.supported then Success(markdown)
    else Success(Lines(run.out.value))
  }

  /** A row step as `compute`'s docstring describes it: an error, any
      error, leaves the row as it is and turns the switch off. */
  function RowStepCaught(st: Numbering, row: string): Step
  {
    var step := RowStep(st, row);
    if step.out.Failure? then Unsupported(step.state, row) else step
  }

  function RunRowsCaught(st: Numbering, rows: seq<string>): Run
  {
    if |rows| == 0 then Run(st, Success([]))
    else
      var prev := RunRowsCaught(st, rows[..|rows| - 1]);
      if prev.out.Failure? then prev
      else
        var step := RowStepCaught(prev.state, rows[|rows| - 1]);
        Run(step.state, Success(prev.out.value + [step.out.value]))
  }

  /** `LtagMigrator.convert` with the `IndexError` of an empty last offset
      caught like the failed assertions. */
  function ConvertIntended(markdown: string): string
  {
    var run := RunRowsCaught(Initial, Split(markdown, "\n"));
    if run.out.Failure? || !run.state.supported then markdown else Lines(run.out.value)
  }

  // ---------------------------------------------------------------------
  // The imperative object

  class LTagNumbering {
    var value: Counters
    var supported: bool
    var allowLabels: bool
    var containsLabel: bool

    function State(): Numbering
      reads this
    {
      Numbering(value, supported, allowLabels, containsLabel)
    }

    constructor ()
      ensures State() == Initial
    {
      value := Counters(0, 0);
      supported := true;
      allowLabels := true;
      containsLabel := false;
    }

    /** `compute`: rewrites the leading cell of `row`, updating the counters
        and the one-way switch; `Failure` is an exception that escapes. */
    method Compute(row: string, rowType: RowType, isFirstCell: bool) returns (r: Result<string>)
      modifies this
      ensures Step(State(), r) == ComputeSpec(old(State()), row, rowType, isFirstCell)
    {
      if |row| == 0 || !supported {
        return Success(row);
      }
      var parsed := ParseLeading(row);
      if parsed.None? {
        return Success(row);
      }
      var lead := parsed.value;
      if lead.localRef {
        supported := false;
        return Success(row);
      }
      match lead.cell {
        case Header =>
          r := Success(row);
        case FreeText =>
          r := Success(row);
        case Range(_, _, _) =>
          r := HandleRange(row, lead, isFirstCell);
        case Single(_, _) =>
          r := HandleSingle(row, lead, rowType, isFirstCell);
      }
    }

    /** The body of `convert`'s loop: `L#`/`R#` rows go through `compute`
        with their own type as the row type, on the first cell. */
    method ConvertRow(row: string) returns (r: Result<string>)
      modifies this
      ensures Step(State(), r) == RowStep(old(State()), row)
    {
      if IsLtagRow(row) {
        r := Compute(row, TypeOf(row[0]), true);
      } else {
        r := Success(row);
      }
    }

    /** `handle_multipitch`, with the assertion failures caught by `compute`. */
    method HandleRange(row: string, lead: Leading, isFirstCell: bool) returns (r: Result<string>)
      requires lead.cell.Range? && lead.end <= |row|
      modifies this
      ensures Step(State(), r) == RangeStep(old(State()), row, lead, isFirstCell)
    {
      var t := lead.typ;
      var Range(first, labelText, last) := lead.cell;
      if labelText != "" {
        supported := false;
        return Success(row);
      }
      var f := FirstOffset(value.Get(t), first);
      if f.None? {
        supported := false;
        return Success(row);
      }
      value := value.Set(t, DigitsValue(f.value));
      if |last| == 0 {
        return Failure("IndexError");
      }
      var l := LastOffset(value.Get(t), last);
      if l.None? {
        supported := false;
        return Success(row);
      }
      if isFirstCell {
        value := value.Set(t, DigitsValue(l.value));
      }
      r := Success(Rendered(t, f.value + "-" + l.value, row, lead.end));
    }

    /** `handle_monopitch`, `handle_monopitch_value` and `handle_monopitch_offset`. */
    method HandleSingle(row: string, lead: Leading, rowType: RowType, isFirstCell: bool) returns (r: Result<string>)
      requires lead.cell.Single? && lead.end <= |row|
      modifies this
      ensures Step(State(), r) == SingleStep(old(State()), row, lead, rowType, isFirstCell)
    {
      var t := lead.typ;
      var Single(v, labelText) := lead.cell;
      if labelText != "" {
        supported := false;
        return Success(row);
      }
      if AllDigits(v) {
        if isFirstCell {
          value := value.Set(t, DigitsValue(v));
        }
        return Success(Rendered(t, v, row, lead.end));
      }
      if |v| > 0 && v[0] != '+' {
        supported := false;
        return Success(row);
      }
      var digits := if |v| <= 1 then "1" else v[1..];
      if !AllDigits(digits) {
        supported := false;
        return Success(row);
      }
      var previous := value.Get(if isFirstCell then t else rowType);
      allowLabels := false;
      if containsLabel {
        supported := false;
        return Success(row);
      }
      var n := previous;
      if isFirstCell {
        n := n + DigitsValue(digits);
        value := value.Set(t, n);
      }
      r := Success(Rendered(t, NatToString(n), row, lead.end));
    }
  }

  /** `LtagMigrator.convert`: a fresh numbering per call, one `compute` per
      `L#`/`R#` row, and the input back unchanged when the switch went off. */
  method Convert(markdown: string) returns (r: Result<string>)
    ensures r == ConvertSpec(markdown)
  {
    var rows := Split(markdown, "\n");
    var numbering := new LTagNumbering();
    var result: seq<string> := [];
    var i := 0;
    while i < |rows|
      invariant 0 <= i <= |rows|
      invariant RunRows(Initial, rows[..i]) == Run(numbering.State(), Success(result))
    {
      RunRowsPrefix(Initial, rows, i);
      var out := numbering.ConvertRow(rows[i]);
      if out.Failure? {
        RunRowsFailurePersists(Initial, rows, i + 1);
        assert rows[..|rows|] == rows;
        return Failure(out.error);
      }
      result := result + [out.value];
      i := i + 1;
    }
    assert rows[..i] == rows;
    if !numbering.supported {
      return Success(markdown);
    }
    r := Success(Lines(result));
  }

  /** Once a row raised, so does the whole loop. */
  lemma {:induction false} RunRowsFailurePersists(st: Numbering, rows: seq<string>, k: nat)
    requires k <= |rows| && RunRows(st, rows[..k]).out.Failure?
    ensures RunRows(st, rows).out == RunRows(st, rows[..k]).out
    decreases |rows| - k
  {
    if k < |rows| {
      assert rows[..k + 1][..k] == rows[..k];
      RunRowsFailurePersists(st, rows, k + 1);
    } else {
      assert rows[..k] == rows;
    }
  }
}
