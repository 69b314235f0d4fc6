/** The conversions `LtagMigrator` carries as its own fixtures, and rows
    that make it raise, derived from the rules in `LtagRules`. Each vector
    is read off a chain of row steps: the rows, the numbering between them
    and the rows emitted. */
module LtagVectors {
  import opened Wrappers
  import opened Text
  import opened LtagNumbering
  import opened LtagRules

  // ---------------------------------------------------------------------
  // Chains of steps

  /** From `st`, the rows produce `outs` and leave the numbering in `final`. */
  predicate Chain(st: Numbering, rows: seq<string>, outs: seq<string>, final: Numbering)
    decreases |rows|
  {
    if |rows| == 0 then outs == [] && final == st
    else
      |outs| > 0 && RowStep(st, rows[0]).out == Success(outs[0])
      && Chain(RowStep(st, rows[0]).state, rows[1..], outs[1..], final)
  }

  lemma ChainCons(st: Numbering, row: string, out: string, next: Numbering,
                  rows: seq<string>, outs: seq<string>, final: Numbering)
    requires RowStep(st, row) == Step(next, Success(out)) && Chain(next, rows, outs, final)
    ensures Chain(st, [row] + rows, [out] + outs, final)
  {
    assert ([row] + rows)[1..] == rows;
    assert ([out] + outs)[1..] == outs;
  }

  lemma {:induction false} RunByChain(st: Numbering, rows: seq<string>, outs: seq<string>, final: Numbering)
    requires Chain(st, rows, outs, final)
    ensures RunRows(st, rows) == Run(final, Success(outs))
    decreases |rows|
  {
    if |rows| > 0 {
      var step := RowStep(st, rows[0]);
      RunByChain(step.state, rows[1..], outs[1..], final);
      RunCons(st, rows[0], step.state, outs[0], rows[1..], outs[1..], final);
      assert [rows[0]] + rows[1..] == rows;
      assert [outs[0]] + outs[1..] == outs;
    }
  }

  lemma RunCons(st: Numbering, row: string, next: Numbering, out: string,
                rows: seq<string>, outs: seq<string>, final: Numbering)
    requires RowStep(st, row) == Step(next, Success(out))
    requires RunRows(next, rows) == Run(final, Success(outs))
    ensures RunRows(st, [row] + rows) == Run(final, Success([out] + outs))
  {
    RunOne(st, row);
    RunRowsAppend(st, [row], rows);
  }

  lemma RunOne(st: Numbering, row: string)
    requires RowStep(st, row).out.Success?
    ensures RunRows(st, [row]) == Run(RowStep(st, row).state, Success([RowStep(st, row).out.value]))
  {
    assert [row][..0] == [];
    var empty: seq<string> := [];
    assert empty + [RowStep(st, row).out.value] == [RowStep(st, row).out.value];
  }

  predicate NoNewline(rows: seq<string>)
  {
    forall k :: 0 <= k < |rows| ==> '\n' !in rows[k]
  }

  /** A conversion that keeps the switch on, read off its chain. */
  lemma ConvertByChain(md: string, rows: seq<string>, outs: seq<string>, final: Numbering)
    requires |rows| > 0 && NoNewline(rows) && md == Lines(rows)
    requires Chain(Initial, rows, outs, final) && final.supported
    ensures ConvertSpec(md) == Success(Lines(outs))
  {
    SplitJoinChar(rows, '\n');
    RunByChain(Initial, rows, outs, final);
  }

  /** A conversion whose first rows turn the switch off, read off their chain. */
  lemma RollbackByChain(md: string, rows: seq<string>, prefix: seq<string>, outs: seq<string>, final: Numbering)
    requires 0 < |prefix| <= |rows| && rows[..|prefix|] == prefix && NoNewline(rows) && md == Lines(rows)
    requires Chain(Initial, prefix, outs, final) && !final.supported
    ensures ConvertSpec(md) == Success(md)
  {
    SplitJoinChar(rows, '\n');
    RunByChain(Initial, prefix, outs, final);
    Rollback(md, |prefix| - 1);
  }

  lemma LinesCons(a: string, rest: seq<string>)
    requires |rest| > 0
    ensures Lines([a] + rest) == a + "\n" + Lines(rest)
  {
    assert ([a] + rest)[1..] == rest;
  }

  /** `+N` as an offset. */
  lemma PlusOffset(n: string)
    requires AllDigits(n)
    ensures var v := "+" + n;
            IsPlainOffset(v) && !AllDigits(v) && v[1..] == n && v != "" && v != "+"
            && Increment(v) == DigitsValue(n)
  {
    var v := "+" + n;
    assert v[1..] == n;
    assert !IsDigit(v[0]);
  }

  lemma OneDigitValue(c: char, n: nat)
    requires n < 10 && c == DigitChar(n)
    ensures AllDigits([c]) && DigitsValue([c]) == n && NatToString(n) == [c]
  {
    assert ValueOf([c], 0) == 0;
  }

  /** The numbering once a relative row has been seen, with `L` at `n`. */
  function St(n: nat): Numbering { Numbering(Counters(n, 0), true, false, false) }

  // ---------------------------------------------------------------------
  // Single rows of the fixtures

  lemma HeaderRow(st: Numbering)
    ensures RowStep(st, "L#=") == Step(st, Success("L#="))
  {
    HeaderAndFreeTextKept(st, L, '=', "");
    assert Head(L) + ['='] + "" == "L#=";
  }

  lemma FreeTextRow(st: Numbering)
    ensures RowStep(st, "L#~") == Step(st, Success("L#~"))
  {
    HeaderAndFreeTextKept(st, L, '~', "");
    assert Head(L) + ['~'] + "" == "L#~";
  }

  /** `L#` counts one on. */
  lemma BareRow(st: Numbering, n: nat, c: char)
    requires 0 < n < 10 && c == DigitChar(n)
    requires st.supported && !st.containsLabel && st.value == Counters(n - 1, 0)
    ensures RowStep(st, "L#") == Step(St(n), Success(['L', '#', c]))
  {
    SingleEmptyRule(st, L, "");
    OneDigitValue(c, n);
    assert Head(L) + "" == "L#";
    assert Head(L) + NatToString(n) + "" == ['L', '#', c];
  }

  lemma TenthRow(st: Numbering)
    requires st.supported && !st.containsLabel && st.value == Counters(9, 0)
    ensures RowStep(st, "L#") == Step(St(10), Success("L#10"))
  {
    SingleEmptyRule(st, L, "");
    assert Head(L) + "" == "L#";
    OneDigitValue('1', 1);
    assert NatToString(10) == NatToString(1) + "0";
    assert Head(L) + NatToString(10) + "" == "L#10";
  }

  /** `L#+d` adds the digit `d`. */
  lemma PlusRow(st: Numbering, d: char, n: nat, c: char)
    requires st.supported && !st.containsLabel && st.value.r == 0
    requires IsDigit(d) && n == st.value.l + DigitValue(d) && n < 10 && c == DigitChar(n)
    ensures RowStep(st, ['L', '#', '+', d]) == Step(St(n), Success(['L', '#', c]))
  {
    assert ValueOf([d], 0) == 0;
    assert AllDigits([d]) && DigitsValue([d]) == DigitValue(d);
    SinglePlusRule(st, L, [d], "");
    OneDigitValue(c, n);
    assert Head(L) + "+" + [d] + "" == ['L', '#', '+', d];
    assert Head(L) + NatToString(n) + "" == ['L', '#', c];
  }

  /** `L#+` adds one. */
  lemma BarePlusRow(st: Numbering, n: nat, c: char)
    requires 0 < n < 10 && c == DigitChar(n)
    requires st.supported && !st.containsLabel && st.value == Counters(n - 1, 0)
    ensures RowStep(st, "L#+") == Step(St(n), Success(['L', '#', c]))
  {
    SinglePlusRule(st, L, "", "");
    OneDigitValue(c, n);
    assert Head(L) + "+" + "" + "" == "L#+";
    assert Head(L) + NatToString(n) + "" == ['L', '#', c];
  }

  /** `L#d` sets the counter to the digit `d`. */
  lemma AbsoluteRow(st: Numbering, d: char)
    requires st.supported && IsDigit(d) && st.value.r == 0
    ensures RowStep(st, ['L', '#', d]) == Step(st.(value := Counters(DigitValue(d), 0)), Success(['L', '#', d]))
  {
    assert ValueOf([d], 0) == 0;
    assert AllDigits([d]) && DigitsValue([d]) == DigitValue(d);
    SingleAbsoluteRule(st, L, [d], "");
    assert Head(L) + [d] + "" == ['L', '#', d];
  }

  // ---------------------------------------------------------------------
  // `L#=\nL#\nL#|L#bis\nL#~`: headers and free text keep the counters, a
  // bare row counts on, and the `L#bis` after `|` is not the leading cell.

  lemma SecondBarRow()
    ensures RowStep(St(1), "L#|L#bis") == Step(St(2), Success("L#2|L#bis"))
  {
    SingleEmptyRule(St(1), L, "|L#bis");
    OneDigitValue('2', 2);
    assert Head(L) + "|L#bis" == "L#|L#bis";
    assert Head(L) + "2" + "|L#bis" == "L#2|L#bis";
  }

  const HeaderRows := ["L#=", "L#", "L#|L#bis", "L#~"]
  const HeaderOuts := ["L#=", "L#1", "L#2|L#bis", "L#~"]

  lemma HeaderText()
    ensures Lines(HeaderRows) == "L#=\nL#\nL#|L#bis\nL#~" && NoNewline(HeaderRows)
  {
    LinesCons("L#=", ["L#", "L#|L#bis", "L#~"]);
    LinesCons("L#", ["L#|L#bis", "L#~"]);
    LinesCons("L#|L#bis", ["L#~"]);
  }

  lemma HeaderOutText()
    ensures Lines(HeaderOuts) == "L#=\nL#1\nL#2|L#bis\nL#~"
  {
    LinesCons("L#=", ["L#1", "L#2|L#bis", "L#~"]);
    LinesCons("L#1", ["L#2|L#bis", "L#~"]);
    LinesCons("L#2|L#bis", ["L#~"]);
  }

  lemma HeaderChain()
    ensures Chain(Initial, HeaderRows, HeaderOuts, St(2))
  {
    FreeTextRow(St(2));
    ChainCons(St(2), "L#~", "L#~", St(2), [], [], St(2));
    SecondBarRow();
    ChainCons(St(1), "L#|L#bis", "L#2|L#bis", St(2), ["L#~"], ["L#~"], St(2));
    BareRow(Initial, 1, '1');
    ChainCons(Initial, "L#", "L#1", St(1), ["L#|L#bis", "L#~"], ["L#2|L#bis", "L#~"], St(2));
    HeaderRow(Initial);
    ChainCons(Initial, "L#=", "L#=", Initial, ["L#", "L#|L#bis", "L#~"], ["L#1", "L#2|L#bis", "L#~"], St(2));
  }

  /** Fixture of `LtagMigrator`. */
  lemma HeaderVector()
    ensures ConvertSpec("L#=\nL#\nL#|L#bis\nL#~") == Success("L#=\nL#1\nL#2|L#bis\nL#~")
  {
    HeaderText();
    HeaderOutText();
    HeaderChain();
    ConvertByChain("L#=\nL#\nL#|L#bis\nL#~", HeaderRows, HeaderOuts, St(2));
  }

  // ---------------------------------------------------------------------
  // `L#=\nL#\nL#bis|L#\nL#~`: the label on the third row rolls the whole
  // conversion back.

  lemma LabelRow()
    ensures RowStep(St(1), "L#bis|L#") == Unsupported(St(1), "L#bis|L#")
  {
    LabelShape();
    LabelUnsupported(St(1), L, "", "bis", "|L#");
  }

  lemma LabelShape()
    ensures IsLabel("bis") && Boundary("|L#") && IsPlainOffset("")
    ensures Head(L) + "" + "bis" + "|L#" == "L#bis|L#"
  {
    var lab := "bis";
    assert IsLabelStart(lab[0]) && IsLabelChar(lab[1]) && IsLabelChar(lab[2]);
  }

  const LabelRows := ["L#=", "L#", "L#bis|L#", "L#~"]

  lemma LabelText()
    ensures Lines(LabelRows) == "L#=\nL#\nL#bis|L#\nL#~" && NoNewline(LabelRows)
    ensures LabelRows[..3] == ["L#=", "L#", "L#bis|L#"]
  {
    LinesCons("L#=", ["L#", "L#bis|L#", "L#~"]);
    LinesCons("L#", ["L#bis|L#", "L#~"]);
    LinesCons("L#bis|L#", ["L#~"]);
  }

  lemma LabelChain()
    ensures Chain(Initial, ["L#=", "L#", "L#bis|L#"], ["L#=", "L#1", "L#bis|L#"], St(1).(supported := false))
  {
    var off := St(1).(supported := false);
    LabelRow();
    ChainCons(St(1), "L#bis|L#", "L#bis|L#", off, [], [], off);
    BareRow(Initial, 1, '1');
    ChainCons(Initial, "L#", "L#1", St(1), ["L#bis|L#"], ["L#bis|L#"], off);
    HeaderRow(Initial);
    ChainCons(Initial, "L#=", "L#=", Initial, ["L#", "L#bis|L#"], ["L#1", "L#bis|L#"], off);
  }

  /** Fixture of `LtagMigrator`. */
  lemma LabelVector()
    ensures ConvertSpec("L#=\nL#\nL#bis|L#\nL#~") == Success("L#=\nL#\nL#bis|L#\nL#~")
  {
    LabelText();
    LabelChain();
    RollbackByChain("L#=\nL#\nL#bis|L#\nL#~", LabelRows, ["L#=", "L#", "L#bis|L#"], ["L#=", "L#1", "L#bis|L#"],
                    St(1).(supported := false));
  }

  // ---------------------------------------------------------------------
  // `L#\nL#+2\nL#\nL#6\nL#+2\nL#+\nL#`: offsets and absolute values.

  const OffsetRows := ["L#", "L#+2", "L#", "L#6", "L#+2", "L#+", "L#"]
  const OffsetOuts := ["L#1", "L#3", "L#4", "L#6", "L#8", "L#9", "L#10"]

  lemma OffsetRowsPlain()
    ensures NoNewline(OffsetRows)
  {
  }

  lemma OffsetChainTail()
    ensures Chain(St(6), ["L#+2", "L#+", "L#"], ["L#8", "L#9", "L#10"], St(10))
  {
    TenthRow(St(9));
    ChainCons(St(9), "L#", "L#10", St(10), [], [], St(10));
    BarePlusRow(St(8), 9, '9');
    ChainCons(St(8), "L#+", "L#9", St(9), ["L#"], ["L#10"], St(10));
    PlusRow(St(6), '2', 8, '8');
    ChainCons(St(6), "L#+2", "L#8", St(8), ["L#+", "L#"], ["L#9", "L#10"], St(10));
  }

  lemma OffsetChain()
    ensures Chain(Initial, OffsetRows, OffsetOuts, St(10))
  {
    OffsetChainTail();
    AbsoluteRow(St(4), '6');
    assert St(4).(value := Counters(6, 0)) == St(6);
    ChainCons(St(4), "L#6", "L#6", St(6), ["L#+2", "L#+", "L#"], ["L#8", "L#9", "L#10"], St(10));
    BareRow(St(3), 4, '4');
    ChainCons(St(3), "L#", "L#4", St(4), ["L#6", "L#+2", "L#+", "L#"], ["L#6", "L#8", "L#9", "L#10"], St(10));
    PlusRow(St(1), '2', 3, '3');
    ChainCons(St(1), "L#+2", "L#3", St(3), ["L#", "L#6", "L#+2", "L#+", "L#"], ["L#4", "L#6", "L#8", "L#9", "L#10"], St(10));
    BareRow(Initial, 1, '1');
    ChainCons(Initial, "L#", "L#1", St(1), ["L#+2", "L#", "L#6", "L#+2", "L#+", "L#"],
              ["L#3", "L#4", "L#6", "L#8", "L#9", "L#10"], St(10));
  }

  /** Fixture of `LtagMigrator`, `L#\nL#+2\nL#\nL#6\nL#+2\nL#+\nL#`,
      written as its rows. */
  lemma OffsetVector()
    ensures ConvertSpec(Lines(OffsetRows)) == Success(Lines(OffsetOuts))
  {
    OffsetRowsPlain();
    OffsetChain();
    ConvertByChain(Lines(OffsetRows), OffsetRows, OffsetOuts, St(10));
  }

  // ---------------------------------------------------------------------
  // `L#\nL#+1-+1\nL#-+1` and `L#-+7 | 5c\nL#`: ranges.

  /** The values of the ranges below, from `StartValue` and `EndValue`. */
  lemma RangeValues()
    ensures StartValue(1, "+1") == 2 && EndValue(2, "+1") == 3
    ensures StartValue(3, "") == 4 && EndValue(4, "+1") == 5
    ensures StartValue(0, "") == 1 && EndValue(1, "+7") == 8
    ensures Shown("+1", 2) == "2" && Shown("+1", 3) == "3" && Shown("", 4) == "4"
    ensures Shown("+1", 5) == "5" && Shown("", 1) == "1" && Shown("+7", 8) == "8"
  {
    PlusOffset("1");
    PlusOffset("7");
    One();
    OneDigitValue('7', 7);
  }

  lemma PlusRangeShape()
    ensures Boundary("") && St(1).value.Get(L) == 1 && St(1).(value := St(1).value.Set(L, 3)) == St(3)
    ensures Head(L) + "+1" + "-" + "+1" + "" == "L#+1-+1"
    ensures Head(L) + "2" + "-" + "3" + "" == "L#2-3"
  {
  }

  lemma PlusRangeRow()
    ensures RowStep(St(1), "L#+1-+1") == Step(St(3), Success("L#2-3"))
  {
    PlusOffset("1");
    RangeValues();
    PlusRangeShape();
    RangeRule(St(1), L, "+1", "+1", "");
  }

  lemma NextRangeShape()
    ensures Boundary("") && St(3).value.Get(L) == 3 && St(3).(value := St(3).value.Set(L, 5)) == St(5)
    ensures Head(L) + "" + "-" + "+1" + "" == "L#-+1"
    ensures Head(L) + "4" + "-" + "5" + "" == "L#4-5"
  {
  }

  lemma NextRangeRow()
    ensures RowStep(St(3), "L#-+1") == Step(St(5), Success("L#4-5"))
  {
    PlusOffset("1");
    RangeValues();
    NextRangeShape();
    RangeRule(St(3), L, "", "+1", "");
  }

  const RangeRows := ["L#", "L#+1-+1", "L#-+1"]
  const RangeOuts := ["L#1", "L#2-3", "L#4-5"]

  lemma RangeText()
    ensures Lines(RangeRows) == "L#\nL#+1-+1\nL#-+1" && NoNewline(RangeRows)
    ensures Lines(RangeOuts) == "L#1\nL#2-3\nL#4-5"
  {
    LinesCons("L#", ["L#+1-+1", "L#-+1"]);
    LinesCons("L#+1-+1", ["L#-+1"]);
    LinesCons("L#1", ["L#2-3", "L#4-5"]);
    LinesCons("L#2-3", ["L#4-5"]);
  }

  lemma RangeChain()
    ensures Chain(Initial, RangeRows, RangeOuts, St(5))
  {
    NextRangeRow();
    ChainCons(St(3), "L#-+1", "L#4-5", St(5), [], [], St(5));
    PlusRangeRow();
    ChainCons(St(1), "L#+1-+1", "L#2-3", St(3), ["L#-+1"], ["L#4-5"], St(5));
    BareRow(Initial, 1, '1');
    ChainCons(Initial, "L#", "L#1", St(1), ["L#+1-+1", "L#-+1"], ["L#2-3", "L#4-5"], St(5));
  }

  /** Fixture of `LtagMigrator`. */
  lemma RangeVector()
    ensures ConvertSpec("L#\nL#+1-+1\nL#-+1") == Success("L#1\nL#2-3\nL#4-5")
  {
    RangeText();
    RangeChain();
    ConvertByChain("L#\nL#+1-+1\nL#-+1", RangeRows, RangeOuts, St(5));
  }

  /** After the range the labels are still allowed: only single relative
      values forbid them. */
  const AfterRange := Numbering(Counters(8, 0), true, true, false)

  lemma FirstRangeShape()
    ensures Boundary(" | 5c")
    ensures Head(L) + "" + "-" + "+7" + " | 5c" == "L#-+7 | 5c"
    ensures Head(L) + "1" + "-" + "8" + " | 5c" == "L#1-8 | 5c"
  {
  }

  lemma FirstRangeRow()
    ensures RowStep(Initial, "L#-+7 | 5c") == Step(AfterRange, Success("L#1-8 | 5c"))
  {
    RangeValues();
    PlusOffset("7");
    FirstRangeShape();
    RangeRule(Initial, L, "", "+7", " | 5c");
  }

  lemma TrailingTextChain()
    ensures Chain(Initial, ["L#-+7 | 5c", "L#"], ["L#1-8 | 5c", "L#9"], St(9))
  {
    BareRow(AfterRange, 9, '9');
    ChainCons(AfterRange, "L#", "L#9", St(9), [], [], St(9));
    FirstRangeRow();
    ChainCons(Initial, "L#-+7 | 5c", "L#1-8 | 5c", AfterRange, ["L#"], ["L#9"], St(9));
  }

  lemma TrailingTextText()
    ensures Lines(["L#-+7 | 5c", "L#"]) == "L#-+7 | 5c\nL#" && NoNewline(["L#-+7 | 5c", "L#"])
    ensures Lines(["L#1-8 | 5c", "L#9"]) == "L#1-8 | 5c\nL#9"
  {
    LinesCons("L#-+7 | 5c", ["L#"]);
    LinesCons("L#1-8 | 5c", ["L#9"]);
  }

  /** Fixture of `LtagMigrator`: the text after the leading cell is kept. */
  lemma TrailingTextVector()
    ensures ConvertSpec("L#-+7 | 5c\nL#") == Success("L#1-8 | 5c\nL#9")
  {
    TrailingTextText();
    TrailingTextChain();
    ConvertByChain("L#-+7 | 5c\nL#", ["L#-+7 | 5c", "L#"], ["L#1-8 | 5c", "L#9"], St(9));
  }

  // ---------------------------------------------------------------------
  // Rows that raise

  /** `L#5-` and `L#-` escape `convert` with an `IndexError`. */
  lemma EmptyLastVectors()
    ensures ConvertSpec("L#5-") == Failure("IndexError")
    ensures ConvertSpec("L#-") == Failure("IndexError")
  {
    EmptyLastAfterFive();
    EmptyLastAlone();
  }

  lemma EmptyLastAfterFive()
    ensures ConvertSpec("L#5-") == Failure("IndexError")
  {
    SplitCharAbsent("L#5-", '\n');
    OneDigitValue('5', 5);
    EmptyLastOffsetRaises(Initial, L, "5", "");
    assert Head(L) + "5" + "-" + "" == "L#5-";
    assert ["L#5-"][..0] == [];
  }

  lemma EmptyLastAlone()
    ensures ConvertSpec("L#-") == Failure("IndexError")
  {
    SplitCharAbsent("L#-", '\n');
    EmptyLastOffsetRaises(Initial, L, "", "");
    assert Head(L) + "" + "-" + "" == "L#-";
    assert ["L#-"][..0] == [];
  }

  /** With the error caught, `L#5-` comes back unchanged. */
  lemma EmptyLastIntended()
    ensures ConvertIntended("L#5-") == "L#5-"
  {
    EmptyLastVectors();
    IntendedRollsBack("L#5-");
  }
}
