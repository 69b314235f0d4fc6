/** What `LtagMigrator.convert` does to the rows of an L# table, stated as
    rules about `LtagNumbering.RowStep` and `LtagNumbering.ConvertSpec`:
    the counter rules for single values and ranges, the rows that leave the
    counters alone, the unsupported patterns that roll the conversion back,
    and the rows that make it raise. */
module LtagRules {
  import opened Wrappers
  import opened Text
  import opened LtagNumbering

  // ---------------------------------------------------------------------
  // Shapes of rows

  /** A value or an offset the rules handle: `\+?\d*`. */
  predicate IsPlainOffset(v: string)
  {
    v == "" || AllDigits(v) || (v[0] == '+' && (|v| == 1 || AllDigits(v[1..])))
  }

  /** What may follow the leading cell, e.g. ` | 5c` or nothing. */
  predicate Boundary(rest: string)
  {
    |rest| == 0 || !IsCellChar(rest[0])
  }

  /** A label: `[a-zA-Z'"][a-zA-Z'"\d_]*` or the lone `_`. */
  predicate IsLabel(lab: string)
  {
    lab == "_" || (|lab| > 0 && IsLabelStart(lab[0]) && forall k :: 1 <= k < |lab| ==> IsLabelChar(lab[k]))
  }

  function Head(t: RowType): string { [t.Char(), '#'] }

  /** The step a plain value adds to the counter: 1 for an empty value or a
      bare `+`, N for `+N`. */
  function Increment(v: string): nat
    requires IsPlainOffset(v) && !AllDigits(v)
  {
    if |v| <= 1 then 1 else DigitsValue(v[1..])
  }

  /** The first pitch of a range: digits set it, anything else counts from
      the counter. */
  function StartValue(counter: nat, first: string): nat
    requires IsPlainOffset(first)
  {
    if AllDigits(first) then DigitsValue(first) else counter + Increment(first)
  }

  /** The last pitch of a range: digits set it, `+N` counts from the first pitch. */
  function EndValue(start: nat, last: string): nat
    requires IsPlainOffset(last) && last != "" && last != "+"
  {
    if AllDigits(last) then DigitsValue(last) else start + DigitsValue(last[1..])
  }

  /** How a pitch is printed: digits as written, computed values with `str`. */
  function Shown(v: string, n: nat): string
  {
    if AllDigits(v) then v else NatToString(n)
  }

  // ---------------------------------------------------------------------
  // Scanning lemmas

  lemma {:induction false} DigitRunAt(s: string, i: nat, n: nat)
    requires i + n <= |s|
    requires forall k :: i <= k < i + n ==> IsDigit(s[k])
    requires i + n == |s| || !IsDigit(s[i + n])
    ensures DigitRun(s, i) == i + n
    decreases n
  {
    if n > 0 { DigitRunAt(s, i + 1, n - 1); }
  }

  lemma {:induction false} LabelRunAt(s: string, i: nat, n: nat)
    requires i + n <= |s|
    requires forall k :: i <= k < i + n ==> IsLabelChar(s[k])
    requires i + n == |s| || !IsLabelChar(s[i + n])
    ensures LabelRun(s, i) == i + n
    decreases n
  {
    if n > 0 { LabelRunAt(s, i + 1, n - 1); }
  }

  lemma HeadIsLtag(t: RowType, rest: string)
    ensures IsLtagRow(Head(t) + rest)
    ensures (Head(t) + rest)[0] == t.Char() && TypeOf(t.Char()) == t
  {
    var s := Head(t) + rest;
    StartsAtSlice(s, 0, Head(t));
    assert s[0..2] == Head(t);
    if t == L { assert Head(t) == "L#"; } else { assert Head(t) == "R#"; }
  }

  /** Where a plain value written at `i` ends. */
  lemma PlainOffsetEnd(s: string, i: nat, v: string)
    requires IsPlainOffset(v) && i + |v| <= |s| && s[i..i + |v|] == v
    requires i + |v| == |s| || !IsDigit(s[i + |v|])
    ensures |v| > 0 && v[0] == '+' ==> DigitRun(s, i + 1) == i + |v|
    ensures (|v| == 0 || v[0] != '+') ==> DigitRun(s, i) == i + |v|
  {
    assert forall k :: 0 <= k < |v| ==> s[i + k] == v[k];
    if |v| > 0 && v[0] == '+' {
      DigitRunAt(s, i + 1, |v| - 1);
    } else {
      DigitRunAt(s, i, |v|);
    }
  }

  // ---------------------------------------------------------------------
  // Parsing lemmas

  lemma ParseAsSingle(s: string)
    requires IsLtagRow(s) && !(2 < |s| && (s[2] == '=' || s[2] == '~')) && RangeAt(s).None?
    ensures ParseLeading(s) == Some(SingleLeading(s, TypeOf(s[0])))
  {
  }

  lemma ParseAsRange(s: string, rs: RangeSplit)
    requires IsLtagRow(s) && !(2 < |s| && (s[2] == '=' || s[2] == '~')) && RangeAt(s) == Some(rs)
    ensures ParseLeading(s) == Some(RangeLeading(s, TypeOf(s[0]), rs))
  {
  }

  lemma LabelEndNone(s: string, i: nat)
    requires i <= |s|
    requires i == |s| || (!IsLabelStart(s[i]) && s[i] != '_')
    ensures LabelEnd(s, i) == i
  {
  }

  /** No range starts at a plain value that is not followed by a dash. */
  lemma NoRangeAfterPlain(s: string, v: string)
    requires |s| >= 2 && IsPlainOffset(v) && 2 + |v| <= |s| && s[2..2 + |v|] == v
    requires 2 + |v| == |s| || (!IsDigit(s[2 + |v|]) && !IsLabelStart(s[2 + |v|]) && s[2 + |v|] !in "_-+")
    ensures RangeAt(s).None?
  {
    var e := 2 + |v|;
    PlainOffsetEnd(s, 2, v);
    LabelEndNone(s, e);
    if |v| > 0 && v[0] == '+' {
      assert s[2] == '+';
      assert DashAfter(s, DigitRun(s, 3)) < 0;
      DigitRunAt(s, 2, 0);
      LabelEndNone(s, 2);
      assert DashAfter(s, DigitRun(s, 2)) < 0;
    } else {
      assert DashAfter(s, DigitRun(s, 2)) < 0;
      if |v| > 0 { assert IsDigit(s[2]); }
    }
  }

  /** A plain value starts neither a header nor free text. */
  lemma NotHeaderAfterPlain(s: string, v: string)
    requires |s| >= 2 && IsPlainOffset(v) && 2 + |v| <= |s| && s[2..2 + |v|] == v
    requires 2 + |v| == |s| || (s[2 + |v|] != '=' && s[2 + |v|] != '~')
    ensures !(2 < |s| && (s[2] == '=' || s[2] == '~'))
  {
    if 2 < |s| && |v| > 0 { assert s[2] == v[0]; }
  }

  /** The single-value alternative at a plain value followed by `c`. */
  lemma SingleAfterPlain(s: string, v: string)
    requires |s| >= 2 && IsPlainOffset(v) && 2 + |v| <= |s| && s[2..2 + |v|] == v
    requires 2 + |v| == |s| || (!IsDigit(s[2 + |v|]) && !IsLabelStart(s[2 + |v|]) && s[2 + |v|] !in "_+")
    ensures SingleLeading(s, TypeOf(s[0]))
         == Finish(s, TypeOf(s[0]), Single(v, ""), 2 + |v|)
  {
    var e := 2 + |v|;
    PlainOffsetEnd(s, 2, v);
    LabelEndNone(s, e);
    assert DigitRun(s, if 2 < |s| && s[2] == '+' then 3 else 2) == e by {
      if |v| > 0 { assert s[2] == v[0]; }
    }
    assert s[e..e] == "";
  }

  /** A row `L#` + plain value + boundary, by position. */
  lemma ParseSingleAt(s: string, v: string)
    requires IsLtagRow(s) && |s| >= 2 && IsPlainOffset(v) && 2 + |v| <= |s| && s[2..2 + |v|] == v
    requires 2 + |v| == |s| || !IsCellChar(s[2 + |v|])
    ensures ParseLeading(s) == Some(Leading(TypeOf(s[0]), Single(v, ""), false, 2 + |v|))
  {
    NoRangeAfterPlain(s, v);
    NotHeaderAfterPlain(s, v);
    ParseAsSingle(s);
    SingleAfterPlain(s, v);
  }

  lemma HeadSlice(t: RowType, v: string, rest: string)
    ensures var s := Head(t) + v + rest;
            IsLtagRow(s) && TypeOf(s[0]) == t && |s| == 2 + |v| + |rest|
            && s[2..2 + |v|] == v && s[2 + |v|..] == rest
  {
    HeadIsLtag(t, v + rest);
    assert Head(t) + v + rest == Head(t) + (v + rest);
  }

  /** `L#` + a plain value + a boundary parses as that single value. */
  lemma ParseSingle(t: RowType, v: string, rest: string)
    requires IsPlainOffset(v) && Boundary(rest)
    ensures ParseLeading(Head(t) + v + rest) == Some(Leading(t, Single(v, ""), false, 2 + |v|))
  {
    var s := Head(t) + v + rest;
    HeadSlice(t, v, rest);
    assert 2 + |v| < |s| ==> s[2 + |v|] == rest[0];
    ParseSingleAt(s, v);
  }

  /** The single-value alternative with a label after the plain value. */
  lemma LabelledAfterPlain(s: string, v: string, f: nat)
    requires |s| >= 2 && IsPlainOffset(v) && 2 + |v| < f <= |s| && s[2..2 + |v|] == v
    requires IsLabel(s[2 + |v|..f]) && (f == |s| || !IsCellChar(s[f]))
    ensures RangeAt(s).None?
    ensures SingleLeading(s, TypeOf(s[0])) == Leading(TypeOf(s[0]), Single(v, s[2 + |v|..f]), false, f)
  {
    LabelEndAt(s, 2 + |v|, f);
    PlainThenLabel(s, v, f);
  }

  /** A label read by position. */
  lemma LabelEndAt(s: string, e: nat, f: nat)
    requires e < f <= |s| && IsLabel(s[e..f]) && (f == |s| || !IsCellChar(s[f]))
    ensures LabelEnd(s, e) == f && (IsLabelStart(s[e]) || s[e] == '_')
  {
    var lab := s[e..f];
    assert s[e] == lab[0];
    if lab == "_" {
      assert LabelEnd(s, e) == f;
    } else {
      assert forall k :: e + 1 <= k < f ==> IsLabelChar(s[k]) by {
        forall k | e + 1 <= k < f ensures IsLabelChar(s[k]) { assert s[k] == lab[k - e]; }
      }
      LabelRunAt(s, e + 1, f - e - 1);
    }
  }

  /** A plain value followed by a label: no dash, and the digits end at the label. */
  lemma PlainThenLabel(s: string, v: string, f: nat)
    requires |s| >= 2 && IsPlainOffset(v) && 2 + |v| < f <= |s| && s[2..2 + |v|] == v
    requires LabelEnd(s, 2 + |v|) == f && (IsLabelStart(s[2 + |v|]) || s[2 + |v|] == '_')
    requires f == |s| || !IsCellChar(s[f])
    ensures RangeAt(s).None?
    ensures DigitRun(s, if 2 < |s| && s[2] == '+' then 3 else 2) == 2 + |v|
  {
    var e := 2 + |v|;
    PlainOffsetEnd(s, 2, v);
    if |v| > 0 && v[0] == '+' {
      assert s[2] == '+';
      assert DashAfter(s, DigitRun(s, 3)) < 0;
      DigitRunAt(s, 2, 0);
      LabelEndNone(s, 2);
      assert DashAfter(s, DigitRun(s, 2)) < 0;
    } else {
      assert DashAfter(s, DigitRun(s, 2)) < 0;
      if |v| > 0 { assert IsDigit(s[2]); }
    }
    if |v| > 0 { assert s[2] == v[0]; }
  }

  /** `L#` + a plain value + a label + a boundary parses with that label. */
  lemma ParseLabelled(t: RowType, v: string, lab: string, rest: string)
    requires IsPlainOffset(v) && IsLabel(lab) && Boundary(rest)
    ensures ParseLeading(Head(t) + v + lab + rest) == Some(Leading(t, Single(v, lab), false, 2 + |v| + |lab|))
  {
    var s := Head(t) + v + lab + rest;
    LabelRowSlices(t, v, lab, rest);
    var f := 2 + |v| + |lab|;
    assert f < |s| ==> s[f] == rest[0];
    ParseLabelledAt(s, v, f);
  }

  lemma LabelRowSlices(t: RowType, v: string, lab: string, rest: string)
    ensures var s := Head(t) + v + lab + rest;
            var f := 2 + |v| + |lab|;
            IsLtagRow(s) && TypeOf(s[0]) == t && |s| == f + |rest| && s[2..2 + |v|] == v
            && s[2 + |v|..f] == lab && s[f..] == rest
  {
    var s := Head(t) + v + (lab + rest);
    assert s == Head(t) + v + lab + rest;
    HeadSlice(t, v, lab + rest);
    assert s[2 + |v|..] == lab + rest;
  }

  lemma ParseLabelledAt(s: string, v: string, f: nat)
    requires IsLtagRow(s) && IsPlainOffset(v) && 2 + |v| < f <= |s| && s[2..2 + |v|] == v
    requires IsLabel(s[2 + |v|..f]) && (f == |s| || !IsCellChar(s[f]))
    ensures ParseLeading(s) == Some(Leading(TypeOf(s[0]), Single(v, s[2 + |v|..f]), false, f))
  {
    LabelledAfterPlain(s, v, f);
    assert s[2] != '=' && s[2] != '~' by {
      if |v| > 0 { assert s[2] == v[0]; } else { assert s[2] == s[2 + |v|..f][0]; }
    }
    ParseAsSingle(s);
  }

  /** `L#` + a plain value + `!` parses as a local reference. */
  lemma ParseLocalRef(t: RowType, v: string, rest: string)
    requires IsPlainOffset(v)
    ensures ParseLeading(Head(t) + v + "!" + rest) == Some(Leading(t, Single(v, ""), true, 3 + |v|))
  {
    var s := Head(t) + v + ("!" + rest);
    assert s == Head(t) + v + "!" + rest;
    HeadSlice(t, v, "!" + rest);
    assert s[2 + |v|] == '!';
    NoRangeAfterPlain(s, v);
    NotHeaderAfterPlain(s, v);
    ParseAsSingle(s);
    SingleAfterPlain(s, v);
  }

  /** The range alternative at `first` `-` `last` followed by a boundary. */
  lemma RangeSplitAt(s: string, first: string, last: string)
    requires |s| >= 2 && IsPlainOffset(first) && IsPlainOffset(last)
    requires 3 + |first| + |last| <= |s| && s[2..2 + |first|] == first && s[2 + |first|] == '-'
    requires s[3 + |first|..3 + |first| + |last|] == last
    requires 3 + |first| + |last| == |s| || !IsCellChar(s[3 + |first| + |last|])
    ensures RangeAt(s) == Some(RangeSplit(2 + |first|, 2 + |first|))
  {
    var d := 2 + |first|;
    var e := d + 1 + |last|;
    PlainOffsetEnd(s, 2, first);
    LabelEndNone(s, d);
    if |first| == 0 {
      // the signed attempt reads the dash as a sign and finds no second dash
      if |last| > 0 && last[0] == '+' {
        assert s[3] == '+';
        DigitRunAt(s, 3, 0);
        LabelEndNone(s, 3);
      } else {
        assert forall k :: 3 <= k < e ==> IsDigit(s[k]) by {
          forall k | 3 <= k < e ensures IsDigit(s[k]) { assert s[k] == last[k - 3]; }
        }
        DigitRunAt(s, 3, |last|);
        LabelEndNone(s, e);
      }
      assert DashAfter(s, DigitRun(s, 3)) < 0;
      DigitRunAt(s, 2, 0);
    } else if first[0] == '+' {
      assert s[2] == '+';
    } else {
      assert IsDigit(s[2]);
    }
  }

  /** The range cell once split. */
  lemma RangeCellAt(s: string, first: string, last: string)
    requires |s| >= 2 && IsPlainOffset(last)
    requires 3 + |first| + |last| <= |s| && s[2..2 + |first|] == first && s[2 + |first|] == '-'
    requires s[3 + |first|..3 + |first| + |last|] == last
    requires 3 + |first| + |last| == |s| || !IsCellChar(s[3 + |first| + |last|])
    requires forall k :: 2 <= k < 2 + |first| ==> IsCellChar(s[k])
    ensures RangeLeading(s, TypeOf(s[0]), RangeSplit(2 + |first|, 2 + |first|))
         == Leading(TypeOf(s[0]), Range(first, "", last), false, 3 + |first| + |last|)
  {
    var d := 2 + |first|;
    PlainOffsetEnd(s, d + 1, last);
    assert OffsetEnd(s, d + 1) == 3 + |first| + |last| by {
      if |last| > 0 { assert s[d + 1] == last[0]; }
    }
    assert s[d..d] == "";
  }

  lemma RangeRowSlices(t: RowType, first: string, last: string, rest: string)
    ensures var s := Head(t) + first + "-" + last + rest;
            var d := 2 + |first|;
            var e := d + 1 + |last|;
            IsLtagRow(s) && TypeOf(s[0]) == t && |s| == e + |rest| && s[2..d] == first
            && s[d] == '-' && s[d + 1..e] == last && s[e..] == rest
  {
    var tail := "-" + last + rest;
    var s := Head(t) + first + tail;
    assert s == Head(t) + first + "-" + last + rest;
    HeadSlice(t, first, tail);
    var d := 2 + |first|;
    assert s[d..] == tail;
    assert s[d + 1..] == last + rest;
  }

  /** `L#` + plain first offset + `-` + plain last offset + a boundary parses
      as that range. */
  lemma ParseRange(t: RowType, first: string, last: string, rest: string)
    requires IsPlainOffset(first) && IsPlainOffset(last) && Boundary(rest)
    ensures IsLtagRow(Head(t) + first + "-" + last + rest)
    ensures ParseLeading(Head(t) + first + "-" + last + rest)
         == Some(Leading(t, Range(first, "", last), false, 3 + |first| + |last|))
  {
    var s := Head(t) + first + "-" + last + rest;
    RangeRowSlices(t, first, last, rest);
    var d := 2 + |first|;
    var e := d + 1 + |last|;
    assert e < |s| ==> s[e] == rest[0];
    RangeSplitAt(s, first, last);
    assert forall k :: 2 <= k < d ==> IsCellChar(s[k]) by {
      forall k | 2 <= k < d ensures IsCellChar(s[k]) { assert s[k] == first[k - 2]; }
    }
    RangeCellAt(s, first, last);
    assert 2 < |s| && s[2] != '=' && s[2] != '~' by {
      if |first| > 0 { assert s[2] == first[0]; }
    }
    ParseAsRange(s, RangeSplit(d, d));
  }

  // ---------------------------------------------------------------------
  // From the parse to the step

  lemma RowStepSingle(st: Numbering, row: string, lead: Leading)
    requires IsLtagRow(row) && st.supported && ParseLeading(row) == Some(lead)
    requires !lead.localRef && lead.cell.Single?
    ensures lead.end <= |row|
    ensures RowStep(st, row) == SingleStep(st, row, lead, TypeOf(row[0]), true)
  {
  }

  lemma RowStepRange(st: Numbering, row: string, lead: Leading)
    requires IsLtagRow(row) && st.supported && ParseLeading(row) == Some(lead)
    requires !lead.localRef && lead.cell.Range?
    ensures lead.end <= |row|
    ensures RowStep(st, row) == RangeStep(st, row, lead, true)
  {
  }

  lemma One()
    ensures "+1"[1..] == "1" && AllDigits("1") && DigitsValue("1") == 1
  {
    assert ValueOf("1", 0) == 0;
  }

  /** How `handle_monopitch` counts on an offset value (`""`, `+` or `+N`). */
  lemma SingleOffsetStep(st: Numbering, row: string, t: RowType, v: string)
    requires IsPlainOffset(v) && !AllDigits(v) && !st.containsLabel && 2 + |v| <= |row|
    ensures SingleStep(st, row, Leading(t, Single(v, ""), false, 2 + |v|), t, true)
         == Step(st.(value := st.value.Set(t, st.value.Get(t) + Increment(v)), allowLabels := false),
                 Success(Head(t) + NatToString(st.value.Get(t) + Increment(v)) + row[2 + |v|..]))
  {
    One();
  }

  // ---------------------------------------------------------------------
  // The counter rules

  /** A bare `L#` counts one more than the counter, which it sets; the other
      type's counter does not move. */
  lemma SingleEmptyRule(st: Numbering, t: RowType, rest: string)
    requires st.supported && !st.containsLabel && Boundary(rest)
    ensures RowStep(st, Head(t) + rest)
         == Step(st.(value := st.value.Set(t, st.value.Get(t) + 1), allowLabels := false),
                 Success(Head(t) + NatToString(st.value.Get(t) + 1) + rest))
  {
    var s := Head(t) + "" + rest;
    assert s == Head(t) + rest;
    ParseSingle(t, "", rest);
    HeadSlice(t, "", rest);
    RowStepSingle(st, s, Leading(t, Single("", ""), false, 2));
    SingleOffsetStep(st, s, t, "");
  }

  /** `L#+N` adds N to the counter, and a bare `L#+` adds one. */
  lemma SinglePlusRule(st: Numbering, t: RowType, n: string, rest: string)
    requires st.supported && !st.containsLabel && Boundary(rest)
    requires n == "" || AllDigits(n)
    ensures RowStep(st, Head(t) + "+" + n + rest)
         == Step(st.(value := st.value.Set(t, st.value.Get(t) + (if n == "" then 1 else DigitsValue(n))), allowLabels := false),
                 Success(Head(t) + NatToString(st.value.Get(t) + (if n == "" then 1 else DigitsValue(n))) + rest))
  {
    var v := "+" + n;
    var s := Head(t) + v + rest;
    PlusShape(t, n, rest);
    ParseSingle(t, v, rest);
    HeadSlice(t, v, rest);
    RowStepSingle(st, s, Leading(t, Single(v, ""), false, 2 + |v|));
    SingleOffsetStep(st, s, t, v);
  }

  /** A `+` offset read as a plain value, and the step it counts. */
  lemma PlusShape(t: RowType, n: string, rest: string)
    requires n == "" || AllDigits(n)
    ensures IsPlainOffset("+" + n) && !AllDigits("+" + n)
    ensures Increment("+" + n) == if n == "" then 1 else DigitsValue(n)
    ensures Head(t) + ("+" + n) + rest == Head(t) + "+" + n + rest
  {
    var v := "+" + n;
    assert v[1..] == n;
    assert !IsDigit(v[0]);
  }

  /** `L#N` sets the counter to N and leaves the row as it is. */
  lemma SingleAbsoluteRule(st: Numbering, t: RowType, n: string, rest: string)
    requires st.supported && Boundary(rest) && AllDigits(n)
    ensures RowStep(st, Head(t) + n + rest)
         == Step(st.(value := st.value.Set(t, DigitsValue(n))), Success(Head(t) + n + rest))
  {
    var s := Head(t) + n + rest;
    ParseSingle(t, n, rest);
    HeadSlice(t, n, rest);
    RowStepSingle(st, s, Leading(t, Single(n, ""), false, 2 + |n|));
    assert s == Head(t) + n + s[2 + |n|..];
  }

  lemma ShownValue(v: string, n: nat)
    requires AllDigits(v) ==> DigitsValue(v) == n
    ensures AllDigits(Shown(v, n)) && DigitsValue(Shown(v, n)) == n
  {
    if !AllDigits(v) { NatToStringValue(n); }
  }

  /** `FirstOffset` prints the value `StartValue` describes. */
  lemma FirstOffsetValue(counter: nat, first: string)
    requires IsPlainOffset(first)
    ensures FirstOffset(counter, first) == Some(Shown(first, StartValue(counter, first)))
  {
    One();
    if !AllDigits(first) && |first| > 1 {
      assert first[0] == '+';
    }
  }

  /** `LastOffset` prints the value `EndValue` describes. */
  lemma LastOffsetValue(start: nat, last: string)
    requires IsPlainOffset(last) && last != "" && last != "+"
    ensures LastOffset(start, last) == Some(Shown(last, EndValue(start, last)))
  {
    if !AllDigits(last) {
      assert last[0] == '+';
    }
  }

  /** `handle_multipitch` on a plain range. */
  lemma RangeOffsetsStep(st: Numbering, row: string, t: RowType, first: string, last: string)
    requires IsPlainOffset(first) && IsPlainOffset(last) && last != "" && last != "+"
    requires 3 + |first| + |last| <= |row|
    ensures var a := StartValue(st.value.Get(t), first);
            var b := EndValue(a, last);
            (RangeStep(st, row, Leading(t, Range(first, "", last), false, 3 + |first| + |last|), true)
             == Step(st.(value := st.value.Set(t, b)),
                     Success(Head(t) + Shown(first, a) + "-" + Shown(last, b) + row[3 + |first| + |last|..])))
  {
    var a := StartValue(st.value.Get(t), first);
    var b := EndValue(a, last);
    FirstOffsetValue(st.value.Get(t), first);
    ShownValue(first, a);
    LastOffsetValue(a, last);
    ShownValue(last, b);
    var e := 3 + |first| + |last|;
    RangeStepAt(st, row, Leading(t, Range(first, "", last), false, e), Shown(first, a), Shown(last, b));
    SetTwice(st.value, t, a, b);
    RenderedRange(t, Shown(first, a), Shown(last, b), row, e);
  }

  /** `handle_multipitch` once both offsets have been printed. */
  lemma RangeStepAt(st: Numbering, row: string, lead: Leading, ftext: string, ltext: string)
    requires lead.cell.Range? && lead.end <= |row| && lead.cell.firstLabel == "" && |lead.cell.last| > 0
    requires FirstOffset(st.value.Get(lead.typ), lead.cell.first) == Some(ftext)
    requires LastOffset(DigitsValue(ftext), lead.cell.last) == Some(ltext)
    ensures RangeStep(st, row, lead, true)
         == Step(st.(value := st.value.Set(lead.typ, DigitsValue(ftext)).Set(lead.typ, DigitsValue(ltext))),
                 Success(Rendered(lead.typ, ftext + "-" + ltext, row, lead.end)))
  {
  }

  lemma SetTwice(c: Counters, t: RowType, a: nat, b: nat)
    ensures c.Set(t, a).Set(t, b) == c.Set(t, b)
  {
  }

  lemma RenderedRange(t: RowType, x: string, y: string, row: string, e: nat)
    requires e <= |row|
    ensures Rendered(t, x + "-" + y, row, e) == Head(t) + x + "-" + y + row[e..]
  {
  }

  /** A range `L#a-b`: an empty or `+` first offset counts one more than the
      counter, `+N` adds N to it, digits set it; a `+N` last offset is added
      to the first pitch, digits set it; the counter ends at the last pitch. */
  lemma RangeRule(st: Numbering, t: RowType, first: string, last: string, rest: string)
    requires st.supported && Boundary(rest)
    requires IsPlainOffset(first) && IsPlainOffset(last) && last != "" && last != "+"
    ensures var a := StartValue(st.value.Get(t), first);
            var b := EndValue(a, last);
            (RowStep(st, Head(t) + first + "-" + last + rest)
             == Step(st.(value := st.value.Set(t, b)),
                     Success(Head(t) + Shown(first, a) + "-" + Shown(last, b) + rest)))
  {
    var s := Head(t) + first + "-" + last + rest;
    ParseRange(t, first, last, rest);
    RowStepRange(st, s, Leading(t, Range(first, "", last), false, 3 + |first| + |last|));
    RangeOffsetsStep(st, s, t, first, last);
    RangeRowSlices(t, first, last, rest);
  }

  // ---------------------------------------------------------------------
  // Rows that keep the counters

  /** Header `L#=` and free-text `L#~` rows come back unchanged and leave the
      numbering as it was, whatever state it is in. */
  lemma HeaderAndFreeTextKept(st: Numbering, t: RowType, c: char, rest: string)
    requires c == '=' || c == '~'
    ensures RowStep(st, Head(t) + [c] + rest) == Step(st, Success(Head(t) + [c] + rest))
  {
    HeadSlice(t, [c], rest);
  }

  /** Rows that do not start with `L#` or `R#` pass through untouched. */
  lemma OtherRowsKept(st: Numbering, row: string)
    requires !IsLtagRow(row)
    ensures RowStep(st, row) == Step(st, Success(row))
  {
  }

  /** `o` ends with the part of `row` from `k` on. */
  predicate KeepsTail(o: string, row: string, k: nat)
    requires k <= |row|
  {
    |row| - k <= |o| && o[|o| - (|row| - k)..] == row[k..]
  }

  lemma RenderedKeepsTail(t: RowType, text: string, row: string, end: nat, k: nat)
    requires end <= k <= |row|
    ensures KeepsTail(Rendered(t, text, row, end), row, k)
  {
    assert row[end..] == row[end..k] + row[k..];
    assert Rendered(t, text, row, end) == ([t.Char(), '#'] + text + row[end..k]) + row[k..];
  }

  lemma SingleStepKeepsTail(st: Numbering, row: string, lead: Leading, k: nat)
    requires lead.cell.Single? && lead.end <= k <= |row|
    ensures var o := SingleStep(st, row, lead, lead.typ, true).out;
            o.Success? ==> KeepsTail(o.value, row, k)
  {
    forall text | true ensures KeepsTail(Rendered(lead.typ, text, row, lead.end), row, k) {
      RenderedKeepsTail(lead.typ, text, row, lead.end, k);
    }
  }

  lemma RangeStepKeepsTail(st: Numbering, row: string, lead: Leading, k: nat)
    requires lead.cell.Range? && lead.end <= k <= |row|
    ensures var o := RangeStep(st, row, lead, true).out;
            o.Success? ==> KeepsTail(o.value, row, k)
  {
    forall text | true ensures KeepsTail(Rendered(lead.typ, text, row, lead.end), row, k) {
      RenderedKeepsTail(lead.typ, text, row, lead.end, k);
    }
  }

  /** Only the leading cell is rewritten: the row from the first character
      the grammar cannot use (a space or `|`, say) onwards is kept, so a
      later `L#…` in the same row is left as it is. */
  lemma TailKept(st: Numbering, row: string, k: nat)
    requires 2 <= k < |row| && !IsCellChar(row[k])
    requires RowStep(st, row).out.Success?
    ensures KeepsTail(RowStep(st, row).out.value, row, k)
  {
    if IsLtagRow(row) && st.supported {
      var lead := ParseLeading(row).value;
      assert lead.end <= k;
      if !lead.localRef && lead.cell.Range? {
        RowStepRange(st, row, lead);
        RangeStepKeepsTail(st, row, lead, k);
      } else if !lead.localRef && lead.cell.Single? {
        RowStepSingle(st, row, lead);
        assert TypeOf(row[0]) == lead.typ;
        SingleStepKeepsTail(st, row, lead, k);
      }
    }
  }

  lemma SingleStepOther(st: Numbering, row: string, lead: Leading, u: RowType)
    requires lead.cell.Single? && lead.end <= |row| && u != lead.typ
    ensures SingleStep(st, row, lead, lead.typ, true).state.value.Get(u) == st.value.Get(u)
  {
  }

  lemma RangeStepOther(st: Numbering, row: string, lead: Leading, u: RowType)
    requires lead.cell.Range? && lead.end <= |row| && u != lead.typ
    ensures RangeStep(st, row, lead, true).state.value.Get(u) == st.value.Get(u)
  {
  }

  /** The `L` and `R` counters are independent: a row moves at most the
      counter of its own type. */
  lemma OtherCounterKept(st: Numbering, row: string, u: RowType)
    requires !IsLtagRow(row) || u != TypeOf(row[0])
    ensures RowStep(st, row).state.value.Get(u) == st.value.Get(u)
  {
    if IsLtagRow(row) && st.supported {
      var lead := ParseLeading(row).value;
      assert lead.typ == TypeOf(row[0]) by {
        assert lead.typ.Char() == row[0];
      }
      if !lead.localRef && lead.cell.Range? {
        RowStepRange(st, row, lead);
        RangeStepOther(st, row, lead, u);
      } else if !lead.localRef && lead.cell.Single? {
        RowStepSingle(st, row, lead);
        SingleStepOther(st, row, lead, u);
      }
    }
  }

  // ---------------------------------------------------------------------
  // Unsupported rows and the all-or-nothing rollback

  /** A label on the leading cell turns the switch off and keeps the row. */
  lemma LabelUnsupported(st: Numbering, t: RowType, v: string, lab: string, rest: string)
    requires st.supported && IsPlainOffset(v) && IsLabel(lab) && Boundary(rest)
    ensures RowStep(st, Head(t) + v + lab + rest) == Unsupported(st, Head(t) + v + lab + rest)
  {
    var s := Head(t) + v + lab + rest;
    ParseLabelled(t, v, lab, rest);
    LabelRowSlices(t, v, lab, rest);
    RowStepSingle(st, s, Leading(t, Single(v, lab), false, 2 + |v| + |lab|));
  }

  /** A `!` local reference turns the switch off and keeps the row. */
  lemma LocalRefUnsupported(st: Numbering, t: RowType, v: string, rest: string)
    requires st.supported && IsPlainOffset(v)
    ensures RowStep(st, Head(t) + v + "!" + rest) == Unsupported(st, Head(t) + v + "!" + rest)
  {
    ParseLocalRef(t, v, rest);
    HeadSlice(t, v, "!" + rest);
    assert Head(t) + v + "!" + rest == Head(t) + v + ("!" + rest);
  }

  /** `L#-N-…` parses as a range whose first offset is `-N`. */
  lemma ParseNegativeRange(t: RowType, n: string, last: string, rest: string)
    requires AllDigits(n) && IsPlainOffset(last) && Boundary(rest)
    ensures ParseLeading(Head(t) + ("-" + n) + "-" + last + rest)
         == Some(Leading(t, Range("-" + n, "", last), false, 4 + |n| + |last|))
  {
    var first := "-" + n;
    var s := Head(t) + first + "-" + last + rest;
    RangeRowSlices(t, first, last, rest);
    var d := 2 + |first|;
    var e := d + 1 + |last|;
    assert e < |s| ==> s[e] == rest[0];
    NegativeSplitAt(s, n, d);
    RangeCellAt(s, first, last);
    ParseAsRange(s, RangeSplit(d, d));
  }

  /** A range split right after a negative first offset `-N`. */
  lemma NegativeSplitAt(s: string, n: string, d: nat)
    requires AllDigits(n) && d == 3 + |n| && d < |s| && s[2..d] == "-" + n && s[d] == '-'
    ensures RangeAt(s) == Some(RangeSplit(d, d))
    ensures forall k :: 2 <= k < d ==> IsCellChar(s[k])
  {
    var first := "-" + n;
    assert s[2] == first[0];
    assert forall k :: 3 <= k < d ==> IsDigit(s[k]) by {
      forall k | 3 <= k < d ensures IsDigit(s[k]) { assert s[k] == first[k - 2]; }
    }
    DigitRunAt(s, 3, |n|);
    LabelEndNone(s, d);
  }

  /** A negative first offset, as in `L#-3-5`, is a non-digit offset: the
      switch goes off and the row is kept. */
  lemma NegativeFirstUnsupported(st: Numbering, t: RowType, n: string, last: string, rest: string)
    requires st.supported && AllDigits(n) && IsPlainOffset(last) && Boundary(rest)
    ensures RowStep(st, Head(t) + ("-" + n) + "-" + last + rest)
         == Unsupported(st, Head(t) + ("-" + n) + "-" + last + rest)
  {
    var first := "-" + n;
    var s := Head(t) + first + "-" + last + rest;
    ParseNegativeRange(t, n, last, rest);
    RowStepRange(st, s, Leading(t, Range(first, "", last), false, 4 + |n| + |last|));
    assert !AllDigits(first) by { assert !IsDigit(first[0]); }
    assert FirstOffset(st.value.Get(t), first).None?;
  }

  // ---------------------------------------------------------------------
  // Rows that raise

  /** A range with an empty last offset, as in `L#-` or `L#5-`, indexes an
      empty string: the `IndexError` is not caught. */
  lemma EmptyLastOffsetRaises(st: Numbering, t: RowType, first: string, rest: string)
    requires st.supported && IsPlainOffset(first) && Boundary(rest)
    ensures RowStep(st, Head(t) + first + "-" + rest).out == Failure("IndexError")
  {
    var s := Head(t) + first + "-" + "" + rest;
    assert s == Head(t) + first + "-" + rest;
    ParseRange(t, first, "", rest);
    HeadSlice(t, first, "-" + rest);
    RowStepRange(st, s, Leading(t, Range(first, "", ""), false, 3 + |first|));
    FirstOffsetValue(st.value.Get(t), first);
  }

  // ---------------------------------------------------------------------
  // The whole conversion

  /** Running the rows of `a + b` is running `a`, then `b` from where `a`
      left the numbering. */
  lemma {:induction false} RunRowsAppend(st: Numbering, a: seq<string>, b: seq<string>)
    requires RunRows(st, a).out.Success?
    ensures var ra := RunRows(st, a);
            var rb := RunRows(ra.state, b);
            (RunRows(st, a + b)
             == (if rb.out.Failure? then rb else Run(rb.state, Success(ra.out.value + rb.out.value))))
  {
    var ra := RunRows(st, a);
    if |b| == 0 {
      assert a + b == a;
      assert ra.out.value + [] == ra.out.value;
    } else {
      var b' := b[..|b| - 1];
      var x := b[|b| - 1];
      assert (a + b)[..|a + b| - 1] == a + b';
      assert (a + b)[|a + b| - 1] == x;
      assert RunRows(st, a + b) == Next(RunRows(st, a + b'), x);
      RunRowsAppend(st, a, b');
      var rb' := RunRows(ra.state, b');
      assert RunRows(ra.state, b) == Next(rb', x);
      if rb'.out.Success? {
        var step := RowStep(rb'.state, x);
        if step.out.Success? {
          assert ra.out.value + rb'.out.value + [step.out.value]
              == ra.out.value + (rb'.out.value + [step.out.value]);
        }
      }
    }
  }

  /** Once the switch is off, every later row is passed through untouched. */
  lemma {:induction false} UnsupportedStays(st: Numbering, rows: seq<string>)
    requires !st.supported
    ensures RunRows(st, rows) == Run(st, Success(rows))
  {
    if |rows| > 0 {
      var front := rows[..|rows| - 1];
      UnsupportedStays(st, front);
      assert RowStep(st, rows[|rows| - 1]) == Step(st, Success(rows[|rows| - 1]));
      assert front + [rows[|rows| - 1]] == rows;
    }
  }

  /** All or nothing: when a row turns the switch off, `convert` returns its
      input unchanged, whatever the rows after it hold. */
  lemma Rollback(markdown: string, i: nat)
    requires i < |Split(markdown, "\n")|
    requires var run := RunRows(Initial, Split(markdown, "\n")[..i + 1]);
             run.out.Success? && !run.state.supported
    ensures ConvertSpec(markdown) == Success(markdown)
  {
    var rows := Split(markdown, "\n");
    var a := rows[..i + 1];
    var b := rows[i + 1..];
    assert a + b == rows;
    RunRowsAppend(Initial, a, b);
    UnsupportedStays(RunRows(Initial, a).state, b);
  }

  // ---------------------------------------------------------------------
  // The intended conversion

  lemma UnsupportedRowStep(st: Numbering, row: string)
    requires !st.supported
    ensures RowStep(st, row) == Step(st, Success(row))
  {
  }

  /** Catching every error changes nothing where no row raises, and turns
      a raising row into a rollback. */
  lemma {:induction false} CaughtRun(st: Numbering, rows: seq<string>)
    ensures var a := RunRows(st, rows);
            var b := RunRowsCaught(st, rows);
            b.out.Success? && (a.out.Success? ==> b == a) && (a.out.Failure? ==> !b.state.supported)
  {
    if |rows| > 0 {
      var front := rows[..|rows| - 1];
      var x := rows[|rows| - 1];
      CaughtRun(st, front);
      var b := RunRowsCaught(st, front);
      if RunRows(st, front).out.Failure? {
        UnsupportedRowStep(b.state, x);
      }
    }
  }

  /** Where `convert` returns, the intended version returns the same text. */
  lemma IntendedAsWritten(markdown: string)
    requires ConvertSpec(markdown).Success?
    ensures ConvertIntended(markdown) == ConvertSpec(markdown).value
  {
    CaughtRun(Initial, Split(markdown, "\n"));
  }

  /** Where `convert` raises, the intended version returns its input. */
  lemma IntendedRollsBack(markdown: string)
    requires ConvertSpec(markdown).Failure?
    ensures ConvertIntended(markdown) == markdown
  {
    CaughtRun(Initial, Split(markdown, "\n"));
  }
}
