/** `campbot/differ.py`: `flatten`, which turns a JSON document into a
    dictionary from paths (`root.locales[0].title`) to scalar values, and
    `get_diff_report`, which compares two flattened documents key by key in
    sorted order. */
module Differ {
  import opened Wrappers
  import opened Text
  import opened Json

  // ---------------------------------------------------------------------
  // flatten

  type Flat = map<string, Scalar>

  /** What `worker(obj, path)` leaves in `result` when it started from
      `acc`; an unsupported type raises and ends the whole `flatten`. */
  function FlattenInto(acc: Flat, obj: Json, path: string): Result<Flat>
    decreases obj
  {
    match obj
    case Null => Success(acc)
    case Bool(b) => Success(acc[path := SBool(b)])
    case Int(i) => Success(acc[path := SInt(i)])
    case Str(s) => Success(acc[path := SStr(s)])
    case Dict(entries) => FlattenEntries(acc, entries, path)
    case List(items) => FlattenItems(acc, items, path, 0)
    case Other(_) => Failure("Exception")
  }

  function FlattenEntries(acc: Flat, entries: seq<Entry>, path: string): Result<Flat>
    decreases entries
  {
    if |entries| == 0 then Success(acc)
    else
      var r := FlattenInto(acc, entries[0].value, path + "." + entries[0].key);
      if r.Failure? then r else FlattenEntries(r.value, entries[1..], path)
  }

  /** The items of a list from index `i` on. */
  function FlattenItems(acc: Flat, items: seq<Json>, path: string, i: nat): Result<Flat>
    decreases items
  {
    if |items| == 0 then Success(acc)
    else
      var r := FlattenInto(acc, items[0], ItemPath(path, i));
      if r.Failure? then r else FlattenItems(r.value, items[1..], path, i + 1)
  }

  function ItemPath(path: string, i: nat): string { path + "[" + NatToString(i) + "]" }

  function Flatten(source: Json): Result<Flat> { FlattenInto(map[], source, "root") }

  /** `flatten`'s nested `worker`, writing into the shared `result`. */
  class Flattener {
    var result: Flat

    constructor ()
      ensures result == map[]
    {
      result := map[];
    }

    method Worker(obj: Json, path: string) returns (ok: bool)
      modifies this
      ensures ok <==> FlattenInto(old(result), obj, path).Success?
      ensures ok ==> result == FlattenInto(old(result), obj, path).value
      decreases obj
    {
      match obj {
        case Null =>
          ok := true;
        case Bool(b) =>
          result := result[path := SBool(b)];
          ok := true;
        case Int(i) =>
          result := result[path := SInt(i)];
          ok := true;
        case Str(s) =>
          result := result[path := SStr(s)];
          ok := true;
        case Dict(entries) =>
          ok := WorkEntries(entries, path);
        case List(items) =>
          ok := WorkItems(items, path);
        case Other(_) =>
          ok := false;
      }
    }

    method WorkEntries(entries: seq<Entry>, path: string) returns (ok: bool)
      modifies this
      ensures ok <==> FlattenEntries(old(result), entries, path).Success?
      ensures ok ==> result == FlattenEntries(old(result), entries, path).value
      decreases entries
    {
      var i := 0;
      while i < |entries|
        invariant 0 <= i <= |entries|
        invariant FlattenEntries(old(result), entries, path) == FlattenEntries(result, entries[i..], path)
      {
        assert entries[i..][1..] == entries[i + 1..];
        var entry := entries[i];
        ok := Worker(entry.value, path + "." + entry.key);
        if !ok {
          return;
        }
        i := i + 1;
      }
      ok := true;
    }

    method WorkItems(items: seq<Json>, path: string) returns (ok: bool)
      modifies this
      ensures ok <==> FlattenItems(old(result), items, path, 0).Success?
      ensures ok ==> result == FlattenItems(old(result), items, path, 0).value
      decreases items
    {
      var i := 0;
      while i < |items|
        invariant 0 <= i <= |items|
        invariant FlattenItems(old(result), items, path, 0) == FlattenItems(result, items[i..], path, i)
      {
        assert items[i..][1..] == items[i + 1..];
        ok := Worker(items[i], ItemPath(path, i));
        if !ok {
          return;
        }
        i := i + 1;
      }
      ok := true;
    }
  }

  method FlattenDocument(source: Json) returns (r: Result<Flat>)
    ensures r == Flatten(source)
  {
    var f := new Flattener();
    var ok := f.Worker(source, "root");
    if ok {
      r := Success(f.result);
    } else {
      r := Failure("Exception");
      FailureIsException(map[], source, "root");
    }
  }

  // ---------------------------------------------------------------------
  // What flatten computes: the scalar leaves of the document, each at its
  // path, written in traversal order.

  /** The document holds no value of an unsupported type. */
  predicate Supported(obj: Json)
    decreases obj
  {
    match obj
    case Dict(entries) => SupportedEntries(entries)
    case List(items) => SupportedItems(items)
    case Other(_) => false
    case _ => true
  }

  predicate SupportedEntries(entries: seq<Entry>)
    decreases entries
  {
    |entries| == 0 || (Supported(entries[0].value) && SupportedEntries(entries[1..]))
  }

  predicate SupportedItems(items: seq<Json>)
    decreases items
  {
    |items| == 0 || (Supported(items[0]) && SupportedItems(items[1..]))
  }

  /** The (path, value) leaves under `path`; `None` has none. */
  function Leaves(obj: Json, path: string): seq<(string, Scalar)>
    decreases obj
  {
    match obj
    case Null => []
    case Bool(b) => [(path, SBool(b))]
    case Int(i) => [(path, SInt(i))]
    case Str(s) => [(path, SStr(s))]
    case Dict(entries) => EntryLeaves(entries, path)
    case List(items) => ItemLeaves(items, path, 0)
    case Other(_) => []
  }

  function EntryLeaves(entries: seq<Entry>, path: string): seq<(string, Scalar)>
    decreases entries
  {
    if |entries| == 0 then []
    else Leaves(entries[0].value, path + "." + entries[0].key) + EntryLeaves(entries[1..], path)
  }

  function ItemLeaves(items: seq<Json>, path: string, i: nat): seq<(string, Scalar)>
    decreases items
  {
    if |items| == 0 then []
    else Leaves(items[0], ItemPath(path, i)) + ItemLeaves(items[1..], path, i + 1)
  }

  /** Writing the leaves one after the other into a dictionary. */
  function WriteAll(acc: Flat, leaves: seq<(string, Scalar)>): Flat
    decreases |leaves|
  {
    if |leaves| == 0 then acc else WriteAll(acc[leaves[0].0 := leaves[0].1], leaves[1..])
  }

  lemma {:induction false} WriteAllAppend(acc: Flat, a: seq<(string, Scalar)>, b: seq<(string, Scalar)>)
    ensures WriteAll(acc, a + b) == WriteAll(WriteAll(acc, a), b)
    decreases |a|
  {
    if |a| == 0 {
      assert a + b == b;
    } else {
      assert (a + b)[1..] == a[1..] + b;
      WriteAllAppend(acc[a[0].0 := a[0].1], a[1..], b);
    }
  }

  /** flatten succeeds exactly on supported documents, and then writes the
      document's leaves in order. */
  lemma {:induction false} FlattenIsLeaves(acc: Flat, obj: Json, path: string)
    ensures FlattenInto(acc, obj, path).Success? <==> Supported(obj)
    ensures Supported(obj) ==> FlattenInto(acc, obj, path).value == WriteAll(acc, Leaves(obj, path))
    decreases obj
  {
    match obj
    case Dict(entries) => EntriesAreLeaves(acc, entries, path);
    case List(items) => ItemsAreLeaves(acc, items, path, 0);
    case Null =>
    case Bool(b) =>
    case Int(i) =>
    case Str(s) =>
    case Other(_) =>
  }

  lemma {:induction false} EntriesAreLeaves(acc: Flat, entries: seq<Entry>, path: string)
    ensures FlattenEntries(acc, entries, path).Success? <==> SupportedEntries(entries)
    ensures SupportedEntries(entries) ==> FlattenEntries(acc, entries, path).value == WriteAll(acc, EntryLeaves(entries, path))
    decreases entries
  {
    if |entries| > 0 {
      var p := path + "." + entries[0].key;
      FlattenIsLeaves(acc, entries[0].value, p);
      if Supported(entries[0].value) {
        var mid := FlattenInto(acc, entries[0].value, p).value;
        EntriesAreLeaves(mid, entries[1..], path);
        WriteAllAppend(acc, Leaves(entries[0].value, p), EntryLeaves(entries[1..], path));
      }
    }
  }

  lemma {:induction false} ItemsAreLeaves(acc: Flat, items: seq<Json>, path: string, i: nat)
    ensures FlattenItems(acc, items, path, i).Success? <==> SupportedItems(items)
    ensures SupportedItems(items) ==> FlattenItems(acc, items, path, i).value == WriteAll(acc, ItemLeaves(items, path, i))
    decreases items
  {
    if |items| > 0 {
      var p := ItemPath(path, i);
      FlattenIsLeaves(acc, items[0], p);
      if Supported(items[0]) {
        var mid := FlattenInto(acc, items[0], p).value;
        ItemsAreLeaves(mid, items[1..], path, i + 1);
        WriteAllAppend(acc, Leaves(items[0], p), ItemLeaves(items[1..], path, i + 1));
      }
    }
  }

  lemma {:induction false} FailureIsException(acc: Flat, obj: Json, path: string)
    ensures FlattenInto(acc, obj, path).Failure? ==> FlattenInto(acc, obj, path).error == "Exception"
    decreases obj
  {
    match obj
    case Dict(entries) => EntriesFailure(acc, entries, path);
    case List(items) => ItemsFailure(acc, items, path, 0);
    case Null =>
    case Bool(b) =>
    case Int(i) =>
    case Str(s) =>
    case Other(_) =>
  }

  lemma {:induction false} EntriesFailure(acc: Flat, entries: seq<Entry>, path: string)
    ensures FlattenEntries(acc, entries, path).Failure? ==> FlattenEntries(acc, entries, path).error == "Exception"
    decreases entries
  {
    if |entries| > 0 {
      var p := path + "." + entries[0].key;
      FailureIsException(acc, entries[0].value, p);
      var r := FlattenInto(acc, entries[0].value, p);
      if r.Success? { EntriesFailure(r.value, entries[1..], path); }
    }
  }

  lemma {:induction false} ItemsFailure(acc: Flat, items: seq<Json>, path: string, i: nat)
    ensures FlattenItems(acc, items, path, i).Failure? ==> FlattenItems(acc, items, path, i).error == "Exception"
    decreases items
  {
    if |items| > 0 {
      var p := ItemPath(path, i);
      FailureIsException(acc, items[0], p);
      var r := FlattenInto(acc, items[0], p);
      if r.Success? { ItemsFailure(r.value, items[1..], path, i + 1); }
    }
  }

  /** Every leaf lies under the path it was reached by: a dictionary key
      extends the path with `.key`, a list element with `[i]`. */
  lemma {:induction false} LeavesUnderPath(obj: Json, path: string)
    ensures forall k :: 0 <= k < |Leaves(obj, path)| ==> path <= Leaves(obj, path)[k].0
    decreases obj
  {
    match obj
    case Dict(entries) => EntryLeavesUnderPath(entries, path);
    case List(items) => ItemLeavesUnderPath(items, path, 0);
    case Null =>
    case Bool(b) =>
    case Int(i) =>
    case Str(s) =>
    case Other(_) =>
  }

  lemma {:induction false} EntryLeavesUnderPath(entries: seq<Entry>, path: string)
    ensures forall k :: 0 <= k < |EntryLeaves(entries, path)| ==> path + "." <= EntryLeaves(entries, path)[k].0
    decreases entries
  {
    if |entries| > 0 {
      var p := path + "." + entries[0].key;
      LeavesUnderPath(entries[0].value, p);
      EntryLeavesUnderPath(entries[1..], path);
      var a: seq<(string, Scalar)>, b: seq<(string, Scalar)> := Leaves(entries[0].value, p), EntryLeaves(entries[1..], path);
      forall k | 0 <= k < |a + b| ensures path + "." <= (a + b)[k].0 {
        if k < |a| {
          assert p <= a[k].0;
          assert (path + ".") <= p;
        } else {
          assert (a + b)[k] == b[k - |a|];
        }
      }
    }
  }

  lemma {:induction false} ItemLeavesUnderPath(items: seq<Json>, path: string, i: nat)
    ensures forall k :: 0 <= k < |ItemLeaves(items, path, i)| ==> path + "[" <= ItemLeaves(items, path, i)[k].0
    decreases items
  {
    if |items| > 0 {
      var p := ItemPath(path, i);
      LeavesUnderPath(items[0], p);
      ItemLeavesUnderPath(items[1..], path, i + 1);
      var a: seq<(string, Scalar)>, b: seq<(string, Scalar)> := Leaves(items[0], p), ItemLeaves(items[1..], path, i + 1);
      forall k | 0 <= k < |a + b| ensures path + "[" <= (a + b)[k].0 {
        if k < |a| {
          assert p <= a[k].0;
          assert (path + "[") <= p;
        } else {
          assert (a + b)[k] == b[k - |a|];
        }
      }
    }
  }

  // ---------------------------------------------------------------------
  // get_diff_report

  /** One line of the report: a key only in the new document (`+++`), only
      in the old one (`---`), or changed (`^^^`); a change between two
      strings of which one has 20 characters or more is shown as a line
      diff. */
  datatype ReportLine =
    | Added(key: string, value: Scalar)
    | Removed(key: string, value: Scalar)
    | Changed(key: string, before: Scalar, after: Scalar)
    | LongChange(key: string, oldText: string, newText: string)

  /** The text of a one-line report entry. */
  function Render(l: ReportLine): string
    requires !l.LongChange?
  {
    match l
    case Added(k, v) => "+++ " + k + " : " + ReprScalar(v)
    case Removed(k, v) => "--- " + k + " : " + ReprScalar(v)
    case Changed(k, a, b) => "^^^ " + k + " : " + ShowScalar(a) + " >>> " + ShowScalar(b)
  }

  /** The entry for one key of the union, or the exception Python raises:
      `len()` of a number when a short string became a number, `.replace`
      of a number when a long one did. */
  function KeyLine(o: Flat, n: Flat, k: string): Result<Option<ReportLine>>
    requires k in o || k in n
  {
    if k !in o then Success(Some(Added(k, n[k])))
    else if k !in n then Success(Some(Removed(k, o[k])))
    else if PyEq(o[k], n[k]) then Success(None)
    else if !o[k].SStr? then Success(Some(Changed(k, o[k], n[k])))
    else if |o[k].s| < 20 then
      if !n[k].SStr? then Failure("TypeError")
      else if |n[k].s| < 20 then Success(Some(Changed(k, o[k], n[k])))
      else Success(Some(LongChange(k, o[k].s, n[k].s)))
    else if !n[k].SStr? then Failure("AttributeError")
    else Success(Some(LongChange(k, o[k].s, n[k].s)))
  }

  function OptionSeq<T>(x: Option<T>): seq<T> { if x.Some? then [x.value] else [] }

  /** The report over `keys`, stopping at the first exception. */
  function ReportFrom(o: Flat, n: Flat, keys: seq<string>): Result<seq<ReportLine>>
    requires forall k :: 0 <= k < |keys| ==> keys[k] in o || keys[k] in n
  {
    if |keys| == 0 then Success([])
    else
      var l := KeyLine(o, n, keys[0]);
      if l.Failure? then Failure(l.error)
      else
        var rest := ReportFrom(o, n, keys[1..]);
        if rest.Failure? then rest else Success(OptionSeq(l.value) + rest.value)
  }

  function UnionKeys(o: Flat, n: Flat): (r: seq<string>)
    ensures forall k :: 0 <= k < |r| ==> r[k] in o || r[k] in n
  {
    Sorted(o.Keys + n.Keys)
  }

  function DiffReport(before: Json, after: Json): Result<seq<ReportLine>>
  {
    var o := Flatten(before);
    if o.Failure? then Failure(o.error)
    else
      var n := Flatten(after);
      if n.Failure? then Failure(n.error)
      else ReportFrom(o.value, n.value, UnionKeys(o.value, n.value))
  }

  function Prepend(acc: seq<ReportLine>, r: Result<seq<ReportLine>>): Result<seq<ReportLine>>
  {
    if r.Failure? then r else Success(acc + r.value)
  }

  method GetDiffReport(before: Json, after: Json) returns (r: Result<seq<ReportLine>>)
    ensures r == DiffReport(before, after)
  {
    var o := FlattenDocument(before);
    if o.Failure? {
      return Failure(o.error);
    }
    var n := FlattenDocument(after);
    if n.Failure? {
      return Failure(n.error);
    }
    r := ReportKeys(o.value, n.value, UnionKeys(o.value, n.value));
  }

  /** The `for key in sorted(keys)` loop. */
  method ReportKeys(o: Flat, n: Flat, keys: seq<string>) returns (r: Result<seq<ReportLine>>)
    requires forall k :: 0 <= k < |keys| ==> keys[k] in o || keys[k] in n
    ensures r == ReportFrom(o, n, keys)
  {
    var result: seq<ReportLine> := [];
    var i := 0;
    var all := ReportFrom(o, n, keys);
    assert keys[0..] == keys;
    assert all.Success? ==> [] + all.value == all.value;
    while i < |keys|
      invariant 0 <= i <= |keys|
      invariant all == Prepend(result, ReportFrom(o, n, keys[i..]))
    {
      ReportStep(o, n, keys, i, result);
      var l := KeyLine(o, n, keys[i]);
      if l.Failure? {
        return Failure(l.error);
      }
      result := result + OptionSeq(l.value);
      i := i + 1;
    }
    assert keys[i..] == [];
    assert result + [] == result;
    r := Success(result);
  }

  lemma ReportStep(o: Flat, n: Flat, keys: seq<string>, i: nat, acc: seq<ReportLine>)
    requires forall k :: 0 <= k < |keys| ==> keys[k] in o || keys[k] in n
    requires i < |keys|
    ensures var l := KeyLine(o, n, keys[i]);
      Prepend(acc, ReportFrom(o, n, keys[i..])) ==
        if l.Failure? then Failure(l.error) else Prepend(acc + OptionSeq(l.value), ReportFrom(o, n, keys[i + 1..]))
  {
    assert keys[i..][1..] == keys[i + 1..] && keys[i..][0] == keys[i];
    var l := KeyLine(o, n, keys[i]);
    var rest := ReportFrom(o, n, keys[i + 1..]);
    if l.Success? && rest.Success? {
      assert (acc + OptionSeq(l.value)) + rest.value == acc + (OptionSeq(l.value) + rest.value);
    }
  }

  // ---------------------------------------------------------------------
  // What the report says.

  /** A line tells the truth about its key. */
  predicate Describes(o: Flat, n: Flat, l: ReportLine)
  {
    match l
    case Added(k, v) => k !in o && k in n && n[k] == v
    case Removed(k, v) => k in o && k !in n && o[k] == v
    case Changed(k, a, b) => k in o && k in n && o[k] == a && n[k] == b && !PyEq(a, b)
    case LongChange(k, a, b) =>
      k in o && k in n && o[k] == SStr(a) && n[k] == SStr(b) && a != b && (|a| >= 20 || |b| >= 20)
  }

  /** The key has a different value, or a value on one side only. */
  predicate Differs(o: Flat, n: Flat, k: string)
  {
    (k in o || k in n) && !(k in o && k in n && PyEq(o[k], n[k]))
  }

  /** A string value became a number or a boolean. */
  predicate TypeBreak(o: Flat, n: Flat, k: string)
  {
    k in o && k in n && o[k].SStr? && !n[k].SStr?
  }

  /** Every line of the report describes its key truthfully, and the lines
      come in the order of the keys. */
  lemma {:induction false} ReportSound(o: Flat, n: Flat, keys: seq<string>)
    requires forall k :: 0 <= k < |keys| ==> keys[k] in o || keys[k] in n
    requires ReportFrom(o, n, keys).Success?
    ensures forall j :: 0 <= j < |ReportFrom(o, n, keys).value| ==>
              Describes(o, n, ReportFrom(o, n, keys).value[j]) && ReportFrom(o, n, keys).value[j].key in keys
  {
    if |keys| > 0 {
      ReportSound(o, n, keys[1..]);
      var rest := ReportFrom(o, n, keys[1..]).value;
      var head: seq<ReportLine> := OptionSeq(KeyLine(o, n, keys[0]).value);
      forall j | 0 <= j < |head + rest|
        ensures Describes(o, n, (head + rest)[j]) && (head + rest)[j].key in keys
      {
        if j >= |head| {
          assert (head + rest)[j] == rest[j - |head|];
          assert rest[j - |head|].key in keys[1..];
        }
      }
    }
  }

  /** Every key whose value differs gets a line. */
  lemma {:induction false} ReportComplete(o: Flat, n: Flat, keys: seq<string>, i: nat)
    requires forall k :: 0 <= k < |keys| ==> keys[k] in o || keys[k] in n
    requires ReportFrom(o, n, keys).Success?
    requires i < |keys| && Differs(o, n, keys[i])
    ensures exists j :: 0 <= j < |ReportFrom(o, n, keys).value| && ReportFrom(o, n, keys).value[j].key == keys[i]
  {
    var head: seq<ReportLine> := OptionSeq(KeyLine(o, n, keys[0]).value);
    var rest := ReportFrom(o, n, keys[1..]).value;
    if i == 0 {
      assert (head + rest)[0].key == keys[0];
    } else {
      ReportComplete(o, n, keys[1..], i - 1);
      var j :| 0 <= j < |rest| && rest[j].key == keys[i];
      assert (head + rest)[|head| + j] == rest[j];
    }
  }

  /** The lines keep the (sorted) order of the keys: their keys strictly
      increase. */
  lemma {:induction false} ReportOrdered(o: Flat, n: Flat, keys: seq<string>)
    requires forall k :: 0 <= k < |keys| ==> keys[k] in o || keys[k] in n
    requires ReportFrom(o, n, keys).Success?
    requires forall i, j :: 0 <= i < j < |keys| ==> Less(keys[i], keys[j])
    ensures forall i, j :: 0 <= i < j < |ReportFrom(o, n, keys).value| ==>
              Less(ReportFrom(o, n, keys).value[i].key, ReportFrom(o, n, keys).value[j].key)
  {
    if |keys| > 0 {
      ReportOrdered(o, n, keys[1..]);
      ReportSound(o, n, keys[1..]);
      var rest := ReportFrom(o, n, keys[1..]).value;
      var head: seq<ReportLine> := OptionSeq(KeyLine(o, n, keys[0]).value);
      forall i, j | 0 <= i < j < |head + rest|
        ensures Less((head + rest)[i].key, (head + rest)[j].key)
      {
        assert (head + rest)[j] == rest[j - |head|];
        if i < |head| {
          var m :| 0 <= m < |keys[1..]| && keys[1..][m] == rest[j - |head|].key;
          assert keys[1..][m] == keys[m + 1];
        } else {
          assert (head + rest)[i] == rest[i - |head|];
        }
      }
    }
  }

  /** The report raises exactly when some string value became a number or a
      boolean, and then with the exception of the first such key. */
  lemma {:induction false} ReportFailure(o: Flat, n: Flat, keys: seq<string>)
    requires forall k :: 0 <= k < |keys| ==> keys[k] in o || keys[k] in n
    ensures ReportFrom(o, n, keys).Failure? <==> exists i :: 0 <= i < |keys| && TypeBreak(o, n, keys[i])
    ensures ReportFrom(o, n, keys).Failure? ==>
              ReportFrom(o, n, keys).error == "TypeError" || ReportFrom(o, n, keys).error == "AttributeError"
  {
    if |keys| > 0 {
      ReportFailure(o, n, keys[1..]);
      if exists i :: 0 <= i < |keys[1..]| && TypeBreak(o, n, keys[1..][i]) {
        var i :| 0 <= i < |keys[1..]| && TypeBreak(o, n, keys[1..][i]);
        assert TypeBreak(o, n, keys[i + 1]);
      }
      if exists i :: 0 <= i < |keys| && TypeBreak(o, n, keys[i]) {
        var i :| 0 <= i < |keys| && TypeBreak(o, n, keys[i]);
        if i > 0 { assert keys[1..][i - 1] == keys[i]; }
      }
    }
  }

  /** A document compared with itself gives an empty report. */
  lemma {:induction false} ReportOfSame(f: Flat, keys: seq<string>)
    requires forall k :: 0 <= k < |keys| ==> keys[k] in f
    ensures ReportFrom(f, f, keys) == Success([])
  {
    if |keys| > 0 {
      ReportOfSame(f, keys[1..]);
      var v := f[keys[0]];
      assert PyEq(v, v) by {
        match v
        case SStr(x) =>
        case SInt(x) =>
        case SBool(x) =>
      }
      assert KeyLine(f, f, keys[0]) == Success(None);
      assert OptionSeq<ReportLine>(None) == [];
      var rest := ReportFrom(f, f, keys[1..]);
      assert rest == Success([]);
      assert ReportFrom(f, f, keys) == Success(OptionSeq<ReportLine>(None) + rest.value);
      assert OptionSeq<ReportLine>(None) + rest.value == [];
    }
  }

  lemma SameDocumentNoReport(d: Json)
    requires Supported(d)
    ensures DiffReport(d, d) == Success([])
  {
    FlattenIsLeaves(map[], d, "root");
    var f := Flatten(d).value;
    ReportOfSame(f, UnionKeys(f, f));
  }

  /** The whole report: every line is truthful, lines come in sorted key
      order, and every key with a different value has its line. */
  lemma DiffReportSpec(before: Json, after: Json)
    requires DiffReport(before, after).Success?
    ensures var o, n, r := Flatten(before).value, Flatten(after).value, DiffReport(before, after).value;
      && (forall j :: 0 <= j < |r| ==> Describes(o, n, r[j]))
      && (forall i, j :: 0 <= i < j < |r| ==> Less(r[i].key, r[j].key))
      && (forall k :: Differs(o, n, k) ==> exists j :: 0 <= j < |r| && r[j].key == k)
  {
    var o, n := Flatten(before).value, Flatten(after).value;
    var keys := UnionKeys(o, n);
    ReportSound(o, n, keys);
    ReportOrdered(o, n, keys);
    forall k | Differs(o, n, k)
      ensures exists j :: 0 <= j < |ReportFrom(o, n, keys).value| && ReportFrom(o, n, keys).value[j].key == k
    {
      assert k in o.Keys + n.Keys;
      var i :| 0 <= i < |keys| && keys[i] == k;
      ReportComplete(o, n, keys, i);
    }
  }

  // ---------------------------------------------------------------------
  // A string value that becomes a number makes get_diff_report raise
  // instead of reporting the change.

  /** The smallest case: `{"k": "a"}` against `{"k": 1}`. */
  lemma TypeChangeRaises()
    ensures KeyLine(map["root.k" := SStr("a")], map["root.k" := SInt(1)], "root.k") == Failure("TypeError")
    ensures ReportFrom(map["root.k" := SStr("a")], map["root.k" := SInt(1)], ["root.k"]) == Failure("TypeError")
  {
  }

  /** The entry the number check evidently means to produce: any change
      that does not involve two strings is shown on one line. */
  function KeyLineIntended(o: Flat, n: Flat, k: string): Option<ReportLine>
    requires k in o || k in n
  {
    if k !in o then Some(Added(k, n[k]))
    else if k !in n then Some(Removed(k, o[k]))
    else if PyEq(o[k], n[k]) then None
    else if !o[k].SStr? || !n[k].SStr? || (|o[k].s| < 20 && |n[k].s| < 20) then Some(Changed(k, o[k], n[k]))
    else Some(LongChange(k, o[k].s, n[k].s))
  }

  function ReportIntended(o: Flat, n: Flat, keys: seq<string>): seq<ReportLine>
    requires forall k :: 0 <= k < |keys| ==> keys[k] in o || keys[k] in n
  {
    if |keys| == 0 then []
    else OptionSeq(KeyLineIntended(o, n, keys[0])) + ReportIntended(o, n, keys[1..])
  }

  /** The corrected report agrees with the original wherever that one does
      not raise. */
  lemma {:induction false} IntendedAgrees(o: Flat, n: Flat, keys: seq<string>)
    requires forall k :: 0 <= k < |keys| ==> keys[k] in o || keys[k] in n
    requires ReportFrom(o, n, keys).Success?
    ensures ReportIntended(o, n, keys) == ReportFrom(o, n, keys).value
  {
    if |keys| > 0 {
      IntendedAgrees(o, n, keys[1..]);
    }
  }

  /** ... and reports a string that became a number as a one-line change,
      every line still truthful. */
  lemma {:induction false} IntendedSound(o: Flat, n: Flat, keys: seq<string>)
    requires forall k :: 0 <= k < |keys| ==> keys[k] in o || keys[k] in n
    ensures forall j :: 0 <= j < |ReportIntended(o, n, keys)| ==>
              Describes(o, n, ReportIntended(o, n, keys)[j]) && ReportIntended(o, n, keys)[j].key in keys
    ensures forall i :: 0 <= i < |keys| && TypeBreak(o, n, keys[i]) ==>
              Changed(keys[i], o[keys[i]], n[keys[i]]) in ReportIntended(o, n, keys)
  {
    if |keys| > 0 {
      IntendedSound(o, n, keys[1..]);
      var head: seq<ReportLine> := OptionSeq(KeyLineIntended(o, n, keys[0]));
      var rest := ReportIntended(o, n, keys[1..]);
      forall j | 0 <= j < |head + rest|
        ensures Describes(o, n, (head + rest)[j]) && (head + rest)[j].key in keys
      {
        if j >= |head| {
          assert (head + rest)[j] == rest[j - |head|];
          assert rest[j - |head|].key in keys[1..];
        }
      }
      forall i | 0 <= i < |keys| && TypeBreak(o, n, keys[i])
        ensures Changed(keys[i], o[keys[i]], n[keys[i]]) in head + rest
      {
        if i > 0 { assert keys[1..][i - 1] == keys[i]; }
      }
    }
  }
}
