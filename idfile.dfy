/** `campbot/utils.py`, `get_ids_from_file`: a file of `id|letter` lines
    (spaces allowed anywhere) read into a dictionary that maps the API's
    id-list names (`route_ids`, ...) to the ids of that type, in file
    order. The file is given here as its sequence of lines, each with the
    newline Python's line iteration keeps. */
module IdFile {
  import opened Wrappers
  import opened Text
  import opened Grouping

  /** The line without any space or newline character. */
  function Clean(line: string): (r: string)
    ensures ' ' !in r && '\n' !in r
  {
    if |line| == 0 then ""
    else (if line[0] == ' ' || line[0] == '\n' then "" else [line[0]]) + Clean(line[1..])
  }

  /** A text without spaces or newlines is kept as it is. */
  lemma {:induction false} CleanPlain(line: string)
    requires ' ' !in line && '\n' !in line
    ensures Clean(line) == line
  {
    if |line| > 0 {
      CleanPlain(line[1..]);
      assert line == [line[0]] + line[1..];
    }
  }

  lemma {:induction false} CleanConcat(a: string, b: string)
    ensures Clean(a + b) == Clean(a) + Clean(b)
  {
    if |a| == 0 {
      assert a + b == b;
    } else {
      assert (a + b)[1..] == a[1..] + b;
      CleanConcat(a[1..], b);
    }
  }

  /** The name of the id list for a type letter. */
  function KeyFor(letter: string): (r: Result<string>)
    ensures r.Failure? ==> r.error == "KeyError"
  {
    if letter == "u" then Success("user_ids")
    else if letter == "a" then Success("area_ids")
    else if letter == "w" then Success("waypoint_ids")
    else if letter == "o" then Success("outing_ids")
    else if letter == "i" then Success("image_ids")
    else if letter == "x" then Success("xreport_ids")
    else if letter == "c" then Success("article_ids")
    else if letter == "b" then Success("book_ids")
    else if letter == "r" then Success("route_ids")
    else Failure("KeyError")
  }

  predicate KnownLetter(letter: string)
  {
    letter in {"u", "a", "w", "o", "i", "x", "c", "b", "r"}
  }

  /** Exactly the nine letters have a list, and no two share one. */
  lemma KeyForSpec(l: string, m: string)
    ensures KeyFor(l).Success? <==> KnownLetter(l)
    ensures KeyFor(l).Success? && KeyFor(m).Success? && KeyFor(l) == KeyFor(m) ==> l == m
  {
  }

  /** One line: split into an id and a letter (unpacking fails unless there
      are exactly two parts), then the letter looked up, then the id read as
      an integer. */
  function ParseLine(line: string): (r: Result<(string, int)>)
    ensures r.Failure? ==> r.error in {"ValueError", "KeyError"}
    ensures r.Success? ==> var parts := Split(Clean(line), "|");
      |parts| == 2 && KeyFor(parts[1]) == Success(r.value.0) && ParseInt(parts[0]) == Some(r.value.1)
  {
    var parts := Split(Clean(line), "|");
    if |parts| != 2 then Failure("ValueError")
    else
      var key := KeyFor(parts[1]);
      if key.Failure? then Failure(key.error)
      else
        var id := ParseInt(parts[0]);
        if id.None? then Failure("ValueError") else Success((key.value, id.value))
  }

  /** A line of the form the file holds is read back as its id and list. */
  lemma ParseFormatted(id: int, letter: string, pad: string)
    requires KnownLetter(letter)
    requires forall k :: 0 <= k < |pad| ==> pad[k] == ' '
    ensures ParseLine(IntToString(id) + pad + "|" + pad + letter + "\n") == Success((KeyFor(letter).value, id))
  {
    var n := IntToString(id);
    DigitsOfInt(id);
    KnownLetterPlain(letter);
    CleanFormatted(n, letter, pad);
    SplitJoinChar([n, letter], '|');
    assert Join([n, letter], "|") == n + "|" + letter;
    ParseIntToString(id);
  }

  /** Whitespace the cleaning keeps, such as tabs and carriage returns
      around the id, is ignored by `int`: `5\t|r` reads as id 5. */
  lemma ParseTabbed(id: int, letter: string, pad: string)
    requires KnownLetter(letter)
    requires forall k :: 0 <= k < |pad| ==> pad[k] == '\t' || pad[k] == '\r'
    ensures ParseLine(pad + IntToString(id) + pad + "|" + letter) == Success((KeyFor(letter).value, id))
  {
    var n := IntToString(id);
    DigitsOfInt(id);
    KnownLetterPlain(letter);
    var x := pad + n + pad;
    assert ' ' !in x && '\n' !in x && '|' !in x;
    CleanPlain(x + "|" + letter);
    SplitJoinChar([x, letter], '|');
    assert Join([x, letter], "|") == x + "|" + letter;
    ParsePadded(pad, id, pad);
  }

  lemma KnownLetterPlain(letter: string)
    requires KnownLetter(letter)
    ensures |letter| == 1 && letter[0] != ' ' && letter[0] != '\n' && letter[0] != '|'
  {
  }

  lemma CleanFormatted(n: string, letter: string, pad: string)
    requires ' ' !in letter && '\n' !in letter
    requires ' ' !in n && '\n' !in n
    requires forall k :: 0 <= k < |pad| ==> pad[k] == ' '
    ensures Clean(n + pad + "|" + pad + letter + "\n") == n + "|" + letter
  {
    CleanSpaces(pad);
    CleanPlain(letter);
    CleanPlain(n);
    CleanPlain("|");
    var s1 := n + pad;
    CleanConcat(n, pad);
    assert Clean(s1) == n + "" == n;
    var s2 := s1 + "|";
    CleanConcat(s1, "|");
    assert Clean(s2) == n + "|";
    var s3 := s2 + pad;
    CleanConcat(s2, pad);
    assert Clean(s3) == n + "|" + "" == n + "|";
    var s4 := s3 + letter;
    CleanConcat(s3, letter);
    assert Clean(s4) == n + "|" + letter;
    CleanConcat(s4, "\n");
    CleanNewline();
    assert Clean(s4 + "\n") == n + "|" + letter + "";
  }

  lemma CleanNewline()
    ensures Clean("\n") == ""
  {
    assert "\n"[1..] == "";
  }

  lemma {:induction false} CleanSpaces(pad: string)
    requires forall k :: 0 <= k < |pad| ==> pad[k] == ' '
    ensures Clean(pad) == ""
  {
    if |pad| > 0 { CleanSpaces(pad[1..]); }
  }

  lemma DigitsOfInt(i: int)
    ensures ' ' !in IntToString(i) && '\n' !in IntToString(i) && '|' !in IntToString(i)
  {
    var n := IntToString(i);
    assert forall k :: 0 <= k < |n| ==> n[k] == '-' || IsDigit(n[k]);
  }

  // ---------------------------------------------------------------------
  // The dictionary

  type Ids = Groups<string, int>

  /** The dictionary after the lines `lines`; the first line that raises
      ends the reading. */
  function ReadFrom(acc: Ids, lines: seq<string>): Result<Ids>
    decreases |lines|
  {
    if |lines| == 0 then Success(acc)
    else
      var p := ParseLine(lines[0]);
      if p.Failure? then Failure(p.error) else ReadFrom(Append(acc, p.value.0, p.value.1), lines[1..])
  }

  /** `get_ids_from_file`. */
  method GetIdsFromFile(lines: seq<string>) returns (r: Result<Ids>)
    ensures r == ReadFrom(map[], lines)
  {
    var result: Ids := map[];
    var i := 0;
    while i < |lines|
      invariant 0 <= i <= |lines|
      invariant ReadFrom(map[], lines) == ReadFrom(result, lines[i..])
    {
      assert lines[i..][1..] == lines[i + 1..];
      var line := Clean(lines[i]);
      var parts := Split(line, "|");
      if |parts| != 2 {
        return Failure("ValueError");
      }
      var itemType := KeyFor(parts[1]);
      if itemType.Failure? {
        return Failure(itemType.error);
      }
      var itemId := ParseInt(parts[0]);
      if itemId.None? {
        return Failure("ValueError");
      }
      ghost var before := result;
      if itemType.value !in result {
        result := result[itemType.value := []];
      }
      result := result[itemType.value := result[itemType.value] + [itemId.value]];
      assert result == Append(before, itemType.value, itemId.value);
      i := i + 1;
    }
    assert lines[i..] == [];
    r := Success(result);
  }

  // ---------------------------------------------------------------------
  // What the reading gives

  predicate AllRead(lines: seq<string>)
  {
    forall k :: 0 <= k < |lines| ==> ParseLine(lines[k]).Success?
  }

  /** The (list, id) pairs of lines that all read. */
  function Parsed(lines: seq<string>): (r: seq<(string, int)>)
    requires AllRead(lines)
    ensures |r| == |lines| && forall k :: 0 <= k < |lines| ==> r[k] == ParseLine(lines[k]).value
  {
    seq(|lines|, k requires 0 <= k < |lines| && AllRead(lines) => ParseLine(lines[k]).value)
  }

  /** Reading lines that all read appends their pairs. */
  lemma {:induction false} ReadFromParsed(acc: Ids, lines: seq<string>)
    requires AllRead(lines)
    ensures ReadFrom(acc, lines) == Success(AppendAll(acc, Parsed(lines)))
    decreases |lines|
  {
    if |lines| > 0 {
      var tail := lines[1..];
      assert AllRead(tail) by {
        forall k | 0 <= k < |tail| ensures ParseLine(tail[k]).Success? { assert tail[k] == lines[k + 1]; }
      }
      var p := ParseLine(lines[0]).value;
      ReadFromParsed(Append(acc, p.0, p.1), tail);
      assert Parsed(lines)[1..] == Parsed(tail);
    }
  }

  /** When every line reads, the dictionary has a list for exactly the
      letters the lines name, holding their ids in file order. */
  lemma ReadSpec(lines: seq<string>)
    requires AllRead(lines)
    ensures ReadFrom(map[], lines).Success?
    ensures ReadFrom(map[], lines).value.Keys == KeysOf(Parsed(lines))
    ensures forall key :: key in ReadFrom(map[], lines).value ==>
      ReadFrom(map[], lines).value[key] == ValuesFor(Parsed(lines), key)
  {
    ReadFromParsed(map[], lines);
    AppendAllSpec(map[], Parsed(lines));
  }

  lemma AllReadCons(lines: seq<string>)
    requires |lines| > 0
    ensures AllRead(lines) <==> ParseLine(lines[0]).Success? && AllRead(lines[1..])
  {
    var tail := lines[1..];
    assert forall k :: 0 <= k < |tail| ==> tail[k] == lines[k + 1];
    if ParseLine(lines[0]).Success? && AllRead(tail) {
      forall k | 0 <= k < |lines| ensures ParseLine(lines[k]).Success? {
        if k > 0 { assert lines[k] == tail[k - 1]; }
      }
    }
  }

  /** The reading raises exactly when some line does. */
  lemma {:induction false} ReadFromFails(acc: Ids, lines: seq<string>)
    ensures ReadFrom(acc, lines).Failure? <==> !AllRead(lines)
    decreases |lines|
  {
    if |lines| > 0 {
      AllReadCons(lines);
      var p := ParseLine(lines[0]);
      if p.Success? {
        ReadFromFails(Append(acc, p.value.0, p.value.1), lines[1..]);
      }
    }
  }

  /** It then raises the error of the first line that does. */
  lemma {:induction false} ReadFromError(acc: Ids, lines: seq<string>)
    requires ReadFrom(acc, lines).Failure?
    ensures exists k ::
      && 0 <= k < |lines| && ParseLine(lines[k]).Failure?
      && ReadFrom(acc, lines).error == ParseLine(lines[k]).error
      && forall j :: 0 <= j < k ==> ParseLine(lines[j]).Success?
    decreases |lines|
  {
    var p := ParseLine(lines[0]);
    if p.Success? {
      var tail := lines[1..];
      ReadFromError(Append(acc, p.value.0, p.value.1), tail);
      var k :| 0 <= k < |tail| && ParseLine(tail[k]).Failure? &&
        ReadFrom(acc, lines).error == ParseLine(tail[k]).error &&
        forall j :: 0 <= j < k ==> ParseLine(tail[j]).Success?;
      ShiftedPrefix(lines, k);
    }
  }

  lemma ShiftedPrefix(lines: seq<string>, k: nat)
    requires k < |lines| - 1 && ParseLine(lines[0]).Success?
    requires forall j :: 0 <= j < k ==> ParseLine(lines[1..][j]).Success?
    ensures lines[k + 1] == lines[1..][k]
    ensures forall j :: 0 <= j < k + 1 ==> ParseLine(lines[j]).Success?
  {
    forall j | 0 <= j < k + 1 ensures ParseLine(lines[j]).Success? {
      if j > 0 { assert lines[j] == lines[1..][j - 1]; }
    }
  }
}
