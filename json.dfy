/** The values the bot reads from the camptocamp API: JSON documents as
    Python builds them (`dict`, `list`, `str`, `int`, `bool`, `None`), the
    Python renderings `str()` and `repr()` of the scalar ones, and the
    code-point order `sorted()` uses on strings. */
module Json {
  import opened Text

  /** A decoded JSON value. Dictionaries keep their insertion order;
      `Other` stands for any value of a type the code does not expect
      (a `set`, a `tuple`, ...), named by its type. */
  datatype Json =
    | Null
    | Bool(b: bool)
    | Int(i: int)
    | Str(s: string)
    | List(items: seq<Json>)
    | Dict(entries: seq<Entry>)
    | Other(typeName: string)

  datatype Entry = Entry(key: string, value: Json)

  /** The scalar values `flatten` keeps. */
  datatype Scalar = SStr(s: string) | SInt(i: int) | SBool(b: bool)

  /** Python's `==` on scalars: `True == 1` and `False == 0`. */
  predicate PyEq(a: Scalar, b: Scalar)
  {
    match (a, b)
    case (SStr(x), SStr(y)) => x == y
    case (SStr(_), _) => false
    case (_, SStr(_)) => false
    case _ => NumberOf(a) == NumberOf(b)
  }

  function NumberOf(a: Scalar): int
  {
    match a
    case SInt(i) => i
    case SBool(b) => if b then 1 else 0
    case SStr(_) => 0
  }

  /** `"{}".format(v)`. */
  function ShowScalar(v: Scalar): string
  {
    match v
    case SStr(s) => s
    case SInt(i) => IntToString(i)
    case SBool(b) => if b then "True" else "False"
  }

  /** `repr(v)`. */
  function ReprScalar(v: Scalar): string
  {
    match v
    case SStr(s) => ReprString(s)
    case _ => ShowScalar(v)
  }

  /** `str.isprintable()` on one character, as `repr` consults it: ASCII
      from the space to `~`, and every other character outside the Unicode
      categories Cc (controls), Zs, Zl, Zp (separators other than the
      space), Cf (format characters) and Co (private use). */
  predicate Printable(c: char)
  {
    if c < '\U{7F}' then ' ' <= c else !Unprintable(c)
  }

  /** The characters from DEL up that `str.isprintable()` rejects. */
  predicate Unprintable(c: char)
  {
    || c <= '\U{A0}' || c == '\U{AD}'
    || '\U{600}' <= c <= '\U{605}' || c == '\U{61C}' || c == '\U{6DD}' || c == '\U{70F}'
    || '\U{890}' <= c <= '\U{891}' || c == '\U{8E2}' || c == '\U{1680}' || c == '\U{180E}'
    || '\U{2000}' <= c <= '\U{200F}' || '\U{2028}' <= c <= '\U{202F}' || '\U{205F}' <= c <= '\U{206F}'
    || c == '\U{3000}' || '\U{E000}' <= c <= '\U{F8FF}' || c == '\U{FEFF}' || '\U{FFF9}' <= c <= '\U{FFFB}'
    || c == '\U{110BD}' || c == '\U{110CD}' || '\U{13430}' <= c <= '\U{1343F}'
    || '\U{1BCA0}' <= c <= '\U{1BCA3}' || '\U{1D173}' <= c <= '\U{1D17A}'
    || c == '\U{E0001}' || '\U{E0020}' <= c <= '\U{E007F}' || '\U{F0000}' <= c
  }

  /** Python's `repr` of a string: single quotes unless the text holds a
      single quote and no double quote; backslash, the quote in use, tab,
      newline and carriage return are escaped, and so is every character
      that is not printable, by its code point. */
  function ReprString(s: string): (r: string)
    ensures |r| >= 2
  {
    var q := if '\'' in s && '"' !in s then '"' else '\'';
    [q] + Escape(s, q) + [q]
  }

  function Escape(s: string, q: char): string
  {
    if |s| == 0 then ""
    else EscapeChar(s[0], q) + Escape(s[1..], q)
  }

  function EscapeChar(c: char, q: char): string
  {
    if c == '\\' then "\\\\"
    else if c == q then ['\\', q]
    else if c == '\t' then "\\t"
    else if c == '\n' then "\\n"
    else if c == '\r' then "\\r"
    else if Printable(c) then [c]
    else if c <= '\U{FF}' then "\\x" + Hex(c as int, 2)
    else if c <= '\U{FFFF}' then "\\u" + Hex(c as int, 4)
    else "\\U" + Hex(c as int, 8)
  }

  /** The last `width` lower-case hexadecimal digits of `n`. */
  function Hex(n: nat, width: nat): (r: string)
    ensures |r| == width
    ensures forall k :: 0 <= k < |r| ==> IsDigit(r[k]) || 'a' <= r[k] <= 'f'
  {
    if width == 0 then "" else Hex(n / 16, width - 1) + [HexDigit(n % 16)]
  }

  function HexDigit(d: int): (c: char)
    requires 0 <= d < 16
    ensures IsDigit(c) || 'a' <= c <= 'f'
  {
    if d < 10 then ('0' as int + d) as char else ('a' as int + d - 10) as char
  }

  /** Text with nothing to escape is rendered as it is. */
  lemma {:induction false} EscapePlain(s: string, q: char)
    requires forall k :: 0 <= k < |s| ==> s[k] != '\\' && s[k] != q && Printable(s[k])
    ensures Escape(s, q) == s
  {
    if |s| > 0 {
      EscapePlain(s[1..], q);
      assert s == [s[0]] + s[1..];
    }
  }

  /** A printable text without backslash or single quote is rendered
      between single quotes. */
  lemma ReprPlain(s: string)
    requires forall k :: 0 <= k < |s| ==> s[k] != '\\' && s[k] != '\'' && Printable(s[k])
    ensures ReprString(s) == "'" + s + "'"
  {
    EscapePlain(s, '\'');
  }

  /** `repr` only ever writes printable characters. */
  lemma ReprPrintable(s: string)
    ensures AllPrintable(ReprString(s))
  {
    var q := if '\'' in s && '"' !in s then '"' else '\'';
    EscapePrintable(s, q);
    AllPrintableConcat([q], Escape(s, q));
    AllPrintableConcat([q] + Escape(s, q), [q]);
  }

  predicate AllPrintable(s: string)
  {
    forall k :: 0 <= k < |s| ==> Printable(s[k])
  }

  lemma AllPrintableConcat(a: string, b: string)
    requires AllPrintable(a) && AllPrintable(b)
    ensures AllPrintable(a + b)
  {
    assert forall k :: |a| <= k < |a + b| ==> (a + b)[k] == b[k - |a|];
  }

  lemma {:induction false} EscapePrintable(s: string, q: char)
    requires q == '\'' || q == '"'
    ensures AllPrintable(Escape(s, q))
  {
    if |s| > 0 {
      EscapeCharPrintable(s[0], q);
      EscapePrintable(s[1..], q);
      AllPrintableConcat(EscapeChar(s[0], q), Escape(s[1..], q));
    }
  }

  lemma EscapeCharPrintable(c: char, q: char)
    requires q == '\'' || q == '"'
    ensures AllPrintable(EscapeChar(c, q))
  {
  }

  /** A no-break space, common in French text, is written `\xa0`. */
  lemma ReprNoBreakSpace()
    ensures ReprString("a\U{A0}b") == "'a\\xa0b'"
  {
    var s := "a\U{A0}b";
    assert '\'' !in s;
    assert Escape(s, '\'') == "a" + EscapeChar('\U{A0}', '\'') + Escape("b", '\'') by {
      assert s[1..] == "\U{A0}b" && s[1..][1..] == "b";
    }
    EscapeNoBreakSpace();
  }

  lemma EscapeNoBreakSpace()
    ensures EscapeChar('\U{A0}', '\'') == "\\xa0"
  {
    assert Hex(0xA0, 2) == Hex(10, 1) + "0";
  }

  // ---------------------------------------------------------------------
  // `sorted()` on strings: code-point lexicographic order.

  predicate Less(a: string, b: string)
  {
    if |a| == 0 then |b| > 0
    else |b| > 0 && (a[0] < b[0] || (a[0] == b[0] && Less(a[1..], b[1..])))
  }

  lemma {:induction false} LessIrreflexive(a: string)
    ensures !Less(a, a)
  {
    if |a| > 0 { LessIrreflexive(a[1..]); }
  }

  lemma {:induction false} LessTrans(a: string, b: string, c: string)
    requires Less(a, b) && Less(b, c)
    ensures Less(a, c)
  {
    if |a| > 0 && |b| > 0 && |c| > 0 && a[0] == b[0] && b[0] == c[0] {
      LessTrans(a[1..], b[1..], c[1..]);
    }
  }

  lemma {:induction false} LessTotal(a: string, b: string)
    requires a != b
    ensures Less(a, b) || Less(b, a)
  {
    if |a| > 0 && |b| > 0 && a[0] == b[0] {
      assert a == [a[0]] + a[1..] && b == [b[0]] + b[1..];
      LessTotal(a[1..], b[1..]);
    }
  }

  predicate IsLeast(m: string, s: set<string>)
  {
    m in s && forall x :: x in s && x != m ==> Less(m, x)
  }

  lemma {:induction false} LeastExists(s: set<string>)
    requires s != {}
    ensures exists m :: IsLeast(m, s)
    decreases |s|
  {
    var x :| x in s;
    if s != {x} {
      LeastExists(s - {x});
      var m' :| IsLeast(m', s - {x});
      if Less(x, m') {
        forall y | y in s && y != x ensures Less(x, y) {
          if y != m' { LessTrans(x, m', y); }
        }
        assert IsLeast(x, s);
      } else {
        LessTotal(x, m');
        assert IsLeast(m', s);
      }
    } else {
      assert IsLeast(x, s);
    }
  }

  lemma LeastUnique(a: string, b: string, s: set<string>)
    requires IsLeast(a, s) && IsLeast(b, s)
    ensures a == b
  {
    if a != b {
      LessTrans(a, b, a);
      LessIrreflexive(a);
    }
  }

  /** The least string of a non-empty finite set. */
  function MinOf(s: set<string>): (m: string)
    requires s != {}
    ensures IsLeast(m, s)
  {
    LeastExists(s);
    assert forall a, b :: IsLeast(a, s) && IsLeast(b, s) ==> a == b by {
      forall a, b | IsLeast(a, s) && IsLeast(b, s) ensures a == b { LeastUnique(a, b, s); }
    }
    var m :| IsLeast(m, s);
    m
  }

  /** `sorted(s)`: every element once, in increasing order. */
  function Sorted(s: set<string>): (r: seq<string>)
    ensures |r| == |s|
    ensures forall k :: 0 <= k < |r| ==> r[k] in s
    ensures forall x :: x in s ==> x in r
    ensures forall i, j :: 0 <= i < j < |r| ==> Less(r[i], r[j])
    decreases |s|
  {
    if s == {} then []
    else
      var m := MinOf(s);
      var rest := Sorted(s - {m});
      [m] + rest
  }
}
