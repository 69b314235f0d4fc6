/** String helpers shared by every processor: the Python `str` operations the
    source relies on (`split`, `join`, `replace`, `startswith`, `isdigit`,
    `str(int)`, `int(str)`, `strip`), written over `seq<char>`.

    The scanning functions are index-based on purpose: with literal arguments
    the verifier can evaluate them, which lets the concrete vectors of the
    source's tests be proved as lemmas. */
module Text {
  import opened Wrappers

  // ---------------------------------------------------------------------
  // Characters

  predicate IsDigit(c: char) { '0' <= c <= '9' }

  predicate IsAsciiLetter(c: char) { 'a' <= c <= 'z' || 'A' <= c <= 'Z' }

  /** ASCII whitespace, as stripped by `str.strip()` on ASCII text. */
  predicate IsSpace(c: char) { c == ' ' || c == '\t' || c == '\n' || c == '\r' || c == '\U{B}' || c == '\U{C}' }

  /** Case folding used by the source's `re.IGNORECASE` patterns (ASCII only). */
  function ToLower(c: char): (r: char)
    ensures IsAsciiLetter(c) ==> IsAsciiLetter(r) && 'a' <= r <= 'z'
    ensures !('A' <= c <= 'Z') ==> r == c
  {
    if 'A' <= c <= 'Z' then (c as int + 32) as char else c
  }

  predicate SameIgnoreCase(a: char, b: char) { ToLower(a) == ToLower(b) }

  function DigitValue(c: char): (d: nat)
    requires IsDigit(c)
    ensures d < 10
  {
    c as int - '0' as int
  }

  function DigitChar(d: nat): (c: char)
    requires d < 10
    ensures IsDigit(c) && DigitValue(c) == d
  {
    ('0' as int + d) as char
  }

  // ---------------------------------------------------------------------
  // Prefix tests

  /** `s[i:].startswith(p)`, evaluated character by character from `k`. */
  predicate MatchesFrom(s: string, i: nat, p: string, k: nat)
    decreases |p| - k
  {
    if k >= |p| then i + |p| <= |s| else i + k < |s| && s[i + k] == p[k] && MatchesFrom(s, i, p, k + 1)
  }

  predicate StartsAt(s: string, i: nat, p: string) { MatchesFrom(s, i, p, 0) }

  /** Case-insensitive variant, for `re.IGNORECASE` literals. */
  predicate MatchesFromIC(s: string, i: nat, p: string, k: nat)
    decreases |p| - k
  {
    if k >= |p| then i + |p| <= |s| else i + k < |s| && SameIgnoreCase(s[i + k], p[k]) && MatchesFromIC(s, i, p, k + 1)
  }

  predicate StartsAtIC(s: string, i: nat, p: string) { MatchesFromIC(s, i, p, 0) }

  predicate StartsWith(s: string, p: string) { StartsAt(s, 0, p) }

  lemma {:induction false} MatchesFromSlice(s: string, i: nat, p: string, k: nat)
    requires k <= |p|
    ensures MatchesFrom(s, i, p, k) <==> i + |p| <= |s| && s[i + k..i + |p|] == p[k..]
    decreases |p| - k
  {
    if k < |p| {
      MatchesFromSlice(s, i, p, k + 1);
      if i + |p| <= |s| {
        assert s[i + k..i + |p|] == [s[i + k]] + s[i + k + 1..i + |p|];
        assert p[k..] == [p[k]] + p[k + 1..];
      }
    }
  }

  /** A text is its three slices around `h` and `e`. */
  lemma SliceThree(s: string, h: nat, e: nat)
    requires h <= e <= |s|
    ensures s == s[..h] + s[h..e] + s[e..]
  {
  }

  /** `StartsAt` is exactly the slice comparison. */
  lemma StartsAtSlice(s: string, i: nat, p: string)
    ensures StartsAt(s, i, p) <==> i + |p| <= |s| && s[i..i + |p|] == p
  {
    MatchesFromSlice(s, i, p, 0);
  }

  lemma StartsAtConcat(a: string, p: string, b: string)
    ensures StartsAt(a + p + b, |a|, p)
  {
    StartsAtSlice(a + p + b, |a|, p);
    assert (a + p + b)[|a|..|a| + |p|] == p;
  }

  lemma {:induction false} MatchesFromICOfExact(s: string, i: nat, p: string, k: nat)
    requires MatchesFrom(s, i, p, k)
    ensures MatchesFromIC(s, i, p, k)
    decreases |p| - k
  {
    if k < |p| { MatchesFromICOfExact(s, i, p, k + 1); }
  }

  // ---------------------------------------------------------------------
  // Searching, splitting, joining, replacing

  /** Position of the first occurrence of the non-empty `p` at or after `i`. */
  function FindFrom(s: string, p: string, i: nat): (r: int)
    requires |p| > 0
    ensures r == -1 || (i <= r && r + |p| <= |s| && StartsAt(s, r, p))
    ensures r != -1 ==> forall j :: i <= j < r ==> !StartsAt(s, j, p)
    ensures r == -1 ==> forall j :: i <= j ==> !StartsAt(s, j, p)
    decreases |s| - i
  {
    if i + |p| > |s| then
      assert forall j :: i <= j ==> !StartsAt(s, j, p) by {
        forall j | i <= j ensures !StartsAt(s, j, p) { StartsAtSlice(s, j, p); }
      }
      -1
    else if StartsAt(s, i, p) then
      StartsAtSlice(s, i, p);
      i
    else FindFrom(s, p, i + 1)
  }

  /** `s[i:].split(p)` for a non-empty separator `p`. */
  function SplitFrom(s: string, p: string, i: nat): (r: seq<string>)
    requires |p| > 0 && i <= |s|
    ensures |r| >= 1
    decreases |s| - i
  {
    var j := FindFrom(s, p, i);
    if j < 0 then [s[i..]] else [s[i..j]] + SplitFrom(s, p, j + |p|)
  }

  /** Python's `s.split(p)`. */
  function Split(s: string, p: string): (r: seq<string>)
    requires |p| > 0
    ensures |r| >= 1
  {
    SplitFrom(s, p, 0)
  }

  /** Python's `p.join(parts)`. */
  function Join(parts: seq<string>, p: string): string
  {
    if |parts| == 0 then ""
    else if |parts| == 1 then parts[0]
    else parts[0] + p + Join(parts[1..], p)
  }

  /** Joining one more part in front. */
  lemma JoinCons(p: string, parts: seq<string>, sep: string)
    requires |parts| > 0
    ensures Join([p] + parts, sep) == p + sep + Join(parts, sep)
  {
    assert ([p] + parts)[1..] == parts;
  }

  lemma JoinFour(a: string, b: string, c: string, d: string, sep: string)
    ensures Join([a, b, c, d], sep) == a + sep + b + sep + c + sep + d
  {
    JoinCons(c, [d], sep);
    assert [c] + [d] == [c, d];
    JoinCons(b, [c, d], sep);
    assert [b] + [c, d] == [b, c, d];
    JoinCons(a, [b, c, d], sep);
    assert [a] + [b, c, d] == [a, b, c, d];
  }

  lemma JoinFive(a: string, b: string, c: string, d: string, e: string, sep: string)
    ensures Join([a, b, c, d, e], sep) == a + sep + b + sep + c + sep + d + sep + e
  {
    JoinFour(b, c, d, e, sep);
    JoinCons(a, [b, c, d, e], sep);
    assert [a] + [b, c, d, e] == [a, b, c, d, e];
  }

  /** `"\n".join(lines)`. */
  function Lines(parts: seq<string>): string { Join(parts, "\n") }

  /** Python's `s.replace(pat, rep)`: every non-overlapping occurrence from
      the left; an empty `pat` inserts `rep` around every character. */
  function Replace(s: string, pat: string, rep: string): string
  {
    if |pat| == 0 then Interleave(s, rep) else Join(Split(s, pat), rep)
  }

  function Interleave(s: string, x: string): string
  {
    if |s| == 0 then x else x + [s[0]] + Interleave(s[1..], x)
  }

  /** No position of `s` starts an occurrence of `p`. */
  predicate Absent(s: string, p: string)
  {
    forall j :: 0 <= j < |s| ==> !StartsAt(s, j, p)
  }

  lemma {:induction false} JoinSplitFrom(s: string, p: string, i: nat)
    requires |p| > 0 && i <= |s|
    ensures Join(SplitFrom(s, p, i), p) == s[i..]
    decreases |s| - i
  {
    var j := FindFrom(s, p, i);
    if j >= 0 {
      var rest := SplitFrom(s, p, j + |p|);
      JoinSplitFrom(s, p, j + |p|);
      StartsAtSlice(s, j, p);
      JoinSplitStep(s, p, i, j, j + |p|, rest);
    }
  }

  /** The part before the separator at `j`, then the rest joined. */
  lemma JoinSplitStep(s: string, p: string, i: nat, j: nat, e: nat, rest: seq<string>)
    requires i <= j <= e <= |s| && s[j..e] == p
    requires |rest| > 0 && Join(rest, p) == s[e..]
    ensures Join([s[i..j]] + rest, p) == s[i..]
  {
    JoinCons(s[i..j], rest, p);
    SuffixAround(s, i, j, e, p);
  }

  lemma SuffixAround(s: string, i: nat, j: nat, e: nat, m: string)
    requires i <= j <= e <= |s| && s[j..e] == m
    ensures s[i..] == s[i..j] + m + s[e..]
  {
    assert s[i..] == s[i..j] + s[j..e] + s[e..];
  }

  /** Splitting and joining again gives the string back. */
  lemma JoinSplit(s: string, p: string)
    requires |p| > 0
    ensures Join(Split(s, p), p) == s
  {
    JoinSplitFrom(s, p, 0);
  }

  /** Replacing a non-empty string that does not occur changes nothing. */
  lemma ReplaceAbsent(s: string, pat: string, rep: string)
    requires |pat| > 0 && Absent(s, pat)
    ensures Replace(s, pat, rep) == s
  {
    assert forall j :: 0 <= j ==> !StartsAt(s, j, pat) by {
      forall j | 0 <= j ensures !StartsAt(s, j, pat) {
        if j >= |s| { StartsAtSlice(s, j, pat); }
      }
    }
    var r := FindFrom(s, pat, 0);
    assert r == -1;
  }

  /** Matching inside the second part of a concatenation. */
  lemma StartsAtShift(a: string, b: string, p: string, i: nat)
    ensures StartsAt(a + b, |a| + i, p) <==> StartsAt(b, i, p)
  {
    StartsAtSlice(a + b, |a| + i, p);
    StartsAtSlice(b, i, p);
    if i + |p| <= |b| {
      assert (a + b)[|a| + i..|a| + i + |p|] == b[i..i + |p|];
    }
  }

  /** Searching the second part of a concatenation. */
  lemma FindFromShift(a: string, b: string, p: string, i: nat)
    requires |p| > 0 && i <= |b|
    ensures FindFrom(a + b, p, |a| + i) == if FindFrom(b, p, i) < 0 then -1 else |a| + FindFrom(b, p, i)
  {
    var r1 := FindFrom(a + b, p, |a| + i);
    var r2 := FindFrom(b, p, i);
    if r2 < 0 {
      if r1 >= 0 {
        StartsAtShift(a, b, p, r1 - |a|);
      }
    } else {
      StartsAtShift(a, b, p, r2);
      assert r1 >= 0 && r1 <= |a| + r2;
      StartsAtShift(a, b, p, r1 - |a|);
    }
  }

  /** Splitting the second part of a concatenation. */
  lemma {:induction false} SplitFromShiftP(a: string, b: string, p: string, i: nat)
    requires |p| > 0 && i <= |b|
    ensures SplitFrom(a + b, p, |a| + i) == SplitFrom(b, p, i)
    decreases |b| - i
  {
    var j := FindFrom(b, p, i);
    if j < 0 {
      SplitShiftLast(a, b, p, i);
    } else {
      SplitFromShiftP(a, b, p, j + |p|);
      SplitShiftCons(a, b, p, i, j);
    }
  }

  lemma SplitShiftLast(a: string, b: string, p: string, i: nat)
    requires |p| > 0 && i <= |b| && FindFrom(b, p, i) < 0
    ensures SplitFrom(a + b, p, |a| + i) == SplitFrom(b, p, i)
  {
    FindFromShift(a, b, p, i);
    assert (a + b)[|a| + i..] == b[i..];
  }

  lemma SplitShiftCons(a: string, b: string, p: string, i: nat, j: nat)
    requires |p| > 0 && i <= |b| && FindFrom(b, p, i) == j
    requires j + |p| <= |b|
    requires SplitFrom(a + b, p, |a| + j + |p|) == SplitFrom(b, p, j + |p|)
    ensures SplitFrom(a + b, p, |a| + i) == SplitFrom(b, p, i)
  {
    var t := a + b;
    FindFromShift(a, b, p, i);
    SplitFromCons(t, p, |a| + i, |a| + j);
    SplitFromCons(b, p, i, j);
    assert t[|a| + i..|a| + j] == b[i..j];
    SameCons(SplitFrom(t, p, |a| + i), SplitFrom(b, p, i), t[|a| + i..|a| + j], b[i..j],
      SplitFrom(t, p, |a| + j + |p|), SplitFrom(b, p, j + |p|));
  }

  lemma SameCons(x: seq<string>, y: seq<string>, h: string, h': string, r: seq<string>, r': seq<string>)
    requires x == [h] + r && y == [h'] + r' && h == h' && r == r'
    ensures x == y
  {
  }

  /** The split from `i` when the next separator stands at `k`. */
  lemma SplitFromCons(s: string, p: string, i: nat, k: nat)
    requires |p| > 0 && i <= |s| && FindFrom(s, p, i) == k
    ensures i <= k && k + |p| <= |s|
    ensures SplitFrom(s, p, i) == [s[i..k]] + SplitFrom(s, p, k + |p|)
  {
  }

  /** `replace` rewrites the first occurrence and goes on after it. */
  lemma ReplaceFirst(a: string, pat: string, rep: string, b: string)
    requires |pat| > 0
    requires forall j :: 0 <= j < |a| ==> !StartsAt(a + pat + b, j, pat)
    ensures Replace(a + pat + b, pat, rep) == a + rep + Replace(b, pat, rep)
  {
    var s := a + pat + b;
    StartsAtConcat(a, pat, b);
    var f := FindFrom(s, pat, 0);
    assert f == |a|;
    assert s[..|a|] == a;
    assert s == (a + pat) + b;
    SplitFromShiftP(a + pat, b, pat, 0);
    var rest := Split(b, pat);
    assert Split(s, pat) == [a] + rest;
    assert ([a] + rest)[1..] == rest;
  }

  /** The search skips a stretch with no occurrence. */
  lemma {:induction false} FindFromSkip(s: string, p: string, i: nat, q: nat)
    requires |p| > 0 && i <= q
    requires forall j :: i <= j < q ==> !StartsAt(s, j, p)
    ensures FindFrom(s, p, i) == FindFrom(s, p, q)
    decreases q - i
  {
    if i < q {
      if i + |p| > |s| {
        assert FindFrom(s, p, q) == -1;
      } else {
        FindFromSkip(s, p, i + 1, q);
      }
    }
  }

  /** `replace` leaves a prefix alone when no occurrence starts in it. */
  lemma ReplacePrefix(a: string, b: string, pat: string, rep: string)
    requires |pat| > 0
    requires forall j :: 0 <= j < |a| ==> !StartsAt(a + b, j, pat)
    ensures Replace(a + b, pat, rep) == a + Replace(b, pat, rep)
  {
    var s := a + b;
    FindFromSkip(s, pat, 0, |a|);
    FindFromShift(a, b, pat, 0);
    assert |a| + 0 == |a|;
    var j := FindFrom(b, pat, 0);
    if j < 0 {
      assert Split(s, pat) == [s[0..]];
      assert Split(b, pat) == [b[0..]];
    } else {
      SplitFromShiftP(a, b, pat, j + |pat|);
      var rest := SplitFrom(b, pat, j + |pat|);
      assert Split(s, pat) == [s[0..|a| + j]] + rest;
      assert Split(b, pat) == [b[0..j]] + rest;
      JoinCons(s[0..|a| + j], rest, rep);
      JoinCons(b[0..j], rest, rep);
      assert s[0..|a| + j] == a + b[0..j];
    }
  }

  /** Splitting a text on a single character at a separator it contains. */
  lemma {:induction false} SplitFromCharCons(s: string, c: char, i: nat, j: nat)
    requires i <= j < |s| && s[j] == c
    requires forall k :: i <= k < j ==> s[k] != c
    ensures SplitFrom(s, [c], i) == [s[i..j]] + SplitFrom(s, [c], j + 1)
  {
    StartsAtSlice(s, j, [c]);
    forall k | i <= k < j ensures !StartsAt(s, k, [c]) { StartsAtSlice(s, k, [c]); }
  }

  lemma {:induction false} SplitFromCharLast(s: string, c: char, i: nat)
    requires i <= |s|
    requires forall k :: i <= k < |s| ==> s[k] != c
    ensures SplitFrom(s, [c], i) == [s[i..]]
  {
    forall k | i <= k ensures !StartsAt(s, k, [c]) { StartsAtSlice(s, k, [c]); }
  }

  /** `Split` on a character that does not occur. */
  lemma SplitCharAbsent(s: string, c: char)
    requires c !in s
    ensures Split(s, [c]) == [s]
  {
    SplitFromCharLast(s, c, 0);
  }

  /** Every part of a split on one character is free of it. */
  lemma {:induction false} SplitFromCharParts(s: string, c: char, i: nat)
    requires i <= |s|
    ensures forall k :: 0 <= k < |SplitFrom(s, [c], i)| ==> c !in SplitFrom(s, [c], i)[k]
    decreases |s| - i
  {
    var j := FindFrom(s, [c], i);
    if j < 0 {
      forall k | i <= k < |s| ensures s[k] != c {
        StartsAtSlice(s, k, [c]);
      }
    } else {
      forall k | i <= k < j ensures s[k] != c {
        StartsAtSlice(s, k, [c]);
      }
      SplitFromCharParts(s, c, j + 1);
    }
  }

  /** Splitting the suffix of a text only depends on that suffix. */
  lemma SplitFromShift(a: string, b: string, c: char)
    ensures SplitFrom(a + b, [c], |a|) == Split(b, [c])
  {
    SplitFromShiftP(a, b, [c], 0);
  }

  /** The split of `a + [c] + b`, with `a` free of `c`, starts with `a`. */
  lemma SplitCharConcat(a: string, c: char, b: string)
    requires c !in a
    ensures Split(a + [c] + b, [c]) == [a] + Split(b, [c])
  {
    var s := a + [c] + b;
    SplitFromCharCons(s, c, 0, |a|);
    assert s[..|a|] == a;
    assert s == (a + [c]) + b;
    SplitFromShift(a + [c], b, c);
  }

  /** Splitting rows joined by `c`, none of which holds `c`, gives the rows back. */
  lemma {:induction false} SplitJoinChar(parts: seq<string>, c: char)
    requires |parts| > 0 && forall k :: 0 <= k < |parts| ==> c !in parts[k]
    ensures Split(Join(parts, [c]), [c]) == parts
  {
    if |parts| == 1 {
      SplitCharAbsent(parts[0], c);
    } else {
      SplitJoinChar(parts[1..], c);
      SplitCharConcat(parts[0], c, Join(parts[1..], [c]));
      assert parts == [parts[0]] + parts[1..];
    }
  }

  /** A character that is neither in the parts nor in the separator is not
      in their join. */
  lemma {:induction false} JoinFreeOf(parts: seq<string>, sep: string, c: char)
    requires forall k :: 0 <= k < |parts| ==> c !in parts[k]
    requires c !in sep
    ensures c !in Join(parts, sep)
  {
    if |parts| > 1 {
      JoinFreeOf(parts[1..], sep, c);
    }
  }

  /** A case-insensitive match lies inside the text. */
  lemma {:induction false} MatchesFromICBound(s: string, i: nat, p: string, k: nat)
    requires MatchesFromIC(s, i, p, k)
    ensures i + |p| <= |s|
    decreases |p| - k
  {
    if k < |p| { MatchesFromICBound(s, i, p, k + 1); }
  }

  /** A case-insensitive match of a text without ASCII letters is an exact one. */
  lemma {:induction false} MatchesFromICLiteral(s: string, i: nat, p: string, k: nat)
    requires MatchesFromIC(s, i, p, k)
    requires forall j :: 0 <= j < |p| ==> !IsAsciiLetter(p[j])
    ensures MatchesFrom(s, i, p, k)
    decreases |p| - k
  {
    if k < |p| { MatchesFromICLiteral(s, i, p, k + 1); }
  }

  // ---------------------------------------------------------------------
  // Digits and numbers

  /** Python's `str.isdigit()` on ASCII text: non-empty and all digits. */
  predicate AllDigits(s: string)
  {
    |s| > 0 && forall k :: 0 <= k < |s| ==> IsDigit(s[k])
  }

  /** The value of the digits `s[..n]`. */
  function ValueOf(s: string, n: nat): nat
    requires n <= |s|
    requires forall k :: 0 <= k < n ==> IsDigit(s[k])
  {
    if n == 0 then 0 else ValueOf(s, n - 1) * 10 + DigitValue(s[n - 1])
  }

  /** Python's `int(s)` on a digit string (leading zeros allowed). */
  function DigitsValue(s: string): nat
    requires forall k :: 0 <= k < |s| ==> IsDigit(s[k])
  {
    ValueOf(s, |s|)
  }

  /** Python's `str(n)` for a natural number. */
  function NatToString(n: nat): (r: string)
    ensures AllDigits(r)
  {
    if n < 10 then [DigitChar(n)] else NatToString(n / 10) + [DigitChar(n % 10)]
  }

  /** Python's `str(i)` for any integer. */
  function IntToString(i: int): (r: string)
    ensures |r| > 0
  {
    if i < 0 then "-" + NatToString(-i) else NatToString(i)
  }

  lemma {:induction false} ValueOfPrefix(s: string, t: string, n: nat)
    requires n <= |s| && n <= |t| && s[..n] == t[..n]
    requires forall k :: 0 <= k < n ==> IsDigit(s[k])
    ensures ValueOf(s, n) == ValueOf(t, n)
  {
    if n > 0 {
      assert s[n - 1] == s[..n][n - 1] == t[..n][n - 1] == t[n - 1];
      assert s[..n - 1] == s[..n][..n - 1];
      assert t[..n - 1] == t[..n][..n - 1];
      ValueOfPrefix(s, t, n - 1);
    }
  }

  lemma DigitsValueSnoc(s: string, c: char)
    requires forall k :: 0 <= k < |s| ==> IsDigit(s[k])
    requires IsDigit(c)
    ensures DigitsValue(s + [c]) == DigitsValue(s) * 10 + DigitValue(c)
  {
    var t := s + [c];
    assert t[..|s|] == s[..|s|];
    ValueOfPrefix(t, s, |s|);
  }

  /** `int(str(n)) == n`: the decimal rendering reads back as the number. */
  lemma {:induction false} NatToStringValue(n: nat)
    ensures DigitsValue(NatToString(n)) == n
  {
    if n < 10 {
      assert ValueOf(NatToString(n), 0) == 0;
    } else {
      NatToStringValue(n / 10);
      DigitsValueSnoc(NatToString(n / 10), DigitChar(n % 10));
    }
  }

  /** A digit string without a leading zero (or the single digit `0`). */
  predicate Canonical(s: string)
  {
    AllDigits(s) && (s[0] != '0' || |s| == 1)
  }

  /** `str(int(s)) == s` exactly for canonical digit strings. */
  lemma {:induction false} CanonicalRoundTrip(s: string)
    requires Canonical(s)
    ensures NatToString(DigitsValue(s)) == s
    decreases |s|
  {
    var p := s[..|s| - 1];
    var c := s[|s| - 1];
    assert s == p + [c];
    DigitsValueSnoc(p, c);
    DigitRoundTrip(c);
    if |p| == 0 {
      assert ValueOf(p, 0) == 0;
    } else {
      assert p[0] == s[0];
      CanonicalRoundTrip(p);
      NatToStringZero();
      NatToStringSnoc(DigitsValue(p), DigitValue(c));
    }
  }

  lemma DigitRoundTrip(c: char)
    requires IsDigit(c)
    ensures DigitChar(DigitValue(c)) == c
  {
  }

  lemma NatToStringZero()
    ensures NatToString(0) == "0"
  {
  }

  /** Appending a digit to a positive number appends its character. */
  lemma NatToStringSnoc(v: nat, d: nat)
    requires 1 <= v && d < 10
    ensures NatToString(v * 10 + d) == NatToString(v) + [DigitChar(d)]
  {
    var n := v * 10 + d;
    assert n / 10 == v && n % 10 == d;
  }

  /** Every number renders canonically. */
  lemma {:induction false} NatToStringCanonical(n: nat)
    ensures Canonical(NatToString(n))
  {
    if n >= 10 {
      NatToStringCanonical(n / 10);
      assert NatToString(n)[0] == NatToString(n / 10)[0];
      if |NatToString(n / 10)| == 1 {
        NatToStringValue(n / 10);
      }
    }
  }

  /** Decimal renderings are distinct for distinct numbers. */
  lemma NatToStringInjective(m: nat, n: nat)
    requires NatToString(m) == NatToString(n)
    ensures m == n
  {
    NatToStringValue(m);
    NatToStringValue(n);
  }

  /** End of the run of digits starting at `i`. */
  function DigitRun(s: string, i: nat): (e: nat)
    ensures i <= |s| ==> i <= e <= |s|
    ensures i <= |s| ==> forall k :: i <= k < e ==> IsDigit(s[k])
    ensures i <= |s| && e < |s| ==> !IsDigit(s[e])
    decreases |s| - i
  {
    if i < |s| && IsDigit(s[i]) then DigitRun(s, i + 1) else i
  }

  /** `\w`: letters, digits and `_`, over ASCII and the Latin-1 and Latin
      Extended-A/B letters, with the Latin-1 superscripts and fractions. */
  predicate IsWordChar(c: char)
  {
    || IsAsciiLetter(c) || IsDigit(c) || c == '_'
    || c == '\U{AA}' || c == '\U{B2}' || c == '\U{B3}' || c == '\U{B5}' || c == '\U{B9}'
    || c == '\U{BA}' || c == '\U{BC}' || c == '\U{BD}' || c == '\U{BE}'
    || ('\U{C0}' <= c <= '\U{24F}' && c != '\U{D7}' && c != '\U{F7}')
  }

  /** End of the run of characters satisfying `p` starting at `i` (a regex
      character class under `*`). */
  function Span(s: string, i: nat, p: char -> bool): (e: nat)
    ensures i <= |s| ==> i <= e <= |s|
    ensures forall k :: i <= k < e ==> k < |s| && p(s[k])
    ensures i <= |s| && e < |s| ==> !p(s[e])
    decreases |s| - i
  {
    if i < |s| && p(s[i]) then Span(s, i + 1, p) else i
  }

  /** The run from `i` ends where the class first fails. */
  lemma {:induction false} SpanAt(s: string, i: nat, e: nat, p: char -> bool)
    requires i <= e <= |s|
    requires forall k :: i <= k < e ==> p(s[k])
    requires e == |s| || !p(s[e])
    ensures Span(s, i, p) == e
    decreases e - i
  {
    if i < e { SpanAt(s, i + 1, e, p); }
  }

  /** End of the run of characters of the class `p` from `i`. What the
      run holds is stated apart, in `RunChars`, so that proofs about the
      text around it do not have to reason about every character. */
  function Run(s: string, i: nat, p: char -> bool): (e: nat)
    ensures i <= |s| ==> i <= e <= |s|
    decreases |s| - i
  {
    if i < |s| && p(s[i]) then Run(s, i + 1, p) else i
  }

  lemma {:induction false} RunChars(s: string, i: nat, p: char -> bool)
    requires i <= |s|
    ensures forall k :: i <= k < Run(s, i, p) ==> p(s[k])
    ensures Run(s, i, p) < |s| ==> !p(s[Run(s, i, p)])
    decreases |s| - i
  {
    if i < |s| && p(s[i]) { RunChars(s, i + 1, p); }
  }

  lemma {:induction false} RunAt(s: string, i: nat, e: nat, p: char -> bool)
    requires i <= e <= |s|
    requires forall k :: i <= k < e ==> p(s[k])
    requires e == |s| || !p(s[e])
    ensures Run(s, i, p) == e
    decreases e - i
  {
    if i < e { RunAt(s, i + 1, e, p); }
  }

  /** A run covering `[i, j)` ends at `j` or later. */
  lemma {:induction false} RunPast(s: string, i: nat, j: nat, p: char -> bool)
    requires i <= j <= |s|
    requires forall k :: i <= k < j ==> p(s[k])
    ensures j <= Run(s, i, p)
    decreases j - i
  {
    if i < j { RunPast(s, i + 1, j, p); }
  }

  /** End of the run of characters equal to `c` starting at `i`. */
  function CharRun(s: string, i: nat, c: char): (e: nat)
    ensures i <= |s| ==> i <= e <= |s|
    ensures i <= |s| ==> forall k :: i <= k < e ==> s[k] == c
    ensures i <= |s| && e < |s| ==> s[e] != c
    decreases |s| - i
  {
    if i < |s| && s[i] == c then CharRun(s, i + 1, c) else i
  }

  /** The run ends at `e` when everything before `e` is `c` and `e` is not. */
  lemma CharRunAt(s: string, i: nat, e: nat, c: char)
    requires i <= e <= |s|
    requires forall k :: i <= k < e ==> s[k] == c
    requires e == |s| || s[e] != c
    ensures CharRun(s, i, c) == e
    decreases e - i
  {
    if i < e { CharRunAt(s, i + 1, e, c); }
  }

  /** The characters of `str.isspace()`, which `int` ignores at both ends. */
  predicate PySpace(c: char)
  {
    c == ' ' || '\t' <= c <= '\r' || '\U{1C}' <= c <= '\U{1F}' || c == '\U{85}' || c == '\U{A0}'
    || c == '\U{1680}' || '\U{2000}' <= c <= '\U{200A}' || c == '\U{2028}' || c == '\U{2029}'
    || c == '\U{202F}' || c == '\U{205F}' || c == '\U{3000}'
  }

  /** The text without its leading whitespace. */
  function TrimStart(s: string): string
  {
    if |s| > 0 && PySpace(s[0]) then TrimStart(s[1..]) else s
  }

  /** The text without its trailing whitespace. */
  function TrimEnd(s: string): string
  {
    if |s| > 0 && PySpace(s[|s| - 1]) then TrimEnd(s[..|s| - 1]) else s
  }

  function TrimSpace(s: string): string { TrimEnd(TrimStart(s)) }

  /** `TrimStart` drops exactly the leading whitespace. */
  lemma {:induction false} TrimStartSpec(s: string)
    ensures var r := TrimStart(s);
      && |r| <= |s| && r == s[|s| - |r|..]
      && (|r| > 0 ==> !PySpace(r[0]))
      && (forall k :: 0 <= k < |s| - |r| ==> PySpace(s[k]))
  {
    if |s| > 0 && PySpace(s[0]) {
      TrimStartSpec(s[1..]);
      var r := TrimStart(s[1..]);
      assert s[1..][|s| - 1 - |r|..] == s[|s| - |r|..];
      assert forall k :: 1 <= k < |s| - |r| ==> s[k] == s[1..][k - 1];
    }
  }

  /** `TrimEnd` drops exactly the trailing whitespace. */
  lemma {:induction false} TrimEndSpec(s: string)
    ensures var r := TrimEnd(s);
      && |r| <= |s| && r == s[..|r|]
      && (|r| > 0 ==> !PySpace(r[|r| - 1]))
      && (forall k :: |r| <= k < |s| ==> PySpace(s[k]))
  {
    if |s| > 0 && PySpace(s[|s| - 1]) {
      TrimEndSpec(s[..|s| - 1]);
      var r := TrimEnd(s[..|s| - 1]);
      assert s[..|s| - 1][..|r|] == s[..|r|];
    }
  }

  /** Whitespace around a text that neither starts nor ends with any is
      dropped, and only it. */
  lemma TrimPadded(pre: string, t: string, post: string)
    requires forall k :: 0 <= k < |pre| ==> PySpace(pre[k])
    requires forall k :: 0 <= k < |post| ==> PySpace(post[k])
    requires |t| > 0 && !PySpace(t[0]) && !PySpace(t[|t| - 1])
    ensures TrimSpace(pre + t + post) == t
  {
    var s := pre + t + post;
    var a := TrimStart(s);
    TrimStartSpec(s);
    TrimEndSpec(a);
    assert s[|pre|] == t[0];
    assert |a| == |t| + |post|;
    assert a == t + post;
    var b := TrimEnd(a);
    assert a[|t| - 1] == t[|t| - 1];
    assert |b| == |t|;
    assert b == t;
  }

  /** ASCII digits in groups joined by single underscores, as `int` reads
      them. */
  predicate Grouped(s: string)
  {
    && |s| > 0 && IsDigit(s[0]) && IsDigit(s[|s| - 1])
    && (forall k :: 0 <= k < |s| ==> IsDigit(s[k]) || s[k] == '_')
    && (forall k :: 0 <= k < |s| - 1 && s[k] == '_' ==> s[k + 1] != '_')
  }

  /** The digits of a text, in order; of a grouped number, the number
      without its underscores. */
  function Ungrouped(s: string): (r: string)
    ensures forall k :: 0 <= k < |r| ==> IsDigit(r[k])
  {
    if |s| == 0 then "" else (if IsDigit(s[0]) then [s[0]] else "") + Ungrouped(s[1..])
  }

  /** Python's `int(s)` in base 10: whitespace at either end, an optional
      sign, then ASCII digits in underscore-separated groups; anything else
      is the `ValueError` case (`None`). */
  function ParseInt(s: string): (r: Option<int>)
  {
    ParseSigned(TrimSpace(s))
  }

  /** `int` once the whitespace is gone. */
  function ParseSigned(t: string): (r: Option<int>)
  {
    if Grouped(t) then Some(DigitsValue(Ungrouped(t)))
    else if |t| > 1 && t[0] == '+' && Grouped(t[1..]) then Some(DigitsValue(Ungrouped(t[1..])))
    else if |t| > 1 && t[0] == '-' && Grouped(t[1..]) then Some(0 - DigitsValue(Ungrouped(t[1..])) as int)
    else None
  }

  /** A text that neither starts nor ends with whitespace is read as it is. */
  lemma ParseUnpadded(t: string)
    requires |t| > 0 && !PySpace(t[0]) && !PySpace(t[|t| - 1])
    ensures ParseInt(t) == ParseSigned(t)
  {
    TrimPadded("", t, "");
    assert "" + t + "" == t;
  }

  lemma {:induction false} UngroupedDigits(s: string)
    requires forall k :: 0 <= k < |s| ==> IsDigit(s[k])
    ensures Ungrouped(s) == s
  {
    if |s| > 0 {
      UngroupedDigits(s[1..]);
    }
  }

  lemma {:induction false} UngroupedConcat(a: string, b: string)
    ensures Ungrouped(a + b) == Ungrouped(a) + Ungrouped(b)
    decreases |a|
  {
    if |a| > 0 {
      assert (a + b)[1..] == a[1..] + b;
      UngroupedConcat(a[1..], b);
    } else {
      assert a + b == b;
    }
  }

  /** A digit string, unsigned or signed, reads as its value. */
  lemma DigitsParse(s: string)
    requires AllDigits(s)
    ensures ParseInt(s) == Some(DigitsValue(s))
    ensures ParseInt("+" + s) == Some(DigitsValue(s))
    ensures ParseInt("-" + s) == Some(0 - DigitsValue(s) as int)
  {
    GroupedDigits(s);
    ParseUnpadded(s);
    SignedDigits(s, '+');
    SignedDigits(s, '-');
  }

  lemma GroupedDigits(s: string)
    requires AllDigits(s)
    ensures Grouped(s) && Ungrouped(s) == s
  {
    UngroupedDigits(s);
  }

  lemma SignedDigits(s: string, sign: char)
    requires AllDigits(s) && (sign == '+' || sign == '-')
    ensures ParseInt([sign] + s) == Some(if sign == '+' then DigitsValue(s) as int else 0 - DigitsValue(s) as int)
  {
    var t := [sign] + s;
    assert t[0] == sign && t[|t| - 1] == s[|s| - 1];
    ParseUnpadded(t);
    assert t[1..] == s;
    GroupedDigits(s);
    SignedValue(t);
  }

  /** A sign followed by a grouped number. */
  lemma SignedValue(t: string)
    requires |t| > 1 && (t[0] == '+' || t[0] == '-') && Grouped(t[1..])
    ensures var v := DigitsValue(Ungrouped(t[1..]));
      ParseSigned(t) == Some(if t[0] == '+' then v as int else 0 - v as int)
  {
    assert !IsDigit(t[0]);
  }

  /** `int(str(i)) == i`. */
  lemma ParseIntToString(i: int)
    ensures ParseInt(IntToString(i)) == Some(i)
  {
    if i < 0 {
      var t := NatToString(-i);
      assert IntToString(i) == "-" + t;
      NatToStringValue(-i);
      DigitsParse(t);
      assert ParseInt("-" + t) == Some(0 - (-i) as int);
    } else {
      NatToStringValue(i);
      DigitsParse(NatToString(i));
    }
  }

  /** `int` ignores whitespace around the number. */
  lemma ParsePadded(pre: string, i: int, post: string)
    requires forall k :: 0 <= k < |pre| ==> PySpace(pre[k])
    requires forall k :: 0 <= k < |post| ==> PySpace(post[k])
    ensures ParseInt(pre + IntToString(i) + post) == Some(i)
  {
    var n := IntToString(i);
    assert !PySpace(n[0]) && !PySpace(n[|n| - 1]) by {
      if i < 0 { assert n[|n| - 1] == NatToString(-i)[|n| - 2]; }
    }
    TrimPadded(pre, n, post);
    TrimPadded("", n, "");
    assert "" + n + "" == n;
    ParseIntToString(i);
  }

  /** An underscore between two digit groups does not change the value. */
  lemma ParseUnderscore(a: string, b: string)
    requires AllDigits(a) && AllDigits(b)
    ensures ParseInt(a + "_" + b) == ParseInt(a + b) == Some(DigitsValue(a + b))
  {
    var s := a + "_" + b;
    GroupedUnderscore(a, b);
    assert s[0] == a[0] && s[|s| - 1] == b[|b| - 1];
    ParseUnpadded(s);
    DigitsParse(a + b);
  }

  lemma GroupedUnderscore(a: string, b: string)
    requires AllDigits(a) && AllDigits(b)
    ensures Grouped(a + "_" + b) && Ungrouped(a + "_" + b) == a + b && AllDigits(a + b)
  {
    var s := a + "_" + b;
    forall k | 0 <= k < |s| - 1 && s[k] == '_' ensures s[k + 1] != '_' {
      assert k == |a|;
    }
    UngroupedUnderscore(a, b);
  }

  lemma UngroupedUnderscore(a: string, b: string)
    requires AllDigits(a) && AllDigits(b)
    ensures Ungrouped(a + "_" + b) == a + b
  {
    UngroupedConcat(a + "_", b);
    UngroupedConcat(a, "_");
    UngroupedDigits(a);
    UngroupedDigits(b);
    assert Ungrouped("_") == "";
  }

  // ---------------------------------------------------------------------
  // Stripping

  /** Python's `s.lstrip(chars)`. */
  function LStrip(s: string, chars: set<char>): (r: string)
    ensures |r| <= |s| && r == s[|s| - |r|..]
    ensures |r| > 0 ==> r[0] !in chars
    ensures forall k :: 0 <= k < |s| - |r| ==> s[k] in chars
  {
    if |s| > 0 && s[0] in chars then
      var r := LStrip(s[1..], chars);
      assert s[1..][|s| - 1 - |r|..] == s[|s| - |r|..];
      assert forall k :: 1 <= k < |s| - |r| ==> s[k] == s[1..][k - 1];
      r
    else s
  }

  /** Python's `s.rstrip(chars)`. */
  function RStrip(s: string, chars: set<char>): (r: string)
    ensures |r| <= |s| && r == s[..|r|]
    ensures |r| > 0 ==> r[|r| - 1] !in chars
    ensures forall k :: |r| <= k < |s| ==> s[k] in chars
  {
    if |s| > 0 && s[|s| - 1] in chars then
      var r := RStrip(s[..|s| - 1], chars);
      assert s[..|s| - 1][..|r|] == s[..|r|];
      r
    else s
  }

  const Whitespace: set<char> := {' ', '\t', '\n', '\r', '\U{B}', '\U{C}'}

  /** Python's `s.strip()` (ASCII whitespace). */
  function Strip(s: string): string
  {
    RStrip(LStrip(s, Whitespace), Whitespace)
  }
}
