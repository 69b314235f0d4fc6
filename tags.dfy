/** Scanning helpers shared by the BBCode rules of
    `campbot/processors/bbcode.py`: a case-insensitive literal at a
    position, and rewriting with a rule that only fires at a `[`. */
module Tags {
  import opened Wrappers
  import opened Text
  import opened Rewrite
  import opened Processor

  /** The literal `t` at `i`, ignoring case. */
  predicate At(s: string, i: nat, t: string) { i + |t| <= |s| && StartsAtIC(s, i, t) }

  lemma {:induction false} MatchesFromICChar(s: string, i: nat, t: string, j: nat, k: nat)
    requires MatchesFromIC(s, i, t, j) && j <= k < |t|
    ensures i + k < |s| && SameIgnoreCase(s[i + k], t[k])
    decreases k - j
  {
    if j < k { MatchesFromICChar(s, i, t, j + 1, k); }
  }

  /** A character of the literal that is not a letter is matched exactly. */
  lemma AtChar(s: string, i: nat, t: string, k: nat)
    requires At(s, i, t) && k < |t| && !IsAsciiLetter(t[k])
    ensures s[i + k] == t[k]
  {
    MatchesFromICChar(s, i, t, 0, k);
  }

  lemma AtBracket(s: string, i: nat, t: string)
    requires |t| > 0 && t[0] == '['
    ensures At(s, i, t) ==> i < |s| && s[i] == '['
  {
    if At(s, i, t) { AtChar(s, i, t, 0); }
  }

  /** A text without `[` holds no literal that starts with `[`. */
  lemma NoBracketNoAt(s: string, t: string)
    requires '[' !in s && |t| > 0 && t[0] == '['
    ensures forall i: nat :: !At(s, i, t)
  {
    forall i: nat ensures !At(s, i, t) { AtBracket(s, i, t); }
  }

  lemma AtConcat(x: string, t: string, y: string)
    ensures At(x + t + y, |x|, t)
  {
    StartsAtConcat(x, t, y);
    MatchesFromICOfExact(x + t + y, |x|, t, 0);
  }

  /** `f` matches in `s` only where a `[` stands. */
  ghost predicate AtBracketsOnly(f: Matcher, s: string)
  {
    forall j: nat :: f(s, j).Some? ==> j < |s| && s[j] == '['
  }

  /** A rule that only matches at a `[`, matching once between two texts
      without `[`: only that match is rewritten. */
  lemma SubFramed(f: Matcher, a: string, mid: string, b: string, out: string)
    requires '[' !in a && '[' !in b && |mid| > 0
    requires f(a + mid + b, |a|) == Some(Match(|a| + |mid|, out))
    requires AtBracketsOnly(f, a + mid + b)
    ensures Sub(a + mid + b, f) == a + out + b
  {
    var s := a + mid + b;
    var m := Match(|a| + |mid|, out);
    forall j | 0 <= j < |a| || m.end <= j < |s| ensures !Valid(s, j, f(s, j)) {
      if j < |a| { assert s[j] == a[j]; } else { assert s[j] == b[j - m.end]; }
    }
    SubOneMatch(s, f, |a|, m);
    assert s[..|a|] == a && s[m.end..] == b;
  }

  /** The middle of `a + m + b`, by position. */
  lemma MidSlice(a: string, m: string, b: string)
    ensures |a| + |m| <= |a + m + b| && (a + m + b)[|a|..|a| + |m|] == m
  {
    assert (a + m + b)[|a|..|a| + |m|] == (a + m)[|a|..];
  }

  /** The pieces of `o + x + c` standing at `i`, where the rules look for them. */
  lemma FramePieces(s: string, i: nat, o: string, x: string, c: string)
    requires i + |o + x + c| <= |s| && s[i..i + |o + x + c|] == o + x + c
    ensures At(s, i, o) && s[i + |o|..i + |o| + |x|] == x && At(s, i + |o| + |x|, c)
  {
    var t := o + x + c;
    SliceOf(s, i, t, 0, |o|);
    assert t[0..|o|] == o;
    AtSlice(s, i, o);
    SliceOf(s, i, t, |o|, |x|);
    assert t[|o|..|o| + |x|] == x;
    SliceOf(s, i, t, |o| + |x|, |c|);
    assert t[|o| + |x|..|o| + |x| + |c|] == c;
    AtSlice(s, i + |o| + |x|, c);
  }

  /** The pieces of `a + (o + x + c) + b`, where the rules look for them. */
  lemma Framing(a: string, o: string, x: string, c: string, b: string)
    ensures At(a + (o + x + c) + b, |a|, o)
    ensures (a + (o + x + c) + b)[|a| + |o|..|a| + |o| + |x|] == x
    ensures At(a + (o + x + c) + b, |a| + |o| + |x|, c)
  {
    var s := a + (o + x + c) + b;
    assert s == a + o + (x + c + b);
    AtConcat(a, o, x + c + b);
    assert s == (a + o + x) + c + b;
    AtConcat(a + o + x, c, b);
  }

  /** A literal that differs, ignoring case, from the text at one of its
      characters does not stand there. */
  lemma NotAt(s: string, i: nat, t: string, k: nat)
    requires k < |t| && i + k < |s| && !SameIgnoreCase(s[i + k], t[k])
    ensures !At(s, i, t)
  {
    if At(s, i, t) { MatchesFromICChar(s, i, t, 0, k); }
  }

  lemma {:induction false} MatchesFromICPrefix(s: string, i: nat, t: string, n: nat, k: nat)
    requires n <= |t| && k <= n && MatchesFromIC(s, i, t, k)
    ensures MatchesFromIC(s, i, t[..n], k)
    decreases n - k
  {
    MatchesFromICBound(s, i, t, k);
    if k < n {
      MatchesFromICPrefix(s, i, t, n, k + 1);
    }
  }

  /** A literal stands where a longer one starting with it stands. */
  lemma AtPrefix(s: string, i: nat, t: string, n: nat)
    requires At(s, i, t) && n <= |t|
    ensures At(s, i, t[..n])
  {
    MatchesFromICPrefix(s, i, t, n, 0);
  }

  /** Each rule as a `Converter`. */
  function Converters(fs: seq<Matcher>): (ms: seq<Modifier>)
    ensures |ms| == |fs| && forall k :: 0 <= k < |fs| ==> ms[k] == Converter(fs[k])
  {
    if |fs| == 0 then [] else [Converter(fs[0])] + Converters(fs[1..])
  }

  /** A piece of a slice holding `t` holds the same piece of `t`. */
  lemma SliceOf(s: string, i: nat, t: string, o: nat, n: nat)
    requires i + |t| <= |s| && s[i..i + |t|] == t && o + n <= |t|
    ensures s[i + o..i + o + n] == t[o..o + n]
    ensures forall k :: i + o <= k < i + o + n ==> s[k] == t[k - i]
  {
    forall k | i + o <= k < i + o + n ensures s[k] == t[k - i] {
      assert s[k] == s[i..i + |t|][k - i];
    }
  }

  /** Where one literal stands, another that differs from it at `k`
      (ignoring case) does not. */
  lemma AtDiffers(s: string, i: nat, t: string, u: string, k: nat)
    requires At(s, i, t) && k < |t| && k < |u| && !SameIgnoreCase(t[k], u[k])
    ensures !At(s, i, u)
  {
    MatchesFromICChar(s, i, t, 0, k);
    if At(s, i, u) { MatchesFromICChar(s, i, u, 0, k); }
  }

  /** A literal copied into the text stands there. */
  lemma AtSlice(s: string, i: nat, t: string)
    requires i + |t| <= |s| && s[i..i + |t|] == t
    ensures At(s, i, t)
  {
    StartsAtSlice(s, i, t);
    MatchesFromICOfExact(s, i, t, 0);
  }

  /** Rules of which only the one at `r` changes the text, and none changes
      what it produces: together they produce what that one does. */
  lemma ConvertersFireOnce(fs: seq<Matcher>, r: nat, s: string, t: string)
    requires r < |fs|
    requires forall q :: 0 <= q < r ==> Sub(s, fs[q]) == s
    requires Sub(s, fs[r]) == t
    requires forall q :: r < q < |fs| ==> Sub(t, fs[q]) == t
    ensures ApplyAll(Converters(fs), s) == t
  {
    var ms := Converters(fs);
    assert ms == ms[..r] + ms[r..];
    ApplyAllAppend(ms[..r], ms[r..], s);
    forall q | 0 <= q < |ms[..r]| ensures ms[..r][q](s) == s {
      assert ms[..r][q] == Converter(fs[q]);
    }
    ApplyAllFixed(ms[..r], s);
    assert ms[r..][0](s) == t;
    assert ms[r..][1..] == ms[r + 1..];
    var rest := ms[r + 1..];
    forall q | 0 <= q < |rest| ensures rest[q](t) == t {
      assert rest[q] == Converter(fs[r + 1 + q]);
    }
    ApplyAllFixed(rest, t);
  }

  /** Rules none of which changes the text leave it as it is. */
  lemma ConvertersFixed(fs: seq<Matcher>, s: string)
    requires forall q :: 0 <= q < |fs| ==> Sub(s, fs[q]) == s
    ensures ApplyAll(Converters(fs), s) == s
  {
    var ms := Converters(fs);
    forall q | 0 <= q < |ms| ensures ms[q](s) == s {
      assert ms[q] == Converter(fs[q]);
    }
    ApplyAllFixed(ms, s);
  }
}
