/** Why the five protections meet the conditions of a pass on atoms: the
    placeholders' characters cannot start a match, and every match ends
    between two atoms. */
module GuardAlign {
  import opened Text
  import opened Guard
  import opened GuardRestore
  import opened GuardScan

  /** Every placeholder of the dict is a plain one. */
  predicate PlainEntries(es: Entries)
  {
    forall k :: 0 <= k < |es| ==> es[k].1 == Ph(k)
  }

  /** The characters of a plain placeholder: none opens a link, a wiki
      link or an emoji, none is a `w`, all may sit in a URL or a host, and
      an `h` is never followed by a `t`. */
  lemma PhChar(n: nat, o: nat)
    requires o < |Ph(n)|
    ensures Ph(n)[0] == STX
    ensures Ph(n)[o] != '[' && Ph(n)[o] != ':' && Ph(n)[o] != 'w' && HostChar(Ph(n)[o])
    ensures Ph(n)[o] == 'h' ==> o + 1 < |Ph(n)| && Ph(n)[o + 1] != 't'
  {
    var d := NatToString(n);
    var w := Ph(n);
    assert w == [STX] + "ph" + d + "ph" + [ETX];
    assert |w| == |d| + 6;
    if 3 <= o < 3 + |d| {
      assert w[o] == d[o - 3];
    }
    if o == 2 {
      assert w[3] == d[0];
    }
    if 3 <= o + 1 < 3 + |d| {
      assert w[o + 1] == d[o - 2];
    }
  }

  /** A wiki placeholder opens with `[` and has no `:`. */
  lemma WikiPhChar(n: nat, o: nat)
    requires o < |WikiPh(n)|
    ensures WikiPh(n)[0] == '['
    ensures WikiPh(n)[o] != ':'
  {
    var w := WikiPh(n);
    assert w == "[[" + Ph(n) + "|";
    if 2 <= o < 2 + |Ph(n)| {
      assert w[o] == Ph(n)[o - 2];
      PhChar(n, o - 2);
    }
  }

  /** A hole shows its entry's placeholder at its position. */
  lemma HoleText(xs: seq<Atom>, es: Entries, h: nat)
    requires h < |xs| && xs[h].Hole? && xs[h].k < |es|
    ensures Pos(xs, es, h + 1) == Pos(xs, es, h) + |es[xs[h].k].1| <= |Render(xs, es)|
    ensures Render(xs, es)[Pos(xs, es, h)..Pos(xs, es, h + 1)] == es[xs[h].k].1
  {
    PosStep(xs, es, h);
  }

  /** A character atom shows its character. */
  lemma LitText(xs: seq<Atom>, es: Entries, n: nat)
    requires n < |xs| && xs[n].Lit?
    ensures Pos(xs, es, n + 1) == Pos(xs, es, n) + 1 <= |Render(xs, es)|
    ensures Render(xs, es)[Pos(xs, es, n)] == xs[n].c
  {
    PosStep(xs, es, n);
  }

  lemma PosMono(xs: seq<Atom>, es: Entries, j: nat, k: nat)
    requires j <= k <= |xs|
    ensures Pos(xs, es, j) <= Pos(xs, es, k)
  {
    RenderSlice(xs, es, j, k);
  }

  /** No placeholder is cut by position `e`. */
  predicate Boundary(xs: seq<Atom>, es: Entries, e: nat)
  {
    forall h :: 0 <= h < |xs| && xs[h].Hole? ==> !(Pos(xs, es, h) < e < Pos(xs, es, h + 1))
  }

  /** A position no placeholder cuts falls between two atoms. */
  lemma {:induction false} BoundaryAligned(xs: seq<Atom>, es: Entries, j: nat, e: nat) returns (m: nat)
    requires j <= |xs| && Pos(xs, es, j) <= e <= |Render(xs, es)| && Boundary(xs, es, e)
    ensures j <= m <= |xs| && Pos(xs, es, m) == e
    decreases |xs| - j
  {
    if Pos(xs, es, j) == e {
      m := j;
    } else {
      PosEnd(xs, es);
      PosStep(xs, es, j);
      m := BoundaryAligned(xs, es, j + 1, e);
    }
  }

  /** The text of a placeholder shown at `a`, read at `y`. */
  lemma InPiece(t: string, a: nat, w: string, y: nat)
    requires a + |w| <= |t| && t[a..a + |w|] == w
    ensures a <= y < a + |w| ==> t[y] == w[y - a]
  {
    if a <= y < a + |w| {
      assert t[y] == t[a..a + |w|][y - a];
    }
  }

  /** Every plain placeholder's characters satisfy `p`. */
  ghost predicate PhAll(p: char -> bool)
  {
    forall m: nat, o: nat :: o < |Ph(m)| ==> p(Ph(m)[o])
  }

  /** A match made of a prefix of `len` characters without an STX and a run
      of characters satisfying `p`, which every placeholder's characters
      satisfy, is not cut by a placeholder at its end. */
  lemma SpanBoundary(xs: seq<Atom>, es: Entries, n: nat, len: nat, p: char -> bool, e: nat)
    requires PlainEntries(es) && Below(xs, |es|) && n < |xs| && xs[n].Lit? && PhAll(p)
    requires Pos(xs, es, n) + len <= |Render(xs, es)|
    requires forall k :: Pos(xs, es, n) < k < Pos(xs, es, n) + len ==> Render(xs, es)[k] != STX
    requires e == Span(Render(xs, es), Pos(xs, es, n) + len, p)
    ensures Boundary(xs, es, e)
  {
    var t := Render(xs, es);
    var i := Pos(xs, es, n);
    forall h | 0 <= h < |xs| && xs[h].Hole?
      ensures !(Pos(xs, es, h) < e < Pos(xs, es, h + 1))
    {
      var k := xs[h].k;
      HoleText(xs, es, h);
      if h < n {
        PosMono(xs, es, h + 1, n);
      } else if h > n {
        LitText(xs, es, n);
        PosMono(xs, es, n + 1, h);
        PhChar(k, 0);
        assert t[Pos(xs, es, h)] == Ph(k)[0];
        assert es[k].1 == Ph(k);
        InPiece(t, Pos(xs, es, h), Ph(k), e);
      }
    }
  }

  /** A match with no STX after its first character is not cut by a
      placeholder at its end, when every placeholder opens with a character
      satisfying `q` and no character after the match's first does. */
  lemma ClosedBoundary(xs: seq<Atom>, es: Entries, n: nat, q: char -> bool, e: nat)
    requires Below(xs, |es|) && n < |xs| && xs[n].Lit?
    requires forall k :: 0 <= k < |es| ==> |es[k].1| > 0 && q(es[k].1[0])
    requires Pos(xs, es, n) < e <= |Render(xs, es)|
    requires forall k :: Pos(xs, es, n) < k < e ==> !q(Render(xs, es)[k])
    ensures Boundary(xs, es, e)
  {
    var t := Render(xs, es);
    forall h | 0 <= h < |xs| && xs[h].Hole?
      ensures !(Pos(xs, es, h) < e < Pos(xs, es, h + 1))
    {
      HoleText(xs, es, h);
      if h < n {
        PosMono(xs, es, h + 1, n);
      } else if h > n {
        LitText(xs, es, n);
        PosMono(xs, es, n + 1, h);
        assert t[Pos(xs, es, h)] == es[xs[h].k].1[0];
      }
    }
  }

  predicate IsSTX(c: char) { c == STX }

  /** The first character of a plain or a wiki placeholder. */
  predicate OpensHole(c: char) { c == STX || c == '[' }

  /** The first two characters of a literal found at `i`. */
  lemma StartsTwo(s: string, i: nat, p: string)
    ensures StartsAt(s, i, p) && |p| >= 2 ==> i + 1 < |s| && s[i] == p[0] && s[i + 1] == p[1]
  {
    if StartsAt(s, i, p) && |p| >= 2 {
      StartsAtSlice(s, i, p);
      assert s[i + 1] == s[i..i + |p|][1];
    }
  }

  /** A character inside a plain placeholder, shown by hole `h`. */
  lemma InHole(xs: seq<Atom>, es: Entries, h: nat, y: nat)
    requires PlainEntries(es) && Below(xs, |es|) && h < |xs| && xs[h].Hole?
    requires Pos(xs, es, h) <= y < Pos(xs, es, h + 1)
    ensures var t := Render(xs, es);
            y < |t| && t[y] != '[' && t[y] != ':' && t[y] != 'w' && (t[y] == 'h' ==> y + 1 < |t| && t[y + 1] != 't')
  {
    var k := xs[h].k;
    HoleText(xs, es, h);
    assert es[k].1 == Ph(k);
    PhPieceChar(Render(xs, es), Pos(xs, es, h), k, y);
  }

  /** A character inside a placeholder copied into a text. */
  lemma PhPieceChar(t: string, a: nat, k: nat, y: nat)
    requires a + |Ph(k)| <= |t| && t[a..a + |Ph(k)|] == Ph(k) && a <= y < a + |Ph(k)|
    ensures y < |t| && t[y] != '[' && t[y] != ':' && t[y] != 'w' && (t[y] == 'h' ==> y + 1 < |t| && t[y + 1] != 't')
  {
    InPiece(t, a, Ph(k), y);
    InPiece(t, a, Ph(k), y + 1);
    PhChar(k, y - a);
  }

  lemma UrlNoHitInHoles(xs: seq<Atom>, es: Entries)
    requires PlainEntries(es) && Below(xs, |es|)
    ensures NoHitInHoles(Render(xs, es), UrlFinder(), xs, es)
  {
    var t := Render(xs, es);
    forall n, y | 0 <= n < |xs| && xs[n].Hole? && Pos(xs, es, n) <= y < Pos(xs, es, n + 1)
      ensures !Hit(t, UrlFinder(), y)
    {
      InHole(xs, es, n, y);
      StartsTwo(t, y, "https://");
      StartsTwo(t, y, "http://");
    }
  }

  lemma WwwNoHitInHoles(xs: seq<Atom>, es: Entries)
    requires PlainEntries(es) && Below(xs, |es|)
    ensures NoHitInHoles(Render(xs, es), WwwFinder(), xs, es)
  {
    var t := Render(xs, es);
    forall n, y | 0 <= n < |xs| && xs[n].Hole? && Pos(xs, es, n) <= y < Pos(xs, es, n + 1)
      ensures !Hit(t, WwwFinder(), y)
    {
      InHole(xs, es, n, y);
      StartsTwo(t, y, "www.");
    }
  }

  lemma WikiNoHitInHoles(xs: seq<Atom>, es: Entries)
    requires PlainEntries(es) && Below(xs, |es|)
    ensures NoHitInHoles(Render(xs, es), WikiFinder(), xs, es)
  {
    var t := Render(xs, es);
    forall n, y | 0 <= n < |xs| && xs[n].Hole? && Pos(xs, es, n) <= y < Pos(xs, es, n + 1)
      ensures !Hit(t, WikiFinder(), y)
    {
      InHole(xs, es, n, y);
      StartsTwo(t, y, "[[");
    }
  }

  /** Emoji codes are looked for once wiki placeholders exist too. */
  lemma EmojiNoHitInHoles(xs: seq<Atom>, es: Entries)
    requires WellFormed(es) && Below(xs, |es|)
    ensures NoHitInHoles(Render(xs, es), EmojiFinder(), xs, es)
  {
    var t := Render(xs, es);
    forall n, y | 0 <= n < |xs| && xs[n].Hole? && Pos(xs, es, n) <= y < Pos(xs, es, n + 1)
      ensures !Hit(t, EmojiFinder(), y)
    {
      var k := xs[n].k;
      HoleText(xs, es, n);
      InPiece(t, Pos(xs, es, n), es[k].1, y);
      if es[k].1 == Ph(k) {
        PhChar(k, y - Pos(xs, es, n));
      } else {
        WikiPhChar(k, y - Pos(xs, es, n));
      }
    }
  }

  /** The character classes of the URL and host runs take in every
      character of a plain placeholder. */
  lemma PhRuns()
    ensures PhAll(UrlChar) && PhAll(HostChar)
  {
    forall m: nat, o: nat | o < |Ph(m)| ensures HostChar(Ph(m)[o]) {
      PhChar(m, o);
    }
  }

  /** The literal `p` found at `i` has no STX after its first character. */
  lemma LiteralNoSTX(t: string, i: nat, p: string)
    requires StartsAt(t, i, p) && STX !in p
    ensures i + |p| <= |t| && forall k :: i < k < i + |p| ==> t[k] != STX
  {
    StartsAtSlice(t, i, p);
    forall k | i < k < i + |p| ensures t[k] != STX {
      assert t[k] == t[i..i + |p|][k - i];
    }
  }

  /** From a character atom, a match whose end no placeholder cuts ends
      between two atoms. */
  lemma EndAligned(xs: seq<Atom>, es: Entries, n: nat, e: nat)
    requires n < |xs| && xs[n].Lit? && Pos(xs, es, n) < e <= |Render(xs, es)| && Boundary(xs, es, e)
    ensures AlignedEnd(xs, es, n, e)
  {
    LitText(xs, es, n);
    var m := BoundaryAligned(xs, es, n + 1, e);
  }

  lemma UrlHitsAligned(xs: seq<Atom>, es: Entries)
    requires PlainEntries(es) && Below(xs, |es|)
    ensures HitsAligned(Render(xs, es), UrlFinder(), xs, es)
  {
    var t := Render(xs, es);
    PhRuns();
    forall n | 0 <= n < |xs| && xs[n].Lit? && Hit(t, UrlFinder(), Pos(xs, es, n))
      ensures AlignedEnd(xs, es, n, UrlFinder()(t, Pos(xs, es, n)).value)
    {
      var i := Pos(xs, es, n);
      var e := UrlAt(t, i).value;
      if StartsAt(t, i, "https://") {
        LiteralNoSTX(t, i, "https://");
        SpanBoundary(xs, es, n, 8, UrlChar, e);
      } else {
        LiteralNoSTX(t, i, "http://");
        SpanBoundary(xs, es, n, 7, UrlChar, e);
      }
      EndAligned(xs, es, n, e);
    }
  }

  lemma WwwHitsAligned(xs: seq<Atom>, es: Entries)
    requires PlainEntries(es) && Below(xs, |es|)
    ensures HitsAligned(Render(xs, es), WwwFinder(), xs, es)
  {
    var t := Render(xs, es);
    PhRuns();
    forall n | 0 <= n < |xs| && xs[n].Lit? && Hit(t, WwwFinder(), Pos(xs, es, n))
      ensures AlignedEnd(xs, es, n, WwwFinder()(t, Pos(xs, es, n)).value)
    {
      var i := Pos(xs, es, n);
      var e := WwwAt(t, i).value;
      LiteralNoSTX(t, i, "www.");
      SpanBoundary(xs, es, n, 4, HostChar, e);
      EndAligned(xs, es, n, e);
    }
  }

  /** No character after the first of a wiki-link head is an STX. */
  lemma WikiNoSTX(t: string, i: nat)
    requires WikiAt(t, i).Some?
    ensures i < WikiAt(t, i).value <= |t| && forall k :: i < k < WikiAt(t, i).value ==> !IsSTX(t[k])
  {
    LiteralNoSTX(t, i, "[[");
    var a := Span(t, i + 2, IsLowerAscii);
    var d := Span(t, a + 1, IsDigit);
    var c := Span(t, d, WikiTailChar);
    forall k | i < k < c + 1 ensures !IsSTX(t[k]) {
      if k < i + 2 {
      } else if k < a {
        assert IsLowerAscii(t[k]);
      } else if a < k < d {
        assert IsDigit(t[k]);
      } else if d <= k < c {
        assert WikiTailChar(t[k]);
      }
    }
  }

  lemma WikiHitsAligned(xs: seq<Atom>, es: Entries)
    requires PlainEntries(es) && Below(xs, |es|)
    ensures HitsAligned(Render(xs, es), WikiFinder(), xs, es)
  {
    var t := Render(xs, es);
    forall k | 0 <= k < |es| ensures |es[k].1| > 0 && IsSTX(es[k].1[0]) {
      PhChar(k, 0);
    }
    forall n | 0 <= n < |xs| && xs[n].Lit? && Hit(t, WikiFinder(), Pos(xs, es, n))
      ensures AlignedEnd(xs, es, n, WikiFinder()(t, Pos(xs, es, n)).value)
    {
      var i := Pos(xs, es, n);
      var e := WikiAt(t, i).value;
      WikiNoSTX(t, i);
      ClosedBoundary(xs, es, n, IsSTX, e);
      EndAligned(xs, es, n, e);
    }
  }

  lemma EmojiHitsAligned(xs: seq<Atom>, es: Entries)
    requires WellFormed(es) && Below(xs, |es|)
    ensures HitsAligned(Render(xs, es), EmojiFinder(), xs, es)
  {
    var t := Render(xs, es);
    HolesOpen(es);
    forall n | 0 <= n < |xs| && xs[n].Lit? && Hit(t, EmojiFinder(), Pos(xs, es, n))
      ensures AlignedEnd(xs, es, n, EmojiFinder()(t, Pos(xs, es, n)).value)
    {
      EmojiEndAligned(xs, es, n, Pos(xs, es, n));
    }
  }

  /** Every placeholder opens with an STX or a bracket. */
  lemma HolesOpen(es: Entries)
    requires WellFormed(es)
    ensures forall k :: 0 <= k < |es| ==> |es[k].1| > 0 && OpensHole(es[k].1[0])
  {
    forall k | 0 <= k < |es| ensures |es[k].1| > 0 && OpensHole(es[k].1[0]) {
      if es[k].1 == Ph(k) { PhChar(k, 0); } else { WikiPhChar(k, 0); }
    }
  }

  /** No character after the opening colon of an emoji opens a hole. */
  lemma EmojiNoOpen(t: string, i: nat)
    requires EmojiAt(t, i).Some?
    ensures i < EmojiAt(t, i).value <= |t| && forall k :: i < k < EmojiAt(t, i).value ==> !OpensHole(t[k])
  {
    var w := Span(t, i + 1, IsWordChar);
    forall k | i < k < w + 1 ensures !OpensHole(t[k]) {
      if k < w { assert IsWordChar(t[k]); }
    }
  }

  lemma EmojiEndAligned(xs: seq<Atom>, es: Entries, n: nat, i: nat)
    requires Below(xs, |es|) && n < |xs| && xs[n].Lit? && i == Pos(xs, es, n)
    requires forall k :: 0 <= k < |es| ==> |es[k].1| > 0 && OpensHole(es[k].1[0])
    requires EmojiAt(Render(xs, es), i).Some?
    ensures AlignedEnd(xs, es, n, EmojiAt(Render(xs, es), i).value)
  {
    var t := Render(xs, es);
    var e := EmojiAt(t, i).value;
    EmojiNoOpen(t, i);
    ClosedBoundary(xs, es, n, OpensHole, e);
    EndAligned(xs, es, n, e);
  }


  /** The document's characters as atoms, before any protection. */
  lemma PosLits(s: string, es: Entries, n: nat)
    requires n <= |s|
    ensures Pos(Lits(s), es, n) == n
  {
    assert Lits(s)[..n] == Lits(s[..n]);
    RenderLits(s[..n], es);
  }

  lemma LinkHitsAligned(s: string)
    ensures HitsAligned(s, LinkFinder(), Lits(s), [])
  {
    forall n | 0 <= n < |s| && Hit(s, LinkFinder(), Pos(Lits(s), [], n))
      ensures AlignedEnd(Lits(s), [], n, LinkFinder()(s, Pos(Lits(s), [], n)).value)
    {
      PosLits(s, [], n);
      var e := LinkAt(s, n).value;
      PosLits(s, [], e);
    }
  }
}
