/** The text between protection and restoration read as atoms: characters
    of the document and placeholders standing for dict entries. On that
    reading, `str.replace` of one placeholder swaps exactly the atoms of
    that entry, and the restoring loops are proved to give the protected
    texts back. */
module GuardRestore {
  import opened Text
  import opened Guard

  datatype Atom = Lit(c: char) | Hole(k: nat)

  function Piece(a: Atom, es: Entries): string
  {
    match a
    case Lit(c) => [c]
    case Hole(k) => if k < |es| then es[k].1 else ""
  }

  /** The text as it stands: each hole shows its placeholder. */
  function Render(xs: seq<Atom>, es: Entries): string
    decreases |xs|
  {
    if |xs| == 0 then "" else Piece(xs[0], es) + Render(xs[1..], es)
  }

  /** The characters of a string as atoms. */
  function Lits(s: string): (xs: seq<Atom>)
    ensures |xs| == |s| && forall i :: 0 <= i < |s| ==> xs[i] == Lit(s[i])
  {
    seq(|s|, i requires 0 <= i < |s| => Lit(s[i]))
  }

  /** No character of the document is an STX. */
  predicate Clean(xs: seq<Atom>)
  {
    forall i :: 0 <= i < |xs| && xs[i].Lit? ==> xs[i].c != STX
  }

  /** Every hole names one of the first `n` entries. */
  predicate Below(xs: seq<Atom>, n: nat)
  {
    forall i :: 0 <= i < |xs| && xs[i].Hole? ==> xs[i].k < n
  }

  /** Hole `j` swapped for the atoms `ys`. */
  function Subst(xs: seq<Atom>, j: nat, ys: seq<Atom>): seq<Atom>
    decreases |xs|
  {
    if |xs| == 0 then [] else (if xs[0] == Hole(j) then ys else [xs[0]]) + Subst(xs[1..], j, ys)
  }

  lemma {:induction false} RenderConcat(xs: seq<Atom>, ys: seq<Atom>, es: Entries)
    ensures Render(xs + ys, es) == Render(xs, es) + Render(ys, es)
    decreases |xs|
  {
    if |xs| == 0 {
      assert xs + ys == ys;
    } else {
      assert (xs + ys)[1..] == xs[1..] + ys;
      RenderConcat(xs[1..], ys, es);
    }
  }

  lemma {:induction false} RenderLits(s: string, es: Entries)
    ensures Render(Lits(s), es) == s
    decreases |s|
  {
    if |s| > 0 {
      assert Lits(s)[1..] == Lits(s[1..]);
      RenderLits(s[1..], es);
      assert s == [s[0]] + s[1..];
    }
  }

  // ---------------------------------------------------------------------
  // Where a placeholder can start

  /** The only STX of a placeholder is its first character. */
  lemma PhSTX(n: nat, y: nat)
    requires y < |Ph(n)| && Ph(n)[y] == STX
    ensures y == 0
  {
    var d := NatToString(n);
    assert Ph(n) == [STX] + "ph" + d + "ph" + [ETX];
  }

  /** The digits of a placeholder sit at offset 3 and are followed by `p`. */
  lemma PhChars(n: nat)
    ensures |Ph(n)| == |NatToString(n)| + 6
    ensures forall m :: 0 <= m < |NatToString(n)| ==> Ph(n)[3 + m] == NatToString(n)[m]
    ensures Ph(n)[3 + |NatToString(n)|] == 'p'
  {
    var d := NatToString(n);
    assert Ph(n) == [STX] + "ph" + d + "ph" + [ETX];
  }

  /** Two placeholders starting at the same place are the same one. */
  lemma PhSame(t: string, y: nat, j: nat, k: nat)
    requires StartsAt(t, y, Ph(j)) && StartsAt(t, y, Ph(k))
    ensures j == k
  {
    var dj := NatToString(j);
    var dk := NatToString(k);
    StartsAtSlice(t, y, Ph(j));
    StartsAtSlice(t, y, Ph(k));
    PhChars(j);
    PhChars(k);
    var m0 := if |dj| < |dk| then |dj| else |dk|;
    assert t[y + 3 + m0] == Ph(j)[3 + m0] == Ph(k)[3 + m0];
    assert |dj| == |dk|;
    assert forall m :: 0 <= m < |dj| ==> dj[m] == Ph(j)[3 + m] == t[y + 3 + m] == Ph(k)[3 + m] == dk[m];
    assert dj == dk;
    NatToStringInjective(j, k);
  }

  /** Where an STX can stand inside one atom: at the start of a plain
      placeholder, or third in a wiki one. */
  lemma PieceSTX(a: Atom, es: Entries, y: nat)
    requires WellFormed(es) && (a.Lit? ==> a.c != STX)
    requires y < |Piece(a, es)| && Piece(a, es)[y] == STX
    ensures a.Hole? && a.k < |es|
    ensures es[a.k].1 == Ph(a.k) ==> y == 0
    ensures es[a.k].1 != Ph(a.k) ==> es[a.k].1 == WikiPh(a.k) && y == 2
    ensures StartsAt(Piece(a, es), y, Ph(a.k))
  {
    var k := a.k;
    var P := Piece(a, es);
    if es[k].1 == Ph(k) {
      PhSTX(k, y);
      StartsAtSlice(P, 0, Ph(k));
    } else {
      var w := Ph(k);
      assert P == "[[" + w + "|";
      if 2 <= y < 2 + |w| {
        assert P[y] == w[y - 2];
        PhSTX(k, y - 2);
      }
      assert P[2..2 + |w|] == w;
      StartsAtSlice(P, 2, w);
    }
  }

  lemma StartsAtPrefix(a: string, b: string, y: nat, p: string)
    requires StartsAt(a, y, p)
    ensures StartsAt(a + b, y, p)
  {
    StartsAtSlice(a, y, p);
    StartsAtSlice(a + b, y, p);
    assert (a + b)[y..y + |p|] == a[y..y + |p|];
  }

  /** Every STX of the text opens the placeholder of some entry, and a wiki
      placeholder's STX comes two characters after its start. */
  lemma {:induction false} STXStart(xs: seq<Atom>, es: Entries, y: nat)
    requires WellFormed(es) && Clean(xs) && Below(xs, |es|)
    requires y < |Render(xs, es)| && Render(xs, es)[y] == STX
    ensures exists k :: 0 <= k < |es| && StartsAt(Render(xs, es), y, Ph(k)) && (es[k].1 != Ph(k) ==> y >= 2)
    decreases |xs|
  {
    var P := Piece(xs[0], es);
    var X := Render(xs[1..], es);
    assert Render(xs, es) == P + X;
    if y < |P| {
      STXHead(xs[0], es, X, y);
    } else {
      assert X[y - |P|] == STX;
      assert Clean(xs[1..]) && Below(xs[1..], |es|) by {
        forall i | 0 <= i < |xs[1..]| ensures xs[1..][i] == xs[i + 1] { }
      }
      STXStart(xs[1..], es, y - |P|);
      STXShift(P, X, es, y - |P|, y);
    }
  }

  /** An STX inside the head atom opens that atom's placeholder. */
  lemma STXHead(a: Atom, es: Entries, X: string, y: nat)
    requires WellFormed(es) && (a.Lit? ==> a.c != STX)
    requires y < |Piece(a, es)| && Piece(a, es)[y] == STX
    ensures exists k :: 0 <= k < |es| && StartsAt(Piece(a, es) + X, y, Ph(k)) && (es[k].1 != Ph(k) ==> y >= 2)
  {
    PieceSTX(a, es, y);
    StartsAtPrefix(Piece(a, es), X, y, Ph(a.k));
  }

  /** A placeholder start found after the head atom is one of the whole text. */
  lemma STXShift(P: string, X: string, es: Entries, z: nat, y: nat)
    requires y == |P| + z
    requires exists k :: 0 <= k < |es| && StartsAt(X, z, Ph(k)) && (es[k].1 != Ph(k) ==> z >= 2)
    ensures exists k :: 0 <= k < |es| && StartsAt(P + X, y, Ph(k)) && (es[k].1 != Ph(k) ==> y >= 2)
  {
    var k :| 0 <= k < |es| && StartsAt(X, z, Ph(k)) && (es[k].1 != Ph(k) ==> z >= 2);
    StartsAtShift(P, X, Ph(k), z);
  }


  lemma CleanTail(xs: seq<Atom>, n: nat)
    requires |xs| > 0 && Clean(xs) && Below(xs, n)
    ensures Clean(xs[1..]) && Below(xs[1..], n)
    ensures xs[0].Lit? ==> xs[0].c != STX
    ensures xs[0].Hole? ==> xs[0].k < n
  {
    assert forall i :: 0 <= i < |xs[1..]| ==> xs[1..][i] == xs[i + 1];
  }

  /** Where the STX of entry `j`'s placeholder falls, when it occurs at `p`. */
  lemma PlaceholderSTX(t: string, p: nat, es: Entries, j: nat)
    requires WellFormed(es) && j < |es| && StartsAt(t, p, es[j].1)
    ensures es[j].1 == Ph(j) ==> StartsAt(t, p, Ph(j))
    ensures es[j].1 != Ph(j) ==> es[j].1 == WikiPh(j) && StartsAt(t, p + 2, Ph(j))
  {
    var v := es[j].1;
    var w := Ph(j);
    if v != w {
      assert v == "[[" + w + "|";
      assert v[2..2 + |w|] == w;
      StartsAtSlice(t, p, v);
      assert |v| == |w| + 3;
      assert forall m :: 0 <= m < |w| ==> t[p + 2 + m] == t[p..p + |v|][2 + m] == v[2 + m] == w[m];
      assert t[p + 2..p + 2 + |w|] == w;
      StartsAtSlice(t, p + 2, w);
    }
  }

  /** The placeholder of entry `j` cannot start inside an atom other than
      hole `j`. */
  lemma NoStartAt(a: Atom, rest: seq<Atom>, es: Entries, j: nat, p: nat)
    requires WellFormed(es) && j < |es| && a != Hole(j)
    requires (a.Lit? ==> a.c != STX) && (a.Hole? ==> a.k < |es|)
    requires Clean(rest) && Below(rest, |es|)
    requires p < |Piece(a, es)|
    ensures !StartsAt(Piece(a, es) + Render(rest, es), p, es[j].1)
  {
    var P := Piece(a, es);
    var X := Render(rest, es);
    if StartsAt(P + X, p, es[j].1) {
      var q := if es[j].1 == Ph(j) then 0 else 2;
      PlaceholderSTX(P + X, p, es, j);
      if p + q < |P| {
        NoStartInside(a, X, es, j, p + q);
      } else {
        NoStartAcross(P, rest, es, j, p + q - |P|);
      }
    }
  }

  lemma NoStartInside(a: Atom, X: string, es: Entries, j: nat, y: nat)
    requires WellFormed(es) && j < |es| && a != Hole(j)
    requires (a.Lit? ==> a.c != STX) && (a.Hole? ==> a.k < |es|)
    requires y < |Piece(a, es)|
    ensures !StartsAt(Piece(a, es) + X, y, Ph(j))
  {
    var P := Piece(a, es);
    if StartsAt(P + X, y, Ph(j)) {
      StartsAtSlice(P + X, y, Ph(j));
      assert P[y] == (P + X)[y] == Ph(j)[0];
      PieceSTX(a, es, y);
      StartsAtPrefix(P, X, y, Ph(a.k));
      PhSame(P + X, y, j, a.k);
    }
  }

  lemma NoStartAcross(P: string, rest: seq<Atom>, es: Entries, j: nat, y: nat)
    requires WellFormed(es) && j < |es| && Clean(rest) && Below(rest, |es|)
    requires y < 2 && es[j].1 != Ph(j)
    ensures !StartsAt(P + Render(rest, es), |P| + y, Ph(j))
  {
    var X := Render(rest, es);
    if StartsAt(P + X, |P| + y, Ph(j)) {
      StartsAtShift(P, X, Ph(j), y);
      StartsAtSlice(X, y, Ph(j));
      assert X[y] == Ph(j)[0];
      STXStart(rest, es, y);
      var k :| 0 <= k < |es| && StartsAt(X, y, Ph(k)) && (es[k].1 != Ph(k) ==> y >= 2);
      PhSame(X, y, j, k);
    }
  }

  /** `str.replace` of the placeholder of entry `j` swaps exactly the holes
      `j` for the text of `ys`. */
  lemma {:induction false} ReplaceHole(xs: seq<Atom>, es: Entries, j: nat, ys: seq<Atom>)
    requires WellFormed(es) && j < |es| && Clean(xs) && Below(xs, |es|)
    ensures Replace(Render(xs, es), es[j].1, Render(ys, es)) == Render(Subst(xs, j, ys), es)
    decreases |xs|
  {
    if |xs| == 0 {
      assert Split("", es[j].1) == [""[0..]];
    } else {
      CleanTail(xs, |es|);
      ReplaceHole(xs[1..], es, j, ys);
      ReplaceHoleCons(xs, es, j, ys);
    }
  }

  lemma ReplaceHoleCons(xs: seq<Atom>, es: Entries, j: nat, ys: seq<Atom>)
    requires WellFormed(es) && j < |es| && |xs| > 0 && Clean(xs) && Below(xs, |es|)
    requires Replace(Render(xs[1..], es), es[j].1, Render(ys, es)) == Render(Subst(xs[1..], j, ys), es)
    ensures Replace(Render(xs, es), es[j].1, Render(ys, es)) == Render(Subst(xs, j, ys), es)
  {
    var v := es[j].1;
    var R := Render(ys, es);
    var a := xs[0];
    var P := Piece(a, es);
    var X := Render(xs[1..], es);
    var piece := if a == Hole(j) then ys else [a];
    assert Render(xs, es) == P + X;
    assert Subst(xs, j, ys) == piece + Subst(xs[1..], j, ys);
    RenderConcat(piece, Subst(xs[1..], j, ys), es);
    if a == Hole(j) {
      ConsHit(v, R, X);
    } else {
      CleanTail(xs, |es|);
      PrefixFree(a, xs[1..], es, j);
      ReplacePrefix(P, X, v, R);
      assert Render([a], es) == P + Render([], es);
    }
  }

  lemma ConsHit(v: string, R: string, X: string)
    requires |v| > 0
    ensures Replace(v + X, v, R) == R + Replace(X, v, R)
  {
    ReplaceFirst("", v, R, X);
    assert "" + v + X == v + X;
  }

  lemma PrefixFree(a: Atom, rest: seq<Atom>, es: Entries, j: nat)
    requires WellFormed(es) && j < |es| && a != Hole(j)
    requires (a.Lit? ==> a.c != STX) && (a.Hole? ==> a.k < |es|)
    requires Clean(rest) && Below(rest, |es|)
    ensures forall p :: 0 <= p < |Piece(a, es)| ==> !StartsAt(Piece(a, es) + Render(rest, es), p, es[j].1)
  {
    forall p | 0 <= p < |Piece(a, es)| ensures !StartsAt(Piece(a, es) + Render(rest, es), p, es[j].1) {
      NoStartAt(a, rest, es, j, p);
    }
  }

  // ---------------------------------------------------------------------
  // The restoring loops

  /** All holes name entries from `lo` up to `hi`. */
  predicate HolesIn(xs: seq<Atom>, lo: nat, hi: nat)
  {
    forall i :: 0 <= i < |xs| && xs[i].Hole? ==> lo <= xs[i].k < hi
  }

  /** The text with every hole showing its protected text. */
  function Fill(xs: seq<Atom>, es: Entries): string
    decreases |xs|
  {
    if |xs| == 0 then ""
    else (match xs[0] case Lit(c) => [c] case Hole(k) => if k < |es| then es[k].0 else "") + Fill(xs[1..], es)
  }

  /** No protected text holds a placeholder (none holds an STX). */
  predicate Flat(es: Entries)
  {
    forall k :: 0 <= k < |es| ==> STX !in es[k].0
  }

  lemma {:induction false} FillConcat(xs: seq<Atom>, ys: seq<Atom>, es: Entries)
    ensures Fill(xs + ys, es) == Fill(xs, es) + Fill(ys, es)
    decreases |xs|
  {
    if |xs| == 0 {
      assert xs + ys == ys;
    } else {
      assert (xs + ys)[1..] == xs[1..] + ys;
      FillConcat(xs[1..], ys, es);
    }
  }

  lemma {:induction false} FillLits(s: string, es: Entries)
    ensures Fill(Lits(s), es) == s
    decreases |s|
  {
    if |s| > 0 {
      assert Lits(s)[1..] == Lits(s[1..]);
      FillLits(s[1..], es);
      assert s == [s[0]] + s[1..];
    }
  }

  /** Without holes, the text shown is the text filled. */
  lemma {:induction false} RenderNoHoles(xs: seq<Atom>, es: Entries)
    requires HolesIn(xs, 0, 0)
    ensures Render(xs, es) == Fill(xs, es)
    decreases |xs|
  {
    if |xs| > 0 {
      assert HolesIn(xs[1..], 0, 0) by {
        forall i | 0 <= i < |xs[1..]| ensures xs[1..][i] == xs[i + 1] { }
      }
      RenderNoHoles(xs[1..], es);
    }
  }

  /** Swapping hole `j` for atoms whose holes are in range keeps every
      hole in range and the text clean. */
  lemma {:induction false} SubstIn(xs: seq<Atom>, j: nat, ys: seq<Atom>, lo: nat, hi: nat)
    requires Clean(xs) && Clean(ys) && HolesIn(ys, lo, hi)
    requires forall i :: 0 <= i < |xs| && xs[i].Hole? ==> xs[i].k == j || lo <= xs[i].k < hi
    ensures Clean(Subst(xs, j, ys)) && HolesIn(Subst(xs, j, ys), lo, hi)
    decreases |xs|
  {
    if |xs| > 0 {
      assert forall i :: 0 <= i < |xs[1..]| ==> xs[1..][i] == xs[i + 1];
      SubstIn(xs[1..], j, ys, lo, hi);
      var piece := if xs[0] == Hole(j) then ys else [xs[0]];
      var zs := piece + Subst(xs[1..], j, ys);
      assert Subst(xs, j, ys) == zs;
      forall i | 0 <= i < |zs|
        ensures zs[i].Lit? ==> zs[i].c != STX
        ensures zs[i].Hole? ==> lo <= zs[i].k < hi
      {
        if i >= |piece| {
          assert zs[i] == Subst(xs[1..], j, ys)[i - |piece|];
        }
      }
    }
  }

  /** Swapping hole `j` for the characters of its protected text leaves
      the filled text as it was. */
  lemma {:induction false} FillSubst(xs: seq<Atom>, es: Entries, j: nat)
    requires j < |es|
    ensures Fill(Subst(xs, j, Lits(es[j].0)), es) == Fill(xs, es)
    decreases |xs|
  {
    if |xs| > 0 {
      FillSubst(xs[1..], es, j);
      var piece := if xs[0] == Hole(j) then Lits(es[j].0) else [xs[0]];
      assert Subst(xs, j, Lits(es[j].0)) == piece + Subst(xs[1..], j, Lits(es[j].0));
      FillConcat(piece, Subst(xs[1..], j, Lits(es[j].0)), es);
      FillLits(es[j].0, es);
      assert Fill([xs[0]], es) == Fill(xs[..1], es) by { assert [xs[0]] == xs[..1]; }
    }
  }

  /** The source's loop, in insertion order, gives back every protected
      text when none of them holds a placeholder: from entry `j` on, each
      placeholder is swapped for its text. */
  lemma {:induction false} RestoreFromFlat(xs: seq<Atom>, es: Entries, j: nat)
    requires WellFormed(es) && Flat(es) && Clean(xs) && j <= |es| && HolesIn(xs, j, |es|)
    ensures RestoreFrom(es, j, Render(xs, es)) == Fill(xs, es)
    decreases |es| - j
  {
    if j == |es| {
      RenderNoHoles(xs, es);
    } else {
      var key := es[j].0;
      ReplaceHole(xs, es, j, Lits(key));
      RenderLits(key, es);
      var ys := Subst(xs, j, Lits(key));
      assert Clean(Lits(key));
      SubstIn(xs, j, Lits(key), j + 1, |es|);
      FillSubst(xs, es, j);
      RestoreFromFlat(ys, es, j + 1);
    }
  }

  /** The document text the atoms stand for when protected texts hold
      older placeholders: hole `k` expands to the atoms `ka[k]` of entry
      `k`'s text, themselves expanded. */
  function Expand(xs: seq<Atom>, ka: seq<seq<Atom>>, n: nat): string
    decreases n, |xs|
  {
    if |xs| == 0 then ""
    else (match xs[0]
          case Lit(c) => [c]
          case Hole(k) => if k < n && k < |ka| then Expand(ka[k], ka, k) else "")
         + Expand(xs[1..], ka, n)
  }

  /** Entry `k`'s protected text is the text of the atoms `ka[k]`, whose
      holes all name older entries. */
  predicate Nested(es: Entries, ka: seq<seq<Atom>>)
  {
    |ka| == |es| && forall k :: 0 <= k < |es| ==> es[k].0 == Render(ka[k], es) && Clean(ka[k]) && Below(ka[k], k)
  }

  lemma {:induction false} ExpandConcat(xs: seq<Atom>, ys: seq<Atom>, ka: seq<seq<Atom>>, n: nat)
    ensures Expand(xs + ys, ka, n) == Expand(xs, ka, n) + Expand(ys, ka, n)
    decreases |xs|
  {
    if |xs| == 0 {
      assert xs + ys == ys;
    } else {
      assert (xs + ys)[1..] == xs[1..] + ys;
      ExpandConcat(xs[1..], ys, ka, n);
    }
  }

  lemma {:induction false} ExpandNoHoles(xs: seq<Atom>, es: Entries, ka: seq<seq<Atom>>, n: nat)
    requires HolesIn(xs, 0, 0)
    ensures Render(xs, es) == Expand(xs, ka, n)
    decreases |xs|
  {
    if |xs| > 0 {
      assert HolesIn(xs[1..], 0, 0) by {
        forall i | 0 <= i < |xs[1..]| ensures xs[1..][i] == xs[i + 1] { }
      }
      ExpandNoHoles(xs[1..], es, ka, n);
    }
  }

  /** Expanding hole `n - 1` one level changes nothing. */
  lemma {:induction false} ExpandSubst(xs: seq<Atom>, ka: seq<seq<Atom>>, n: nat)
    requires 0 < n <= |ka|
    ensures Expand(Subst(xs, n - 1, ka[n - 1]), ka, n - 1) == Expand(xs, ka, n)
    decreases |xs|
  {
    if |xs| > 0 {
      var ys := ka[n - 1];
      var piece := if xs[0] == Hole(n - 1) then ys else [xs[0]];
      var tail := Subst(xs[1..], n - 1, ys);
      ExpandSubst(xs[1..], ka, n);
      SubstHead(xs, n - 1, ys, piece, tail);
      ExpandConcat(piece, tail, ka, n - 1);
      PieceExpand(xs, ka, n, piece);
    }
  }

  lemma SubstHead(xs: seq<Atom>, j: nat, ys: seq<Atom>, piece: seq<Atom>, tail: seq<Atom>)
    requires |xs| > 0 && piece == (if xs[0] == Hole(j) then ys else [xs[0]])
    requires tail == Subst(xs[1..], j, ys)
    ensures Subst(xs, j, ys) == piece + tail
  {
  }

  /** The head atom with hole `n - 1` put in, expanded one level down, is
      the head atom expanded. */
  lemma PieceExpand(xs: seq<Atom>, ka: seq<seq<Atom>>, n: nat, piece: seq<Atom>)
    requires 0 < n <= |ka| && |xs| > 0
    requires piece == if xs[0] == Hole(n - 1) then ka[n - 1] else [xs[0]]
    ensures Expand(piece, ka, n - 1) + Expand(xs[1..], ka, n) == Expand(xs, ka, n)
  {
    if xs[0] != Hole(n - 1) {
      assert [xs[0]][1..] == [];
      assert Expand(piece, ka, n - 1) == Expand(piece, ka, n);
    }
  }

  /** Restoring newest first gives back the document text even when
      protected texts hold older placeholders. */
  lemma {:induction false} RestoreBackNested(xs: seq<Atom>, es: Entries, ka: seq<seq<Atom>>, n: nat)
    requires WellFormed(es) && Nested(es, ka) && Clean(xs) && n <= |es| && Below(xs, n)
    ensures RestoreBack(es, n, Render(xs, es)) == Expand(xs, ka, n)
    decreases n
  {
    if n == 0 {
      ExpandNoHoles(xs, es, ka, 0);
    } else {
      var ys := Subst(xs, n - 1, ka[n - 1]);
      NestedStep(xs, es, ka, n, ys);
      RestoreBackNested(ys, es, ka, n - 1);
    }
  }

  /** One restore step puts entry `n - 1`'s atoms in place of its hole. */
  lemma NestedStep(xs: seq<Atom>, es: Entries, ka: seq<seq<Atom>>, n: nat, ys: seq<Atom>)
    requires WellFormed(es) && Nested(es, ka) && Clean(xs) && 0 < n <= |es| && Below(xs, n)
    requires ys == Subst(xs, n - 1, ka[n - 1])
    ensures Clean(ys) && Below(ys, n - 1)
    ensures RestoreBack(es, n, Render(xs, es)) == RestoreBack(es, n - 1, Render(ys, es))
    ensures Expand(ys, ka, n - 1) == Expand(xs, ka, n)
  {
    var k := n - 1;
    assert es[k].0 == Render(ka[k], es) && Clean(ka[k]) && Below(ka[k], k);
    ReplaceHole(xs, es, k, ka[k]);
    SubstIn(xs, k, ka[k], 0, k);
    ExpandSubst(xs, ka, n);
  }


  // ---------------------------------------------------------------------
  // Growing the dict

  /** Appending entries does not change how existing holes show. */
  lemma {:induction false} RenderExtend(xs: seq<Atom>, es: Entries, es': Entries)
    requires |es| <= |es'| && es'[..|es|] == es && Below(xs, |es|)
    ensures Render(xs, es') == Render(xs, es)
    decreases |xs|
  {
    if |xs| > 0 {
      CleanBelowTail(xs, |es|);
      RenderExtend(xs[1..], es, es');
      if xs[0].Hole? {
        assert es'[xs[0].k] == es'[..|es|][xs[0].k];
      }
    }
  }

  lemma CleanBelowTail(xs: seq<Atom>, n: nat)
    requires |xs| > 0 && Below(xs, n)
    ensures Below(xs[1..], n) && (xs[0].Hole? ==> xs[0].k < n)
    ensures Clean(xs) ==> Clean(xs[1..])
  {
    assert forall i :: 0 <= i < |xs[1..]| ==> xs[1..][i] == xs[i + 1];
  }

  /** Every entry's atoms name older entries only. */
  predicate Older(ka: seq<seq<Atom>>)
  {
    forall k :: 0 <= k < |ka| ==> Below(ka[k], k)
  }

  /** Adding atoms for newer entries does not change an expansion. */
  lemma {:induction false} ExpandExtend(xs: seq<Atom>, ka: seq<seq<Atom>>, ka': seq<seq<Atom>>, n: nat)
    requires n <= |ka| <= |ka'| && ka'[..|ka|] == ka && Older(ka) && Below(xs, n)
    ensures Expand(xs, ka', n) == Expand(xs, ka, n)
    decreases n, |xs|
  {
    if |xs| > 0 {
      CleanBelowTail(xs, n);
      ExpandExtend(xs[1..], ka, ka', n);
      if xs[0].Hole? {
        var k := xs[0].k;
        assert ka'[k] == ka'[..|ka|][k] == ka[k];
        ExpandExtend(ka[k], ka, ka', k);
      }
    }
  }

  /** Atoms naming only entries below `m` expand the same with any larger
      bound. */
  lemma {:induction false} ExpandLower(xs: seq<Atom>, ka: seq<seq<Atom>>, m: nat, n: nat)
    requires m <= n && Below(xs, m)
    ensures Expand(xs, ka, n) == Expand(xs, ka, m)
    decreases |xs|
  {
    if |xs| > 0 {
      CleanBelowTail(xs, m);
      ExpandLower(xs[1..], ka, m, n);
    }
  }

  /** A hole always shows an STX. */
  lemma HoleShowsSTX(xs: seq<Atom>, es: Entries, i: nat)
    requires WellFormed(es) && Below(xs, |es|) && i < |xs| && xs[i].Hole?
    ensures STX in Render(xs, es)
  {
    var k := xs[i].k;
    assert xs == xs[..i] + ([xs[i]] + xs[i + 1..]);
    RenderConcat(xs[..i], [xs[i]] + xs[i + 1..], es);
    RenderConcat([xs[i]], xs[i + 1..], es);
    assert Render([xs[i]], es) == es[k].1 + Render([], es);
    var w := Ph(k);
    assert w[0] == STX;
    if es[k].1 == WikiPh(k) {
      assert es[k].1[2] == STX;
    }
  }

  /** When no protected text holds a placeholder, the one-level fill is the
      full expansion. */
  lemma {:induction false} FlatExpand(xs: seq<Atom>, es: Entries, ka: seq<seq<Atom>>, n: nat)
    requires WellFormed(es) && Nested(es, ka) && Flat(es) && n <= |es| && Below(xs, n)
    ensures Fill(xs, es) == Expand(xs, ka, n)
    decreases |xs|
  {
    if |xs| > 0 {
      CleanBelowTail(xs, n);
      FlatExpand(xs[1..], es, ka, n);
      if xs[0].Hole? {
        var k := xs[0].k;
        forall i | 0 <= i < |ka[k]| ensures !ka[k][i].Hole? {
          if ka[k][i].Hole? { HoleShowsSTX(ka[k], es, i); }
        }
        ExpandNoHoles(ka[k], es, ka, k);
      }
    }
  }
}
