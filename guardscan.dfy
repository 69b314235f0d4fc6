/** The five protections read on atoms: each pass turns the matched
    stretches of the text into holes, and the atoms it leaves expand to
    the document the guard was given. */
module GuardScan {
  import opened Wrappers
  import opened Text
  import opened LineRules
  import opened Guard
  import opened GuardRestore

  /** Where atom `n` starts in the text. */
  function Pos(xs: seq<Atom>, es: Entries, n: nat): nat
    requires n <= |xs|
  {
    |Render(xs[..n], es)|
  }

  /** The atoms from `n` to `m` show as the text between their positions. */
  lemma RenderSlice(xs: seq<Atom>, es: Entries, n: nat, m: nat)
    requires n <= m <= |xs|
    ensures Pos(xs, es, n) <= Pos(xs, es, m) <= |Render(xs, es)|
    ensures Render(xs, es)[Pos(xs, es, n)..Pos(xs, es, m)] == Render(xs[n..m], es)
  {
    assert xs[..m] == xs[..n] + xs[n..m];
    RenderConcat(xs[..n], xs[n..m], es);
    assert xs == xs[..m] + xs[m..];
    RenderConcat(xs[..m], xs[m..], es);
  }

  lemma PosStep(xs: seq<Atom>, es: Entries, n: nat)
    requires n < |xs|
    ensures Pos(xs, es, n + 1) == Pos(xs, es, n) + |Piece(xs[n], es)| <= |Render(xs, es)|
    ensures Render(xs, es)[Pos(xs, es, n)..Pos(xs, es, n + 1)] == Piece(xs[n], es)
  {
    RenderSlice(xs, es, n, n + 1);
    assert xs[n..n + 1] == [xs[n]];
    assert Render([xs[n]], es) == Piece(xs[n], es) + Render([], es);
  }

  lemma PosEnd(xs: seq<Atom>, es: Entries)
    ensures Pos(xs, es, |xs|) == |Render(xs, es)|
  {
    assert xs[..|xs|] == xs;
  }

  // ---------------------------------------------------------------------
  // One pass on atoms

  /** The pass's text is the atoms `xs` shown with the dict `es0`, whose
      entries expand through `ka0`. */
  predicate Setup(t: string, xs: seq<Atom>, es0: Entries, ka0: seq<seq<Atom>>)
  {
    t == Render(xs, es0) && WellFormed(es0) && Clean(xs) && Below(xs, |es0|) && Nested(es0, ka0)
  }

  /** The dict part way through the pass: `es0` with entries appended. */
  predicate Grown(es0: Entries, ka0: seq<seq<Atom>>, es: Entries, ka: seq<seq<Atom>>)
  {
    && WellFormed(es) && |es0| <= |es| && es[..|es0|] == es0
    && Nested(es, ka) && |ka0| <= |ka| && ka[..|ka0|] == ka0
  }

  /** No match starts inside a placeholder. */
  predicate NoHitInHoles(t: string, find: Finder, xs: seq<Atom>, es: Entries)
  {
    forall n, y :: 0 <= n < |xs| && xs[n].Hole? && Pos(xs, es, n) <= y < Pos(xs, es, n + 1) ==> !Hit(t, find, y)
  }

  /** The end `e` of a match falls between two atoms. */
  predicate AlignedEnd(xs: seq<Atom>, es: Entries, n: nat, e: nat)
  {
    exists m :: n < m <= |xs| && Pos(xs, es, m) == e
  }

  /** Every match ends between two atoms. */
  predicate HitsAligned(t: string, find: Finder, xs: seq<Atom>, es: Entries)
  {
    forall n :: 0 <= n < |xs| && xs[n].Lit? && Hit(t, find, Pos(xs, es, n)) ==> AlignedEnd(xs, es, n, find(t, Pos(xs, es, n)).value)
  }

  /** What the pass gives from some atom on: the atoms `ys` of its output,
      which expand to `target`. */
  predicate ScanOut(r: (string, Entries), ys: seq<Atom>, ka2: seq<seq<Atom>>, ka: seq<seq<Atom>>, target: string)
  {
    && r.0 == Render(ys, r.1) && Clean(ys) && Below(ys, |r.1|) && Nested(r.1, ka2)
    && |ka| <= |ka2| && ka2[..|ka|] == ka && Expand(ys, ka2, |r.1|) == target
  }

  lemma NestedOlder(es: Entries, ka: seq<seq<Atom>>)
    requires Nested(es, ka)
    ensures Older(ka)
  { }

  /** The pass copies an atom where no match starts. */
  lemma CopyText(t: string, find: Finder, f: Form, xs: seq<Atom>, es0: Entries, n: nat, es: Entries)
    requires t == Render(xs, es0) && n < |xs|
    requires NoHitInHoles(t, find, xs, es0)
    requires xs[n].Hole? || !Hit(t, find, Pos(xs, es0, n))
    ensures Pos(xs, es0, n + 1) <= |t|
    ensures ProtectFrom(t, find, f, Pos(xs, es0, n), es)
            == (Piece(xs[n], es0) + ProtectFrom(t, find, f, Pos(xs, es0, n + 1), es).0,
                ProtectFrom(t, find, f, Pos(xs, es0, n + 1), es).1)
  {
    PosStep(xs, es0, n);
    ProtectCopy(t, find, f, Pos(xs, es0, n), Pos(xs, es0, n + 1), es);
  }

  /** An atom in front of the rest of the pass's output. */
  lemma ConsOut(a: Atom, r: (string, Entries), rest: seq<Atom>, ka2: seq<seq<Atom>>, ka: seq<seq<Atom>>, target: string)
    requires ScanOut(r, rest, ka2, ka, target)
    requires (a.Lit? ==> a.c != STX) && (a.Hole? ==> a.k < |r.1|)
    ensures ScanOut((Piece(a, r.1) + r.0, r.1), [a] + rest, ka2, ka, Expand([a], ka2, |r.1|) + target)
  {
    var ys := [a] + rest;
    assert ys[1..] == rest;
    assert Render([a], r.1) == Piece(a, r.1) + Render([], r.1);
    RenderConcat([a], rest, r.1);
    ExpandConcat([a], rest, ka2, |r.1|);
    assert Clean(ys) && Below(ys, |r.1|) by {
      forall k | 0 <= k < |ys| ensures (ys[k].Lit? ==> ys[k].c != STX) && (ys[k].Hole? ==> ys[k].k < |r.1|) {
        if k > 0 { assert ys[k] == rest[k - 1]; }
      }
    }
  }

  /** One atom of the pass's input expands the same with the grown dict. */
  lemma HeadSame(a: Atom, ka0: seq<seq<Atom>>, ka2: seq<seq<Atom>>, n0: nat, n2: nat)
    requires Older(ka0) && n0 == |ka0| <= n2 <= |ka2| && ka2[..|ka0|] == ka0
    requires a.Hole? ==> a.k < n0
    ensures Expand([a], ka2, n2) == Expand([a], ka0, n0)
  {
    assert [a][1..] == [];
    if a.Hole? {
      assert ka2[a.k] == ka2[..|ka0|][a.k];
      ExpandExtend(ka0[a.k], ka0, ka2, a.k);
    }
  }

  lemma ExpandCons(xs: seq<Atom>, ka: seq<seq<Atom>>, n: nat, i: nat)
    requires i < |xs|
    ensures Expand(xs[i..], ka, n) == Expand([xs[i]], ka, n) + Expand(xs[i + 1..], ka, n)
  {
    assert xs[i..] == [xs[i]] + xs[i + 1..];
    ExpandConcat([xs[i]], xs[i + 1..], ka, n);
  }

  /** An atom copied through: a hole, or a character where no match starts. */
  lemma ScanCopyStep(t: string, find: Finder, f: Form, xs: seq<Atom>, es0: Entries, ka0: seq<seq<Atom>>,
                     n: nat, es: Entries, ka: seq<seq<Atom>>, rest: seq<Atom>, ka2: seq<seq<Atom>>)
    requires Setup(t, xs, es0, ka0) && Grown(es0, ka0, es, ka) && n < |xs|
    requires NoHitInHoles(t, find, xs, es0)
    requires xs[n].Hole? || !Hit(t, find, Pos(xs, es0, n))
    requires ScanOut(ProtectFrom(t, find, f, Pos(xs, es0, n + 1), es), rest, ka2, ka, Expand(xs[n + 1..], ka0, |es0|))
    ensures ScanOut(ProtectFrom(t, find, f, Pos(xs, es0, n), es), [xs[n]] + rest, ka2, ka, Expand(xs[n..], ka0, |es0|))
  {
    var a := xs[n];
    CopyText(t, find, f, xs, es0, n, es);
    var r := ProtectFrom(t, find, f, Pos(xs, es0, n + 1), es);
    ProtectFromKeeps(t, find, f, Pos(xs, es0, n + 1), es);
    assert r.1[..|es0|] == r.1[..|es|][..|es0|];
    CleanBelowTail(xs[n..], |es0|);
    assert xs[n..][0] == a;
    RenderExtend([a], es0, r.1);
    assert Render([a], r.1) == Piece(a, r.1) + Render([], r.1);
    assert Render([a], es0) == Piece(a, es0) + Render([], es0);
    ConsOut(a, r, rest, ka2, ka, Expand(xs[n + 1..], ka0, |es0|));
    ExpandCons(xs, ka0, |es0|, n);
    NestedOlder(es0, ka0);
    assert ka2[..|ka0|] == ka2[..|ka|][..|ka0|];
    HeadSame(a, ka0, ka2, |es0|, |r.1|);
  }

  /** The atoms behind the dict after a match of the atoms `ys`: a new
      key adds them. */
  function NextKa(es: Entries, key: string, ka: seq<seq<Atom>>, ys: seq<Atom>): seq<seq<Atom>>
  {
    if IndexOf(es, key).None? then ka + [ys] else ka
  }

  /** The pass turns a match from atom `n` to atom `m` into a placeholder. */
  lemma MatchText(t: string, find: Finder, f: Form, xs: seq<Atom>, es0: Entries, n: nat, m: nat, es: Entries)
    requires t == Render(xs, es0) && n < m <= |xs|
    requires Hit(t, find, Pos(xs, es0, n)) && find(t, Pos(xs, es0, n)).value == Pos(xs, es0, m)
    ensures ProtectFrom(t, find, f, Pos(xs, es0, n), es)
            == (Repl(es, Render(xs[n..m], es0), f).0
                + ProtectFrom(t, find, f, Pos(xs, es0, m), Repl(es, Render(xs[n..m], es0), f).1).0,
                ProtectFrom(t, find, f, Pos(xs, es0, m), Repl(es, Render(xs[n..m], es0), f).1).1)
  {
    RenderSlice(xs, es0, n, m);
  }

  lemma SliceClean(xs: seq<Atom>, n: nat, m: nat, b: nat)
    requires Clean(xs) && Below(xs, b) && n <= m <= |xs|
    ensures Clean(xs[n..m]) && Below(xs[n..m], b)
  {
    forall k | 0 <= k < m - n ensures xs[n..m][k] == xs[n + k] { }
  }

  /** A new entry whose text is shown by atoms naming older entries. */
  lemma NestedAppend(es: Entries, ka: seq<seq<Atom>>, ys: seq<Atom>, p: string)
    requires Nested(es, ka) && Clean(ys) && Below(ys, |es|)
    ensures Nested(es + [(Render(ys, es), p)], ka + [ys])
  {
    var es1 := es + [(Render(ys, es), p)];
    var ka1 := ka + [ys];
    assert es1[..|es|] == es;
    forall k | 0 <= k < |es1|
      ensures es1[k].0 == Render(ka1[k], es1) && Clean(ka1[k]) && Below(ka1[k], k)
    {
      if k < |es| {
        assert es1[k] == es[k] && ka1[k] == ka[k];
        RenderExtend(ka[k], es, es1);
      } else {
        RenderExtend(ys, es, es1);
      }
    }
  }

  /** The dict and its atoms after a match still expand as before. */
  lemma MatchGrown(ys: seq<Atom>, es0: Entries, ka0: seq<seq<Atom>>, es: Entries, ka: seq<seq<Atom>>, f: Form)
    requires Clean(ys) && Below(ys, |es0|) && Grown(es0, ka0, es, ka)
    ensures Grown(es0, ka0, Repl(es, Render(ys, es0), f).1, NextKa(es, Render(ys, es0), ka, ys))
  {
    var key := Render(ys, es0);
    var es1 := Repl(es, key, f).1;
    var ka1 := NextKa(es, key, ka, ys);
    ReplKeeps(es, key, f);
    assert es1[..|es0|] == es1[..|es|][..|es0|];
    if IndexOf(es, key).None? {
      RenderExtend(ys, es0, es);
      NestedAppend(es, ka, ys, Format(f, |es|));
      assert ka1[..|ka0|] == ka1[..|ka|][..|ka0|];
    }
  }

  /** A new key: its placeholder is hole `|es|`, whose atoms are the match's. */
  lemma KeyExpandNew(ys: seq<Atom>, es0: Entries, ka0: seq<seq<Atom>>, ka1: seq<seq<Atom>>, idx: nat)
    requires Older(ka0) && |es0| == |ka0| <= idx < |ka1| && ka1[..|ka0|] == ka0 && ka1[idx] == ys
    requires Below(ys, |es0|)
    ensures Expand(ka1[idx], ka1, idx) == Expand(ys, ka0, |es0|)
  {
    ExpandExtend(ys, ka0, ka1, |es0|);
    ExpandLower(ys, ka1, |es0|, idx);
  }

  /** A key already in the dict: its entry's atoms and the match's show the
      same text, so they expand the same. */
  lemma KeyExpandOld(ys: seq<Atom>, es0: Entries, ka0: seq<seq<Atom>>, es: Entries, ka: seq<seq<Atom>>, idx: nat)
    requires Grown(es0, ka0, es, ka) && Nested(es0, ka0) && Clean(ys) && Below(ys, |es0|)
    requires idx < |es| && es[idx].0 == Render(ys, es0)
    ensures Expand(ka[idx], ka, idx) == Expand(ys, ka0, |es0|)
  {
    RenderExtend(ys, es0, es);
    RestoreBackNested(ka[idx], es, ka, |es|);
    RestoreBackNested(ys, es, ka, |es|);
    ExpandLower(ka[idx], ka, idx, |es|);
    ExpandLower(ys, ka, |es0|, |es|);
    NestedOlder(es0, ka0);
    ExpandExtend(ys, ka0, ka, |es0|);
  }

  /** The placeholder chosen for a match expands to what the match's atoms
      expand to, whether its key was new or already in the dict. */
  lemma KeyExpand(ys: seq<Atom>, es0: Entries, ka0: seq<seq<Atom>>, es: Entries, ka: seq<seq<Atom>>, f: Form)
    requires Nested(es0, ka0) && Grown(es0, ka0, es, ka) && Clean(ys) && Below(ys, |es0|)
    ensures var key := Render(ys, es0); var es1 := Repl(es, key, f).1;
            var ka1 := NextKa(es, key, ka, ys); var idx := IndexOf(es1, key).value;
            IndexOf(es1, key).Some? && idx < |ka1| && Expand(ka1[idx], ka1, idx) == Expand(ys, ka0, |es0|)
  {
    var key := Render(ys, es0);
    var es1 := Repl(es, key, f).1;
    var ka1 := NextKa(es, key, ka, ys);
    MatchGrown(ys, es0, ka0, es, ka, f);
    ReplKeeps(es, key, f);
    var idx := IndexOf(es1, key).value;
    if IndexOf(es, key).None? {
      NestedOlder(es0, ka0);
      KeyExpandNew(ys, es0, ka0, ka1, idx);
    } else {
      KeyExpandOld(ys, es0, ka0, es, ka, idx);
    }
  }

  /** A hole for an entry expands, with a grown dict, as the entry's atoms. */
  lemma HoleHead(idx: nat, ka1: seq<seq<Atom>>, ka2: seq<seq<Atom>>, n2: nat)
    requires Older(ka1) && idx < |ka1| <= |ka2| && ka2[..|ka1|] == ka1 && idx < n2
    ensures Expand([Hole(idx)], ka2, n2) == Expand(ka1[idx], ka1, idx)
  {
    assert [Hole(idx)][1..] == [];
    assert ka2[idx] == ka2[..|ka1|][idx];
    ExpandExtend(ka1[idx], ka1, ka2, idx);
  }

  /** A match from atom `n` to atom `m` becomes one hole in front of the
      rest of the pass's output. */
  lemma ScanMatchStep(t: string, find: Finder, f: Form, xs: seq<Atom>, es0: Entries, ka0: seq<seq<Atom>>,
                      n: nat, m: nat, es: Entries, ka: seq<seq<Atom>>, rest: seq<Atom>, ka2: seq<seq<Atom>>)
    requires Setup(t, xs, es0, ka0) && Grown(es0, ka0, es, ka) && n < m <= |xs|
    requires Hit(t, find, Pos(xs, es0, n)) && find(t, Pos(xs, es0, n)).value == Pos(xs, es0, m)
    requires var key := Render(xs[n..m], es0);
             ScanOut(ProtectFrom(t, find, f, Pos(xs, es0, m), Repl(es, key, f).1), rest, ka2,
                     NextKa(es, key, ka, xs[n..m]), Expand(xs[m..], ka0, |es0|))
    ensures var key := Render(xs[n..m], es0);
            ScanOut(ProtectFrom(t, find, f, Pos(xs, es0, n), es), [Hole(IndexOf(Repl(es, key, f).1, key).value)] + rest,
                    ka2, ka, Expand(xs[n..], ka0, |es0|))
  {
    var ys := xs[n..m];
    var key := Render(ys, es0);
    var es1 := Repl(es, key, f).1;
    var ka1 := NextKa(es, key, ka, ys);
    SliceClean(xs, n, m, |es0|);
    MatchGrown(ys, es0, ka0, es, ka, f);
    KeyExpand(ys, es0, ka0, es, ka, f);
    ReplKeeps(es, key, f);
    var idx := IndexOf(es1, key).value;
    var r := ProtectFrom(t, find, f, Pos(xs, es0, m), es1);
    MatchPiece(t, find, f, xs, es0, n, m, es, key, es1, idx, r);
    NestedOlder(es1, ka1);
    assert ka1[..|ka|] == ka;
    MatchOut(xs, n, m, ys, ka0, |es0|, ka, ka1, idx, r, rest, ka2);
  }

  /** The pass's output from a match on: the match's placeholder, then the
      rest of the pass. */
  lemma MatchPiece(t: string, find: Finder, f: Form, xs: seq<Atom>, es0: Entries, n: nat, m: nat, es: Entries,
                   key: string, es1: Entries, idx: nat, r: (string, Entries))
    requires t == Render(xs, es0) && n < m <= |xs| && WellFormed(es)
    requires Hit(t, find, Pos(xs, es0, n)) && find(t, Pos(xs, es0, n)).value == Pos(xs, es0, m)
    requires key == Render(xs[n..m], es0) && es1 == Repl(es, key, f).1
    requires IndexOf(es1, key).Some? && idx == IndexOf(es1, key).value
    requires r == ProtectFrom(t, find, f, Pos(xs, es0, m), es1)
    ensures idx < |r.1|
    ensures ProtectFrom(t, find, f, Pos(xs, es0, n), es) == (Piece(Hole(idx), r.1) + r.0, r.1)
  {
    MatchText(t, find, f, xs, es0, n, m, es);
    ReplKeeps(es, key, f);
    ProtectFromKeeps(t, find, f, Pos(xs, es0, m), es1);
    assert r.1[idx] == r.1[..|es1|][idx];
    assert Piece(Hole(idx), r.1) == Repl(es, key, f).0;
  }

  /** The match's hole in front of the rest's atoms expands to the text
      from the match's first atom on. */
  lemma MatchOut(xs: seq<Atom>, n: nat, m: nat, ys: seq<Atom>, ka0: seq<seq<Atom>>, b: nat,
                 ka: seq<seq<Atom>>, ka1: seq<seq<Atom>>, idx: nat, r: (string, Entries), rest: seq<Atom>, ka2: seq<seq<Atom>>)
    requires n < m <= |xs| && ys == xs[n..m]
    requires ScanOut(r, rest, ka2, ka1, Expand(xs[m..], ka0, b))
    requires idx < |r.1| && Older(ka1) && idx < |ka1| && |ka| <= |ka1| && ka1[..|ka|] == ka
    requires Expand(ka1[idx], ka1, idx) == Expand(ys, ka0, b)
    ensures ScanOut((Piece(Hole(idx), r.1) + r.0, r.1), [Hole(idx)] + rest, ka2, ka, Expand(xs[n..], ka0, b))
  {
    var target := Expand([Hole(idx)], ka2, |r.1|) + Expand(xs[m..], ka0, b);
    ConsOut(Hole(idx), r, rest, ka2, ka1, Expand(xs[m..], ka0, b));
    HoleHead(idx, ka1, ka2, |r.1|);
    ExpandSplit(xs, n, m, ka0, b);
    ScanOutOlder((Piece(Hole(idx), r.1) + r.0, r.1), [Hole(idx)] + rest, ka2, ka1, ka, target);
  }

  lemma ExpandSplit(xs: seq<Atom>, n: nat, m: nat, ka0: seq<seq<Atom>>, b: nat)
    requires n <= m <= |xs|
    ensures Expand(xs[n..], ka0, b) == Expand(xs[n..m], ka0, b) + Expand(xs[m..], ka0, b)
  {
    assert xs[n..] == xs[n..m] + xs[m..];
    ExpandConcat(xs[n..m], xs[m..], ka0, b);
  }

  /** What a pass gives stays given with fewer atoms known beforehand. */
  lemma ScanOutOlder(r: (string, Entries), ys: seq<Atom>, ka2: seq<seq<Atom>>, ka1: seq<seq<Atom>>,
                     ka: seq<seq<Atom>>, target: string)
    requires ScanOut(r, ys, ka2, ka1, target) && |ka| <= |ka1| && ka1[..|ka|] == ka
    ensures ScanOut(r, ys, ka2, ka, target)
  {
    assert ka2[..|ka|] == ka2[..|ka1|][..|ka|];
  }


  /** One pass over text shown by atoms `xs`, from atom `n` on: when no
      match starts inside a placeholder and every match ends between two
      atoms, the pass's output is again shown by atoms, and these expand
      to what `xs[n..]` expands to. */
  lemma {:induction false} ScanPass(t: string, find: Finder, f: Form, xs: seq<Atom>, es0: Entries, ka0: seq<seq<Atom>>,
                                    n: nat, es: Entries, ka: seq<seq<Atom>>)
    returns (ys: seq<Atom>, ka2: seq<seq<Atom>>)
    requires Setup(t, xs, es0, ka0) && Grown(es0, ka0, es, ka) && n <= |xs|
    requires NoHitInHoles(t, find, xs, es0) && HitsAligned(t, find, xs, es0)
    ensures ScanOut(ProtectFrom(t, find, f, Pos(xs, es0, n), es), ys, ka2, ka, Expand(xs[n..], ka0, |es0|))
    decreases |xs| - n
  {
    if n == |xs| {
      PosEnd(xs, es0);
      ys, ka2 := [], ka;
    } else if xs[n].Lit? && Hit(t, find, Pos(xs, es0, n)) {
      var e := find(t, Pos(xs, es0, n)).value;
      assert AlignedEnd(xs, es0, n, e);
      var m :| n < m <= |xs| && Pos(xs, es0, m) == e;
      var key := Render(xs[n..m], es0);
      SliceClean(xs, n, m, |es0|);
      MatchGrown(xs[n..m], es0, ka0, es, ka, f);
      var rest;
      rest, ka2 := ScanPass(t, find, f, xs, es0, ka0, m, Repl(es, key, f).1, NextKa(es, key, ka, xs[n..m]));
      ScanMatchStep(t, find, f, xs, es0, ka0, n, m, es, ka, rest, ka2);
      ys := [Hole(IndexOf(Repl(es, key, f).1, key).value)] + rest;
    } else {
      var rest;
      rest, ka2 := ScanPass(t, find, f, xs, es0, ka0, n + 1, es, ka);
      ScanCopyStep(t, find, f, xs, es0, ka0, n, es, ka, rest, ka2);
      ys := [xs[n]] + rest;
    }
  }

  /** A whole pass: its output is atoms over the grown dict, expanding to
      what the pass's input expands to. */
  lemma ScanAll(t: string, find: Finder, f: Form, xs: seq<Atom>, es0: Entries, ka0: seq<seq<Atom>>)
    returns (ys: seq<Atom>, ka2: seq<seq<Atom>>)
    requires Setup(t, xs, es0, ka0)
    requires NoHitInHoles(t, find, xs, es0) && HitsAligned(t, find, xs, es0)
    ensures var r := ProtectFrom(t, find, f, 0, es0);
            Setup(r.0, ys, r.1, ka2) && |ka0| <= |ka2| && ka2[..|ka0|] == ka0
            && Expand(ys, ka2, |r.1|) == Expand(xs, ka0, |es0|)
  {
    assert xs[..0] == [] && xs[0..] == xs;
    assert Grown(es0, ka0, es0, ka0) by {
      assert es0[..|es0|] == es0 && ka0[..|ka0|] == ka0;
    }
    ys, ka2 := ScanPass(t, find, f, xs, es0, ka0, 0, es0, ka0);
    ProtectFromKeeps(t, find, f, 0, es0);
  }
}
