/** What the guard around the code modifiers achieves: the protected
    stretches come back as they were. */
module GuardProof {
  import opened Wrappers
  import opened Text
  import opened LineRules
  import opened Processor
  import opened Guard
  import opened GuardRestore
  import opened GuardScan
  import opened GuardAlign

  /** A plain pass keeps the dict's placeholders plain. */
  lemma PlainPass(t: string, find: Finder, es: Entries)
    requires WellFormed(es) && PlainEntries(es)
    ensures PlainEntries(ProtectFrom(t, find, Plain, 0, es).1)
  {
    ProtectFromKeeps(t, find, Plain, 0, es);
    var es2 := ProtectFrom(t, find, Plain, 0, es).1;
    forall k | 0 <= k < |es2| ensures es2[k].1 == Ph(k) {
      if k < |es| {
        assert es2[k] == es2[..|es|][k];
      }
    }
  }

  /** The document before any protection, as atoms. */
  lemma Start(md: string)
    requires STX !in md
    ensures Setup(md, Lits(md), [], []) && Expand(Lits(md), [], 0) == md
    ensures NoHitInHoles(md, LinkFinder(), Lits(md), []) && HitsAligned(md, LinkFinder(), Lits(md), [])
  {
    RenderLits(md, []);
    ExpandNoHoles(Lits(md), [], [], 0);
    FillLits(md, []);
    LinkHitsAligned(md);
  }

  /** After the five protections the text is atoms over the dict whose
      expansion is the document: every placeholder stands for a stretch
      of the document, itself possibly holding older placeholders. */
  lemma ProtectAllAtoms(md: string) returns (xs: seq<Atom>, ka: seq<seq<Atom>>)
    requires STX !in md
    ensures Setup(ProtectAll(md).0, xs, ProtectAll(md).1, ka)
    ensures Expand(xs, ka, |ProtectAll(md).1|) == md
  {
    Start(md);
    var r1 := ProtectFrom(md, LinkFinder(), Plain, 0, []);
    var xs1, ka1 := ScanAll(md, LinkFinder(), Plain, Lits(md), [], []);
    PlainPass(md, LinkFinder(), []);
    UrlNoHitInHoles(xs1, r1.1);
    UrlHitsAligned(xs1, r1.1);
    var r2 := ProtectFrom(r1.0, UrlFinder(), Plain, 0, r1.1);
    var xs2, ka2 := ScanAll(r1.0, UrlFinder(), Plain, xs1, r1.1, ka1);
    PlainPass(r1.0, UrlFinder(), r1.1);
    WwwNoHitInHoles(xs2, r2.1);
    WwwHitsAligned(xs2, r2.1);
    var r3 := ProtectFrom(r2.0, WwwFinder(), Plain, 0, r2.1);
    var xs3, ka3 := ScanAll(r2.0, WwwFinder(), Plain, xs2, r2.1, ka2);
    PlainPass(r2.0, WwwFinder(), r2.1);
    WikiNoHitInHoles(xs3, r3.1);
    WikiHitsAligned(xs3, r3.1);
    var r4 := ProtectFrom(r3.0, WikiFinder(), Wiki, 0, r3.1);
    var xs4, ka4 := ScanAll(r3.0, WikiFinder(), Wiki, xs3, r3.1, ka3);
    EmojiNoHitInHoles(xs4, r4.1);
    EmojiHitsAligned(xs4, r4.1);
    xs, ka := ScanAll(r4.0, EmojiFinder(), Plain, xs4, r4.1, ka4);
  }

  /** The guard with the newest-first restoration: whatever the modifiers
      do to the text around the placeholders, as long as they leave the
      placeholders whole, every placeholder is turned back into the stretch
      of the document it protected. `xs` is the protected text as atoms and
      `zs` the modified one; hole `k` of either stands for the expansion of
      `ka[k]`. */
  lemma FixedRestores(ms: seq<Modifier>, md: string, zs: seq<Atom>) returns (xs: seq<Atom>, ka: seq<seq<Atom>>)
    requires STX !in md
    requires ApplyAll(ms, ProtectAll(md).0) == Render(zs, ProtectAll(md).1)
    requires Clean(zs) && Below(zs, |ProtectAll(md).1|)
    ensures ProtectAll(md).0 == Render(xs, ProtectAll(md).1) && Nested(ProtectAll(md).1, ka)
    ensures Expand(xs, ka, |ProtectAll(md).1|) == md
    ensures OrthographicModifyFixed(ms, md) == Expand(zs, ka, |ProtectAll(md).1|)
  {
    xs, ka := ProtectAllAtoms(md);
    RestoreBackNested(zs, ProtectAll(md).1, ka, |ProtectAll(md).1|);
  }

  /** With no modifier, the fixed guard gives the document back. */
  lemma FixedRoundTrip(md: string)
    requires STX !in md
    ensures OrthographicModifyFixed([], md) == md
  {
    var xs, ka := ProtectAllAtoms(md);
    RestoreBackNested(xs, ProtectAll(md).1, ka, |ProtectAll(md).1|);
  }

  /** Both restorations agree on text shown by atoms when no protected
      stretch holds a placeholder. */
  lemma FlatRestoresAgree(es: Entries, ka: seq<seq<Atom>>, zs: seq<Atom>)
    requires WellFormed(es) && Flat(es) && Nested(es, ka) && Clean(zs) && Below(zs, |es|)
    ensures RestoreAll(es, Render(zs, es)) == RestoreBack(es, |es|, Render(zs, es))
  {
    RestoreFromFlat(zs, es, 0);
    FlatExpand(zs, es, ka, |es|);
    RestoreBackNested(zs, es, ka, |es|);
  }

  /** The source's insertion-order restoration agrees with the fixed one
      whenever no protected stretch holds an older placeholder. */
  lemma AsWrittenFlat(ms: seq<Modifier>, md: string, zs: seq<Atom>)
    requires STX !in md && Flat(ProtectAll(md).1)
    requires ApplyAll(ms, ProtectAll(md).0) == Render(zs, ProtectAll(md).1)
    requires Clean(zs) && Below(zs, |ProtectAll(md).1|)
    ensures OrthographicModify(ms, md) == OrthographicModifyFixed(ms, md)
  {
    var xs, ka := ProtectAllAtoms(md);
    FlatRestoresAgree(ProtectAll(md).1, ka, zs);
  }

  // ---------------------------------------------------------------------
  // A URL written in front of a link: the URL's protected stretch holds
  // the link's placeholder

  const NestedUrl: string := "http://[a](b)"

  /** A text in which the pattern finds nothing is copied whole. */
  lemma NoHitCopy(t: string, find: Finder, f: Form, es: Entries)
    requires forall y :: 0 <= y < |t| ==> !Hit(t, find, y)
    ensures ProtectFrom(t, find, f, 0, es) == (t, es)
  {
    ProtectCopy(t, find, f, 0, |t|, es);
    assert t[0..|t|] + "" == t;
    assert ProtectFrom(t, find, f, |t|, es) == ("", es);
  }

  /** The link pass protects `[a](b)`. */
  lemma NestedLinkPass()
    ensures ProtectFrom(NestedUrl, LinkFinder(), Plain, 0, []) == ("http://" + Ph(0), [("[a](b)", Ph(0))])
  {
    var s := NestedUrl;
    forall y | 0 <= y < 7 ensures !Hit(s, LinkFinder(), y) {
      assert s[y] != '[';
    }
    ProtectCopy(s, LinkFinder(), Plain, 0, 7, []);
    assert s[0..7] == "http://";
    NestedLinkHit();
    NestedLinkEntry();
    var es1 := [("[a](b)", Ph(0))];
    assert ProtectFrom(s, LinkFinder(), Plain, 13, es1) == ("", es1);
    assert ProtectFrom(s, LinkFinder(), Plain, 7, []) == (Ph(0) + "", es1);
    assert Ph(0) + "" == Ph(0);
  }

  /** The link finder reads `[a](b)` at 7. */
  lemma NestedLinkHit()
    ensures Hit(NestedUrl, LinkFinder(), 7) && LinkFinder()(NestedUrl, 7).value == 13
    ensures NestedUrl[7..13] == "[a](b)"
  {
    var s := NestedUrl;
    LineEndAt(s, 7, 13);
    SpanAt(s, 11, 12, TargetChar);
    assert LinkClose(s, 12).None? && LinkClose(s, 11).None? && LinkClose(s, 10).None?;
    assert LinkClose(s, 9) == Some(13);
    assert LinkAt(s, 7) == Some(13);
  }

  /** The first entry of the table. */
  lemma NestedLinkEntry()
    ensures Repl([], "[a](b)", Plain) == (Ph(0), [("[a](b)", Ph(0))])
  {
    assert IndexOf([], "[a](b)").None?;
    assert Format(Plain, 0) == Ph(0);
    assert [] + [("[a](b)", Ph(0))] == [("[a](b)", Ph(0))];
  }

  /** The URL pass protects `http://` together with the link's placeholder. */
  lemma NestedUrlPass()
    ensures var t := "http://" + Ph(0); var es1 := [("[a](b)", Ph(0))];
            ProtectFrom(t, UrlFinder(), Plain, 0, es1) == (Ph(1), es1 + [(t, Ph(1))])
  {
    var t := "http://" + Ph(0);
    var es1 := [("[a](b)", Ph(0))];
    assert |Ph(0)| == 7;
    StartsAtSlice(t, 0, "https://");
    assert t[4] == ':';
    StartsAtSlice(t, 0, "http://");
    assert t[0..7] == "http://";
    forall k | 7 <= k < 14 ensures UrlChar(t[k]) {
      PhChar(0, k - 7);
    }
    SpanAt(t, 7, 14, UrlChar);
    assert UrlAt(t, 0) == Some(14);
    assert t[0..14] == t;
    assert IndexOf(es1, t).None?;
    var es2 := es1 + [(t, Ph(1))];
    assert Format(Plain, 1) == Ph(1);
    assert Repl(es1, t, Plain) == (Ph(1), es2);
    assert ProtectFrom(t, UrlFinder(), Plain, 14, es2) == ("", es2);
    assert Hit(t, UrlFinder(), 0) && UrlFinder()(t, 0).value == 14;
    assert Ph(1) + "" == Ph(1);
  }

  /** The last three passes find nothing in a placeholder. */
  lemma PhLastPasses(n: nat, es: Entries)
    ensures ProtectFrom(Ph(n), WwwFinder(), Plain, 0, es) == (Ph(n), es)
    ensures ProtectFrom(Ph(n), WikiFinder(), Wiki, 0, es) == (Ph(n), es)
    ensures ProtectFrom(Ph(n), EmojiFinder(), Plain, 0, es) == (Ph(n), es)
  {
    var t := Ph(n);
    forall y | 0 <= y < |t|
      ensures !Hit(t, WwwFinder(), y) && !Hit(t, WikiFinder(), y) && !Hit(t, EmojiFinder(), y)
    {
      PhChar(n, y);
      StartsTwo(t, y, "www.");
      StartsTwo(t, y, "[[");
    }
    NoHitCopy(t, WwwFinder(), Plain, es);
    NoHitCopy(t, WikiFinder(), Wiki, es);
    NoHitCopy(t, EmojiFinder(), Plain, es);
  }

  lemma NestedProtected()
    ensures ProtectAll(NestedUrl) == (Ph(1), [("[a](b)", Ph(0)), ("http://" + Ph(0), Ph(1))])
  {
    var t1 := "http://" + Ph(0);
    var e1 := [("[a](b)", Ph(0))];
    var e2 := e1 + [(t1, Ph(1))];
    NestedLinkPass();
    NestedUrlPass();
    PhLastPasses(1, e2);
    assert e2 == [("[a](b)", Ph(0)), ("http://" + Ph(0), Ph(1))];
  }

  /** A text replaced by itself as a whole. */
  lemma ReplaceWhole(w: string, rep: string)
    requires |w| > 0
    ensures Replace(w, w, rep) == rep
  {
    StartsAtSlice(w, 0, w);
    assert w[0..|w|] == w;
    assert FindFrom(w, w, 0) == 0;
    assert FindFrom(w, w, |w|) == -1;
    assert w[|w|..] == "" && w[0..0] == "";
    assert SplitFrom(w, w, |w|) == [""];
    assert SplitFrom(w, w, 0) == [""] + [""];
    assert Split(w, w) == ["", ""];
    assert Join(["", ""], rep) == "" + rep + Join([""], rep);
  }

  /** Restoring in insertion order: the link's placeholder is not in the
      text yet when its turn comes, and the URL's brings it back. */
  lemma NestedRestoredInOrder()
    ensures RestoreAll([("[a](b)", Ph(0)), ("http://" + Ph(0), Ph(1))], Ph(1)) == "http://" + Ph(0)
  {
    var es := [("[a](b)", Ph(0)), ("http://" + Ph(0), Ph(1))];
    forall j | 0 <= j < |Ph(1)| ensures !StartsAt(Ph(1), j, Ph(0)) {
      StartsAtSlice(Ph(1), j, Ph(0));
      assert Ph(1)[3] != Ph(0)[3];
    }
    ReplaceAbsent(Ph(1), Ph(0), "[a](b)");
    ReplaceWhole(Ph(1), "http://" + Ph(0));
    assert RestoreFrom(es, 2, "http://" + Ph(0)) == "http://" + Ph(0);
    assert RestoreFrom(es, 1, Ph(1)) == "http://" + Ph(0);
  }

  /** As written, the guard hands back `http://` followed by the link's
      placeholder instead of the document: the URL's entry is restored
      after the link's, so the placeholder it brings back stays. */
  lemma AsWrittenNestedUrl()
    ensures OrthographicModify([], NestedUrl) == "http://" + Ph(0)
    ensures OrthographicModify([], NestedUrl) != NestedUrl
  {
    NestedProtected();
    NestedRestoredInOrder();
    assert ApplyAll([], Ph(1)) == Ph(1);
    assert |Ph(0)| == 7;
  }

  /** The fixed guard gives the same document back. */
  lemma FixedNestedUrl()
    ensures OrthographicModifyFixed([], NestedUrl) == NestedUrl
  {
    assert STX !in NestedUrl;
    FixedRoundTrip(NestedUrl);
  }
}
