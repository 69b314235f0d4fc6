/** The four orthographic processors of `campbot/processors/cleaners.py`:
    `UpperFix`, `AutomaticReplacements`, `RemoveColonInHeader` and
    `DiacriticsFix` run their modifiers inside the placeholder guard of
    `OrthographicProcessor.modify`, so that links, URLs, `www.` hosts,
    wiki-link heads and `:emoji:` codes are not rewritten. */
module Orthographic {
  import opened Wrappers
  import opened Text
  import opened Rewrite
  import opened LineRules
  import opened Processor
  import opened Guard
  import opened GuardAlign
  import opened GuardProof
  import Cleaners
  import UpperFix

  // ---------------------------------------------------------------------
  // The processors

  /** `UpperFix().modify`. */
  function UpperFixModify(md: string): string
  {
    OrthographicModify(UpperFix.UpperFixModifiers(), md)
  }

  /** `AutomaticReplacements(lang, comment, replacements).modify`. */
  function AutomaticModify(replacements: seq<(string, string)>, md: string): string
  {
    OrthographicModify(Cleaners.WordModifiers(replacements), md)
  }

  /** `RemoveColonInHeader().modify`, with its rule as written. */
  function RemoveColonModify(md: string): string
  {
    OrthographicModify([(s: string) => Cleaners.RemoveColonAsWritten(s)], md)
  }

  /** `DiacriticsFix().modify`. */
  function DiacriticsModify(md: string): string
  {
    OrthographicModify(Cleaners.DiacriticsModifiers(), md)
  }

  // ---------------------------------------------------------------------
  // Where the guard protects nothing, a processor is its modifiers

  /** None of the five protected patterns starts in `md`. */
  predicate Unprotected(md: string)
  {
    forall y :: 0 <= y < |md| ==>
      && !Hit(md, LinkFinder(), y) && !Hit(md, UrlFinder(), y) && !Hit(md, WwwFinder(), y)
      && !Hit(md, WikiFinder(), y) && !Hit(md, EmojiFinder(), y)
  }

  /** No `[`, `:` or `.`: a link and a wiki head open with `[`, a URL
      and an emoji code hold a `:`, and a `www.` host a `.`. */
  predicate MarkFree(md: string)
  {
    '[' !in md && ':' !in md && '.' !in md
  }

  /** A literal holding a character the text lacks starts nowhere in it. */
  lemma MissingChar(s: string, y: nat, p: string, k: nat)
    requires k < |p| && p[k] !in s
    ensures !StartsAt(s, y, p)
  {
    StartsAtSlice(s, y, p);
    if y + |p| <= |s| {
      assert s[y..y + |p|][k] == s[y + k];
    }
  }

  /** A text with no `[`, `:` or `.` holds nothing to protect. */
  lemma MarkFreeUnprotected(md: string)
    requires MarkFree(md)
    ensures Unprotected(md)
  {
    forall y | 0 <= y < |md|
      ensures !Hit(md, UrlFinder(), y) && !Hit(md, WwwFinder(), y) && !Hit(md, WikiFinder(), y)
    {
      MissingChar(md, y, "https://", 5);
      MissingChar(md, y, "http://", 4);
      MissingChar(md, y, "www.", 3);
      MissingChar(md, y, "[[", 0);
    }
  }

  /** When nothing is protected the guard is transparent: the processor is
      the fold of its modifiers over the text. */
  lemma NothingProtected(ms: seq<Modifier>, md: string)
    requires Unprotected(md)
    ensures OrthographicModify(ms, md) == ApplyAll(ms, md)
  {
    NoHitCopy(md, LinkFinder(), Plain, []);
    NoHitCopy(md, UrlFinder(), Plain, []);
    NoHitCopy(md, WwwFinder(), Plain, []);
    NoHitCopy(md, WikiFinder(), Wiki, []);
    NoHitCopy(md, EmojiFinder(), Plain, []);
    assert ProtectAll(md) == (md, []);
  }

  /** The four processors on a text with nothing to protect. */
  lemma UnprotectedProcessors(replacements: seq<(string, string)>, md: string)
    requires Unprotected(md)
    ensures UpperFixModify(md) == UpperFix.UpperFixText(md)
    ensures AutomaticModify(replacements, md) == ApplyAll(Cleaners.WordModifiers(replacements), md)
    ensures RemoveColonModify(md) == Cleaners.RemoveColonAsWritten(md)
    ensures DiacriticsModify(md) == Cleaners.DiacriticsFix(md)
  {
    NothingProtected(UpperFix.UpperFixModifiers(), md);
    NothingProtected(Cleaners.WordModifiers(replacements), md);
    var colon := [(s: string) => Cleaners.RemoveColonAsWritten(s)];
    NothingProtected(colon, md);
    assert ApplyAll(colon, md) == ApplyAll(colon[1..], colon[0](md));
    NothingProtected(Cleaners.DiacriticsModifiers(), md);
  }

  // ---------------------------------------------------------------------
  // Word rules that cannot fire

  /** A word whose first letter is not in the text is not replaced. */
  lemma HeadAbsentKept(o: string, n: string, s: string)
    requires |o| > 0 && o[0] !in s
    ensures Sub(s, Cleaners.WordMatcher(o, n)) == s
  {
    var f := Cleaners.WordMatcher(o, n);
    forall j | 0 <= j < |s| ensures !Valid(s, j, f(s, j)) {
      StartsAtSlice(s, j, o);
    }
    SubNoMatch(s, f);
  }

  /** Rules whose words all start with a letter absent from the text leave
      it alone. */
  lemma WordRulesKept(replacements: seq<(string, string)>, s: string)
    requires forall k :: 0 <= k < |replacements| ==> |replacements[k].0| > 0 && replacements[k].0[0] !in s
    ensures ApplyAll(Cleaners.WordModifiers(replacements), s) == s
  {
    var ms := Cleaners.WordModifiers(replacements);
    forall k | 0 <= k < |ms| ensures ms[k](s) == s {
      HeadAbsentKept(replacements[k].0, replacements[k].1, s);
    }
    ApplyAllFixed(ms, s);
  }

  // ---------------------------------------------------------------------
  // What the five passes protect

  /** A pass whose only match is at the start, ending at `e`: the match
      becomes the first placeholder and the rest is copied. */
  lemma HeadHit(s: string, find: Finder, f: Form, e: nat)
    requires 0 < |s| && Hit(s, find, 0) && find(s, 0).value == e
    requires forall y :: e <= y < |s| ==> !Hit(s, find, y)
    ensures ProtectFrom(s, find, f, 0, []) == (Format(f, 0) + s[e..], [(s[..e], Format(f, 0))])
  {
    var es := [(s[..e], Format(f, 0))];
    assert s[0..e] == s[..e];
    assert IndexOf([], s[..e]).None?;
    assert [] + es == es;
    assert Repl([], s[..e], f) == (Format(f, 0), es);
    ProtectCopy(s, find, f, e, |s|, es);
    assert ProtectFrom(s, find, f, |s|, es) == ("", es);
    assert s[e..|s|] + "" == s[e..];
  }

  /** `:w:`, with `w` a run of word characters, is protected as a whole by
      the emoji pass. */
  lemma EmojiWhole(w: string, s: string)
    requires |w| > 0 && forall k :: 0 <= k < |w| ==> IsWordChar(w[k])
    requires s == ":" + w + ":"
    ensures ProtectAll(s) == (Ph(0), [(s, Ph(0))])
  {
    assert forall k :: 0 <= k < |s| ==> s[k] != '[' && s[k] != '/' && s[k] != '.' by {
      forall k | 0 <= k < |s| ensures s[k] != '[' && s[k] != '/' && s[k] != '.' {
        if 0 < k < |s| - 1 { assert s[k] == w[k - 1]; }
      }
    }
    forall y | 0 <= y < |s|
      ensures !Hit(s, LinkFinder(), y) && !Hit(s, UrlFinder(), y) && !Hit(s, WwwFinder(), y)
      ensures !Hit(s, WikiFinder(), y)
    {
      MissingChar(s, y, "https://", 6);
      MissingChar(s, y, "http://", 5);
      MissingChar(s, y, "www.", 3);
      MissingChar(s, y, "[[", 0);
    }
    NoHitCopy(s, LinkFinder(), Plain, []);
    NoHitCopy(s, UrlFinder(), Plain, []);
    NoHitCopy(s, WwwFinder(), Plain, []);
    NoHitCopy(s, WikiFinder(), Wiki, []);
    SpanAt(s, 1, |w| + 1, IsWordChar);
    assert EmojiAt(s, 0) == Some(|s|);
    HeadHit(s, EmojiFinder(), Plain, |s|);
    assert s[..|s|] == s && s[|s|..] == "";
    assert Format(Plain, 0) + "" == Ph(0);
  }

  /** `http://` and a run of URL characters without `[` is protected as a
      whole by the URL pass. */
  lemma UrlWhole(rest: string, s: string)
    requires forall k :: 0 <= k < |rest| ==> UrlChar(rest[k]) && rest[k] != '['
    requires s == "http://" + rest
    ensures ProtectAll(s) == (Ph(0), [(s, Ph(0))])
  {
    assert '[' !in s by {
      forall k | 0 <= k < |s| ensures s[k] != '[' {
        if k >= 7 { assert s[k] == rest[k - 7]; }
      }
    }
    NoHitCopy(s, LinkFinder(), Plain, []);
    StartsAtSlice(s, 0, "https://");
    StartsAtSlice(s, 0, "http://");
    assert s[4] == ':' && s[0..7] == "http://";
    forall k | 7 <= k < |s| ensures UrlChar(s[k]) {
      assert s[k] == rest[k - 7];
    }
    SpanAt(s, 7, |s|, UrlChar);
    assert UrlAt(s, 0) == Some(|s|);
    HeadHit(s, UrlFinder(), Plain, |s|);
    assert s[..|s|] == s && s[|s|..] == "";
    assert Format(Plain, 0) + "" == Ph(0);
    PhLastPasses(0, [(s, Ph(0))]);
  }

  /** The head `[[kind/id…|` of a wiki link is protected by the wiki pass;
      what follows it, here free of `[`, `(`, `:` and `.`, is not. */
  lemma WikiHeadOnly(kind: string, id: string, tail: string, head: string, rest: string)
    requires |kind| > 0 && forall k :: 0 <= k < |kind| ==> IsLowerAscii(kind[k])
    requires |id| > 0 && forall k :: 0 <= k < |id| ==> IsDigit(id[k])
    requires forall k :: 0 <= k < |tail| ==> WikiTailChar(tail[k])
    requires head == "[[" + kind + "/" + id + tail + "|"
    requires MarkFree(rest) && '(' !in rest
    ensures ProtectAll(head + rest) == (WikiPh(0) + rest, [(head, WikiPh(0))])
  {
    var s := head + rest;
    WikiHeadChars(kind, id, tail, head);
    assert '(' !in s && ':' !in s && '.' !in s by {
      forall k | 0 <= k < |s| ensures s[k] != '(' && s[k] != ':' && s[k] != '.' {
        if k >= |head| { assert s[k] == rest[k - |head|]; } else { assert s[k] == head[k]; }
      }
    }
    forall y | 0 <= y < |s|
      ensures !Hit(s, LinkFinder(), y) && !Hit(s, UrlFinder(), y) && !Hit(s, WwwFinder(), y)
    {
      NoParenNoLink(s, y, LineEnd(s, y) - 1);
      MissingChar(s, y, "https://", 5);
      MissingChar(s, y, "http://", 4);
      MissingChar(s, y, "www.", 3);
    }
    NoHitCopy(s, LinkFinder(), Plain, []);
    NoHitCopy(s, UrlFinder(), Plain, []);
    NoHitCopy(s, WwwFinder(), Plain, []);
    WikiHeadAt(kind, id, tail, head, rest);
    forall y | |head| <= y < |s| ensures !Hit(s, WikiFinder(), y) {
      MissingChar(s[y..], 0, "[[", 0);
      StartsTwo(s, y, "[[");
      assert s[y] == rest[y - |head|];
    }
    HeadHit(s, WikiFinder(), Wiki, |head|);
    assert s[..|head|] == head && s[|head|..] == rest;
    var t := WikiPh(0) + rest;
    forall y | 0 <= y < |t| ensures !Hit(t, EmojiFinder(), y) {
      if y < |WikiPh(0)| { WikiPhChar(0, y); } else { assert t[y] == rest[y - |WikiPh(0)|]; }
    }
    NoHitCopy(t, EmojiFinder(), Plain, [(head, WikiPh(0))]);
  }

  /** The characters of a wiki head: none is `(`, `:` or `.`. */
  lemma WikiHeadChars(kind: string, id: string, tail: string, head: string)
    requires forall k :: 0 <= k < |kind| ==> IsLowerAscii(kind[k])
    requires forall k :: 0 <= k < |id| ==> IsDigit(id[k])
    requires forall k :: 0 <= k < |tail| ==> WikiTailChar(tail[k])
    requires head == "[[" + kind + "/" + id + tail + "|"
    ensures forall k :: 0 <= k < |head| ==> head[k] != '(' && head[k] != ':' && head[k] != '.'
  {
    forall k | 0 <= k < |head| ensures head[k] != '(' && head[k] != ':' && head[k] != '.' {
      var a := 2 + |kind|;
      if 2 <= k < a { assert head[k] == kind[k - 2]; }
      else if a + 1 <= k < a + 1 + |id| { assert head[k] == id[k - a - 1]; }
      else if a + 1 + |id| <= k < a + 1 + |id| + |tail| { assert head[k] == tail[k - a - 1 - |id|]; }
    }
  }

  /** The wiki finder reads the whole head at the start of the text. */
  lemma WikiHeadAt(kind: string, id: string, tail: string, head: string, rest: string)
    requires |kind| > 0 && forall k :: 0 <= k < |kind| ==> IsLowerAscii(kind[k])
    requires |id| > 0 && forall k :: 0 <= k < |id| ==> IsDigit(id[k])
    requires forall k :: 0 <= k < |tail| ==> WikiTailChar(tail[k])
    requires head == "[[" + kind + "/" + id + tail + "|"
    ensures Hit(head + rest, WikiFinder(), 0) && WikiFinder()(head + rest, 0).value == |head|
  {
    var s := head + rest;
    var a := 2 + |kind|;
    var d := a + 1 + |id|;
    var c := d + |tail|;
    assert s[..2] == "[[";
    StartsAtSlice(s, 0, "[[");
    forall k | 2 <= k < a ensures IsLowerAscii(s[k]) { assert s[k] == kind[k - 2]; }
    assert s[a] == '/';
    SpanAt(s, 2, a, IsLowerAscii);
    forall k | a + 1 <= k < d ensures IsDigit(s[k]) { assert s[k] == id[k - a - 1]; }
    forall k | d <= k < c ensures WikiTailChar(s[k]) { assert s[k] == tail[k - d]; }
    assert s[c] == '|';
    var e := Span(s, a + 1, IsDigit);
    assert IsDigit(s[a + 1]) && !IsDigit(s[c]);
    assert a + 1 < e <= c;
    SpanAt(s, e, c, WikiTailChar);
    assert WikiAt(s, 0) == Some(c + 1);
  }

  // ---------------------------------------------------------------------
  // The replacements of the processor's own test

  function TestPairs(): seq<(string, string)>
  {
    [("deja", "déjà"), ("sud", "S"), ("noeud", "nœud"), ("gite", "gîte"),
     ("itineraire", "itinéraire")]
  }

  /** No word of the test's rules after the first can start in `t`. */
  predicate TailFree(t: string)
  {
    's' !in t && 'n' !in t && 'g' !in t && 'i' !in t
  }

  /** The first rule does its work on `s`, giving `t`, in which no other
      rule's word can start. */
  lemma FirstRuleOnly(s: string, t: string)
    requires Sub(s, Cleaners.WordMatcher("deja", "déjà")) == t
    requires TailFree(t)
    ensures ApplyAll(Cleaners.WordModifiers(TestPairs()), s) == t
  {
    var ms := Cleaners.WordModifiers(TestPairs());
    assert ms[1..] == Cleaners.WordModifiers(TestPairs()[1..]);
    assert ms[0](s) == t;
    WordRulesKept(TestPairs()[1..], t);
  }

  /** The placeholder numbered 0. */
  lemma PhZero()
    ensures Ph(0) == [STX, 'p', 'h', '0', 'p', 'h', ETX]
  {
    assert NatToString(0) == "0";
  }

  /** A placeholder is left alone by the test's rules. */
  lemma PhKept()
    ensures ApplyAll(Cleaners.WordModifiers(TestPairs()), Ph(0)) == Ph(0)
  {
    PhZero();
    WordRulesKept(TestPairs(), Ph(0));
  }

  /** Restoring a one-entry dict in a text that starts with its
      placeholder, and holds it nowhere else. */
  lemma RestoreHead(key: string, ph: string, r: string)
    requires |ph| > 0 && ph[0] !in r
    ensures RestoreAll([(key, ph)], ph + r) == key + r
  {
    var es := [(key, ph)];
    assert RestoreFrom(es, 1, Replace(ph + r, ph, key)) == Replace(ph + r, ph, key);
    ReplaceFirst("", ph, key, r);
    assert "" + ph + r == ph + r && "" + key + Replace(r, ph, key) == key + Replace(r, ph, key);
    forall j | 0 <= j < |r| ensures !StartsAt(r, j, ph) {
      MissingChar(r, j, ph, 0);
    }
    ReplaceAbsent(r, ph, key);
  }

  /** `deja` becomes `déjà`. */
  lemma PlainWordVector()
    ensures AutomaticModify(TestPairs(), "deja") == "déjà"
  {
    DejaFacts();
    MarkFreeUnprotected("deja");
    NothingProtected(Cleaners.WordModifiers(TestPairs()), "deja");
    Cleaners.WordAlone("deja", "déjà");
    FirstRuleOnly("deja", "déjà");
  }

  lemma DejaFacts()
    ensures MarkFree("deja") && TailFree("déjà")
    ensures |"deja"| > 0 && forall k :: 0 <= k < |"deja"| ==> IsWordChar("deja"[k])
  {
  }

  /** `:deja:` is an emoji code and stays as it is. */
  lemma EmojiVector()
    ensures AutomaticModify(TestPairs(), ":deja:") == ":deja:"
  {
    DejaFacts();
    EmojiWhole("deja", ":deja:");
    PhKept();
    RestoreHead(":deja:", Ph(0), "");
    assert Ph(0) + "" == Ph(0) && ":deja:" + "" == ":deja:";
  }

  lemma DejaComFacts()
    ensures forall k :: 0 <= k < |"deja.com"| ==> UrlChar("deja.com"[k]) && "deja.com"[k] != '['
    ensures "http://deja.com" == "http://" + "deja.com"
  {
  }

  /** `http://deja.com` is a URL and stays as it is. */
  lemma UrlVector()
    ensures AutomaticModify(TestPairs(), "http://deja.com") == "http://deja.com"
  {
    DejaComFacts();
    UrlWhole("deja.com", "http://deja.com");
    PhKept();
    RestoreHead("http://deja.com", Ph(0), "");
    assert Ph(0) + "" == Ph(0) && "http://deja.com" + "" == "http://deja.com";
  }

  /** No markdown link closes in a text without `(`. */
  lemma {:induction false} NoParenNoLink(s: string, i: nat, k: nat)
    requires '(' !in s
    ensures LastLinkClose(s, i, k).None?
    decreases k
  {
    if k > i {
      NoParenNoLink(s, i, k - 1);
    }
  }

  lemma WikiFacts()
    ensures forall k :: 0 <= k < |"route"| ==> IsLowerAscii("route"[k])
    ensures forall k :: 0 <= k < |"123"| ==> IsDigit("123"[k])
    ensures forall k :: 0 <= k < |"/fr/deja"| ==> WikiTailChar("/fr/deja"[k])
    ensures "[[route/123/fr/deja|" == "[[" + "route" + "/" + "123" + "/fr/deja" + "|"
  {
  }

  lemma WikiTextFacts()
    ensures MarkFree("deja]]") && '(' !in "deja]]"
    ensures "[[route/123/fr/deja|" + "deja]]" == "[[route/123/fr/deja|deja]]"
    ensures "[[route/123/fr/deja|" + "déjà]]" == "[[route/123/fr/deja|déjà]]"
  {
  }

  /** A word placed right after a text ending in a non-word character,
      and followed by one, is the only place its first letter occurs: it
      is replaced. */
  lemma WordAfter(p: string, o: string, n: string, r: string)
    requires |o| > 0 && IsWordChar(o[0]) && IsWordChar(o[|o| - 1]) && o[0] !in o[1..]
    requires |p| > 0 && !IsWordChar(p[|p| - 1]) && o[0] !in p
    requires (|r| == 0 || !IsWordChar(r[0])) && o[0] !in r
    ensures Sub(p + o + r, Cleaners.WordMatcher(o, n)) == p + n + r
  {
    var t := p + o + r;
    var a := |p|;
    assert t[a..a + |o|] == o;
    forall j | 0 <= j < |t| && j != a ensures !StartsAt(t, j, o) {
      StartsAtSlice(t, j, o);
      if j + |o| <= |t| {
        assert t[j..j + |o|][0] == t[j];
        if j < a { assert t[j] == p[j]; }
        else if j < a + |o| { assert t[j] == o[1..][j - a - 1]; }
        else { assert t[j] == r[j - a - |o|]; }
      }
    }
    assert t[a - 1] == p[a - 1] && t[a] == o[0] && t[a + |o| - 1] == o[|o| - 1];
    assert a + |o| < |t| ==> t[a + |o|] == r[0];
    Cleaners.WordInText(t, a, o, n);
    assert t[..a] == p && t[a + |o|..] == r;
  }

  lemma LabelFacts()
    ensures |WikiPh(0)| > 0 && !IsWordChar(WikiPh(0)[|WikiPh(0)| - 1]) && 'd' !in WikiPh(0)
    ensures TailFree(WikiPh(0) + "déjà]]") && WikiPh(0)[0] !in "déjà]]"
  {
    PhZero();
    var w := WikiPh(0);
    assert w == ['[', '['] + [STX, 'p', 'h', '0', 'p', 'h', ETX] + ['|'];
    WikiPhZeroFacts(w);
    TailFreeConcat(w, "déjà]]");
  }

  lemma WikiPhZeroFacts(w: string)
    requires w == ['[', '['] + [STX, 'p', 'h', '0', 'p', 'h', ETX] + ['|']
    ensures |w| > 0 && !IsWordChar(w[|w| - 1]) && 'd' !in w && w[0] !in "déjà]]"
    ensures TailFree(w) && TailFree("déjà]]")
  {
  }

  lemma TailFreeConcat(a: string, b: string)
    requires TailFree(a) && TailFree(b)
    ensures TailFree(a + b)
  {
  }

  lemma DejaLabelFacts()
    ensures |"deja"| > 0 && IsWordChar("deja"[0]) && IsWordChar("deja"[|"deja"| - 1])
    ensures "deja"[0] !in "deja"[1..] && !IsWordChar("]]"[0]) && "deja"[0] !in "]]"
  {
  }

  /** In the protected text the label's `deja` is the only one, between
      a bar and a bracket, and becomes `déjà`. */
  lemma LabelRewritten()
    ensures Sub(WikiPh(0) + "deja]]", Cleaners.WordMatcher("deja", "déjà"))
      == WikiPh(0) + "déjà]]"
    ensures TailFree(WikiPh(0) + "déjà]]") && WikiPh(0)[0] !in "déjà]]"
  {
    LabelFacts();
    DejaLabelFacts();
    WordAfter(WikiPh(0), "deja", "déjà", "]]");
    assert WikiPh(0) + "deja" + "]]" == WikiPh(0) + "deja]]";
    assert WikiPh(0) + "déjà" + "]]" == WikiPh(0) + "déjà]]";
  }

  /** `[[route/123/fr/deja|deja]]`: the link's head is protected, its
      label is not, so only the label is rewritten. */
  lemma WikiLabelVector()
    ensures AutomaticModify(TestPairs(), "[[route/123/fr/deja|deja]]") == "[[route/123/fr/deja|déjà]]"
  {
    WikiFacts();
    WikiTextFacts();
    WikiHeadOnly("route", "123", "/fr/deja", "[[route/123/fr/deja|", "deja]]");
    LabelRewritten();
    FirstRuleOnly(WikiPh(0) + "deja]]", WikiPh(0) + "déjà]]");
    RestoreHead("[[route/123/fr/deja|", WikiPh(0), "déjà]]");
  }
}
