/** `campbot/processors/cleaners.py`, `OrthographicProcessor.modify`: before
    the modifiers of an orthographic processor run, markdown links, URLs,
    `www.` hosts, wiki-link heads and `:emoji:` codes are swapped for
    numbered placeholders, so that no spelling rule rewrites them; after
    the modifiers, every placeholder is swapped back. */
module Guard {
  import opened Wrappers
  import opened Text
  import opened LineRules
  import opened Processor

  /** STX ("start of text") opens a placeholder, ETX ("end of text") closes it. */
  const STX: char := '\U{2}'
  const ETX: char := '\U{3}'

  /** `STX + "ph{}ph" + ETX`, formatted with `n`. */
  function Ph(n: nat): string { [STX] + "ph" + NatToString(n) + "ph" + [ETX] }

  /** The wiki-link head's placeholder, `"[[" + STX + "ph{}ph" + ETX + "|"`. */
  function WikiPh(n: nat): string { "[[" + Ph(n) + "|" }

  /** Which of the two placeholder patterns a protection uses. */
  datatype Form = Plain | Wiki

  function Format(f: Form, n: nat): string
  {
    match f
    case Plain => Ph(n)
    case Wiki => WikiPh(n)
  }

  /** The `placeholders` dict in insertion order: pairs of the protected text
      and its placeholder. */
  type Entries = seq<(string, string)>

  /** Position of `key` among the dict's keys. */
  function IndexOf(es: Entries, key: string): (r: Option<nat>)
    ensures r.Some? ==> r.value < |es| && es[r.value].0 == key
    ensures r.None? ==> forall k :: 0 <= k < |es| ==> es[k].0 != key
  {
    if |es| == 0 then None
    else if es[|es| - 1].0 == key then Some(|es| - 1)
    else IndexOf(es[..|es| - 1], key)
  }

  /** The dict as the source keeps it: placeholder `k` is the pattern
      formatted with `k`, and no text is a key twice. */
  predicate WellFormed(es: Entries)
  {
    && (forall k :: 0 <= k < |es| ==> es[k].1 == Ph(k) || es[k].1 == WikiPh(k))
    && (forall j, k :: 0 <= j < k < |es| ==> es[j].0 != es[k].0)
  }

  /** `repl`: a text already in the dict gets its placeholder again; a new
      one gets the pattern formatted with the dict's size, and is added. */
  function Repl(es: Entries, key: string, f: Form): (r: (string, Entries))
    ensures IndexOf(es, key).Some? ==> r == (es[IndexOf(es, key).value].1, es)
    ensures IndexOf(es, key).None? ==> r == (Format(f, |es|), es + [(key, Format(f, |es|))])
  {
    match IndexOf(es, key)
    case Some(k) => (es[k].1, es)
    case None => (Format(f, |es|), es + [(key, Format(f, |es|))])
  }

  // ---------------------------------------------------------------------
  // The five patterns, as the end of the match starting at `i`

  type Finder = (string, nat) -> Option<nat>

  /** `[^ \n\)]` */
  predicate TargetChar(c: char) { c != ' ' && c != '\n' && c != ')' }

  /** `\]\([^ \n\)]+\)` at `k`: the end of the match. */
  function LinkClose(s: string, k: nat): Option<nat>
  {
    if k + 1 < |s| && s[k] == ']' && s[k + 1] == '(' then
      var r := Span(s, k + 2, TargetChar);
      if r > k + 2 && r < |s| && s[r] == ')' then Some(r + 1) else None
    else None
  }

  /** The greedy `.*` of the link pattern: the last `]` at or before `k`,
      after `i`, that closes a link. */
  function LastLinkClose(s: string, i: nat, k: nat): Option<nat>
    decreases k
  {
    if k <= i then None
    else if LinkClose(s, k).Some? then LinkClose(s, k)
    else LastLinkClose(s, i, k - 1)
  }

  /** `(?:\[.*\])\([^ \n\)]+\)`: a markdown link `[label](target)`. */
  function LinkAt(s: string, i: nat): Option<nat>
  {
    if i < |s| && s[i] == '[' then LastLinkClose(s, i, LineEnd(s, i) - 1) else None
  }

  /** `[^ )\n>]` */
  predicate UrlChar(c: char) { c != ' ' && c != ')' && c != '\n' && c != '>' }

  /** `https?://[^ )\n>]*` */
  function UrlAt(s: string, i: nat): Option<nat>
  {
    if StartsAt(s, i, "https://") then Some(Span(s, i + 8, UrlChar))
    else if StartsAt(s, i, "http://") then Some(Span(s, i + 7, UrlChar))
    else None
  }

  /** `[^ )\n>\]]` */
  predicate HostChar(c: char) { UrlChar(c) && c != ']' }

  /** `www\.[^ )\n>\]]*` */
  function WwwAt(s: string, i: nat): Option<nat>
  {
    if StartsAt(s, i, "www.") then Some(Span(s, i + 4, HostChar)) else None
  }

  predicate IsLowerAscii(c: char) { 'a' <= c <= 'z' }

  /** `[/a-z0-9\-#]` */
  predicate WikiTailChar(c: char) { c == '/' || IsLowerAscii(c) || IsDigit(c) || c == '-' || c == '#' }

  /** `\[\[[a-z]+/\d+[/a-z0-9\-#]*\|`: the head `[[type/id…|` of a wiki link. */
  function WikiAt(s: string, i: nat): Option<nat>
  {
    if StartsAt(s, i, "[[") then
      var a := Span(s, i + 2, IsLowerAscii);
      if a > i + 2 && a < |s| && s[a] == '/' then
        var d := Span(s, a + 1, IsDigit);
        var c := Span(s, d, WikiTailChar);
        if d > a + 1 && c < |s| && s[c] == '|' then Some(c + 1) else None
      else None
    else None
  }

  /** `:\w+:` */
  function EmojiAt(s: string, i: nat): Option<nat>
  {
    if i < |s| && s[i] == ':' then
      var w := Span(s, i + 1, IsWordChar);
      if w > i + 1 && w < |s| && s[w] == ':' then Some(w + 1) else None
    else None
  }

  function LinkFinder(): Finder { (s: string, i: nat) => LinkAt(s, i) }
  function UrlFinder(): Finder { (s: string, i: nat) => UrlAt(s, i) }
  function WwwFinder(): Finder { (s: string, i: nat) => WwwAt(s, i) }
  function WikiFinder(): Finder { (s: string, i: nat) => WikiAt(s, i) }
  function EmojiFinder(): Finder { (s: string, i: nat) => EmojiAt(s, i) }

  /** The match at `i` that `re.sub` replaces: a non-empty one. */
  predicate Hit(s: string, find: Finder, i: nat)
  {
    find(s, i).Some? && i < find(s, i).value <= |s|
  }

  // ---------------------------------------------------------------------
  // protect and restore

  /** `protect(pattern, ph, s)` from position `i`, with the dict `es`:
      `re.sub` scans left to right; each match is replaced by `repl`'s
      placeholder, and the dict grows as `repl` goes. */
  function ProtectFrom(s: string, find: Finder, f: Form, i: nat, es: Entries): (string, Entries)
    decreases |s| - i
  {
    if i >= |s| then ("", es)
    else if Hit(s, find, i) then
      var e := find(s, i).value;
      var (p, es1) := Repl(es, s[i..e], f);
      var (rest, es2) := ProtectFrom(s, find, f, e, es1);
      (p + rest, es2)
    else
      var (rest, es2) := ProtectFrom(s, find, f, i + 1, es);
      ([s[i]] + rest, es2)
  }

  /** One match of the protecting scan: its placeholder is emitted and the
      scan resumes at the match's end with the grown dict. */
  lemma HitStep(s: string, find: Finder, f: Form, i: nat, es: Entries, r: string, e: nat, p: string, es1: Entries)
    requires i < |s| && Hit(s, find, i) && e == find(s, i).value
    requires (p, es1) == Repl(es, s[i..e], f)
    ensures (r + p) + ProtectFrom(s, find, f, e, es1).0 == r + ProtectFrom(s, find, f, i, es).0
    ensures ProtectFrom(s, find, f, e, es1).1 == ProtectFrom(s, find, f, i, es).1
  {
    var rest := ProtectFrom(s, find, f, e, es1);
    assert ProtectFrom(s, find, f, i, es) == (p + rest.0, rest.1);
    assert (r + p) + rest.0 == r + (p + rest.0);
  }

  /** A position where no match starts is copied. */
  lemma MissStep(s: string, find: Finder, f: Form, i: nat, es: Entries, r: string)
    requires i < |s| && !Hit(s, find, i)
    ensures (r + [s[i]]) + ProtectFrom(s, find, f, i + 1, es).0 == r + ProtectFrom(s, find, f, i, es).0
    ensures ProtectFrom(s, find, f, i + 1, es).1 == ProtectFrom(s, find, f, i, es).1
  {
    var rest := ProtectFrom(s, find, f, i + 1, es);
    assert ProtectFrom(s, find, f, i, es) == ([s[i]] + rest.0, rest.1);
    assert (r + [s[i]]) + rest.0 == r + ([s[i]] + rest.0);
  }

  /** The five protections, in the source's order, from an empty dict. */
  function ProtectAll(md: string): (string, Entries)
  {
    var (t1, e1) := ProtectFrom(md, LinkFinder(), Plain, 0, []);
    var (t2, e2) := ProtectFrom(t1, UrlFinder(), Plain, 0, e1);
    var (t3, e3) := ProtectFrom(t2, WwwFinder(), Plain, 0, e2);
    var (t4, e4) := ProtectFrom(t3, WikiFinder(), Wiki, 0, e3);
    ProtectFrom(t4, EmojiFinder(), Plain, 0, e4)
  }

  /** `for url, placeholder in placeholders.items(): result =
      result.replace(placeholder, url)`, from entry `j` on. */
  function RestoreFrom(es: Entries, j: nat, t: string): string
    decreases |es| - j
  {
    if j >= |es| then t else RestoreFrom(es, j + 1, Replace(t, es[j].1, es[j].0))
  }

  function RestoreAll(es: Entries, t: string): string { RestoreFrom(es, 0, t) }

  /** `OrthographicProcessor.modify`, as written. */
  function OrthographicModify(ms: seq<Modifier>, md: string): string
  {
    var (t, es) := ProtectAll(md);
    RestoreAll(es, ApplyAll(ms, t))
  }

  /** The restoration with the newest placeholder first: entries `n - 1`
      down to `0`. A protected text may hold an older placeholder, which
      is then put back after it. */
  function RestoreBack(es: Entries, n: nat, t: string): string
    requires n <= |es|
  {
    if n == 0 then t else RestoreBack(es, n - 1, Replace(t, es[n - 1].1, es[n - 1].0))
  }

  /** `modify` with the newest-first restoration. */
  function OrthographicModifyFixed(ms: seq<Modifier>, md: string): string
  {
    var (t, es) := ProtectAll(md);
    RestoreBack(es, |es|, ApplyAll(ms, t))
  }

  // ---------------------------------------------------------------------
  // The dict stays well formed

  /** `repl` keeps the dict well formed, only ever appends, and the
      placeholder it returns is the one the dict holds for the text. */
  lemma ReplKeeps(es: Entries, key: string, f: Form)
    requires WellFormed(es)
    ensures WellFormed(Repl(es, key, f).1)
    ensures |es| <= |Repl(es, key, f).1| <= |es| + 1 && Repl(es, key, f).1[..|es|] == es
    ensures IndexOf(Repl(es, key, f).1, key).Some?
    ensures Repl(es, key, f).1[IndexOf(Repl(es, key, f).1, key).value] == (key, Repl(es, key, f).0)
  {
    var r := Repl(es, key, f);
    if IndexOf(es, key).None? {
      assert r.1[..|es|] == es;
      assert r.1[|es|] == (key, Format(f, |es|));
    }
  }

  /** A protection keeps the dict well formed and only appends to it; the
      placeholder of every text it adds is the pass's pattern formatted
      with the text's position in the dict. */
  lemma {:induction false} ProtectFromKeeps(s: string, find: Finder, f: Form, i: nat, es: Entries)
    requires WellFormed(es)
    ensures WellFormed(ProtectFrom(s, find, f, i, es).1)
    ensures |es| <= |ProtectFrom(s, find, f, i, es).1|
    ensures ProtectFrom(s, find, f, i, es).1[..|es|] == es
    ensures forall k :: |es| <= k < |ProtectFrom(s, find, f, i, es).1| ==>
              ProtectFrom(s, find, f, i, es).1[k].1 == Format(f, k)
    decreases |s| - i
  {
    if i < |s| {
      if Hit(s, find, i) {
        var e := find(s, i).value;
        var es1 := Repl(es, s[i..e], f).1;
        ReplKeeps(es, s[i..e], f);
        ProtectFromKeeps(s, find, f, e, es1);
        var es2 := ProtectFrom(s, find, f, e, es1).1;
        assert es2[..|es|] == es2[..|es1|][..|es|];
        if |es1| > |es| {
          assert es1[|es|] == es2[|es|];
        }
      } else {
        ProtectFromKeeps(s, find, f, i + 1, es);
      }
    }
  }

  /** Stretches without a match are copied as they are. */
  lemma {:induction false} ProtectCopy(s: string, find: Finder, f: Form, i: nat, q: nat, es: Entries)
    requires i <= q <= |s|
    requires forall y :: i <= y < q ==> !Hit(s, find, y)
    ensures ProtectFrom(s, find, f, i, es)
            == (s[i..q] + ProtectFrom(s, find, f, q, es).0, ProtectFrom(s, find, f, q, es).1)
    decreases q - i
  {
    if i < q {
      ProtectCopy(s, find, f, i + 1, q, es);
      var rest := ProtectFrom(s, find, f, i + 1, es);
      assert ProtectFrom(s, find, f, i, es) == ([s[i]] + rest.0, rest.1);
      var tail := ProtectFrom(s, find, f, q, es);
      assert s[i..q] == [s[i]] + s[i + 1..q];
      assert [s[i]] + (s[i + 1..q] + tail.0) == s[i..q] + tail.0;
    } else {
      assert s[i..q] + ProtectFrom(s, find, f, q, es).0 == ProtectFrom(s, find, f, q, es).0;
    }
  }

  /** The `placeholders` dict of one `modify` call, and the two steps that
      work on it. */
  class Placeholders {
    var entries: Entries

    constructor()
      ensures entries == []
    {
      entries := [];
    }

    /** `protect(pattern, ph, md)`: `re.sub` driving the `repl` callback,
        which fills the dict. */
    method Protect(find: Finder, f: Form, md: string) returns (r: string)
      modifies this
      ensures (r, entries) == ProtectFrom(md, find, f, 0, old(entries))
    {
      ghost var goal := ProtectFrom(md, find, f, 0, entries);
      r := "";
      var i := 0;
      while i < |md|
        invariant 0 <= i <= |md|
        invariant r + ProtectFrom(md, find, f, i, entries).0 == goal.0
        invariant ProtectFrom(md, find, f, i, entries).1 == goal.1
        decreases |md| - i
      {
        if Hit(md, find, i) {
          var e := find(md, i).value;
          var (p, es) := Repl(entries, md[i..e], f);
          HitStep(md, find, f, i, entries, r, e, p, es);
          r := r + p;
          entries := es;
          i := e;
        } else {
          MissStep(md, find, f, i, entries, r);
          r := r + [md[i]];
          i := i + 1;
        }
      }
      assert ProtectFrom(md, find, f, i, entries) == ("", entries);
      assert r + "" == r;
    }

    /** The restoring loop over `placeholders.items()`. */
    method Restore(md: string) returns (r: string)
      ensures r == RestoreAll(entries, md)
    {
      r := md;
      var j := 0;
      while j < |entries|
        invariant 0 <= j <= |entries|
        invariant RestoreFrom(entries, j, r) == RestoreAll(entries, md)
      {
        r := Replace(r, entries[j].1, entries[j].0);
        j := j + 1;
      }
    }

    /** The restoring loop, newest placeholder first. */
    method RestoreNewestFirst(md: string) returns (r: string)
      ensures r == RestoreBack(entries, |entries|, md)
    {
      r := md;
      var n := |entries|;
      while n > 0
        invariant 0 <= n <= |entries|
        invariant RestoreBack(entries, n, r) == RestoreBack(entries, |entries|, md)
      {
        r := Replace(r, entries[n - 1].1, entries[n - 1].0);
        n := n - 1;
      }
    }
  }

  /** `OrthographicProcessor.modify`: protect, run the modifiers, restore. */
  method GuardedModify(ms: seq<Modifier>, md: string) returns (result: string)
    ensures result == OrthographicModify(ms, md)
  {
    var ph := new Placeholders();
    var r := ph.Protect(LinkFinder(), Plain, md);
    r := ph.Protect(UrlFinder(), Plain, r);
    r := ph.Protect(WwwFinder(), Plain, r);
    r := ph.Protect(WikiFinder(), Wiki, r);
    r := ph.Protect(EmojiFinder(), Plain, r);
    r := Modify(ms, r);
    result := ph.Restore(r);
  }

  /** The same, restoring newest first. */
  method GuardedModifyFixed(ms: seq<Modifier>, md: string) returns (result: string)
    ensures result == OrthographicModifyFixed(ms, md)
  {
    var ph := new Placeholders();
    var r := ph.Protect(LinkFinder(), Plain, md);
    r := ph.Protect(UrlFinder(), Plain, r);
    r := ph.Protect(WwwFinder(), Plain, r);
    r := ph.Protect(WikiFinder(), Wiki, r);
    r := ph.Protect(EmojiFinder(), Plain, r);
    r := Modify(ms, r);
    result := ph.RestoreNewestFirst(r);
  }
}
