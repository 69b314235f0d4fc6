/** What the two typed patterns of `InternalLinkCorrector` recognise:
    every head of the documented shape is matched and rewritten, and every
    match is such a head. Heads are given piece by piece with `StartsAt`,
    so that each proof only looks at the pieces it needs. */
module LinkShapes {
  import opened Wrappers
  import opened Text
  import opened Rewrite
  import opened InternalLinks

  /** A text holding `x + y` at `i` holds `x` at `i` and `y` after it. */
  lemma SliceParts(s: string, i: nat, x: string, y: string)
    requires i + |x + y| <= |s| && s[i..i + |x + y|] == x + y
    ensures s[i..i + |x|] == x && s[i + |x|..i + |x| + |y|] == y
  {
    assert s[i..i + |x|] == s[i..i + |x + y|][..|x|];
    assert s[i + |x|..i + |x| + |y|] == s[i..i + |x + y|][|x|..];
  }

  lemma StartsParts(s: string, i: nat, x: string, y: string)
    requires StartsAt(s, i, x + y)
    ensures StartsAt(s, i, x) && StartsAt(s, i + |x|, y)
  {
    StartsAtSlice(s, i, x + y);
    SliceParts(s, i, x, y);
    StartsAtSlice(s, i, x);
    StartsAtSlice(s, i + |x|, y);
  }

  // ---------------------------------------------------------------------
  // The typed part `(types)/(\d+)([\w\-/#]*)\|`

  /** The typed part of a head: the type, `/`, the digits, the rest, `|`. */
  function TypedTail(k: Kind, ds: string, rest: string): string { Name(k) + "/" + ds + rest + "|" }

  /** The rewritten head: `[[`, the current type name, `/`, the digits,
      the rest, `|`. */
  function Rewritten(k: Kind, ds: string, rest: string): string { "[[" + Current(k) + "/" + ds + rest + "|" }

  predicate AfterText(rest: string) { forall j :: 0 <= j < |rest| ==> AfterChar(rest[j]) }

  /** The digits and the rest read as one run up to the `|`. */
  lemma TailAtParts(s: string, q: nat, ds: string, rest: string)
    requires AllDigits(ds) && AfterText(rest) && StartsAt(s, q, ds + rest + "|")
    ensures TailAt(s, q) == Some(q + |ds| + |rest|)
    ensures s[q..q + |ds| + |rest|] == ds + rest
  {
    var w := ds + rest + "|";
    var e := q + |ds| + |rest|;
    StartsAtSlice(s, q, w);
    assert forall j :: q <= j < q + |w| ==> s[j] == w[j - q] by {
      assert forall j :: q <= j < q + |w| ==> s[q..q + |w|][j - q] == s[j];
    }
    forall j | q <= j < q + |ds| ensures IsDigit(s[j]) {
      assert w[j - q] == ds[j - q];
    }
    forall j | q + |ds| <= j < e ensures AfterChar(s[j]) {
      assert w[j - q] == rest[j - q - |ds|];
    }
    assert s[e] == '|' by { assert w[e - q] == '|'; }
    RunPast(s, q, q + |ds|, IsDigit);
    var d := Run(s, q, IsDigit);
    RunChars(s, q, IsDigit);
    assert d <= e;
    RunAt(s, d, e, AfterChar);
    assert s[q..e] == w[..|w| - 1];
    assert w[..|w| - 1] == ds + rest;
  }

  /** The type and its slash. */
  lemma TypeHolds(s: string, p: nat, k: Kind)
    requires StartsAt(s, p, Name(k) + "/")
    ensures KindAt(s, p) == Some(k)
  {
    StartsParts(s, p, Name(k), "/");
    KindAtFits(s, p, k);
  }

  lemma TailRegroup(t: string, ds: string, rest: string)
    ensures t + "/" + ds + rest + "|" == (t + "/") + (ds + rest + "|")
  {
  }

  lemma OutRegroup(c: string, ds: string, rest: string)
    ensures "[[" + c + "/" + (ds + rest) + "|" == "[[" + c + "/" + ds + rest + "|"
  {
  }

  /** Every typed part of the recognised form is matched and rewritten. */
  lemma TypedTailHolds(s: string, p: nat, k: Kind, ds: string, rest: string)
    requires AllDigits(ds) && AfterText(rest) && StartsAt(s, p, TypedTail(k, ds, rest))
    ensures TypedAt(s, p) == Some(Match(p + |TypedTail(k, ds, rest)|, Rewritten(k, ds, rest)))
  {
    var q := p + |Name(k)| + 1;
    TailRegroup(Name(k), ds, rest);
    StartsParts(s, p, Name(k) + "/", ds + rest + "|");
    TypeHolds(s, p, k);
    assert p + |Name(k) + "/"| == q;
    TailAtParts(s, q, ds, rest);
    TypedTailMatch(s, p, k, q, ds, rest);
  }

  /** The match once the type and the tail after it are read. */
  lemma TypedTailMatch(s: string, p: nat, k: Kind, q: nat, ds: string, rest: string)
    requires q == p + |Name(k)| + 1 && KindAt(s, p) == Some(k)
    requires TailAt(s, q) == Some(q + |ds| + |rest|) && s[q..q + |ds| + |rest|] == ds + rest
    ensures TypedAt(s, p) == Some(Match(p + |TypedTail(k, ds, rest)|, Rewritten(k, ds, rest)))
  {
    TypedAtParts(s, p, k, q + |ds| + |rest|, ds + rest);
    OutRegroup(Current(k), ds, rest);
  }

  /** The match from the type and the tail read at `p`. */
  lemma TypedAtParts(s: string, p: nat, k: Kind, e: nat, w: string)
    requires KindAt(s, p) == Some(k) && TailAt(s, p + |Name(k)| + 1) == Some(e) && s[p + |Name(k)| + 1..e] == w
    ensures TypedAt(s, p) == Some(Match(e + 1, "[[" + Current(k) + "/" + w + "|"))
  {
    TypedAtOf(s, p, k);
    TypedFromAt(s, p + |Name(k)| + 1, k, e, w);
  }

  lemma TypedAtOf(s: string, p: nat, k: Kind)
    requires KindAt(s, p) == Some(k)
    ensures TypedAt(s, p) == TypedFrom(s, p + |Name(k)| + 1, k)
  {
  }

  lemma TypedFromAt(s: string, q: nat, k: Kind, e: nat, w: string)
    requires TailAt(s, q) == Some(e) && s[q..e] == w
    ensures TypedFrom(s, q, k) == Some(Match(e + 1, "[[" + Current(k) + "/" + w + "|"))
  {
  }

  /** What the tail read at `q` holds: digits, then the rest. */
  lemma TailText(s: string, q: nat)
    requires TailAt(s, q).Some?
    ensures q < Run(s, q, IsDigit) <= TailAt(s, q).value
    ensures AllDigits(s[q..Run(s, q, IsDigit)]) && AfterText(s[Run(s, q, IsDigit)..TailAt(s, q).value])
    ensures s[q..TailAt(s, q).value] == s[q..Run(s, q, IsDigit)] + s[Run(s, q, IsDigit)..TailAt(s, q).value]
  {
    var d := Run(s, q, IsDigit);
    var e := TailAt(s, q).value;
    assert e == Run(s, d, AfterChar);
    RunChars(s, q, IsDigit);
    RunChars(s, d, AfterChar);
    assert forall j :: 0 <= j < d - q ==> s[q..d][j] == s[q + j];
    assert forall j :: 0 <= j < e - d ==> s[d..e][j] == s[d + j];
  }

  /** Text cut at the slash, the end of the digits and the `|`. */
  lemma TailShape(s: string, p: nat, t: string, d: nat, e: nat)
    requires p + |t| + 1 <= d <= e < |s|
    requires StartsAt(s, p, t) && s[p + |t|] == '/' && s[e] == '|'
    ensures s[p..e + 1] == t + "/" + s[p + |t| + 1..d] + s[d..e] + "|"
  {
    StartsAtSlice(s, p, t);
    var q := p + |t| + 1;
    assert s[p..q] == s[p..p + |t|] + [s[p + |t|]];
    assert s[p..d] == s[p..q] + s[q..d];
    assert s[p..e] == s[p..d] + s[d..e];
    assert s[p..e + 1] == s[p..e] + [s[e]];
  }

  /** And every match of the typed part is of that form. */
  lemma TypedAtShape(s: string, p: nat)
    requires TypedAt(s, p).Some?
    ensures exists k, ds, rest :: (AllDigits(ds) && AfterText(rest)
      && s[p..TypedAt(s, p).value.end] == TypedTail(k, ds, rest)
      && TypedAt(s, p).value.out == Rewritten(k, ds, rest))
  {
    var k := KindAt(s, p).value;
    KindAtSound(s, p);
    TypedAtOf(s, p, k);
    var q := p + |Name(k)| + 1;
    TailText(s, q);
    var d := Run(s, q, IsDigit);
    var e := TailAt(s, q).value;
    TailShape(s, p, Name(k), d, e);
    OutRegroup(Current(k), s[q..d], s[d..e]);
    assert s[p..TypedAt(s, p).value.end] == TypedTail(k, s[q..d], s[d..e]);
  }

  // ---------------------------------------------------------------------
  // fixer_slash_internal: `\[\[ */` then the typed part

  /** `[[` and `n` spaces, then a character that is not a space. */
  lemma OpenSpaces(s: string, i: nat, n: nat)
    requires StartsAt(s, i, "[[" + Spaces(n))
    requires i + 2 + n < |s| && s[i + 2 + n] != ' '
    ensures LinkOpens(s, i) && Run(s, i + 2, SpaceChar) == i + 2 + n
  {
    var x := "[[" + Spaces(n);
    StartsAtSlice(s, i, x);
    assert forall j :: i <= j < i + |x| ==> s[j] == x[j - i] by {
      assert forall j :: i <= j < i + |x| ==> s[i..i + |x|][j - i] == s[j];
    }
    forall j | i + 2 <= j < i + 2 + n ensures SpaceChar(s[j]) {
      assert x[j - i] == Spaces(n)[j - i - 2];
    }
    assert s[i] == '[' && s[i + 1] == '[' by { assert x[0] == '[' && x[1] == '['; }
    RunAt(s, i + 2, i + 2 + n, SpaceChar);
  }

  /** The spaces are what the run of spaces read. */
  lemma SpacesRead(s: string, i: nat)
    requires LinkOpens(s, i)
    ensures s[i..Run(s, i + 2, SpaceChar)] == "[[" + Spaces(Run(s, i + 2, SpaceChar) - i - 2)
  {
    var a := Run(s, i + 2, SpaceChar);
    RunChars(s, i + 2, SpaceChar);
    assert s[i + 2..a] == Spaces(a - i - 2);
    assert s[i..a] == s[i..i + 2] + s[i + 2..a];
  }

  /** A head `fixer_slash_internal` recognises: `[[`, `n` spaces, `/` and
      the typed part. */
  function SlashHead(n: nat, k: Kind, ds: string, rest: string): (r: string)
    ensures |r| == n + 3 + |TypedTail(k, ds, rest)|
  {
    "[[" + Spaces(n) + "/" + TypedTail(k, ds, rest)
  }

  /** The part of the head before the typed part. */
  lemma SlashSiteHead(s: string, i: nat, n: nat)
    requires StartsAt(s, i, "[[" + Spaces(n) + "/")
    ensures SlashSite(s, i) == Some(i + n + 3)
  {
    StartsParts(s, i, "[[" + Spaces(n), "/");
    OpenSpaces(s, i, n);
  }

  /** `fixer_slash_internal` matches every such head and rewrites it to
      `[[type/id rest|` with the type name made current. */
  lemma SlashInternalAtHead(s: string, i: nat, n: nat, k: Kind, ds: string, rest: string)
    requires AllDigits(ds) && AfterText(rest) && StartsAt(s, i, SlashHead(n, k, ds, rest))
    ensures SlashInternalAt(s, i) == Some(Match(i + |SlashHead(n, k, ds, rest)|, Rewritten(k, ds, rest)))
  {
    StartsParts(s, i, "[[" + Spaces(n) + "/", TypedTail(k, ds, rest));
    SlashSiteHead(s, i, n);
    TypedTailHolds(s, i + n + 3, k, ds, rest);
    SlashJoin(s, i, i + n + 3, Match(i + n + 3 + |TypedTail(k, ds, rest)|, Rewritten(k, ds, rest)));
  }

  lemma SlashJoin(s: string, i: nat, p: nat, m: Match)
    requires SlashSite(s, i) == Some(p) && TypedAt(s, p) == Some(m)
    ensures SlashInternalAt(s, i) == Some(m)
  {
  }

  /** What precedes the typed part of a match. */
  lemma SlashSiteShape(s: string, i: nat)
    requires SlashSite(s, i).Some?
    ensures i + 3 <= SlashSite(s, i).value
    ensures s[i..SlashSite(s, i).value] == "[[" + Spaces(SlashSite(s, i).value - i - 3) + "/"
  {
    var a := Run(s, i + 2, SpaceChar);
    SpacesRead(s, i);
    assert s[i..a + 1] == s[i..a] + [s[a]];
  }

  lemma HeadJoin(s: string, i: nat, p: nat, e: nat, x: string, y: string)
    requires i <= p <= e <= |s| && s[i..p] == x && s[p..e] == y
    ensures s[i..e] == x + y
  {
    assert s[i..e] == s[i..p] + s[p..e];
  }

  /** And every match of `fixer_slash_internal` is such a head. */
  lemma SlashInternalAtShape(s: string, i: nat)
    requires SlashInternalAt(s, i).Some?
    ensures exists n: nat, k, ds, rest :: (AllDigits(ds) && AfterText(rest)
      && s[i..SlashInternalAt(s, i).value.end] == SlashHead(n, k, ds, rest)
      && SlashInternalAt(s, i).value.out == Rewritten(k, ds, rest))
  {
    var p := SlashSite(s, i).value;
    SlashSiteShape(s, i);
    var m := TypedAt(s, p).value;
    TypedAtShape(s, p);
    var k, ds, rest :| AllDigits(ds) && AfterText(rest)
      && s[p..m.end] == TypedTail(k, ds, rest) && m.out == Rewritten(k, ds, rest);
    HeadJoin(s, i, p, m.end, "[[" + Spaces(p - i - 3) + "/", TypedTail(k, ds, rest));
    assert s[i..m.end] == SlashHead(p - i - 3, k, ds, rest);
  }

  // ---------------------------------------------------------------------
  // fixer_false_internal: `\[\[ *https?://www.camptocamp.org/` then the
  // typed part

  /** The host, read from the text, with its leading colon. */
  lemma HostHolds(s: string, b: nat, c1: char, c2: char)
    requires c1 != '\n' && c2 != '\n' && StartsAt(s, b, Host(c1, c2))
    ensures HostAt(s, b) && s[b] == ':'
  {
    var tail := [c1] + ("camptocamp" + ([c2] + "org/"));
    assert Host(c1, c2) == "://www" + tail;
    StartsParts(s, b, "://www", tail);
    StartsParts(s, b + 6, [c1], "camptocamp" + ([c2] + "org/"));
    StartsParts(s, b + 7, "camptocamp", [c2] + "org/");
    StartsParts(s, b + 17, [c2], "org/");
  }

  /** An `s` after `http` at `a` is read exactly when it is there. */
  lemma SecureHolds(s: string, a: nat, secure: bool)
    requires StartsAt(s, a + 4, if secure then "s" else "")
    requires a + 4 + (if secure then 1 else 0) < |s| && s[a + 4 + (if secure then 1 else 0)] == ':'
    ensures (if a + 4 < |s| && s[a + 4] == 's' then a + 5 else a + 4) == a + 4 + (if secure then 1 else 0)
  {
  }

  /** The text before the typed part of a head `fixer_false_internal`
      recognises: `[[`, `n` spaces, `http` or `https`, and the host with
      `c1` and `c2` for its dots. */
  function FalsePrefix(n: nat, secure: bool, c1: char, c2: char): (r: string)
    ensures |r| == n + 28 + (if secure then 1 else 0)
  {
    "[[" + Spaces(n) + "http" + (if secure then "s" else "") + Host(c1, c2)
  }

  /** A head `fixer_false_internal` recognises: the prefix, then the typed
      part. */
  function FalseHead(n: nat, secure: bool, c1: char, c2: char, k: Kind, ds: string, rest: string): (r: string)
    ensures |r| == n + 28 + (if secure then 1 else 0) + |TypedTail(k, ds, rest)|
  {
    FalsePrefix(n, secure, c1, c2) + TypedTail(k, ds, rest)
  }

  /** The part of a head before the host. */
  lemma FalseOpenHolds(s: string, i: nat, n: nat, secure: bool)
    requires StartsAt(s, i, "[[" + Spaces(n) + "http" + (if secure then "s" else ""))
    ensures LinkOpens(s, i) && Run(s, i + 2, SpaceChar) == i + 2 + n && StartsAt(s, i + 2 + n, "http")
    ensures StartsAt(s, i + 2 + n + 4, if secure then "s" else "")
  {
    var sl := if secure then "s" else "";
    StartsParts(s, i, "[[" + Spaces(n) + "http", sl);
    StartsParts(s, i, "[[" + Spaces(n), "http");
    OpenSpaces(s, i, n);
  }

  /** The prefix is read up to the typed part. */
  lemma FalseSiteHead(s: string, i: nat, n: nat, secure: bool, c1: char, c2: char)
    requires c1 != '\n' && c2 != '\n' && StartsAt(s, i, FalsePrefix(n, secure, c1, c2))
    ensures FalseSite(s, i) == Some(i + |FalsePrefix(n, secure, c1, c2)|)
  {
    var sl := if secure then "s" else "";
    var b := i + 2 + n + 4 + |sl|;
    StartsParts(s, i, "[[" + Spaces(n) + "http" + sl, Host(c1, c2));
    FalseOpenHolds(s, i, n, secure);
    HostHolds(s, b, c1, c2);
    SecureHolds(s, i + 2 + n, secure);
    FalseSiteParts(s, i, i + 2 + n, b);
  }

  lemma FalseSiteParts(s: string, i: nat, a: nat, b: nat)
    requires LinkOpens(s, i) && Run(s, i + 2, SpaceChar) == a && StartsAt(s, a, "http")
    requires (if a + 4 < |s| && s[a + 4] == 's' then a + 5 else a + 4) == b && HostAt(s, b)
    ensures FalseSite(s, i) == Some(b + 22)
  {
  }

  /** `fixer_false_internal` matches every such head and rewrites it to
      `[[type/id rest|` with the type name made current. */
  lemma FalseInternalAtHead(s: string, i: nat, n: nat, secure: bool, c1: char, c2: char, k: Kind, ds: string, rest: string)
    requires c1 != '\n' && c2 != '\n' && AllDigits(ds) && AfterText(rest)
    requires StartsAt(s, i, FalseHead(n, secure, c1, c2, k, ds, rest))
    ensures FalseInternalAt(s, i) == Some(Match(i + |FalseHead(n, secure, c1, c2, k, ds, rest)|, Rewritten(k, ds, rest)))
  {
    StartsParts(s, i, FalsePrefix(n, secure, c1, c2), TypedTail(k, ds, rest));
    FalseSiteHead(s, i, n, secure, c1, c2);
    TypedTailHolds(s, i + |FalsePrefix(n, secure, c1, c2)|, k, ds, rest);
    FalseJoin(s, i, i + |FalsePrefix(n, secure, c1, c2)|,
      Match(i + |FalsePrefix(n, secure, c1, c2)| + |TypedTail(k, ds, rest)|, Rewritten(k, ds, rest)));
  }

  lemma FalseJoin(s: string, i: nat, p: nat, m: Match)
    requires FalseSite(s, i) == Some(p) && TypedAt(s, p) == Some(m)
    ensures FalseInternalAt(s, i) == Some(m)
  {
  }
}
