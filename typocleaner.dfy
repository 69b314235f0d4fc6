/** `get_typo_cleaner(bbcode_tag, markdown_tag)` of
    `campbot/processors/bbcode.py`: sixteen rules that first tidy the
    spacing around `[url]`, `[tag]` and `[/tag]`, then turn a `[tag]…[/tag]`
    pair on one to six lines into the markdown emphasis `md…md`. The
    `BBCodeRemover` runs it for `b`/`**` and for `i`/`*`.

    Each rule is a matcher for `Rewrite.Sub`. The patterns are
    case-insensitive; a lazy group `(…*?)` is read as "the first end at
    which the rest of the pattern matches", which is what Python's
    backtracking finds for these patterns. */
module TypoCleaner {
  import opened Wrappers
  import opened Text
  import opened Rewrite
  import opened Processor
  import opened Tags

  // ---------------------------------------------------------------------
  // Tags, classes and literals

  function Open(tag: string): string { "[" + tag + "]" }

  function Close(tag: string): string { "[/" + tag + "]" }

  /** `[^\n\r\*\`]`: what may stand between a pair. */
  predicate Inline(c: char) { c != '\n' && c != '\r' && c != '*' && c != '`' }

  /** `.`: anything but a newline. */
  predicate NotNewline(c: char) { c != '\n' }

  // ---------------------------------------------------------------------
  // Lazy groups

  /** `\[/tag\]`, then ` *` and `after` when `after` is not empty: where
      this rest of a pattern ends when it starts at `e`. */
  function CloseAt(tag: string, after: string, s: string, e: nat): (r: Option<nat>)
    ensures r.Some? ==> e < r.value <= |s|
  {
    if !At(s, e, Close(tag)) then None
    else if after == "" then Some(e + |Close(tag)|)
    else
      var c := CharRun(s, e + |Close(tag)|, ' ');
      if At(s, c, after) then Some(c + |after|) else None
  }

  /** A lazy group that may end anywhere in `[lo, hi]`, followed by
      `CloseAt`: the first end for which the rest matches, with where the
      rest ends. */
  function Lazy(tag: string, after: string, s: string, lo: nat, hi: nat): (r: Option<(nat, nat)>)
    ensures r.Some? ==> lo <= r.value.0 <= hi && CloseAt(tag, after, s, r.value.0) == Some(r.value.1)
    decreases hi + 1 - lo
  {
    if lo > hi then None
    else
      var c := CloseAt(tag, after, s, lo);
      if c.Some? then Some((lo, c.value)) else Lazy(tag, after, s, lo + 1, hi)
  }

  /** The group is lazy: no earlier position of the range closes it, and
      when there is none, no position of the range closes it at all. */
  lemma {:induction false} LazyFirst(tag: string, after: string, s: string, lo: nat, hi: nat)
    ensures var r := Lazy(tag, after, s, lo, hi);
      (r.Some? ==> forall e :: lo <= e < r.value.0 ==> CloseAt(tag, after, s, e).None?) &&
      (r.None? ==> forall e :: lo <= e <= hi ==> CloseAt(tag, after, s, e).None?)
    decreases hi + 1 - lo
  {
    if lo <= hi && CloseAt(tag, after, s, lo).None? {
      LazyFirst(tag, after, s, lo + 1, hi);
    }
  }

  /** The group ends at the first `e` of the range after which the rest
      matches. */
  lemma {:induction false} LazyAt(tag: string, after: string, s: string, lo: nat, hi: nat, e: nat)
    requires lo <= e <= hi && CloseAt(tag, after, s, e).Some?
    requires forall k :: lo <= k < e ==> CloseAt(tag, after, s, k).None?
    ensures Lazy(tag, after, s, lo, hi) == Some((e, CloseAt(tag, after, s, e).value))
    decreases e - lo
  {
    if lo < e {
      LazyAt(tag, after, s, lo + 1, hi, e);
    }
  }

  // ---------------------------------------------------------------------
  // The sixteen rules, in the source's order

  /** `\[ *url *\]` becomes `[url]`. */
  function UrlTag(s: string, i: nat): Option<Match>
  {
    if i < |s| && s[i] == '[' then
      var a := CharRun(s, i + 1, ' ');
      var b := CharRun(s, a + 3, ' ');
      if At(s, a, "url") && b < |s| && s[b] == ']' then Some(Match(b + 1, "[url]")) else None
    else None
  }

  /** `\[ *url *= *` becomes `[url=`. */
  function UrlEquals(s: string, i: nat): Option<Match>
  {
    if i < |s| && s[i] == '[' then
      var a := CharRun(s, i + 1, ' ');
      var b := CharRun(s, a + 3, ' ');
      if At(s, a, "url") && b < |s| && s[b] == '=' then Some(Match(CharRun(s, b + 1, ' '), "[url=")) else None
    else None
  }

  /** An empty pair `[tag][/tag]` is deleted. */
  function EmptyPair(tag: string, s: string, i: nat): Option<Match>
  {
    if At(s, i, Open(tag) + Close(tag)) then Some(Match(i + |Open(tag) + Close(tag)|, "")) else None
  }

  /** `\n *\[tag\] *` becomes `\n[tag]`. */
  function LineOpen(tag: string, s: string, i: nat): Option<Match>
  {
    if i < |s| && s[i] == '\n' then
      var a := CharRun(s, i + 1, ' ');
      if At(s, a, Open(tag)) then Some(Match(CharRun(s, a + |Open(tag)|, ' '), "\n" + Open(tag))) else None
    else None
  }

  /** `\[tag\] +` becomes ` [tag]`. */
  function OpenSpaces(tag: string, s: string, i: nat): Option<Match>
  {
    if At(s, i, Open(tag)) then
      var b := CharRun(s, i + |Open(tag)|, ' ');
      if b > i + |Open(tag)| then Some(Match(b, " " + Open(tag))) else None
    else None
  }

  /** ` +\[/tag\]` becomes `[/tag] `. */
  function SpacesClose(tag: string, s: string, i: nat): Option<Match>
  {
    if i < |s| && s[i] == ' ' then
      var a := CharRun(s, i, ' ');
      if At(s, a, Close(tag)) then Some(Match(a + |Close(tag)|, Close(tag) + " ")) else None
    else None
  }

  /** `\r\n\[/tag\]` becomes `[/tag]\r\n`. */
  function CrlfClose(tag: string, s: string, i: nat): Option<Match>
  {
    if i + 1 < |s| && s[i] == '\r' && s[i + 1] == '\n' && At(s, i + 2, Close(tag)) then
      Some(Match(i + 2 + |Close(tag)|, Close(tag) + "\r\n"))
    else None
  }

  /** `\[tag\] *\r\n([^\*\#]?)` becomes `\r\n[tag]\1`: the opening tag
      moves after the line break, with the character that follows when it
      is neither `*` nor `#`. */
  function OpenCrlf(tag: string, s: string, i: nat): Option<Match>
  {
    if At(s, i, Open(tag)) then
      var a := CharRun(s, i + |Open(tag)|, ' ');
      if a + 1 < |s| && s[a] == '\r' && s[a + 1] == '\n' then
        var g := if a + 2 < |s| && s[a + 2] != '*' && s[a + 2] != '#' then 1 else 0;
        Some(Match(a + 2 + g, "\r\n" + Open(tag) + s[a + 2..a + 2 + g]))
      else None
    else None
  }

  /** `\[center] *\[tag\](…*?)\[/tag\] *\[/center]` becomes
      `md[center]\1[/center]md`. */
  function CenterPair(tag: string, md: string, s: string, i: nat): Option<Match>
  {
    if At(s, i, "[center]") then
      var a := CharRun(s, i + 8, ' ');
      if At(s, a, Open(tag)) then
        var g := a + |Open(tag)|;
        match Lazy(tag, "[/center]", s, g, Run(s, g, Inline))
        case None => None
        case Some((e, end)) => Some(Match(end, md + "[center]" + s[g..e] + "[/center]" + md))
      else None
    else None
  }

  /** What follows the address in `\[url=(.*?)] *\[tag\](…*?)\[/tag\] *\[/url]`,
      from `e`: where the group inside the pair starts and ends, and where
      the match ends. */
  function UrlRest(tag: string, s: string, e: nat): (r: Option<(nat, nat, nat)>)
    ensures r.Some? ==> e < r.value.0 <= r.value.1 < r.value.2 <= |s|
  {
    if e < |s| && s[e] == ']' then
      var a := CharRun(s, e + 1, ' ');
      if At(s, a, Open(tag)) then
        var g := a + |Open(tag)|;
        match Lazy(tag, "[/url]", s, g, Run(s, g, Inline))
        case None => None
        case Some((x, end)) => Some((g, x, end))
      else None
    else None
  }

  /** The lazy address group of the `[url=…]` rule: its first end in
      `[lo, hi]` after which `UrlRest` matches. */
  function UrlLazy(tag: string, s: string, lo: nat, hi: nat): (r: Option<(nat, (nat, nat, nat))>)
    ensures r.Some? ==> lo <= r.value.0 <= hi && UrlRest(tag, s, r.value.0) == Some(r.value.1)
    ensures r.None? ==> forall e :: lo <= e <= hi ==> UrlRest(tag, s, e).None?
    decreases hi + 1 - lo
  {
    if lo > hi then None
    else
      var r := UrlRest(tag, s, lo);
      if r.Some? then Some((lo, r.value)) else UrlLazy(tag, s, lo + 1, hi)
  }

  /** `\[url=(.*?)] *\[tag\](…*?)\[/tag\] *\[/url]` becomes
      `md[url=\1]\2[/url]md`. */
  function UrlPair(tag: string, md: string, s: string, i: nat): Option<Match>
  {
    if At(s, i, "[url=") then
      match UrlLazy(tag, s, i + 5, Run(s, i + 5, NotNewline))
      case None => None
      case Some((e, (g, x, end))) => Some(Match(end, md + "[url=" + s[i + 5..e] + "]" + s[g..x] + "[/url]" + md))
    else None
  }

  /** `\[tag\]([^\n\r\*\`]*?)\[/tag\]` becomes `md\1md`. */
  function Single(tag: string, md: string, s: string, i: nat): Option<Match>
  {
    if At(s, i, Open(tag)) then
      var g := i + |Open(tag)|;
      match Lazy(tag, "", s, g, Run(s, g, Inline))
      case None => None
      case Some((e, end)) => Some(Match(end, md + s[g..e] + md))
    else None
  }

  /** `\r?\n` at `e`: where the next line starts. */
  function Break(s: string, e: nat): (r: Option<nat>)
    ensures r.Some? ==> e < r.value <= |s|
  {
    if e < |s| && s[e] == '\n' then Some(e + 1)
    else if e + 1 < |s| && s[e] == '\r' && s[e + 1] == '\n' then Some(e + 2)
    else None
  }

  /** `([^\n\r\*\`]+?)\r?\n` taken `more` times, then `([^\n\r\*\`]+?)\[/tag\]`,
      from `p`: the groups, one per line, and where the match ends. */
  function Block(tag: string, s: string, p: nat, more: nat): (r: Option<(seq<string>, nat)>)
    requires p <= |s|
    ensures r.Some? ==> |r.value.0| == more + 1 && p < r.value.1 <= |s|
    decreases more
  {
    var e := Run(s, p, Inline);
    if more == 0 then
      match Lazy(tag, "", s, p + 1, e)
      case None => None
      case Some((g, end)) => Some(([s[p..g]], end))
    else if e > p && Break(s, e).Some? then
      match Block(tag, s, Break(s, e).value, more - 1)
      case None => None
      case Some((ls, end)) => Some(([s[p..e]] + ls, end))
    else None
  }

  /** The first `keep` lines, or all of them when there are fewer. */
  function Kept(ls: seq<string>, keep: nat): seq<string>
  {
    if keep < |ls| then ls[..keep] else ls
  }

  /** A pair around `more + 1` lines becomes `md` + the lines + `md`; of the
      lines only the first `keep` are written out. */
  function MultiLine(tag: string, md: string, more: nat, keep: nat, s: string, i: nat): Option<Match>
  {
    if At(s, i, Open(tag)) then
      match Block(tag, s, i + |Open(tag)|, more)
      case None => None
      case Some((ls, end)) => Some(Match(end, md + Lines(Kept(ls, keep)) + md))
    else None
  }

  function MultiLineRule(tag: string, md: string, more: nat, keep: nat): Matcher
  {
    (s: string, i: nat) => MultiLine(tag, md, more, keep, s, i)
  }

  function SingleRule(tag: string, md: string): Matcher
  {
    (s: string, i: nat) => Single(tag, md, s, i)
  }

  /** The rules as the source lists them: the 4-, 5- and 6-line rules write
      out only their first three groups. */
  function Matchers(tag: string, md: string): seq<Matcher>
  {
    [ (s: string, i: nat) => UrlTag(s, i),
      (s: string, i: nat) => UrlEquals(s, i),
      (s: string, i: nat) => EmptyPair(tag, s, i),
      (s: string, i: nat) => LineOpen(tag, s, i),
      (s: string, i: nat) => OpenSpaces(tag, s, i),
      (s: string, i: nat) => SpacesClose(tag, s, i),
      (s: string, i: nat) => CrlfClose(tag, s, i),
      (s: string, i: nat) => OpenCrlf(tag, s, i),
      (s: string, i: nat) => CenterPair(tag, md, s, i),
      (s: string, i: nat) => UrlPair(tag, md, s, i),
      SingleRule(tag, md),
      MultiLineRule(tag, md, 1, 2),
      MultiLineRule(tag, md, 2, 3),
      MultiLineRule(tag, md, 3, 3),
      MultiLineRule(tag, md, 4, 3),
      MultiLineRule(tag, md, 5, 3) ]
  }

  /** The rules as intended: every multi-line rule writes out all its lines. */
  function IntendedMatchers(tag: string, md: string): (r: seq<Matcher>)
    ensures |r| == 16
  {
    Matchers(tag, md)[..13] +
    [ MultiLineRule(tag, md, 3, 4),
      MultiLineRule(tag, md, 4, 5),
      MultiLineRule(tag, md, 5, 6) ]
  }

  /** The converters of the typo cleaner for `tag` and its markdown `md`,
      as the source lists them. */
  function Rules(tag: string, md: string): seq<Modifier> { Converters(Matchers(tag, md)) }

  /** The same converters with the corrected multi-line rules. */
  function IntendedRules(tag: string, md: string): seq<Modifier> { Converters(IntendedMatchers(tag, md)) }

  /** The cleaner returned by `get_typo_cleaner`: the converters applied in
      turn. */
  method TypoClean(tag: string, md: string, markdown: string) returns (result: string)
    ensures result == ApplyAll(Rules(tag, md), markdown)
  {
    var converters := Rules(tag, md);
    result := markdown;
    for k := 0 to |converters|
      invariant ApplyAll(converters, markdown) == ApplyAll(converters[k..], result)
    {
      assert converters[k..][1..] == converters[k + 1..];
      result := converters[k](result);
    }
    assert converters[|converters|..] == [];
  }

  /** The two rule lists share their first thirteen rules and differ only in
      how many lines the last three write back. */
  lemma IntendedDiffersInKeep(tag: string, md: string)
    ensures |Matchers(tag, md)| == |IntendedMatchers(tag, md)| == 16
    ensures Matchers(tag, md)[..13] == IntendedMatchers(tag, md)[..13]
    ensures forall k | 13 <= k < 16 :: Matchers(tag, md)[k] == MultiLineRule(tag, md, k - 10, 3)
    ensures forall k | 13 <= k < 16 :: IntendedMatchers(tag, md)[k] == MultiLineRule(tag, md, k - 10, k - 9)
  {
  }

  // ---------------------------------------------------------------------
  // What the rules promise

  /** Every rule needs a `[` to match. */
  lemma RulesNeedBracket(tag: string, md: string, s: string, j: nat)
    requires '[' !in s
    ensures UrlTag(s, j).None? && UrlEquals(s, j).None? && EmptyPair(tag, s, j).None?
    ensures LineOpen(tag, s, j).None? && OpenSpaces(tag, s, j).None? && SpacesClose(tag, s, j).None?
    ensures CrlfClose(tag, s, j).None? && OpenCrlf(tag, s, j).None? && CenterPair(tag, md, s, j).None?
    ensures UrlPair(tag, md, s, j).None? && Single(tag, md, s, j).None?
    ensures forall more: nat, keep: nat :: MultiLine(tag, md, more, keep, s, j).None?
  {
    NoBracketNoAt(s, Open(tag));
    NoBracketNoAt(s, Close(tag));
    NoBracketNoAt(s, Open(tag) + Close(tag));
    NoBracketNoAt(s, "[center]");
    NoBracketNoAt(s, "[url=");
  }

  /** A text without `[` goes through the typo cleaner unchanged, with the
      rules as written and with the corrected ones. */
  lemma NoBracketUntouched(tag: string, md: string, s: string)
    requires '[' !in s
    ensures ApplyAll(Rules(tag, md), s) == s
    ensures ApplyAll(IntendedRules(tag, md), s) == s
  {
    var fs, gs := Matchers(tag, md), IntendedMatchers(tag, md);
    forall k, j | 0 <= k < 16 && 0 <= j < |s| ensures !Valid(s, j, fs[k](s, j)) && !Valid(s, j, gs[k](s, j)) {
      RulesNeedBracket(tag, md, s, j);
      if k >= 13 {
        assert gs[k] == MultiLineRule(tag, md, k - 10, k - 9);
      }
    }
    NoBracketFixed(fs, s);
    NoBracketFixed(gs, s);
  }

  /** Converters from matchers that match nowhere in `s` leave it alone. */
  lemma NoBracketFixed(fs: seq<Matcher>, s: string)
    requires forall k, j | 0 <= k < |fs| && 0 <= j < |s| :: !Valid(s, j, fs[k](s, j))
    ensures ApplyAll(Converters(fs), s) == s
  {
    forall k | 0 <= k < |fs| ensures Converters(fs)[k](s) == s {
      SubNoMatch(s, fs[k]);
    }
    ApplyAllFixed(Converters(fs), s);
  }

  /** The empty pair rule only matches where a `[` stands. */
  lemma EmptyPairAtBracket(tag: string, md: string, s: string)
    ensures AtBracketsOnly(Matchers(tag, md)[2], s)
  {
    forall j: nat ensures EmptyPair(tag, s, j).Some? ==> j < |s| && s[j] == '[' {
      AtBracket(s, j, Open(tag) + Close(tag));
    }
  }

  /** The one-line pair rule only matches where a `[` stands. */
  lemma SingleAtBracket(tag: string, md: string, s: string)
    ensures AtBracketsOnly(SingleRule(tag, md), s)
  {
    forall j: nat ensures Single(tag, md, s, j).Some? ==> j < |s| && s[j] == '[' {
      AtBracket(s, j, Open(tag));
    }
  }

  /** The multi-line pair rules only match where a `[` stands. */
  lemma MultiLineAtBracket(tag: string, md: string, more: nat, keep: nat, s: string)
    ensures AtBracketsOnly(MultiLineRule(tag, md, more, keep), s)
  {
    forall j: nat ensures MultiLine(tag, md, more, keep, s, j).Some? ==> j < |s| && s[j] == '[' {
      AtBracket(s, j, Open(tag));
    }
  }

  /** `[/tag]` cannot start where there is no `[`. */
  lemma CloseAtBracket(tag: string, after: string, s: string, e: nat)
    ensures CloseAt(tag, after, s, e).Some? ==> s[e] == '['
  {
    AtBracket(s, e, Close(tag));
  }

  /** An empty pair is deleted, and nothing else changes. */
  lemma PairDeleted(tag: string, md: string, a: string, b: string)
    requires '[' !in a && '[' !in b
    ensures Sub(a + Open(tag) + Close(tag) + b, Matchers(tag, md)[2]) == a + b
  {
    var f := Matchers(tag, md)[2];
    var t := Open(tag) + Close(tag);
    assert a + Open(tag) + Close(tag) + b == a + t + b;
    AtConcat(a, t, b);
    EmptyPairAtBracket(tag, md, a + t + b);
    SubFramed(f, a, t, b, "");
  }

  /** The first closing tag after a `[`-free stretch ends the lazy group. */
  lemma LazyCloses(tag: string, after: string, s: string, lo: nat, hi: nat, e: nat)
    requires lo <= e <= hi && CloseAt(tag, after, s, e).Some?
    requires forall k :: lo <= k < e ==> s[k] != '['
    ensures Lazy(tag, after, s, lo, hi) == Some((e, CloseAt(tag, after, s, e).value))
  {
    forall k | lo <= k < e ensures CloseAt(tag, after, s, k).None? {
      CloseAtBracket(tag, after, s, k);
    }
    LazyAt(tag, after, s, lo, hi, e);
  }

  /** A line a pair may hold: not empty, all inline, no `[`. */
  predicate Plain(l: string)
  {
    |l| > 0 && forall k :: 0 <= k < |l| ==> Inline(l[k]) && l[k] != '['
  }

  /** The inline class runs at least over an inline copy of `x`. */
  lemma InlinePast(s: string, g: nat, x: string)
    requires g + |x| <= |s| && s[g..g + |x|] == x
    requires forall k :: 0 <= k < |x| ==> Inline(x[k])
    ensures g + |x| <= Run(s, g, Inline)
  {
    forall k | g <= k < g + |x| ensures Inline(s[k]) { assert s[k] == x[k - g]; }
    RunPast(s, g, g + |x|, Inline);
  }

  /** At the opening tag of a one-line pair. */
  lemma SingleAt(tag: string, md: string, s: string, i: nat, x: string)
    requires '[' !in x && forall k :: 0 <= k < |x| ==> Inline(x[k])
    requires At(s, i, Open(tag)) && At(s, i + |Open(tag)| + |x|, Close(tag))
    requires s[i + |Open(tag)|..i + |Open(tag)| + |x|] == x
    ensures SingleRule(tag, md)(s, i) == Some(Match(i + |Open(tag) + x + Close(tag)|, md + x + md))
  {
    var g := i + |Open(tag)|;
    var e := g + |x|;
    InlinePast(s, g, x);
    forall k | g <= k < e ensures s[k] != '[' { assert s[k] == x[k - g]; }
    LazyCloses(tag, "", s, g, Run(s, g, Inline), e);
  }

  /** A pair on one line becomes `md` + its content + `md`. */
  lemma SingleLine(tag: string, md: string, a: string, x: string, b: string)
    requires '[' !in a && '[' !in x && '[' !in b
    requires forall k :: 0 <= k < |x| ==> Inline(x[k])
    ensures Sub(a + (Open(tag) + x + Close(tag)) + b, Matchers(tag, md)[10]) == a + (md + x + md) + b
  {
    var mid := Open(tag) + x + Close(tag);
    Framing(a, Open(tag), x, Close(tag), b);
    SingleAt(tag, md, a + mid + b, |a|, x);
    SingleAtBracket(tag, md, a + mid + b);
    SubFramed(SingleRule(tag, md), a, mid, b, md + x + md);
    SingleIsTenth(tag, md);
  }

  lemma SingleIsTenth(tag: string, md: string)
    ensures Matchers(tag, md)[10] == SingleRule(tag, md)
  {
  }

  /** A slice holding `x + y` holds `x`, then `y`. */
  lemma SliceSplit(s: string, p: nat, x: string, y: string)
    requires p + |x| + |y| <= |s| && s[p..p + |x| + |y|] == x + y
    ensures s[p..p + |x|] == x && s[p + |x|..p + |x| + |y|] == y
  {
    assert s[p..p + |x|] == s[p..p + |x| + |y|][..|x|];
    assert s[p + |x|..p + |x| + |y|] == s[p..p + |x| + |y|][|x|..];
  }

  /** The last line of a block, up to its closing tag. */
  lemma BlockLast(tag: string, s: string, p: nat, l: string)
    requires Plain(l) && p + |l| <= |s| && s[p..p + |l|] == l && At(s, p + |l|, Close(tag))
    ensures Block(tag, s, p, 0) == Some(([l], p + |l| + |Close(tag)|))
  {
    InlinePast(s, p, l);
    assert CloseAt(tag, "", s, p + |l|) == Some(p + |l| + |Close(tag)|);
    forall k | p + 1 <= k < p + |l| ensures s[k] != '[' { assert s[k] == l[k - p]; }
    LazyCloses(tag, "", s, p + 1, Run(s, p, Inline), p + |l|);
  }

  /** A full line of a block, then the rest of the block. */
  lemma BlockNext(tag: string, s: string, p: nat, l: string, more: nat, n: nat, ls: seq<string>, all: seq<string>, end: nat)
    requires Plain(l) && p + |l| < |s| && s[p..p + |l|] == l && s[p + |l|] == '\n'
    requires Block(tag, s, p + |l| + 1, more) == Some((ls, end))
    requires n == more + 1 && all == [l] + ls
    ensures Block(tag, s, p, n) == Some((all, end))
  {
    forall k | p <= k < p + |l| ensures Inline(s[k]) { assert s[k] == l[k - p]; }
    RunAt(s, p, p + |l|, Inline);
    assert Break(s, p + |l|) == Some(p + |l| + 1);
    BlockCons(tag, s, p, p + |l|, p + |l| + 1, more, n, ls, end);
  }

  /** `Block` by the positions it finds: a line up to `e`, a line break, and
      the rest of the block from `q`. */
  lemma BlockCons(tag: string, s: string, p: nat, e: nat, q: nat, more: nat, n: nat, ls: seq<string>, end: nat)
    requires p < e && q <= |s| && Run(s, p, Inline) == e && Break(s, e) == Some(q) && n == more + 1
    requires Block(tag, s, q, more) == Some((ls, end))
    ensures Block(tag, s, p, n) == Some(([s[p..e]] + ls, end))
  {
  }

  /** A slice holding several lines holds the first, a newline, and the others. */
  lemma LinesSplit(s: string, p: nat, ls: seq<string>)
    requires |ls| >= 2 && p + |Lines(ls)| <= |s| && s[p..p + |Lines(ls)|] == Lines(ls)
    ensures |Lines(ls)| == |ls[0]| + 1 + |Lines(ls[1..])|
    ensures s[p..p + |ls[0]|] == ls[0] && s[p + |ls[0]|] == '\n'
    ensures s[p + |ls[0]| + 1..p + |Lines(ls)|] == Lines(ls[1..])
  {
    var l := ls[0];
    var rest := ls[1..];
    assert [l] + rest == ls;
    JoinCons(l, rest, "\n");
    SliceSplit(s, p, l + "\n", Lines(rest));
    SliceSplit(s, p, l, "\n");
    assert s[p + |l|] == s[p + |l|..p + |l| + 1][0];
  }

  lemma BlockOne(tag: string, s: string, p: nat, ls: seq<string>)
    requires |ls| == 1 && Plain(ls[0])
    requires p + |Lines(ls)| <= |s| && s[p..p + |Lines(ls)|] == Lines(ls)
    requires At(s, p + |Lines(ls)|, Close(tag))
    ensures Block(tag, s, p, 0) == Some((ls, p + |Lines(ls)| + |Close(tag)|))
  {
    assert Lines(ls) == ls[0] && ls == [ls[0]];
    BlockLast(tag, s, p, ls[0]);
  }

  lemma BlockStep(tag: string, s: string, p: nat, ls: seq<string>)
    requires |ls| >= 2 && Plain(ls[0])
    requires p + |Lines(ls)| <= |s| && s[p..p + |Lines(ls)|] == Lines(ls)
    requires Block(tag, s, p + |ls[0]| + 1, |ls| - 2) == Some((ls[1..], p + |Lines(ls)| + |Close(tag)|))
    ensures Block(tag, s, p, |ls| - 1) == Some((ls, p + |Lines(ls)| + |Close(tag)|))
  {
    LinesSplit(s, p, ls);
    assert [ls[0]] + ls[1..] == ls;
    BlockNext(tag, s, p, ls[0], |ls| - 2, |ls| - 1, ls[1..], ls, p + |Lines(ls)| + |Close(tag)|);
  }

  /** `Block` reads a `[`-free block line by line, up to its closing tag. */
  lemma {:induction false} BlockLines(tag: string, s: string, p: nat, ls: seq<string>)
    requires |ls| >= 1 && forall k :: 0 <= k < |ls| ==> Plain(ls[k])
    requires p + |Lines(ls)| <= |s| && s[p..p + |Lines(ls)|] == Lines(ls)
    requires At(s, p + |Lines(ls)|, Close(tag))
    ensures Block(tag, s, p, |ls| - 1) == Some((ls, p + |Lines(ls)| + |Close(tag)|))
    decreases |ls|
  {
    var l := ls[0];
    assert Plain(l);
    if |ls| == 1 {
      BlockOne(tag, s, p, ls);
    } else {
      BlockRest(tag, s, p, ls);
      BlockLines(tag, s, p + |ls[0]| + 1, ls[1..]);
      BlockStep(tag, s, p, ls);
    }
  }

  /** The lines after the first of a block, where they stand. */
  lemma BlockRest(tag: string, s: string, p: nat, ls: seq<string>)
    requires |ls| >= 2 && forall k :: 0 <= k < |ls| ==> Plain(ls[k])
    requires p + |Lines(ls)| <= |s| && s[p..p + |Lines(ls)|] == Lines(ls)
    requires At(s, p + |Lines(ls)|, Close(tag))
    ensures forall k :: 0 <= k < |ls[1..]| ==> Plain(ls[1..][k])
    ensures p + |ls[0]| + 1 + |Lines(ls[1..])| <= |s|
    ensures s[p + |ls[0]| + 1..p + |ls[0]| + 1 + |Lines(ls[1..])|] == Lines(ls[1..])
    ensures At(s, p + |ls[0]| + 1 + |Lines(ls[1..])|, Close(tag))
  {
    LinesSplit(s, p, ls);
    forall k | 0 <= k < |ls[1..]| ensures Plain(ls[1..][k]) { assert ls[1..][k] == ls[k + 1]; }
  }

  /** At the opening tag of a `[`-free block of `more + 1` lines. */
  lemma MultiLineAt(tag: string, md: string, more: nat, keep: nat, s: string, i: nat, ls: seq<string>)
    requires |ls| == more + 1 && forall k :: 0 <= k < |ls| ==> Plain(ls[k])
    requires At(s, i, Open(tag)) && At(s, i + |Open(tag)| + |Lines(ls)|, Close(tag))
    requires s[i + |Open(tag)|..i + |Open(tag)| + |Lines(ls)|] == Lines(ls)
    ensures MultiLineRule(tag, md, more, keep)(s, i)
         == Some(Match(i + |Open(tag) + Lines(ls) + Close(tag)|, md + Lines(Kept(ls, keep)) + md))
  {
    BlockLines(tag, s, i + |Open(tag)|, ls);
  }

  /** A pair around the `[`-free lines `ls` becomes `md`, the lines it keeps,
      and `md`; nothing else changes. */
  lemma MultiLineRewrite(tag: string, md: string, more: nat, keep: nat, a: string, ls: seq<string>, b: string)
    requires '[' !in a && '[' !in b
    requires |ls| == more + 1 && forall k :: 0 <= k < |ls| ==> Plain(ls[k])
    ensures Sub(a + (Open(tag) + Lines(ls) + Close(tag)) + b, MultiLineRule(tag, md, more, keep))
         == a + (md + Lines(Kept(ls, keep)) + md) + b
  {
    var mid := Open(tag) + Lines(ls) + Close(tag);
    Framing(a, Open(tag), Lines(ls), Close(tag), b);
    MultiLineAt(tag, md, more, keep, a + mid + b, |a|, ls);
    MultiLineAtBracket(tag, md, more, keep, a + mid + b);
    SubFramed(MultiLineRule(tag, md, more, keep), a, mid, b, md + Lines(Kept(ls, keep)) + md);
  }

  /** The first three lines of a longer block, and what follows them. */
  lemma LinesAfterThree(ls: seq<string>)
    requires |ls| >= 4
    ensures Lines(ls) == Lines(ls[..3]) + "\n" + Lines(ls[3..])
  {
    assert ls[..3] == [ls[0]] + [ls[1], ls[2]] && [ls[1], ls[2]] == [ls[1]] + [ls[2]];
    JoinCons(ls[0], [ls[1], ls[2]], "\n");
    JoinCons(ls[1], [ls[2]], "\n");
    assert ls[1..] == [ls[1]] + ls[2..] && ls[2..] == [ls[2]] + ls[3..];
    JoinCons(ls[0], ls[1..], "\n");
    JoinCons(ls[1], ls[2..], "\n");
    JoinCons(ls[2], ls[3..], "\n");
  }

  /** Intended reading of the multi-line rules: a pair around two to six
      `[`-free lines becomes `md`, every one of the lines, and `md`. */
  lemma MultiLineKeepsLines(tag: string, md: string, a: string, ls: seq<string>, b: string)
    requires '[' !in a && '[' !in b
    requires 2 <= |ls| <= 6 && forall k :: 0 <= k < |ls| ==> Plain(ls[k])
    ensures Sub(a + (Open(tag) + Lines(ls) + Close(tag)) + b, IntendedMatchers(tag, md)[|ls| + 9])
         == a + (md + Lines(ls) + md) + b
  {
    assert IntendedMatchers(tag, md)[|ls| + 9] == MultiLineRule(tag, md, |ls| - 1, |ls|);
    MultiLineRewrite(tag, md, |ls| - 1, |ls|, a, ls, b);
  }

  /** The multi-line rules as written: around four to six lines, only the
      first three are written out, so the text of the others is lost. */
  lemma AsWrittenDropsLines(tag: string, md: string, a: string, ls: seq<string>, b: string)
    requires '[' !in a && '[' !in b
    requires 4 <= |ls| <= 6 && forall k :: 0 <= k < |ls| ==> Plain(ls[k])
    ensures Sub(a + (Open(tag) + Lines(ls) + Close(tag)) + b, Matchers(tag, md)[|ls| + 9])
         == a + (md + Lines(ls[..3]) + md) + b
    ensures |Lines(ls[..3])| < |Lines(ls)|
  {
    assert Matchers(tag, md)[|ls| + 9] == MultiLineRule(tag, md, |ls| - 1, 3);
    MultiLineRewrite(tag, md, |ls| - 1, 3, a, ls, b);
    LinesAfterThree(ls);
  }

  lemma PlainLetters(ls: seq<string>)
    requires ls == ["a", "b", "c", "d"]
    ensures forall k :: 0 <= k < |ls| ==> Plain(ls[k])
    ensures Lines(ls) == "a\nb\nc\nd" && Lines(ls[..3]) == "a\nb\nc"
  {
    JoinFour("a", "b", "c", "d", "\n");
    assert ls[..3] == ["a"] + ["b", "c"] && ["b", "c"] == ["b"] + ["c"];
    JoinCons("a", ["b", "c"], "\n");
    JoinCons("b", ["c"], "\n");
  }

  /** The four-line bold pair `[b]a\nb\nc\nd[/b]`, alone. */
  lemma FourLineText(ls: seq<string>)
    requires ls == ["a", "b", "c", "d"]
    ensures "" + (Open("b") + Lines(ls) + Close("b")) + "" == "[b]a\nb\nc\nd[/b]"
    ensures "" + ("**" + Lines(ls[..3]) + "**") + "" == "**a\nb\nc**"
    ensures "" + ("**" + Lines(ls) + "**") + "" == "**a\nb\nc\nd**"
  {
    PlainLetters(ls);
  }

  /** `[b]a\nb\nc\nd[/b]`: the four-line bold rule as written gives
      `**a\nb\nc**`, losing `d`. */
  lemma FourLineBoldAsWritten()
    ensures Sub("[b]a\nb\nc\nd[/b]", Matchers("b", "**")[13]) == "**a\nb\nc**"
  {
    var ls := ["a", "b", "c", "d"];
    FourLineText(ls);
    PlainLetters(ls);
    AsWrittenDropsLines("b", "**", "", ls, "");
  }

  /** As intended, the same pair gives `**a\nb\nc\nd**`. */
  lemma FourLineBoldIntended()
    ensures Sub("[b]a\nb\nc\nd[/b]", IntendedMatchers("b", "**")[13]) == "**a\nb\nc\nd**"
  {
    var ls := ["a", "b", "c", "d"];
    FourLineText(ls);
    PlainLetters(ls);
    MultiLineKeepsLines("b", "**", "", ls, "");
  }
}
