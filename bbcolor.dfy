/** `ColorAndUnderlineRemover` of `campbot/processors/bbcode.py`: one
    case-insensitive rule, `\[/?(color|u)(=#?[a-zA-Z0-9]{3,10})?\]`,
    deleting every opening or closing colour and underline tag, with the
    colour value an opening tag may carry. */
module BBColor {
  import opened Wrappers
  import opened Text
  import opened Rewrite
  import opened Processor
  import opened Tags

  predicate IsAlnum(c: char) { IsAsciiLetter(c) || IsDigit(c) }

  /** `(color|u)` at `a`: where the name ends. */
  function NameEnd(s: string, a: nat): Option<nat>
  {
    if At(s, a, "color") then Some(a + 5) else if At(s, a, "u") then Some(a + 1) else None
  }

  /** `(=#?[a-zA-Z0-9]{3,10})?\]` at `n`: where the tag ends. The run of
      letters and digits is greedy, so it must hold three to ten of them and
      be followed by the `]`. */
  function ValueEnd(s: string, n: nat): Option<nat>
  {
    if n < |s| && s[n] == ']' then Some(n + 1)
    else if n < |s| && s[n] == '=' then
      var h := if n + 1 < |s| && s[n + 1] == '#' then n + 2 else n + 1;
      var e := Run(s, h, IsAlnum);
      if 3 <= e - h <= 10 && e < |s| && s[e] == ']' then Some(e + 1) else None
    else None
  }

  /** The rule: a colour or underline tag at `i` is replaced by nothing. */
  function ColorTagAt(s: string, i: nat): Option<Match>
  {
    if i < |s| && s[i] == '[' then
      var a := if i + 1 < |s| && s[i + 1] == '/' then i + 2 else i + 1;
      match NameEnd(s, a)
      case None => None
      case Some(n) =>
        match ValueEnd(s, n)
        case None => None
        case Some(e) => Some(Match(e, ""))
    else None
  }

  function ColorRule(): Matcher { (s: string, i: nat) => ColorTagAt(s, i) }

  /** The modifiers of `ColorAndUnderlineRemover`. */
  function Modifiers(): seq<Modifier> { [Converter(ColorRule())] }

  // ---------------------------------------------------------------------
  // The tags

  /** A colour value: `=`, an optional `#`, then three to ten ASCII letters
      or digits. */
  predicate ColorValue(v: string)
  {
    && |v| >= 1 && v[0] == '='
    && var h := if |v| > 1 && v[1] == '#' then 2 else 1;
       3 <= |v| - h <= 10 && forall k :: h <= k < |v| ==> IsAlnum(v[k])
  }

  /** The tag `[` + `sl` + `name` + `v` + `]` the rule deletes. */
  predicate IsTag(sl: string, name: string, v: string)
  {
    (sl == "" || sl == "/") && (name == "color" || name == "u") && (v == "" || ColorValue(v))
  }

  function Tag(sl: string, name: string, v: string): string { "[" + sl + name + v + "]" }

  /** Where the pieces of a tag stand in it. */
  lemma TagPieces(sl: string, name: string, v: string)
    ensures var t := Tag(sl, name, v);
      && |t| == |sl| + |name| + |v| + 2 && t[0] == '[' && t[|t| - 1] == ']'
      && t[1..1 + |sl|] == sl && t[1 + |sl|..1 + |sl| + |name|] == name
      && t[1 + |sl| + |name|..1 + |sl| + |name| + |v|] == v
  {
    var t := Tag(sl, name, v);
    assert t == "[" + sl + name + v + "]";
  }

  /** A slice holding a tag. */
  predicate TagAt(s: string, i: nat, sl: string, name: string, v: string)
  {
    i + |Tag(sl, name, v)| <= |s| && s[i..i + |Tag(sl, name, v)|] == Tag(sl, name, v)
  }

  lemma TagHead(s: string, i: nat, sl: string, name: string, v: string)
    requires IsTag(sl, name, v) && TagAt(s, i, sl, name, v)
    ensures s[i] == '['
    ensures s[i + 1] == '/' <==> sl == "/"
  {
    var t := Tag(sl, name, v);
    TagPieces(sl, name, v);
    SliceOf(s, i, t, 0, 2);
    if sl == "" { assert t[1] == name[0]; }
  }

  lemma TagName(s: string, i: nat, sl: string, name: string, v: string)
    requires TagAt(s, i, sl, name, v)
    ensures At(s, i + 1 + |sl|, name)
  {
    var t := Tag(sl, name, v);
    TagPieces(sl, name, v);
    SliceOf(s, i, t, 1 + |sl|, |name|);
    StartsAtSlice(s, i + 1 + |sl|, name);
    MatchesFromICOfExact(s, i + 1 + |sl|, name, 0);
  }

  lemma TagValue(s: string, i: nat, sl: string, name: string, v: string)
    requires TagAt(s, i, sl, name, v)
    ensures forall k :: 0 <= k < |v| ==> s[i + 1 + |sl| + |name| + k] == v[k]
    ensures s[i + 1 + |sl| + |name| + |v|] == ']'
  {
    var t := Tag(sl, name, v);
    TagPieces(sl, name, v);
    SliceOf(s, i, t, 1 + |sl| + |name|, |v| + 1);
  }

  /** `u` is not the start of `color`. */
  lemma UNotColor(s: string, a: nat)
    requires At(s, a, "u")
    ensures !At(s, a, "color")
  {
    MatchesFromICChar(s, a, "u", 0, 0);
    if At(s, a, "color") { MatchesFromICChar(s, a, "color", 0, 0); }
  }

  /** A colour value is read up to its `]`. */
  lemma ValueAt(s: string, n: nat, v: string)
    requires v == "" || ColorValue(v)
    requires n + |v| < |s| && s[n + |v|] == ']'
    requires forall k :: 0 <= k < |v| ==> s[n + k] == v[k]
    ensures ValueEnd(s, n) == Some(n + |v| + 1)
  {
    if v != "" {
      var h := if |v| > 1 && v[1] == '#' then 2 else 1;
      assert s[n] == v[0];
      if |v| > 1 { assert s[n + 1] == v[1]; }
      forall k | n + h <= k < n + |v| ensures IsAlnum(s[k]) { assert s[k] == v[k - n]; }
      RunAt(s, n + h, n + |v|, IsAlnum);
    }
  }

  /** The rule deletes a tag where it stands. */
  lemma TagMatches(s: string, i: nat, sl: string, name: string, v: string)
    requires IsTag(sl, name, v) && TagAt(s, i, sl, name, v)
    ensures ColorTagAt(s, i) == Some(Match(i + |Tag(sl, name, v)|, ""))
  {
    TagHead(s, i, sl, name, v);
    TagName(s, i, sl, name, v);
    TagValue(s, i, sl, name, v);
    var a := i + 1 + |sl|;
    if name == "u" { UNotColor(s, a); }
    assert NameEnd(s, a) == Some(a + |name|);
    ValueAt(s, a + |name|, v);
  }

  // ---------------------------------------------------------------------
  // What the rule deletes

  /** A character matched, ignoring case, to a letter is a letter: never a
      bracket. */
  lemma AtLetters(s: string, a: nat, name: string)
    requires At(s, a, name) && forall k :: 0 <= k < |name| ==> IsAsciiLetter(name[k])
    ensures forall k :: a <= k < a + |name| ==> s[k] != ']' && s[k] != '['
  {
    forall k | a <= k < a + |name| ensures s[k] != ']' && s[k] != '[' {
      MatchesFromICChar(s, a, name, 0, k - a);
    }
  }

  /** What the rule deletes is one bracketed tag: it opens with `[` and
      closes at the first `]`, with no other bracket inside. */
  lemma DeletesOneTag(s: string, i: nat)
    ensures ColorTagAt(s, i).Some? ==>
      var e := ColorTagAt(s, i).value.end;
      && ColorTagAt(s, i).value.out == ""
      && i + 3 <= e <= |s| && s[i] == '[' && s[e - 1] == ']'
      && forall k :: i < k < e - 1 ==> s[k] != ']' && s[k] != '['
  {
    if ColorTagAt(s, i).Some? {
      var a := if i + 1 < |s| && s[i + 1] == '/' then i + 2 else i + 1;
      var n := NameEnd(s, a).value;
      NameNoBracket(s, a);
      ValueNoBracket(s, n);
    }
  }

  /** The name of a tag holds no bracket. */
  lemma NameNoBracket(s: string, a: nat)
    requires NameEnd(s, a).Some?
    ensures a < NameEnd(s, a).value <= |s|
    ensures forall k :: a <= k < NameEnd(s, a).value ==> s[k] != ']' && s[k] != '['
  {
    if At(s, a, "color") {
      AtLetters(s, a, "color");
    } else {
      AtLetters(s, a, "u");
    }
  }

  /** A colour value holds no bracket, and its tag closes with `]`. */
  lemma ValueNoBracket(s: string, n: nat)
    requires ValueEnd(s, n).Some?
    ensures n < ValueEnd(s, n).value <= |s| && s[ValueEnd(s, n).value - 1] == ']'
    ensures forall k :: n <= k < ValueEnd(s, n).value - 1 ==> s[k] != ']' && s[k] != '['
  {
    if s[n] == '=' {
      var h := if n + 1 < |s| && s[n + 1] == '#' then n + 2 else n + 1;
      RunChars(s, h, IsAlnum);
    }
  }


  /** The texts `ps` with the tags `ts` between them. */
  function Weave(ps: seq<string>, ts: seq<string>): string
    requires |ps| == |ts| + 1
    decreases |ts|
  {
    if |ts| == 0 then ps[0] else ps[0] + ts[0] + Weave(ps[1..], ts[1..])
  }

  function Concat(ps: seq<string>): string
  {
    if |ps| == 0 then "" else ps[0] + Concat(ps[1..])
  }

  datatype TagSpec = TagSpec(sl: string, name: string, v: string)

  function TagTexts(ts: seq<TagSpec>): (r: seq<string>)
    ensures |r| == |ts|
  {
    if |ts| == 0 then [] else [Tag(ts[0].sl, ts[0].name, ts[0].v)] + TagTexts(ts[1..])
  }

  lemma {:induction false} TagTextAt(ts: seq<TagSpec>, k: nat)
    requires k < |ts|
    ensures TagTexts(ts)[k] == Tag(ts[k].sl, ts[k].name, ts[k].v)
    decreases k
  {
    if k > 0 {
      TagTextAt(ts[1..], k - 1);
    }
  }

  /** No piece holds a `[`. */
  predicate Plain(ps: seq<string>) { forall k :: 0 <= k < |ps| ==> '[' !in ps[k] }

  predicate AllTags(ts: seq<TagSpec>) { forall k :: 0 <= k < |ts| ==> IsTag(ts[k].sl, ts[k].name, ts[k].v) }

  /** A stretch without `[` is copied as it is. */
  lemma PlainCopied(s: string, i: nat, a: string)
    requires i + |a| <= |s| && s[i..i + |a|] == a && '[' !in a
    ensures SubFrom(s, ColorRule(), i) == a + SubFrom(s, ColorRule(), i + |a|)
  {
    NoTagIn(s, i, a);
    SubFromCopy(s, ColorRule(), i, i + |a|);
  }

  /** No tag starts inside a stretch without `[`. */
  lemma NoTagIn(s: string, i: nat, a: string)
    requires i + |a| <= |s| && s[i..i + |a|] == a && '[' !in a
    ensures forall j :: i <= j < i + |a| ==> !Valid(s, j, ColorRule()(s, j))
  {
    forall j | i <= j < i + |a| ensures ColorRule()(s, j) == None {
      assert s[j] == a[j - i];
    }
  }



  /** A tag is dropped. */
  lemma TagDropped(s: string, q: nat, t: TagSpec)
    requires IsTag(t.sl, t.name, t.v) && TagAt(s, q, t.sl, t.name, t.v)
    ensures SubFrom(s, ColorRule(), q) == SubFrom(s, ColorRule(), q + |Tag(t.sl, t.name, t.v)|)
  {
    TagMatches(s, q, t.sl, t.name, t.v);
    SubFromMatch(s, ColorRule(), q, Match(q + |Tag(t.sl, t.name, t.v)|, ""));
  }

  /** The rule from where a woven text starts inside `p + w`. */
  lemma {:induction false} WeaveFrom(p: string, ps: seq<string>, ts: seq<TagSpec>)
    requires |ps| == |ts| + 1 && Plain(ps) && AllTags(ts)
    ensures SubFrom(p + Weave(ps, TagTexts(ts)), ColorRule(), |p|) == Concat(ps)
    decreases |ts|
  {
    var s := p + Weave(ps, TagTexts(ts));
    var a := ps[0];
    ConcatCons(ps);
    if |ts| == 0 {
      assert s[|p|..|p| + |a|] == a;
      PlainCopied(s, |p|, a);
      assert SubFrom(s, ColorRule(), |s|) == "";
    } else {
      var t := ts[0];
      var tag := Tag(t.sl, t.name, t.v);
      var w := Weave(ps[1..], TagTexts(ts[1..]));
      var q := p + a + tag;
      WeaveCut(p, ps, ts, q, w);
      PieceThenTag(s, |p|, a, t, |q|);
      TailsPlain(ps, ts);
      WeaveFrom(q, ps[1..], ts[1..]);
    }
  }

  /** Concatenation takes its first piece first. */
  lemma ConcatCons(ps: seq<string>)
    requires |ps| > 0
    ensures Concat(ps) == ps[0] + Concat(ps[1..])
  {
  }

  /** The woven text as what comes up to and after its first tag. */
  lemma WeaveCut(p: string, ps: seq<string>, ts: seq<TagSpec>, q: string, w: string)
    requires |ps| == |ts| + 1 && |ts| > 0
    requires q == p + ps[0] + Tag(ts[0].sl, ts[0].name, ts[0].v)
    requires w == Weave(ps[1..], TagTexts(ts[1..]))
    ensures p + Weave(ps, TagTexts(ts)) == q + w
    ensures (q + w)[|p|..|q|] == ps[0] + Tag(ts[0].sl, ts[0].name, ts[0].v)
  {
    WeaveHead(ps, ts, w);
    Regroup(p, ps[0], Tag(ts[0].sl, ts[0].name, ts[0].v), w);
  }

  lemma WeaveHead(ps: seq<string>, ts: seq<TagSpec>, w: string)
    requires |ps| == |ts| + 1 && |ts| > 0
    requires w == Weave(ps[1..], TagTexts(ts[1..]))
    ensures Weave(ps, TagTexts(ts)) == ps[0] + Tag(ts[0].sl, ts[0].name, ts[0].v) + w
  {
    var r := TagTexts(ts);
    assert r == [Tag(ts[0].sl, ts[0].name, ts[0].v)] + TagTexts(ts[1..]);
    assert r[1..] == TagTexts(ts[1..]);
  }

  lemma Regroup(p: string, a: string, t: string, w: string)
    ensures p + (a + t + w) == (p + a + t) + w
    ensures ((p + a + t) + w)[|p|..|p + a + t|] == a + t
  {
    assert ((p + a + t) + w)[|p|..|p + a + t|] == (p + a + t)[|p|..];
  }


  lemma TailsPlain(ps: seq<string>, ts: seq<TagSpec>)
    requires |ps| > 0 && |ts| > 0 && Plain(ps) && AllTags(ts)
    ensures Plain(ps[1..]) && AllTags(ts[1..])
  {
    assert forall k :: 0 <= k < |ps[1..]| ==> ps[1..][k] == ps[k + 1];
    assert forall k :: 0 <= k < |ts[1..]| ==> ts[1..][k] == ts[k + 1];
  }

  /** A plain piece is copied and the tag after it dropped. */
  lemma PieceThenTag(s: string, lo: nat, a: string, t: TagSpec, hi: nat)
    requires '[' !in a && IsTag(t.sl, t.name, t.v)
    requires hi == lo + |a| + |Tag(t.sl, t.name, t.v)| <= |s|
    requires s[lo..hi] == a + Tag(t.sl, t.name, t.v)
    ensures SubFrom(s, ColorRule(), lo) == a + SubFrom(s, ColorRule(), hi)
  {
    var m := lo + |a|;
    SliceHalves(s, lo, a, Tag(t.sl, t.name, t.v), m, hi);
    NoTagIn(s, lo, a);
    TagMatches(s, m, t.sl, t.name, t.v);
    SubFromCopyThenDrop(s, ColorRule(), lo, m, hi, a);
  }


  /** The two halves of a slice holding `x + y`. */
  lemma SliceHalves(s: string, lo: nat, x: string, y: string, m: nat, hi: nat)
    requires m == lo + |x| && hi == m + |y| <= |s| && s[lo..hi] == x + y
    ensures s[lo..m] == x && s[m..hi] == y
  {
    assert s[lo..m] == s[lo..hi][..|x|];
    assert s[m..hi] == s[lo..hi][|x|..];
  }



  /** Every colour and underline tag of a text is deleted, and the text
      between them is kept as it is. */
  lemma TagsDeleted(ps: seq<string>, ts: seq<TagSpec>)
    requires |ps| == |ts| + 1 && Plain(ps) && AllTags(ts)
    ensures ApplyAll(Modifiers(), Weave(ps, TagTexts(ts))) == Concat(ps)
  {
    WeaveFrom("", ps, ts);
    assert "" + Weave(ps, TagTexts(ts)) == Weave(ps, TagTexts(ts));
  }

  /** The fixture of `ColorAndUnderlineRemover`, its source written as
      the text between the tags and the tags. */
  function ColorFixture(): Fixture
  {
    Fixture(ColorSource(), ColorExpected())
  }

  function ColorSource(): string
  {
    Weave(["test ", "underlines", " and ", "color", " et ", "color", ""],
          ["[u]", "[/u]", "[color=#FFdd1E]", "[/color]", "[color=red]", "[/color]"])
  }

  function ColorExpected(): string { "test underlines and color et color" }

  lemma FixtureTags(ts: seq<TagSpec>)
    requires ts == [TagSpec("", "u", ""), TagSpec("/", "u", ""), TagSpec("", "color", "=#FFdd1E"),
                    TagSpec("/", "color", ""), TagSpec("", "color", "=red"), TagSpec("/", "color", "")]
    ensures AllTags(ts)
    ensures TagTexts(ts) == ["[u]", "[/u]", "[color=#FFdd1E]", "[/color]", "[color=red]", "[/color]"]
  {
    FixtureValues();
    var r := TagTexts(ts);
    TagTextAt(ts, 0); TagTextAt(ts, 1); TagTextAt(ts, 2);
    TagTextAt(ts, 3); TagTextAt(ts, 4); TagTextAt(ts, 5);
    FixtureTagTexts();
  }

  lemma FixtureValues()
    ensures ColorValue("=#FFdd1E") && ColorValue("=red")
  {
    assert "=#FFdd1E"[1] == '#' && "=red"[1] != '#';
  }

  lemma FixtureTagTexts()
    ensures Tag("", "u", "") == "[u]" && Tag("/", "u", "") == "[/u]"
    ensures Tag("", "color", "=#FFdd1E") == "[color=#FFdd1E]" && Tag("/", "color", "") == "[/color]"
    ensures Tag("", "color", "=red") == "[color=red]"
  {
  }




  lemma FixturePlain(ps: seq<string>)
    requires ps == ["test ", "underlines", " and ", "color", " et ", "color", ""]
    ensures Plain(ps)
  {
  }

  /** The fixture's expected text is its plain texts put together. */
  lemma FixtureKept(ps: seq<string>)
    requires ps == ["test ", "underlines", " and ", "color", " et ", "color", ""]
    ensures Concat(ps) == ColorFixture().expected
  {
    assert ps[0..] == ps;
    ConcatFrom(ps, 0); ConcatFrom(ps, 1); ConcatFrom(ps, 2);
    ConcatFrom(ps, 3); ConcatFrom(ps, 4); ConcatFrom(ps, 5); ConcatFrom(ps, 6);
    FixtureJoined();
  }

  lemma ConcatFrom(ps: seq<string>, k: nat)
    requires k < |ps|
    ensures Concat(ps[k..]) == ps[k] + Concat(ps[k + 1..])
  {
    assert ps[k..][1..] == ps[k + 1..];
  }

  lemma FixtureJoined()
    ensures "test " + ("underlines" + (" and " + ("color" + (" et " + ("color" + ("" + Concat([]))))))) == ColorExpected()
  {
  }

  /** The remover passes its fixture, so it can be built. */
  lemma FixturePasses()
    ensures Passes(Modifiers(), ColorFixture())
  {
    var ps := ["test ", "underlines", " and ", "color", " et ", "color", ""];
    var ts := [TagSpec("", "u", ""), TagSpec("/", "u", ""), TagSpec("", "color", "=#FFdd1E"),
               TagSpec("/", "color", ""), TagSpec("", "color", "=red"), TagSpec("/", "color", "")];
    FixtureTags(ts);
    FixturePlain(ps);
    TagsDeleted(ps, ts);
    FixtureKept(ps);
  }
}
