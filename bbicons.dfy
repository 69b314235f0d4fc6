/** The icon rules of `BBCodeRemover` in `campbot/processors/bbcode.py`:
    `[picto NAME /]`, with any number of spaces before the slash and in any
    case, becomes the markdown emoji for NAME; for the eight activities the
    old image tag `[img=picto/FILE.png /]` does too; `[picto action_report /]`
    is deleted. */
module BBIcons {
  import opened Wrappers
  import opened Text
  import opened Rewrite
  import opened Processor
  import opened Tags

  /** The name after `[picto ` of each of the seventeen rules, in the
      source's order: the eight activities first. */
  function Names(): (r: seq<string>)
    ensures |r| == 17
  {
    ["activity_1", "activity_6", "activity_2", "activity_3", "activity_4", "activity_5", "activity_7", "activity_8",
     "picto_books", "picto_maps", "action_report", "picto_summits", "picto_huts", "picto_products", "picto_parkings",
     "picto_routes", "picto_users"]
  }

  /** The image file of each activity. */
  function Files(): (r: seq<string>)
    ensures |r| == 8
  {
    ["skitouring", "hiking", "snow_ice_mixed", "mountain_climbing", "rock_climbing", "ice_climbing", "snowshoeing",
     "paragliding"]
  }

  /** What each rule writes. */
  function Emojis(): (r: seq<string>)
    ensures |r| == 17
  {
    [":skitouring:", ":hiking:", ":snow_ice_mixed:", ":mountain_climbing:", ":rock_climbing:", ":ice_climbing:",
     ":snowshoeing:", ":paragliding:", ":book:", ":map:", "", ":summit:", ":hut:", ":local_product:", ":parking:",
     ":motorway:", ":mens:"]
  }

  function PictoKey(q: nat): string
    requires q < 17
  {
    "[picto " + Names()[q]
  }

  function ImgKey(q: nat): string
    requires q < 8
  {
    "[img=picto/" + Files()[q]
  }

  /** End of the picto tag of rule `q` read at `i`: `[picto NAME`, any
      number of spaces, `/]`. */
  function PictoAt(s: string, i: nat, q: nat): (r: Option<nat>)
    requires q < 17
    ensures r.Some? ==> i < r.value <= |s|
  {
    var t := PictoKey(q);
    if At(s, i, t) then
      var e := CharRun(s, i + |t|, ' ');
      if At(s, e, "/]") then Some(e + 2) else None
    else None
  }

  /** End of `\[img=picto/FILE.png /\]` read at `i`; the unescaped `.` of
      the pattern stands for any character but a line break. */
  function ImgAt(s: string, i: nat, q: nat): (r: Option<nat>)
    requires q < 8
    ensures r.Some? ==> i < r.value <= |s|
  {
    var t := ImgKey(q);
    var d := i + |t|;
    if At(s, i, t) && d < |s| && s[d] != '\n' && At(s, d + 1, "png /]") then Some(d + 7) else None
  }

  /** Rule `q` at `i`: the picto tag or, for an activity, failing that, the
      image tag. */
  function IconAt(s: string, i: nat, q: nat): Option<Match>
    requires q < 17
  {
    var e := if q < 8 && PictoAt(s, i, q).None? then ImgAt(s, i, q) else PictoAt(s, i, q);
    if e.Some? then Some(Match(e.value, Emojis()[q])) else None
  }

  function IconMatcher(q: nat): Matcher
    requires q < 17
  {
    (s: string, i: nat) => IconAt(s, i, q)
  }

  function IconMatchers(): (r: seq<Matcher>)
    ensures |r| == 17
  {
    seq(17, q requires 0 <= q < 17 => IconMatcher(q))
  }

  function IconRules(): seq<Modifier> { Converters(IconMatchers()) }

  // ---------------------------------------------------------------------
  // The tags

  function Spaces(n: nat): (r: string)
    ensures |r| == n && forall i :: 0 <= i < n ==> r[i] == ' '
  {
    seq(n, _ => ' ')
  }

  /** `[picto NAME` and `n` spaces before `/]`. */
  function PictoTag(q: nat, n: nat): string
    requires q < 17
  {
    PictoKey(q) + Spaces(n) + "/]"
  }

  function ImgTag(q: nat): string
    requires q < 8
  {
    ImgKey(q) + ".png /]"
  }

  /** A rule only fires at a `[`. */
  lemma IconAtBracket(s: string, i: nat, q: nat)
    requires q < 17 && IconAt(s, i, q).Some?
    ensures i < |s| && s[i] == '['
  {
    if PictoAt(s, i, q).Some? {
      AtChar(s, i, PictoKey(q), 0);
    } else {
      AtChar(s, i, ImgKey(q), 0);
    }
  }

  lemma BracketsOnly(s: string, q: nat)
    requires q < 17
    ensures AtBracketsOnly(IconMatcher(q), s)
  {
    forall j: nat ensures IconMatcher(q)(s, j).Some? ==> j < |s| && s[j] == '[' {
      if IconAt(s, j, q).Some? { IconAtBracket(s, j, q); }
    }
  }

  /** The picto tag of rule `q` is read by it whole. */
  lemma PictoTagRead(s: string, i: nat, q: nat, n: nat)
    requires q < 17
    requires i + |PictoTag(q, n)| <= |s| && s[i..i + |PictoTag(q, n)|] == PictoTag(q, n)
    ensures PictoAt(s, i, q) == Some(i + |PictoTag(q, n)|)
  {
    var t := PictoTag(q, n);
    var k := PictoKey(q);
    var e := i + |k| + n;
    SliceOf(s, i, t, 0, |k|);
    assert t[..|k|] == k;
    AtSlice(s, i, k);
    SliceOf(s, i, t, |k|, n + 2);
    CharRunAt(s, i + |k|, e, ' ');
    assert t[|k| + n..|k| + n + 2] == "/]";
    AtSlice(s, e, "/]");
  }

  /** The image tag of activity `q` is read by it whole. */
  lemma ImgTagRead(s: string, i: nat, q: nat)
    requires q < 8
    requires i + |ImgTag(q)| <= |s| && s[i..i + |ImgTag(q)|] == ImgTag(q)
    ensures ImgAt(s, i, q) == Some(i + |ImgTag(q)|) && PictoAt(s, i, q).None?
  {
    var k := ImgKey(q);
    ImgPieces(s, i, k, ImgTag(q));
    assert k[1] == 'i' && PictoKey(q)[1] == 'p';
    NotAt(s, i, PictoKey(q), 1);
  }

  /** Where a key and `.png /]` stand. */
  lemma ImgPieces(s: string, i: nat, k: string, t: string)
    requires |k| >= 2 && t == k + ".png /]"
    requires i + |t| <= |s| && s[i..i + |t|] == t
    ensures At(s, i, k) && i + |k| < |s| && s[i + |k|] == '.' && s[i + 1] == k[1]
    ensures At(s, i + |k| + 1, "png /]")
  {
    SliceOf(s, i, t, 0, |t|);
    assert t[..|k|] == k;
    SliceOf(s, i, t, 0, |k|);
    AtSlice(s, i, k);
    assert t[|k| + 1..|k| + 7] == "png /]";
    SliceOf(s, i, t, |k| + 1, 6);
    AtSlice(s, i + |k| + 1, "png /]");
  }

  lemma IconNoBracket(s: string, i: nat, q: nat)
    requires q < 17 && (i >= |s| || s[i] != '[')
    ensures IconAt(s, i, q).None?
  {
    if IconAt(s, i, q).Some? { IconAtBracket(s, i, q); }
  }

  /** A text without `[` is left as it is by rule `q`. */
  lemma PlainKept(s: string, q: nat)
    requires q < 17 && '[' !in s
    ensures Sub(s, IconMatchers()[q]) == s
  {
    forall j | 0 <= j < |s| ensures IconMatcher(q)(s, j).None? {
      IconNoBracket(s, j, q);
    }
    SubNoMatch(s, IconMatcher(q));
  }

  /** A text without `[` is left as it is by every rule. */
  lemma IconsKeepPlain(s: string)
    requires '[' !in s
    ensures ApplyAll(IconRules(), s) == s
  {
    forall q | 0 <= q < 17 ensures Sub(s, IconMatchers()[q]) == s {
      PlainKept(s, q);
    }
    ConvertersFixed(IconMatchers(), s);
  }

  // ---------------------------------------------------------------------
  // No two rules read the same tag

  /** Where two names first differ, ignoring case: the digit of two
      activities, `a` against `p`, `activity` against `action`, or the
      first letter after `picto_` (the second for `products` and
      `parkings`). */
  function NameDiff(q: nat, r: nat): nat
    requires q < 17 && r < 17
  {
    var aq := q < 8 || q == 10;
    var ar := r < 8 || r == 10;
    if q < 8 && r < 8 then 9
    else if aq != ar then 0
    else if q == 10 || r == 10 then 4
    else if (q == 13 && r == 14) || (q == 14 && r == 13) then 7
    else 6
  }

  lemma NamesDiffer(q: nat, r: nat)
    requires q < 17 && r < 17 && q != r
    ensures NameDiff(q, r) < |Names()[q]| && NameDiff(q, r) < |Names()[r]|
    ensures !SameIgnoreCase(Names()[q][NameDiff(q, r)], Names()[r][NameDiff(q, r)])
  {
    if q < 8 && r < 8 {
      ActivitiesDiffer(q, r);
    } else if q < 8 || r < 8 {
      ActivityAndOther(q, r);
    } else {
      OthersDiffer(q, r);
    }
  }

  lemma ActivitiesDiffer(q: nat, r: nat)
    requires q < 8 && r < 8 && q != r
    ensures NameDiff(q, r) < |Names()[q]| && NameDiff(q, r) < |Names()[r]|
    ensures !SameIgnoreCase(Names()[q][NameDiff(q, r)], Names()[r][NameDiff(q, r)])
  {
  }

  lemma ActivityAndOther(q: nat, r: nat)
    requires q < 17 && r < 17 && (q < 8 <==> 8 <= r)
    ensures NameDiff(q, r) < |Names()[q]| && NameDiff(q, r) < |Names()[r]|
    ensures !SameIgnoreCase(Names()[q][NameDiff(q, r)], Names()[r][NameDiff(q, r)])
  {
  }

  lemma OthersDiffer(q: nat, r: nat)
    requires 8 <= q < 17 && 8 <= r < 17 && q != r
    ensures NameDiff(q, r) < |Names()[q]| && NameDiff(q, r) < |Names()[r]|
    ensures !SameIgnoreCase(Names()[q][NameDiff(q, r)], Names()[r][NameDiff(q, r)])
  {
  }

  /** Where two activity files first differ: the first letter, or, among
      `skitouring`, `snow_ice_mixed` and `snowshoeing`, the second or the
      fifth. */
  function FileDiff(q: nat, r: nat): nat
    requires q < 8 && r < 8
  {
    var sq := q == 0 || q == 2 || q == 6;
    var sr := r == 0 || r == 2 || r == 6;
    if sq && sr then (if q == 0 || r == 0 then 1 else 4) else 0
  }

  lemma FilesDiffer(q: nat, r: nat)
    requires q < 8 && r < 8 && q != r
    ensures FileDiff(q, r) < |Files()[q]| && FileDiff(q, r) < |Files()[r]|
    ensures !SameIgnoreCase(Files()[q][FileDiff(q, r)], Files()[r][FileDiff(q, r)])
  {
  }

  /** Where the picto key of rule `r` stands, no other rule fires. */
  lemma OtherAtPicto(s: string, i: nat, q: nat, r: nat)
    requires q < 17 && r < 17 && q != r && At(s, i, PictoKey(r))
    ensures IconAt(s, i, q).None?
  {
    NamesDiffer(q, r);
    var k := 7 + NameDiff(q, r);
    assert PictoKey(r)[k] == Names()[r][k - 7] && PictoKey(q)[k] == Names()[q][k - 7];
    AtDiffers(s, i, PictoKey(r), PictoKey(q), k);
    if q < 8 { AtDiffers(s, i, PictoKey(r), ImgKey(q), 1); }
  }

  /** Where the image key of activity `r` stands, no other rule fires. */
  lemma OtherAtImg(s: string, i: nat, q: nat, r: nat)
    requires q < 17 && r < 8 && q != r && At(s, i, ImgKey(r))
    ensures IconAt(s, i, q).None?
  {
    AtDiffers(s, i, ImgKey(r), PictoKey(q), 1);
    if q < 8 {
      FilesDiffer(q, r);
      var k := 11 + FileDiff(q, r);
      assert ImgKey(r)[k] == Files()[r][k - 11] && ImgKey(q)[k] == Files()[q][k - 11];
      AtDiffers(s, i, ImgKey(r), ImgKey(q), k);
    }
  }

  // ---------------------------------------------------------------------
  // The rules on a text holding one tag

  /** The picto key of rule `r`, or its image key, stands at `i`. */
  predicate KeyAt(s: string, i: nat, r: nat)
    requires r < 17
  {
    At(s, i, PictoKey(r)) || (r < 8 && At(s, i, ImgKey(r)))
  }

  /** With one `[` in the text, at `i`, where the key of rule `r` stands,
      every other rule leaves the text as it is. */
  lemma OthersKeep(s: string, i: nat, r: nat)
    requires r < 17 && KeyAt(s, i, r)
    requires forall j :: 0 <= j < |s| && j != i ==> s[j] != '['
    ensures forall q :: 0 <= q < 17 && q != r ==> Sub(s, IconMatchers()[q]) == s
  {
    forall q | 0 <= q < 17 && q != r ensures Sub(s, IconMatchers()[q]) == s {
      forall j | 0 <= j < |s| ensures IconMatcher(q)(s, j).None? {
        if j != i {
          IconNoBracket(s, j, q);
        } else if At(s, i, PictoKey(r)) {
          OtherAtPicto(s, i, q, r);
        } else {
          OtherAtImg(s, i, q, r);
        }
      }
      SubNoMatch(s, IconMatcher(q));
    }
  }

  /** What a rule writes holds no `[`, and no name or file does. */
  lemma EmojisPlain(q: nat)
    requires q < 17
    ensures '[' !in Emojis()[q]
  {
  }

  lemma NamesPlain(q: nat)
    requires q < 17
    ensures '[' !in Names()[q]
  {
  }

  lemma FilesPlain(q: nat)
    requires q < 8
    ensures '[' !in Files()[q]
  {
  }

  /** The one `[` of `a + tag + b`, when `tag` starts with the only one. */
  lemma OneBracket(a: string, tag: string, b: string)
    requires |tag| > 0 && '[' !in a && '[' !in b && '[' !in tag[1..]
    ensures forall j :: 0 <= j < |a + tag + b| && j != |a| ==> (a + tag + b)[j] != '['
  {
    var s := a + tag + b;
    forall j | 0 <= j < |s| && j != |a| ensures s[j] != '[' {
      if j < |a| { assert s[j] == a[j]; }
      else if j < |a| + |tag| { assert s[j] == tag[1..][j - |a| - 1]; }
      else { assert s[j] == b[j - |a| - |tag|]; }
    }
  }

  /** The tag `tag` of rule `r` stands between two texts without `[`, holds
      no other `[`, and rule `r` reads it whole. */
  predicate LoneTag(a: string, tag: string, b: string, r: nat)
    requires r < 17
  {
    '[' !in a && '[' !in b && |tag| > 0 && '[' !in tag[1..] && KeyAt(a + tag + b, |a|, r)
    && IconAt(a + tag + b, |a|, r) == Some(Match(|a| + |tag|, Emojis()[r]))
  }

  /** A lone tag read by rule `r` is given its emoji in place. */
  lemma OneTag(a: string, tag: string, b: string, r: nat)
    requires r < 17 && LoneTag(a, tag, b, r)
    ensures ApplyAll(IconRules(), a + tag + b) == a + Emojis()[r] + b
  {
    var s := a + tag + b;
    var t := a + Emojis()[r] + b;
    OneBracket(a, tag, b);
    OthersKeep(s, |a|, r);
    BracketsOnly(s, r);
    SubFramed(IconMatcher(r), a, tag, b, Emojis()[r]);
    EmojisPlain(r);
    forall q | r < q < 17 ensures Sub(t, IconMatchers()[q]) == t {
      PlainKept(t, q);
    }
    ConvertersFireOnce(IconMatchers(), r, s, t);
  }

  /** A picto tag has its one `[` in front. */
  lemma PictoTagShape(q: nat, n: nat)
    requires q < 17
    ensures |PictoTag(q, n)| > 0 && '[' !in PictoTag(q, n)[1..]
  {
    NamesPlain(q);
    assert PictoTag(q, n)[1..] == "picto " + Names()[q] + Spaces(n) + "/]";
  }

  lemma ImgTagShape(q: nat)
    requires q < 8
    ensures |ImgTag(q)| > 0 && '[' !in ImgTag(q)[1..]
  {
    FilesPlain(q);
    assert ImgTag(q)[1..] == "img=picto/" + Files()[q] + ".png /]";
  }

  /** Rule `q` fires on its picto tag. */
  lemma PictoFires(s: string, i: nat, q: nat, n: nat)
    requires q < 17
    requires i + |PictoTag(q, n)| <= |s| && s[i..i + |PictoTag(q, n)|] == PictoTag(q, n)
    ensures IconAt(s, i, q) == Some(Match(i + |PictoTag(q, n)|, Emojis()[q])) && At(s, i, PictoKey(q))
  {
    PictoTagRead(s, i, q, n);
  }

  /** Rule `q` fires on its image tag. */
  lemma ImgFires(s: string, i: nat, q: nat)
    requires q < 8
    requires i + |ImgTag(q)| <= |s| && s[i..i + |ImgTag(q)|] == ImgTag(q)
    ensures IconAt(s, i, q) == Some(Match(i + |ImgTag(q)|, Emojis()[q])) && At(s, i, ImgKey(q))
  {
    ImgTagRead(s, i, q);
  }

  /** What `OneTag` needs of a picto tag between two texts. */
  lemma PictoTagFacts(a: string, q: nat, n: nat, b: string)
    requires q < 17 && '[' !in a && '[' !in b
    ensures LoneTag(a, PictoTag(q, n), b, q)
  {
    var tag := PictoTag(q, n);
    assert (a + tag + b)[|a|..|a| + |tag|] == tag;
    PictoFires(a + tag + b, |a|, q, n);
    PictoTagShape(q, n);
  }

  /** What `OneTag` needs of an image tag between two texts. */
  lemma ImgTagFacts(a: string, q: nat, b: string)
    requires q < 8 && '[' !in a && '[' !in b
    ensures LoneTag(a, ImgTag(q), b, q)
  {
    var tag := ImgTag(q);
    assert (a + tag + b)[|a|..|a| + |tag|] == tag;
    ImgFires(a + tag + b, |a|, q);
    ImgTagShape(q);
  }

  /** `[picto NAME /]`, with any number of spaces before the slash, becomes
      the emoji of its rule. */
  lemma PictoBecomesEmoji(a: string, q: nat, n: nat, b: string)
    requires q < 17 && '[' !in a && '[' !in b
    ensures ApplyAll(IconRules(), a + PictoTag(q, n) + b) == a + Emojis()[q] + b
  {
    PictoTagFacts(a, q, n, b);
    OneTag(a, PictoTag(q, n), b, q);
  }

  /** `[img=picto/FILE.png /]` becomes the emoji of its activity. */
  lemma ImgBecomesEmoji(a: string, q: nat, b: string)
    requires q < 8 && '[' !in a && '[' !in b
    ensures ApplyAll(IconRules(), a + ImgTag(q) + b) == a + Emojis()[q] + b
  {
    ImgTagFacts(a, q, b);
    OneTag(a, ImgTag(q), b, q);
  }
}
