/** The three passes of `InternalLinkCorrector` on a text holding one
    wiki link head at its start, and the fixtures of
    `campbot/processors/bbcode.py` and `tests/test_processors.py`. */
module LinkFixtures {
  import opened Wrappers
  import opened Text
  import opened Rewrite
  import opened InternalLinks
  import opened LinkShapes

  /** `[[` at the start and no other `[` anywhere: only one link can open. */
  predicate OneOpen(s: string) { |s| >= 2 && s[0] == '[' && s[1] == '[' && '[' !in s[2..] }

  lemma OneOpenElsewhere(s: string)
    requires OneOpen(s)
    ensures forall j :: 1 <= j < |s| ==> !LinkOpens(s, j)
  {
    forall j | 1 <= j < |s|
      ensures !LinkOpens(s, j)
    {
      if j + 1 < |s| { assert s[j + 1] == s[2..][j - 1]; }
    }
  }

  lemma OneOpenJoin(h: string, caption: string)
    requires OneOpen(h) && '[' !in caption
    ensures OneOpen(h + caption)
  {
    assert (h + caption)[2..] == h[2..] + caption;
  }

  /** A pass of `re.sub` over a text where a match can start at 0 only. */
  lemma SubAtStart(s: string, f: Matcher)
    requires |s| > 0
    requires forall j :: 1 <= j < |s| ==> !Valid(s, j, f(s, j))
    ensures Sub(s, f) == if Valid(s, 0, f(s, 0)) then f(s, 0).value.out + s[f(s, 0).value.end..] else s
  {
    if Valid(s, 0, f(s, 0)) {
      SubFromMatch(s, f, 0, f(s, 0).value);
      SubFromNoMatch(s, f, f(s, 0).value.end);
    } else {
      SubFromNoMatch(s, f, 0);
    }
  }

  /** The first pass over such a text. */
  lemma NoTypePass(types: map<nat, char>, s: string)
    requires OneOpen(s)
    ensures NoTypeAt(s, 0).None? ==> FixNoType(types, s) == Success(s)
    ensures NoTypeAt(s, 0).Some? ==> (FixNoType(types, s) ==
      match NoTypeRepl(types, DigitsValue(NoTypeAt(s, 0).value.1))
      case Failure(e) => Failure(e)
      case Success(h) => Success(h + s[NoTypeAt(s, 0).value.0..]))
  {
    OneOpenElsewhere(s);
    match NoTypeAt(s, 0)
    case None =>
      FixNoTypeCopy(types, s, 1);
      assert [s[0]] + s[1..] == s;
    case Some((e, ds)) =>
      FixNoTypeCopy(types, s, e);
  }

  lemma FalsePass(s: string)
    requires OneOpen(s)
    ensures Sub(s, FalseInternal()) == match FalseInternalAt(s, 0)
      case None => s
      case Some(m) => m.out + s[m.end..]
  {
    OneOpenElsewhere(s);
    assert forall j :: 0 <= j < |s| ==> FalseInternal()(s, j) == FalseInternalAt(s, j);
    SubAtStart(s, FalseInternal());
  }

  lemma SlashPass(s: string)
    requires OneOpen(s)
    ensures Sub(s, SlashInternal()) == match SlashInternalAt(s, 0)
      case None => s
      case Some(m) => m.out + s[m.end..]
  {
    OneOpenElsewhere(s);
    assert forall j :: 0 <= j < |s| ==> SlashInternal()(s, j) == SlashInternalAt(s, j);
    SubAtStart(s, SlashInternal());
  }

  // ---------------------------------------------------------------------
  // What the first position holds

  /** Every type name is lower-case letters; none of the current names
      starts with `h`. */
  lemma KindLetters(k: Kind)
    ensures |Name(k)| > 0 && 'a' <= Name(k)[0] <= 'z' && '[' !in Name(k)
    ensures |Current(k)| > 0 && 'a' <= Current(k)[0] <= 'z' && Current(k)[0] != 'h' && '[' !in Current(k)
  {
    match k
    case Parkings =>
    case Users =>
    case Books =>
    case Articles =>
    case Routes =>
    case Waypoints =>
    case Images =>
    case Summits =>
    case Sites =>
    case Huts =>
    case Outings =>
  }

  lemma TailNoBracket(k: Kind, ds: string, rest: string)
    requires AllDigits(ds) && AfterText(rest)
    ensures '[' !in ds && '[' !in rest
    ensures '[' !in TypedTail(k, ds, rest) && '[' !in Current(k) + "/" + ds + rest + "|"
  {
    KindLetters(k);
    assert !AfterChar('[');
  }

  /** No bare id is read past `[[` and its spaces when neither a digit nor
      a slash and a digit follow. */
  lemma NoTypeNone(s: string, a: nat)
    requires LinkOpens(s, 0) && Run(s, 2, SpaceChar) == a && a < |s|
    requires (s[a] != '/' && !IsDigit(s[a])) || (s[a] == '/' && a + 1 < |s| && s[a + 1] != ' ' && !IsDigit(s[a + 1]))
    ensures NoTypeAt(s, 0).None?
  {
    RunChars(s, 2, SpaceChar);
    var b := if s[a] == '/' then a + 1 else a;
    assert Run(s, b, SpaceChar) == b;
    assert Run(s, b, IsDigit) == b;
  }

  /** Neither an absolute nor a slashed link starts where something other
      than a space, a slash or `h` follows `[[`. */
  lemma TypedNone(s: string)
    requires LinkOpens(s, 0) && 2 < |s| && s[2] != ' ' && s[2] != '/' && s[2] != 'h'
    ensures FalseInternalAt(s, 0).None? && SlashInternalAt(s, 0).None?
  {
    assert Run(s, 2, SpaceChar) == 2;
    assert !StartsAt(s, 2, "http");
  }

  /** `[[` and a text without `[` that starts with neither a space, a
      slash nor `h`. */
  lemma PlainOpen(x: string)
    requires |x| > 0 && '[' !in x && x[0] != ' ' && x[0] != '/' && x[0] != 'h'
    ensures OneOpen("[[" + x) && ("[[" + x)[2] == x[0]
  {
    assert ("[[" + x)[2..] == x;
  }

  lemma RewrittenOpen(k: Kind, ds: string, rest: string, caption: string)
    requires AllDigits(ds) && AfterText(rest) && '[' !in caption
    ensures OneOpen(Rewritten(k, ds, rest) + caption)
    ensures var c := (Rewritten(k, ds, rest) + caption)[2]; c != ' ' && c != '/' && c != 'h'
  {
    TailNoBracket(k, ds, rest);
    KindLetters(k);
    var x := Current(k) + "/" + ds + rest + "|" + caption;
    assert Rewritten(k, ds, rest) + caption == "[[" + x;
    PlainOpen(x);
  }

  /** A rewritten head followed by text without `[` is left alone by the
      two typed passes. */
  lemma RewrittenStays(k: Kind, ds: string, rest: string, caption: string)
    requires AllDigits(ds) && AfterText(rest) && '[' !in caption
    ensures OneOpen(Rewritten(k, ds, rest) + caption)
    ensures Sub(Rewritten(k, ds, rest) + caption, FalseInternal()) == Rewritten(k, ds, rest) + caption
    ensures Sub(Rewritten(k, ds, rest) + caption, SlashInternal()) == Rewritten(k, ds, rest) + caption
  {
    RewrittenOpen(k, ds, rest, caption);
    TypedNone(Rewritten(k, ds, rest) + caption);
    FalsePass(Rewritten(k, ds, rest) + caption);
    SlashPass(Rewritten(k, ds, rest) + caption);
  }

  // ---------------------------------------------------------------------
  // One link at the start of the text

  lemma FalseHeadOpen(n: nat, secure: bool, c1: char, c2: char, k: Kind, ds: string, rest: string, caption: string)
    requires c1 != '[' && c2 != '[' && AllDigits(ds) && AfterText(rest) && '[' !in caption
    ensures OneOpen(FalseHead(n, secure, c1, c2, k, ds, rest) + caption)
  {
    var sl := if secure then "s" else "";
    TailNoBracket(k, ds, rest);
    assert ("[[" + Spaces(n))[2..] == Spaces(n);
    OneOpenJoin("[[" + Spaces(n), "http");
    OneOpenJoin("[[" + Spaces(n) + "http", sl);
    OneOpenJoin("[[" + Spaces(n) + "http" + sl, Host(c1, c2));
    OneOpenJoin(FalsePrefix(n, secure, c1, c2), TypedTail(k, ds, rest));
    OneOpenJoin(FalseHead(n, secure, c1, c2, k, ds, rest), caption);
  }

  lemma FalseHeadStart(s: string, n: nat, secure: bool, c1: char, c2: char, k: Kind, ds: string, rest: string)
    requires StartsAt(s, 0, FalseHead(n, secure, c1, c2, k, ds, rest))
    ensures StartsAt(s, 0, "[[" + Spaces(n) + "http" + (if secure then "s" else ""))
  {
    StartsParts(s, 0, FalsePrefix(n, secure, c1, c2), TypedTail(k, ds, rest));
    StartsParts(s, 0, "[[" + Spaces(n) + "http" + (if secure then "s" else ""), Host(c1, c2));
  }

  /** A head followed by a caption starts the text. */
  lemma HeadStarts(h: string, caption: string)
    ensures StartsAt(h + caption, 0, h) && (h + caption)[|h|..] == caption
  {
    StartsAtConcat("", h, caption);
    assert "" + h + caption == h + caption;
  }

  /** An absolute link to the site becomes an internal link with the
      current type name; the caption is kept. */
  lemma FalseLinkCorrected(types: map<nat, char>, n: nat, secure: bool, c1: char, c2: char,
                           k: Kind, ds: string, rest: string, caption: string)
    requires c1 != '\n' && c2 != '\n' && c1 != '[' && c2 != '['
    requires AllDigits(ds) && AfterText(rest) && '[' !in caption
    ensures Correct(types, FalseHead(n, secure, c1, c2, k, ds, rest) + caption) == Success(Rewritten(k, ds, rest) + caption)
  {
    var h := FalseHead(n, secure, c1, c2, k, ds, rest);
    var s := h + caption;
    FalseHeadOpen(n, secure, c1, c2, k, ds, rest, caption);
    HeadStarts(h, caption);
    FalseHeadStart(s, n, secure, c1, c2, k, ds, rest);
    FalseOpenHolds(s, 0, n, secure);
    NoTypeNone(s, 2 + n);
    NoTypePass(types, s);
    FalseInternalAtHead(s, 0, n, secure, c1, c2, k, ds, rest);
    FalsePass(s);
    RewrittenStays(k, ds, rest, caption);
  }

  lemma SlashHeadOpen(n: nat, k: Kind, ds: string, rest: string, caption: string)
    requires AllDigits(ds) && AfterText(rest) && '[' !in caption
    ensures OneOpen(SlashHead(n, k, ds, rest) + caption)
  {
    TailNoBracket(k, ds, rest);
    assert ("[[" + Spaces(n))[2..] == Spaces(n);
    OneOpenJoin("[[" + Spaces(n), "/");
    OneOpenJoin("[[" + Spaces(n) + "/", TypedTail(k, ds, rest));
    OneOpenJoin(SlashHead(n, k, ds, rest), caption);
  }

  /** After `[[` and its spaces a slashed head holds `/` and a letter. */
  lemma SlashHeadChars(s: string, n: nat, k: Kind, ds: string, rest: string)
    requires StartsAt(s, 0, SlashHead(n, k, ds, rest))
    ensures LinkOpens(s, 0) && Run(s, 2, SpaceChar) == 2 + n && 3 + n < |s|
    ensures s[2 + n] == '/' && 'a' <= s[3 + n] <= 'z'
  {
    StartsParts(s, 0, "[[" + Spaces(n) + "/", TypedTail(k, ds, rest));
    StartsParts(s, 0, "[[" + Spaces(n), "/");
    TailLetter(s, n + 3, k, ds, rest);
    OpenSpaces(s, 0, n);
  }

  lemma TailLetter(s: string, q: nat, k: Kind, ds: string, rest: string)
    requires StartsAt(s, q, TypedTail(k, ds, rest))
    ensures q < |s| && 'a' <= s[q] <= 'z'
  {
    StartsAtSlice(s, q, TypedTail(k, ds, rest));
    KindLetters(k);
    assert s[q] == s[q..q + |TypedTail(k, ds, rest)|][0];
  }

  /** No absolute link starts where a slash follows `[[` and its spaces. */
  lemma FalseNoneAtSlash(s: string, a: nat)
    requires LinkOpens(s, 0) && Run(s, 2, SpaceChar) == a && a < |s| && s[a] == '/'
    ensures FalseInternalAt(s, 0).None?
  {
    assert !StartsAt(s, a, "http");
  }

  /** A link starting with `/` loses the slash and its type name is made
      current; the caption is kept. */
  lemma SlashLinkCorrected(types: map<nat, char>, n: nat, k: Kind, ds: string, rest: string, caption: string)
    requires AllDigits(ds) && AfterText(rest) && '[' !in caption
    ensures Correct(types, SlashHead(n, k, ds, rest) + caption) == Success(Rewritten(k, ds, rest) + caption)
  {
    var h := SlashHead(n, k, ds, rest);
    var s := h + caption;
    SlashHeadOpen(n, k, ds, rest, caption);
    HeadStarts(h, caption);
    SlashHeadChars(s, n, k, ds, rest);
    NoTypeNone(s, 2 + n);
    NoTypePass(types, s);
    FalseNoneAtSlash(s, 2 + n);
    FalsePass(s);
    SlashInternalAtHead(s, 0, n, k, ds, rest);
    SlashPass(s);
    RewrittenStays(k, ds, rest, caption);
  }

  lemma PluralLetters(c: char)
    requires Plural(c).Some?
    ensures var p := Plural(c).value; |p| > 0 && 'a' <= p[0] <= 'z' && p[0] != 'h' && '[' !in p
  {
  }

  /** What `repl` of `fixer_no_type` gives back is a head on which the two
      typed passes find nothing. */
  lemma ReplShape(types: map<nat, char>, id: nat)
    requires NoTypeRepl(types, id).Success?
    ensures OneOpen(NoTypeRepl(types, id).value) && 2 < |NoTypeRepl(types, id).value|
    ensures var c := NoTypeRepl(types, id).value[2]; c != ' ' && c != '/' && c != 'h'
  {
    var d := NatToString(id);
    assert '[' !in d;
    if id !in types {
      assert "[[" + d + "|" == "[[" + (d + "|");
      PlainOpen(d + "|");
    } else {
      var p := Plural(types[id]).value;
      PluralLetters(types[id]);
      assert "[[" + p + "/" + d + "|" == "[[" + (p + "/" + d + "|");
      PlainOpen(p + "/" + d + "|");
    }
  }

  lemma NoTypeHeadOpen(k1: nat, slash: bool, k2: nat, ds: string, caption: string)
    requires AllDigits(ds) && '[' !in caption
    ensures OneOpen(NoTypeHead(k1, slash, k2, ds) + caption)
  {
    assert '[' !in ds;
    assert ("[[" + Spaces(k1))[2..] == Spaces(k1);
    OneOpenJoin("[[" + Spaces(k1), if slash then "/" else "");
    OneOpenJoin("[[" + Spaces(k1) + (if slash then "/" else ""), Spaces(k2));
    OneOpenJoin("[[" + Spaces(k1) + (if slash then "/" else "") + Spaces(k2), ds);
    OneOpenJoin("[[" + Spaces(k1) + (if slash then "/" else "") + Spaces(k2) + ds, "|");
    OneOpenJoin(NoTypeHead(k1, slash, k2, ds), caption);
  }

  /** A bare id gets the type the dump records for it, or is written back
      as `[[id|` when the dump does not know it; the caption is kept. */
  lemma NoTypeLinkCorrected(types: map<nat, char>, k1: nat, slash: bool, k2: nat, ds: string, caption: string)
    requires AllDigits(ds) && '[' !in caption && NoTypeRepl(types, DigitsValue(ds)).Success?
    ensures Correct(types, NoTypeHead(k1, slash, k2, ds) + caption) ==
      Success(NoTypeRepl(types, DigitsValue(ds)).value + caption)
  {
    var h := NoTypeHead(k1, slash, k2, ds);
    var s := h + caption;
    var r := NoTypeRepl(types, DigitsValue(ds)).value;
    NoTypeHeadOpen(k1, slash, k2, ds, caption);
    HeadStarts(h, caption);
    StartsAtSlice(s, 0, h);
    NoTypeAtHead(s, 0, k1, slash, k2, ds);
    NoTypePass(types, s);
    ReplShape(types, DigitsValue(ds));
    OneOpenJoin(r, caption);
    assert (r + caption)[2] == r[2];
    TypedNone(r + caption);
    FalsePass(r + caption);
    SlashPass(r + caption);
  }

  // ---------------------------------------------------------------------
  // The fixtures

  /** `786432` reads as the number and renders back the same. */
  lemma Id786432()
    ensures AllDigits("786432") && DigitsValue("786432") == 786432 && NatToString(786432) == "786432"
  {
    assert NatToString(7) == "7";
    assert NatToString(78) == "78";
    assert NatToString(786) == "786";
    assert NatToString(7864) == "7864";
    assert NatToString(78643) == "78643";
    assert NatToString(786432) == "786432";
    NatToStringValue(786432);
  }

  lemma HeadText786432()
    ensures "[[786432|patate]]" == NoTypeHead(0, false, 0, "786432") + "patate]]"
  {
    assert Spaces(0) == "";
  }

  lemma ReplRoute()
    ensures NoTypeRepl(map[786432 := 'r'], 786432) == Success("[[routes/786432|")
  {
    ReplKnown(map[786432 := 'r'], 786432, "routes");
    Id786432();
    RouteHeadText();
  }

  lemma ReplKnown(types: map<nat, char>, id: nat, p: string)
    requires id in types && Plural(types[id]) == Some(p)
    ensures NoTypeRepl(types, id) == Success("[[" + p + "/" + NatToString(id) + "|")
  {
  }

  lemma RouteHeadText()
    ensures "[[" + "routes" + "/" + "786432" + "|" == "[[routes/786432|"
  {
  }

  lemma ReplUnknown()
    ensures NoTypeRepl(map[], 786432) == Success("[[786432|")
  {
    Id786432();
    var r := NoTypeRepl(map[], 786432);
    assert r.value == "[[" + "786432" + "|";
    assert r.value == "[[786432|";
  }

  lemma RouteText()
    ensures "[[routes/786432|" + "patate]]" == "[[routes/786432|patate]]"
  {
  }

  lemma UnknownText()
    ensures "[[786432|" + "patate]]" == "[[786432|patate]]"
  {
  }

  /** The first fixture of the class: the dump knows 786432 as a route. */
  lemma FixtureRouteId()
    ensures Correct(map[786432 := 'r'], "[[786432|patate]]") == Success("[[routes/786432|patate]]")
  {
    Id786432();
    HeadText786432();
    NoTypeLinkCorrected(map[786432 := 'r'], 0, false, 0, "786432", "patate]]");
    ReplRoute();
    RouteText();
  }

  /** The test of the same text with a dump that does not know the id. */
  lemma FixtureUnknownId()
    ensures Correct(map[], "[[786432|patate]]") == Success("[[786432|patate]]")
  {
    Id786432();
    HeadText786432();
    NoTypeLinkCorrected(map[], 0, false, 0, "786432", "patate]]");
    ReplUnknown();
    UnknownText();
  }

  /** A type letter outside the six raises `KeyError`. */
  lemma FixtureOtherLetter()
    ensures Correct(map[786432 := 'u'], "[[786432|patate]]") == Failure("KeyError")
  {
    HeadRead786432();
    assert BadHead(map[786432 := 'u'], "[[786432|patate]]", 0);
    CorrectFails(map[786432 := 'u'], "[[786432|patate]]");
  }

  lemma HeadRead786432()
    ensures NoTypeAt("[[786432|patate]]", 0) == Some((9, "786432")) && DigitsValue("786432") == 786432
  {
    Id786432();
    HeadText786432();
    var h := NoTypeHead(0, false, 0, "786432");
    HeadStarts(h, "patate]]");
    StartsAtSlice(h + "patate]]", 0, h);
    NoTypeAtHead(h + "patate]]", 0, 0, false, 0, "786432");
  }

  lemma SlashText()
    ensures "[[/routes/786432|patate]]" == SlashHead(0, Routes, "786432", "") + "patate]]"
  {
    assert Spaces(0) == "";
    assert TypedTail(Routes, "786432", "") == "routes/786432|";
  }

  lemma RoutesText()
    ensures Rewritten(Routes, "786432", "") + "patate]]" == "[[routes/786432|patate]]"
  {
    assert Current(Routes) == "routes";
  }

  lemma FixtureSlash()
    ensures Correct(map[], "[[/routes/786432|patate]]") == Success("[[routes/786432|patate]]")
  {
    Id786432();
    assert AfterText("");
    SlashText();
    SlashLinkCorrected(map[], 0, Routes, "786432", "", "patate]]");
    RoutesText();
  }

  lemma HostText()
    ensures Host('.', '.') == "://www.camptocamp.org/"
  {
  }

  /** The site prefix of the fixtures, its dots read as themselves. */
  lemma SitePrefix()
    ensures FalsePrefix(0, false, '.', '.') == "[[http://www.camptocamp.org/"
  {
    SpacesNone();
    HostText();
    SiteText("[[" + Spaces(0) + "http" + "", Host('.', '.'));
  }

  lemma SiteText(a: string, b: string)
    requires a == "[[http" && b == "://www.camptocamp.org/"
    ensures a + b == "[[http://www.camptocamp.org/"
  {
  }

  lemma SpacesNone()
    ensures Spaces(0) == ""
  {
  }

  lemma LinkRegroup(p: string, t: string, ds: string, rest: string, caption: string)
    ensures p + (t + "/" + ds + rest + "|") + caption == p + t + "/" + ds + rest + "|" + caption
  {
  }

  /** An absolute link of the fixtures, written in the groups of the
      pattern: the site prefix, the type, the id, what follows the id, the
      `|`, and then the caption. */
  lemma SiteLink(types: map<nat, char>, k: Kind, ds: string, rest: string, caption: string)
    requires AllDigits(ds) && AfterText(rest) && '[' !in caption
    ensures Correct(types, "[[http://www.camptocamp.org/" + Name(k) + "/" + ds + rest + "|" + caption)
      == Success("[[" + Current(k) + "/" + ds + rest + "|" + caption)
  {
    SitePrefix();
    FalseLinkCorrected(types, 0, false, '.', '.', k, ds, rest, caption);
    LinkRegroup("[[http://www.camptocamp.org/", Name(k), ds, rest, caption);
  }

  // The character classes of the fixtures' pieces.

  lemma ArticleClasses()
    ensures AllDigits("106859") && AfterText("/fr") && '[' !in "cotation de randonnée pédestre]]"
  {
    assert AfterText("/fr");
  }

  lemma RouteClasses()
    ensures AllDigits("173371") && AfterText("/it/via-bartesaghi-iii-torrione") && '[' !in "Via Bartesaghi]] "
  {
    assert AfterText("/it/via-bartesaghi-iii-torrione");
  }

  lemma ImageClasses()
    ensures AllDigits("19796") && AfterText("/fr/") && '[' !in "photo]]"
  {
    assert AfterText("/fr/");
  }

  lemma AnchorAfter1()
    ensures AfterText("/fr/presles-approches-descentes-presles")
  {
  }

  lemma AnchorAfter2()
    ensures AfterText("#secteur-fhara-kiri")
  {
  }

  lemma AnchorClasses()
    ensures AllDigits("186949") && AfterText("/fr/presles-approches-descentes-presles" + "#secteur-fhara-kiri")
    ensures '[' !in "Voir approches & descentes]]. "
  {
    AnchorAfter1();
    AnchorAfter2();
    AfterTextJoin("/fr/presles-approches-descentes-presles", "#secteur-fhara-kiri");
  }

  lemma AfterTextJoin(a: string, b: string)
    requires AfterText(a) && AfterText(b)
    ensures AfterText(a + b)
  {
    assert forall j :: |a| <= j < |a + b| ==> (a + b)[j] == b[j - |a|];
  }

  lemma FixtureArticle(types: map<nat, char>)
    ensures Correct(types, "[[http://www.camptocamp.org/" + "articles" + "/" + "106859" + "/fr" + "|"
                           + "cotation de randonnée pédestre]]")
      == Success("[[" + "articles" + "/" + "106859" + "/fr" + "|" + "cotation de randonnée pédestre]]")
  {
    ArticleClasses();
    SiteLink(types, Articles, "106859", "/fr", "cotation de randonnée pédestre]]");
  }

  lemma FixtureRoute(types: map<nat, char>)
    ensures Correct(types, "[[http://www.camptocamp.org/" + "routes" + "/" + "173371" + "/it/via-bartesaghi-iii-torrione" + "|"
                           + "Via Bartesaghi]] ")
      == Success("[[" + "routes" + "/" + "173371" + "/it/via-bartesaghi-iii-torrione" + "|" + "Via Bartesaghi]] ")
  {
    RouteClasses();
    SiteLink(types, Routes, "173371", "/it/via-bartesaghi-iii-torrione", "Via Bartesaghi]] ");
  }

  lemma FixtureImage(types: map<nat, char>)
    ensures Correct(types, "[[http://www.camptocamp.org/" + "images" + "/" + "19796" + "/fr/" + "|" + "photo]]")
      == Success("[[" + "images" + "/" + "19796" + "/fr/" + "|" + "photo]]")
  {
    ImageClasses();
    SiteLink(types, Images, "19796", "/fr/", "photo]]");
  }

  /** The path after the id is written in two pieces. */
  lemma FixtureAnchor(types: map<nat, char>)
    ensures Correct(types, "[[http://www.camptocamp.org/" + "routes" + "/" + "186949"
                           + ("/fr/presles-approches-descentes-presles" + "#secteur-fhara-kiri") + "|"
                           + "Voir approches & descentes]]. ")
      == Success("[[" + "routes" + "/" + "186949" + ("/fr/presles-approches-descentes-presles" + "#secteur-fhara-kiri") + "|"
                 + "Voir approches & descentes]]. ")
  {
    AnchorClasses();
    SiteLink(types, Routes, "186949", "/fr/presles-approches-descentes-presles" + "#secteur-fhara-kiri", "Voir approches & descentes]]. ");
  }
}
