/** `InternalLinkCorrector` of `campbot/processors/bbcode.py`: three
    rewrites of the head `[[…|` of a wiki link, applied in this order:
    a bare document id gets its type from a map of known documents (the
    document dump, passed in here as `types`), an absolute link to the
    site becomes an internal one, and a link starting with `/` loses the
    slash. The patterns are written as matchers for `Rewrite.Sub`. */
module InternalLinks {
  import opened Wrappers
  import opened Text
  import opened Rewrite
  import opened Processor

  /** A literal space, the ` ` of the patterns. */
  predicate SpaceChar(c: char) { c == ' ' }

  /** A wiki link opens at `i`. Every pattern here starts with `\[\[`. */
  predicate LinkOpens(s: string, i: nat) { i + 1 < |s| && s[i] == '[' && s[i + 1] == '[' }

  function Spaces(n: nat): (r: string)
    ensures |r| == n && forall k :: 0 <= k < n ==> r[k] == ' '
  {
    seq(n, _ => ' ')
  }

  // ---------------------------------------------------------------------
  // fixer_no_type: `\[\[ */? *(\d+)\|`

  /** A head the pattern recognises: `[[`, `k1` spaces, an optional `/`,
      `k2` spaces, the digits `ds`, `|`. */
  function NoTypeHead(k1: nat, slash: bool, k2: nat, ds: string): string
  {
    "[[" + Spaces(k1) + (if slash then "/" else "") + Spaces(k2) + ds + "|"
  }

  /** The match at `i`, with where it ends and the digits it captured. Each
      part is a greedy run, and giving back a space or the slash never lets
      the digits start, so the first attempt is the only one. */
  function NoTypeAt(s: string, i: nat): (r: Option<(nat, string)>)
    ensures r.Some? ==> i < r.value.0 <= |s| && AllDigits(r.value.1) && LinkOpens(s, i)
  {
    if !LinkOpens(s, i) then None
    else
      var a := Run(s, i + 2, SpaceChar);
      var b := if a < |s| && s[a] == '/' then a + 1 else a;
      var c := Run(s, b, SpaceChar);
      var d := Run(s, c, IsDigit);
      RunChars(s, c, IsDigit);
      if c < d < |s| && s[d] == '|' then
        assert forall k :: 0 <= k < d - c ==> s[c..d][k] == s[c + k];
        Some((d + 1, s[c..d]))
      else None
  }

  /** The characters of a head, position by position. */
  lemma NoTypeHeadChars(k1: nat, slash: bool, k2: nat, ds: string)
    requires AllDigits(ds)
    ensures var h := NoTypeHead(k1, slash, k2, ds);
      var p2 := 2 + k1 + (if slash then 1 else 0);
      && |h| == p2 + k2 + |ds| + 1
      && h[0] == '[' && h[1] == '['
      && (forall k :: 2 <= k < 2 + k1 ==> h[k] == ' ')
      && (slash ==> h[2 + k1] == '/')
      && (forall k :: p2 <= k < p2 + k2 ==> h[k] == ' ')
      && (forall k :: p2 + k2 <= k < p2 + k2 + |ds| ==> h[k] == ds[k - p2 - k2])
      && h[p2 + k2 + |ds|] == '|'
  {
    var x := "[[" + Spaces(k1) + (if slash then "/" else "") + Spaces(k2);
    assert NoTypeHead(k1, slash, k2, ds) == x + ds + "|";
  }

  /** The runs the matcher reads, given by where each one ends. */
  lemma NoTypeAtRuns(s: string, i: nat, p1: nat, p2: nat, p3: nat, p4: nat)
    requires i + 2 <= p1 <= p2 <= p1 + 1 && p2 <= p3 < p4 < |s|
    requires s[i] == '[' && s[i + 1] == '['
    requires forall k :: i + 2 <= k < p1 ==> s[k] == ' '
    requires p2 == p1 + 1 <==> s[p1] == '/'
    requires forall k :: p2 <= k < p3 ==> s[k] == ' '
    requires forall k :: p3 <= k < p4 ==> IsDigit(s[k])
    requires s[p4] == '|'
    ensures NoTypeAt(s, i) == Some((p4 + 1, s[p3..p4]))
  {
    if p2 == p1 + 1 {
      RunAt(s, i + 2, p1, SpaceChar);
      RunAt(s, p2, p3, SpaceChar);
    } else {
      RunAt(s, i + 2, p3, SpaceChar);
      RunAt(s, p3, p3, SpaceChar);
    }
    RunAt(s, p3, p4, IsDigit);
  }

  /** Every head of the recognised form is matched, with its digits. */
  lemma NoTypeAtHead(s: string, i: nat, k1: nat, slash: bool, k2: nat, ds: string)
    requires AllDigits(ds)
    requires i + |NoTypeHead(k1, slash, k2, ds)| <= |s|
    requires s[i..i + |NoTypeHead(k1, slash, k2, ds)|] == NoTypeHead(k1, slash, k2, ds)
    ensures NoTypeAt(s, i) == Some((i + |NoTypeHead(k1, slash, k2, ds)|, ds))
  {
    var h := NoTypeHead(k1, slash, k2, ds);
    NoTypeHeadChars(k1, slash, k2, ds);
    var q2 := 2 + k1 + (if slash then 1 else 0);
    var p2 := i + q2;
    CopiedHead(s, i, h, k1, slash, q2, k2, ds, i + 2 + k1, p2, p2 + k2, p2 + k2 + |ds|);
    NoTypeAtRuns(s, i, i + 2 + k1, p2, p2 + k2, p2 + k2 + |ds|);
  }

  /** A head copied into the text at `i`, given by its characters: the
      runs the matcher reads there. */
  lemma CopiedHead(s: string, i: nat, h: string, k1: nat, slash: bool, q2: nat, k2: nat, ds: string,
                   p1: nat, p2: nat, p3: nat, p4: nat)
    requires AllDigits(ds) && q2 == 2 + k1 + (if slash then 1 else 0)
    requires p1 == i + 2 + k1 && p2 == i + q2 && p3 == p2 + k2 && p4 == p3 + |ds|
    requires |h| == q2 + k2 + |ds| + 1 && i + |h| <= |s| && s[i..i + |h|] == h
    requires h[0] == '[' && h[1] == '['
    requires forall k :: 2 <= k < 2 + k1 ==> h[k] == ' '
    requires slash ==> h[2 + k1] == '/'
    requires forall k :: q2 <= k < q2 + k2 ==> h[k] == ' '
    requires forall k :: q2 + k2 <= k < q2 + k2 + |ds| ==> h[k] == ds[k - q2 - k2]
    requires h[q2 + k2 + |ds|] == '|'
    ensures i + 2 <= p1 <= p2 <= p1 + 1 && p2 <= p3 < p4 < |s| && p4 + 1 == i + |h|
    ensures s[i] == '[' && s[i + 1] == '['
    ensures forall k :: i + 2 <= k < p1 ==> s[k] == ' '
    ensures p2 == p1 + 1 <==> s[p1] == '/'
    ensures forall k :: p2 <= k < p3 ==> s[k] == ' '
    ensures forall k :: p3 <= k < p4 ==> IsDigit(s[k])
    ensures s[p4] == '|' && s[p3..p4] == ds
  {
    assert forall k :: 0 <= k < |h| ==> s[i + k] == h[k];
    assert s[i..i + |h|][p1 - i] == s[p1];
    assert forall k :: 0 <= k < |ds| ==> s[p3..p4][k] == s[i + (p3 - i + k)] == h[p3 - i + k];
    assert s[p3..p4] == ds;
  }

  /** Text made of such runs is a head. */
  lemma RunsHead(s: string, i: nat, p1: nat, p2: nat, p3: nat, p4: nat)
    requires i + 2 <= p1 <= p2 <= p1 + 1 && p2 <= p3 < p4 < |s|
    requires s[i] == '[' && s[i + 1] == '['
    requires forall k :: i + 2 <= k < p1 ==> s[k] == ' '
    requires p2 == p1 + 1 ==> s[p1] == '/'
    requires forall k :: p2 <= k < p3 ==> s[k] == ' '
    requires forall k :: p3 <= k < p4 ==> IsDigit(s[k])
    requires s[p4] == '|'
    ensures AllDigits(s[p3..p4])
    ensures s[i..p4 + 1] == NoTypeHead(p1 - i - 2, p2 == p1 + 1, p3 - p2, s[p3..p4])
  {
    var ds := s[p3..p4];
    assert forall k :: 0 <= k < |ds| ==> ds[k] == s[p3 + k];
    var h := NoTypeHead(p1 - i - 2, p2 == p1 + 1, p3 - p2, ds);
    NoTypeHeadChars(p1 - i - 2, p2 == p1 + 1, p3 - p2, ds);
    forall k | 0 <= k < |h| ensures s[i..p4 + 1][k] == h[k] {
      if p3 <= i + k < p4 {
        assert h[k] == ds[k - (p3 - i)];
      }
    }
  }

  /** And every match is a head of that form. */
  lemma NoTypeAtShape(s: string, i: nat)
    requires NoTypeAt(s, i).Some?
    ensures exists k1: nat, slash: bool, k2: nat ::
      s[i..NoTypeAt(s, i).value.0] == NoTypeHead(k1, slash, k2, NoTypeAt(s, i).value.1)
  {
    var a := Run(s, i + 2, SpaceChar);
    var b := if a < |s| && s[a] == '/' then a + 1 else a;
    var c := Run(s, b, SpaceChar);
    var d := Run(s, c, IsDigit);
    RunChars(s, i + 2, SpaceChar);
    RunChars(s, b, SpaceChar);
    RunChars(s, c, IsDigit);
    RunsHead(s, i, a, b, c, d);
  }

  /** The plural type names of `fixer_no_type` for the type letters of the
      dump; any other letter is the `KeyError` case. */
  function Plural(c: char): (r: Option<string>)
    ensures r.Some? <==> c in "riawbc"
    ensures r.Some? ==> Singular(r.value) == Some(c)
  {
    match c
    case 'r' => Some("routes")
    case 'i' => Some("images")
    case 'a' => Some("areas")
    case 'w' => Some("waypoints")
    case 'b' => Some("books")
    case 'c' => Some("articles")
    case _ => None
  }

  /** The letter a plural name stands for. */
  function Singular(p: string): Option<char>
  {
    if p == "routes" then Some('r')
    else if p == "images" then Some('i')
    else if p == "areas" then Some('a')
    else if p == "waypoints" then Some('w')
    else if p == "books" then Some('b')
    else if p == "articles" then Some('c')
    else None
  }

  /** `repl` of `fixer_no_type` for the id read from the head: an id the
      dump does not know gives the bare head `[[id|`, a known one the head
      `[[<plural>/id|`, and a known id of another type raises `KeyError`. */
  function NoTypeRepl(types: map<nat, char>, id: nat): (r: Result<string>)
    ensures r.Failure? <==> id in types && types[id] !in "riawbc"
    ensures r.Failure? ==> r.error == "KeyError"
  {
    if id !in types then Success("[[" + NatToString(id) + "|")
    else
      match Plural(types[id])
      case None => Failure("KeyError")
      case Some(p) => Success("[[" + p + "/" + NatToString(id) + "|")
  }

  /** The head written back for an unknown id is read again as a bare id,
      the same number in its canonical digits. */
  lemma UnknownHeadReads(types: map<nat, char>, id: nat)
    requires id !in types
    ensures NoTypeRepl(types, id).Success?
    ensures NoTypeAt(NoTypeRepl(types, id).value, 0) == Some((|NoTypeRepl(types, id).value|, NatToString(id)))
  {
    var h := "[[" + NatToString(id) + "|";
    assert h == NoTypeHead(0, false, 0, NatToString(id)) by { assert Spaces(0) == ""; }
    NoTypeAtHead(h, 0, 0, false, 0, NatToString(id));
    assert h[0..|h|] == h;
  }

  /** The head written for a known id names the plural of its letter. */
  lemma KnownHeadType(types: map<nat, char>, id: nat)
    requires id in types && NoTypeRepl(types, id).Success?
    ensures exists p :: NoTypeRepl(types, id).value == "[[" + p + "/" + NatToString(id) + "|" && Singular(p) == Some(types[id])
  {
    var p := Plural(types[id]).value;
    assert NoTypeRepl(types, id).value == "[[" + p + "/" + NatToString(id) + "|";
  }

  /** `re.sub` with `repl` from `s[i:]`: the first `KeyError` raised by a
      `repl` call ends the whole rewrite. */
  function FixNoTypeFrom(types: map<nat, char>, s: string, i: nat): (r: Result<string>)
    ensures r.Failure? ==> r.error == "KeyError"
    decreases |s| - i
  {
    if i >= |s| then Success("")
    else
      match NoTypeAt(s, i)
      case Some((e, ds)) =>
        var h := NoTypeRepl(types, DigitsValue(ds));
        if h.Failure? then Failure(h.error)
        else
          var rest := FixNoTypeFrom(types, s, e);
          if rest.Failure? then rest else Success(h.value + rest.value)
      case None =>
        var rest := FixNoTypeFrom(types, s, i + 1);
        if rest.Failure? then rest else Success([s[i]] + rest.value)
  }

  function FixNoType(types: map<nat, char>, s: string): Result<string> { FixNoTypeFrom(types, s, 0) }

  /** The same rewrite as a matcher that fires where `repl` succeeds. */
  function NoTypeMatch(types: map<nat, char>, s: string, i: nat): Option<Match>
  {
    match NoTypeAt(s, i)
    case None => None
    case Some((e, ds)) =>
      var h := NoTypeRepl(types, DigitsValue(ds));
      if h.Success? then Some(Match(e, h.value)) else None
  }

  function NoTypeMatcher(types: map<nat, char>): Matcher { (s: string, i: nat) => NoTypeMatch(types, s, i) }

  /** Every type the dump records is one of the six letters. */
  predicate KnownLetters(types: map<nat, char>)
  {
    forall id :: id in types ==> types[id] in "riawbc"
  }

  /** With only the six letters in the dump nothing raises, and the rewrite
      is plain substitution by the matcher. */
  lemma {:induction false} FixNoTypeAgrees(types: map<nat, char>, s: string, i: nat)
    requires KnownLetters(types)
    ensures FixNoTypeFrom(types, s, i) == Success(SubFrom(s, NoTypeMatcher(types), i))
    decreases |s| - i
  {
    if i < |s| {
      var f := NoTypeMatcher(types);
      assert f(s, i) == NoTypeMatch(types, s, i);
      match NoTypeAt(s, i)
      case Some((e, ds)) =>
        FixNoTypeAgrees(types, s, e);
      case None =>
        FixNoTypeAgrees(types, s, i + 1);
    }
  }

  /** A `KeyError` comes from a head whose id the dump gives a letter
      outside the six. */
  lemma {:induction false} FixNoTypeFails(types: map<nat, char>, s: string, i: nat) returns (j: nat)
    requires FixNoTypeFrom(types, s, i).Failure?
    ensures i <= j < |s| && NoTypeAt(s, j).Some?
    ensures var id := DigitsValue(NoTypeAt(s, j).value.1); id in types && types[id] !in "riawbc"
    decreases |s| - i
  {
    match NoTypeAt(s, i)
    case Some((e, ds)) =>
      if NoTypeRepl(types, DigitsValue(ds)).Failure? {
        j := i;
      } else {
        j := FixNoTypeFails(types, s, e);
      }
    case None =>
      j := FixNoTypeFails(types, s, i + 1);
  }

  // ---------------------------------------------------------------------
  // fixer_false_internal and fixer_slash_internal

  /** The document types the two typed patterns name. */
  datatype Kind = Parkings | Users | Books | Articles | Routes | Waypoints | Images | Summits | Sites | Huts | Outings

  /** The text of each alternative of the type group. */
  function Name(k: Kind): string
  {
    match k
    case Parkings => "parkings"
    case Users => "users"
    case Books => "books"
    case Articles => "articles"
    case Routes => "routes"
    case Waypoints => "waypoints"
    case Images => "images"
    case Summits => "summits"
    case Sites => "sites"
    case Huts => "huts"
    case Outings => "outings"
  }

  /** The alternatives of the type group, in the order the regex tries them. */
  const Alternatives: seq<Kind> :=
    [Parkings, Users, Books, Articles, Routes, Waypoints, Images, Summits, Sites, Huts, Outings]

  /** The names a rewritten link can carry. */
  const CurrentTypes: set<string> := {"books", "articles", "routes", "waypoints", "images", "outings", "profiles"}

  /** The name a rewritten link carries: summits, sites, huts and parkings
      are now waypoints, users are profiles, the rest keep their name. */
  function Current(k: Kind): string
  {
    if k in {Summits, Sites, Huts, Parkings} then "waypoints"
    else if k == Users then "profiles"
    else Name(k)
  }

  /** Every type is read as a current one, and exactly the five old names
      change. */
  lemma CurrentNames(k: Kind)
    ensures Current(k) in CurrentTypes
    ensures Current(k) != Name(k) <==> k in {Summits, Sites, Huts, Parkings, Users}
  {
  }

  /** Every type is one of the alternatives, and each is tried once. */
  lemma AlternativesComplete(k: Kind)
    ensures k in Alternatives
    ensures forall i, j :: 0 <= i < j < |Alternatives| ==> Alternatives[i] != Alternatives[j]
  {
  }

  /** `t/` is found at `p`. */
  predicate TypeFits(s: string, p: nat, t: string)
  {
    StartsAt(s, p, t) && p + |t| < |s| && s[p + |t|] == '/'
  }

  /** The first alternative of `ks` found at `p` and followed by `/`. */
  function KindFrom(s: string, p: nat, ks: seq<Kind>): Option<Kind>
  {
    if |ks| == 0 then None
    else if TypeFits(s, p, Name(ks[0])) then Some(ks[0])
    else KindFrom(s, p, ks[1..])
  }

  /** The type group at `p`, tried alternative by alternative. */
  function KindAt(s: string, p: nat): Option<Kind> { KindFrom(s, p, Alternatives) }

  /** No name holds a slash, so two names followed by `/` at the same
      place are the same name: the alternation never has a second choice
      to fall back on, and trying the alternatives in order finds the
      only one there is. */
  lemma NamesApart(s: string, p: nat, k1: Kind, k2: Kind)
    requires TypeFits(s, p, Name(k1)) && TypeFits(s, p, Name(k2))
    ensures k1 == k2
  {
    FitsApart(s, p, Name(k1), Name(k2));
  }

  /** Two slash-free texts each followed by `/` at `p` are the same. */
  lemma FitsApart(s: string, p: nat, t1: string, t2: string)
    requires TypeFits(s, p, t1) && TypeFits(s, p, t2) && '/' !in t1 && '/' !in t2
    ensures t1 == t2
  {
    StartsAtSlice(s, p, t1);
    StartsAtSlice(s, p, t2);
  }

  /** What is read is one of the alternatives, and it fits. */
  lemma {:induction false} KindFromSound(s: string, p: nat, ks: seq<Kind>)
    ensures KindFrom(s, p, ks).Some? ==> KindFrom(s, p, ks).value in ks && TypeFits(s, p, Name(KindFrom(s, p, ks).value))
    decreases |ks|
  {
    if |ks| > 0 && !TypeFits(s, p, Name(ks[0])) {
      KindFromSound(s, p, ks[1..]);
    }
  }

  lemma KindAtSound(s: string, p: nat)
    ensures KindAt(s, p).Some? ==> TypeFits(s, p, Name(KindAt(s, p).value))
  {
    KindFromSound(s, p, Alternatives);
  }

  /** The type that fits is the one read. */
  lemma {:induction false} KindFromFits(s: string, p: nat, ks: seq<Kind>, k: Kind)
    requires k in ks && TypeFits(s, p, Name(k))
    ensures KindFrom(s, p, ks) == Some(k)
    decreases |ks|
  {
    if ks[0] == k {
    } else if TypeFits(s, p, Name(ks[0])) {
      NamesApart(s, p, ks[0], k);
    } else {
      KindFromFits(s, p, ks[1..], k);
    }
  }

  lemma KindAtFits(s: string, p: nat, k: Kind)
    requires TypeFits(s, p, Name(k))
    ensures KindAt(s, p) == Some(k)
  {
    AlternativesComplete(k);
    KindFromFits(s, p, Alternatives, k);
  }

  /** `[\w\-/#]`. */
  predicate AfterChar(c: char) { IsWordChar(c) || c == '-' || c == '/' || c == '#' }

  /** `(\d+)([\w\-/#]*)\|` from `q`: where the `|` is. Digits are word
      characters, so wherever the digits give way the class run ends at the
      same place, and only that place is tried. */
  function TailAt(s: string, q: nat): (r: Option<nat>)
    ensures r.Some? ==> q < r.value < |s| && s[r.value] == '|'
  {
    var d := Run(s, q, IsDigit);
    var e := Run(s, d, AfterChar);
    if q < d && e < |s| && s[e] == '|' then Some(e) else None
  }

  /** `(types)/(\d+)([\w\-/#]*)\|` from `p`, with the head rewritten to
      `[[type/id rest|`. */
  function TypedAt(s: string, p: nat): (r: Option<Match>)
    ensures r.Some? ==> p < r.value.end <= |s|
  {
    match KindAt(s, p)
    case None => None
    case Some(k) => TypedFrom(s, p + |Name(k)| + 1, k)
  }

  /** The digits and the rest from `q`, after the type `k` and its slash. */
  function TypedFrom(s: string, q: nat, k: Kind): (r: Option<Match>)
    ensures r.Some? ==> q < r.value.end <= |s|
  {
    match TailAt(s, q)
    case None => None
    case Some(e) => Some(Match(e + 1, "[[" + Current(k) + "/" + s[q..e] + "|"))
  }

  /** `://www.camptocamp.org/` at `b`, each of the two unescaped dots
      standing for any character but a newline. */
  predicate HostAt(s: string, b: nat)
  {
    && StartsAt(s, b, "://www") && b + 6 < |s| && s[b + 6] != '\n'
    && StartsAt(s, b + 7, "camptocamp") && b + 17 < |s| && s[b + 17] != '\n'
    && StartsAt(s, b + 18, "org/")
  }

  /** The host text with `c1` and `c2` in place of the dots. */
  function Host(c1: char, c2: char): (r: string)
    ensures |r| == 22
  {
    "://www" + [c1] + "camptocamp" + [c2] + "org/"
  }

  /** `\[\[ *https?://www.camptocamp.org/` at `i`: where the typed part
      starts. */
  function FalseSite(s: string, i: nat): (r: Option<nat>)
    ensures r.Some? ==> LinkOpens(s, i) && i < r.value
  {
    if !LinkOpens(s, i) then None
    else
      var a := Run(s, i + 2, SpaceChar);
      if !StartsAt(s, a, "http") then None
      else
        var b := if a + 4 < |s| && s[a + 4] == 's' then a + 5 else a + 4;
        if HostAt(s, b) then Some(b + 22) else None
  }

  /** `\[\[ *https?://www.camptocamp.org/` then the typed part. */
  function FalseInternalAt(s: string, i: nat): (r: Option<Match>)
    ensures r.Some? ==> LinkOpens(s, i) && i < r.value.end <= |s|
  {
    match FalseSite(s, i)
    case None => None
    case Some(p) => TypedAt(s, p)
  }

  // `\[\[ */` at `i`: where the typed part starts.
  function SlashSite(s: string, i: nat): (r: Option<nat>)
    ensures r.Some? ==> LinkOpens(s, i) && i < r.value
  {
    if !LinkOpens(s, i) then None
    else
      var a := Run(s, i + 2, SpaceChar);
      if a < |s| && s[a] == '/' then Some(a + 1) else None
  }

  // `\[\[ */` then the typed part.
  function SlashInternalAt(s: string, i: nat): (r: Option<Match>)
    ensures r.Some? ==> LinkOpens(s, i) && i < r.value.end <= |s|
  {
    match SlashSite(s, i)
    case None => None
    case Some(p) => TypedAt(s, p)
  }

  function FalseInternal(): Matcher { (s: string, i: nat) => FalseInternalAt(s, i) }

  function SlashInternal(): Matcher { (s: string, i: nat) => SlashInternalAt(s, i) }

  // ---------------------------------------------------------------------
  // The corrector

  /** The three fixers in the order `init_modifiers` lists them, each a
      rewrite of the whole text; a `KeyError` of `fixer_no_type` ends the
      call. */
  function Correct(types: map<nat, char>, md: string): Result<string>
  {
    match FixNoType(types, md)
    case Failure(e) => Failure(e)
    case Success(t) => Success(Sub(Sub(t, FalseInternal()), SlashInternal()))
  }

  /** The modifiers, with `fixer_no_type` as its matcher. */
  function Modifiers(types: map<nat, char>): seq<Modifier>
  {
    [ (s: string) => Sub(s, NoTypeMatcher(types)),
      (s: string) => Sub(s, FalseInternal()),
      (s: string) => Sub(s, SlashInternal()) ]
  }

  /** When the dump only records the six letters, the corrector never
      raises and is `modify` over its three modifiers. */
  lemma CorrectModify(types: map<nat, char>, md: string)
    requires KnownLetters(types)
    ensures Correct(types, md) == Success(ApplyAll(Modifiers(types), md))
  {
    FixNoTypeAgrees(types, md, 0);
    var ms := Modifiers(types);
    assert ms[1..][1..][1..] == [];
  }

  /** A head whose id the dump gives a letter outside the six. */
  predicate BadHead(types: map<nat, char>, s: string, j: nat)
  {
    NoTypeAt(s, j).Some? && DigitsValue(NoTypeAt(s, j).value.1) in types
    && types[DigitsValue(NoTypeAt(s, j).value.1)] !in "riawbc"
  }

  /** No head starts inside another: past its `[[` a head holds only
      spaces, a slash, digits and its `|`. */
  lemma NoHeadInside(s: string, i: nat, j: nat)
    requires NoTypeAt(s, i).Some? && i < j < NoTypeAt(s, i).value.0
    ensures !LinkOpens(s, j)
  {
    var e := NoTypeAt(s, i).value.0;
    var ds := NoTypeAt(s, i).value.1;
    NoTypeAtShape(s, i);
    var k1: nat, slash: bool, k2: nat :| s[i..e] == NoTypeHead(k1, slash, k2, ds);
    NoTypeHeadChars(k1, slash, k2, ds);
    var h := NoTypeHead(k1, slash, k2, ds);
    assert forall m :: 2 <= m < |h| ==> h[m] != '[';
    if j + 1 < e {
      assert s[j + 1] == h[j + 1 - i];
    } else {
      assert s[j] == h[j - i];
    }
  }

  /** `fixer_no_type` raises exactly when the text holds such a head. */
  lemma {:induction false} FixNoTypeRaises(types: map<nat, char>, s: string, i: nat, j: nat)
    requires i <= j < |s| && BadHead(types, s, j)
    ensures FixNoTypeFrom(types, s, i).Failure?
    decreases j - i
  {
    if i < j {
      match NoTypeAt(s, i)
      case Some((e, ds)) =>
        if NoTypeRepl(types, DigitsValue(ds)).Success? {
          if e > j { NoHeadInside(s, i, j); }
          FixNoTypeRaises(types, s, e, j);
        }
      case None =>
        FixNoTypeRaises(types, s, i + 1, j);
    }
  }

  /** The corrector raises `KeyError` exactly when some head carries an id
      whose letter is outside the six. */
  lemma CorrectFails(types: map<nat, char>, md: string)
    ensures Correct(types, md).Failure? <==> exists j :: 0 <= j < |md| && BadHead(types, md, j)
    ensures Correct(types, md).Failure? ==> Correct(types, md).error == "KeyError"
  {
    if Correct(types, md).Failure? {
      var j := FixNoTypeFails(types, md, 0);
      assert BadHead(types, md, j);
    }
    if exists j :: 0 <= j < |md| && BadHead(types, md, j) {
      var j :| 0 <= j < |md| && BadHead(types, md, j);
      FixNoTypeRaises(types, md, 0, j);
    }
  }

  /** Where no link opens from `i` on, `fixer_no_type` copies the text. */
  lemma {:induction false} FixNoTypeCopy(types: map<nat, char>, s: string, i: nat)
    requires i <= |s|
    requires forall j :: i <= j < |s| ==> !LinkOpens(s, j)
    ensures FixNoTypeFrom(types, s, i) == Success(s[i..])
    decreases |s| - i
  {
    if i < |s| {
      FixNoTypeCopy(types, s, i + 1);
      assert s[i..] == [s[i]] + s[i + 1..];
    }
  }

  /** A text in which no link opens is left as it is. */
  lemma CorrectNoLink(types: map<nat, char>, md: string)
    requires forall j :: 0 <= j < |md| ==> !LinkOpens(md, j)
    ensures Correct(types, md) == Success(md)
  {
    FixNoTypeCopy(types, md, 0);
    assert forall j :: 0 <= j < |md| ==> FalseInternal()(md, j) == FalseInternalAt(md, j);
    SubNoMatch(md, FalseInternal());
    assert forall j :: 0 <= j < |md| ==> SlashInternal()(md, j) == SlashInternalAt(md, j);
    SubNoMatch(md, SlashInternal());
  }
}
