/** `campbot/core.py`: the pieces of the bots that are not requests — the
    address of the website built from the API's, the topic and post number
    read from a forum URL, and the recent contributions grouped by
    document. */
module Bot {
  import opened Wrappers
  import opened Text
  import opened Grouping

  /** `WikiBot.ui_url`: every `api` of the API address becomes `www`. */
  function UiUrl(apiUrl: string): string
  {
    Replace(apiUrl, "api", "www")
  }

  /** The camptocamp API address gives the website's. */
  lemma UiUrlOfCamptocamp()
    ensures UiUrl("https://" + "api" + ".camptocamp.org") == "https://" + "www" + ".camptocamp.org"
  {
    var a, b := "https://", ".camptocamp.org";
    SchemeHasNoApi(a, b);
    ReplaceFirst(a, "api", "www", b);
    HostHasNoApi(b);
    ReplaceAbsent(b, "api", "www");
  }

  lemma SchemeHasNoApi(a: string, b: string)
    requires a == "https://"
    ensures forall j :: 0 <= j < |a| ==> !StartsAt(a + "api" + b, j, "api")
  {
    forall j | 0 <= j < |a| ensures !StartsAt(a + "api" + b, j, "api") {
      assert (a + "api" + b)[j] == a[j];
    }
  }

  lemma HostHasNoApi(b: string)
    requires b == ".camptocamp.org"
    ensures Absent(b, "api")
  {
    forall j | 0 <= j < |b| ensures !StartsAt(b, j, "api") {
      if b[j] == 'a' {
        assert j + 1 < |b| && b[j + 1] == 'm';
      }
    }
  }

  // ---------------------------------------------------------------------
  // Forum URLs

  /** `ForumBot._get_post_ids`: the URL without the forum address and the
      query string, split on `/`; the second segment must be `t`, the
      fourth is the topic id and the fifth, when there is one, the post
      number. */
  function PostIds(apiUrl: string, url: string): (r: Result<(string, int)>)
    ensures r.Failure? ==> r.error in {"IndexError", "AssertionError", "ValueError"}
  {
    var parts := Split(Split(Replace(url, apiUrl, ""), "?")[0], "/");
    if |parts| < 2 then Failure("IndexError")
    else if parts[1] != "t" then Failure("AssertionError")
    else if |parts| < 4 then Failure("IndexError")
    else if |parts| < 5 then Success((parts[3], 1))
    else
      var n := ParseInt(parts[4]);
      if n.None? then Failure("ValueError") else Success((parts[3], n.value))
  }

  /** The path of a topic, or of a post of it, on the forum. */
  function TopicPath(slug: string, topic: string, post: Option<nat>): string
  {
    "/t/" + slug + "/" + topic + (if post.Some? then "/" + NatToString(post.value) else "")
  }

  predicate Segment(s: string) { '/' !in s && '?' !in s }

  /** A forum URL is read back as its topic and post number, 1 when it names
      no post, whatever query string follows. */
  lemma PostIdsOfTopic(apiUrl: string, slug: string, topic: string, post: Option<nat>, query: string)
    requires |apiUrl| > 0 && Absent(TopicPath(slug, topic, post) + query, apiUrl)
    requires Segment(slug) && Segment(topic)
    requires query == "" || query[0] == '?'
    ensures PostIds(apiUrl, apiUrl + TopicPath(slug, topic, post) + query)
      == Success((topic, if post.Some? then post.value else 1))
  {
    var path := TopicPath(slug, topic, post);
    StripForum(apiUrl, path + query);
    assert apiUrl + path + query == apiUrl + (path + query);
    TopicSegments(slug, topic, post);
    StripQuery(path, query);
    if post.Some? {
      NatToStringValue(post.value);
      DigitsParse(NatToString(post.value));
    }
  }

  /** Removing the forum address from the front of the URL. */
  lemma StripForum(apiUrl: string, rest: string)
    requires |apiUrl| > 0 && Absent(rest, apiUrl)
    ensures Replace(apiUrl + rest, apiUrl, "") == rest
  {
    assert apiUrl + rest == "" + apiUrl + rest;
    ReplaceFirst("", apiUrl, "", rest);
    ReplaceAbsent(rest, apiUrl, "");
  }

  /** Dropping the query string. */
  lemma StripQuery(path: string, query: string)
    requires '?' !in path
    requires query == "" || query[0] == '?'
    ensures Split(path + query, "?")[0] == path
  {
    if query == "" {
      assert path + query == path;
      SplitCharAbsent(path, '?');
    } else {
      assert path + query == path + ['?'] + query[1..];
      SplitCharConcat(path, '?', query[1..]);
    }
  }

  /** The segments of a topic path. */
  lemma TopicSegments(slug: string, topic: string, post: Option<nat>)
    requires Segment(slug) && Segment(topic)
    ensures '?' !in TopicPath(slug, topic, post)
    ensures Split(TopicPath(slug, topic, post), "/") ==
      ["", "t", slug, topic] + (if post.Some? then [NatToString(post.value)] else [])
  {
    var parts := ["", "t", slug, topic] + (if post.Some? then [NatToString(post.value)] else []);
    if post.Some? {
      var n := NatToString(post.value);
      assert '/' !in n && '?' !in n by { assert forall k :: 0 <= k < |n| ==> IsDigit(n[k]); }
      JoinFive("", "t", slug, topic, n, "/");
      assert parts == ["", "t", slug, topic, n];
      assert "" + "/" + "t" + "/" == "/t/";
      assert Join(parts, "/") == TopicPath(slug, topic, post);
    } else {
      JoinFour("", "t", slug, topic, "/");
      assert parts == ["", "t", slug, topic];
      assert "" + "/" + "t" + "/" == "/t/";
      assert Join(parts, "/") == TopicPath(slug, topic, post);
    }
    assert forall k :: 0 <= k < |parts| ==> '/' !in parts[k] && '?' !in parts[k];
    JoinFreeOf(parts, "/", '?');
    SplitJoinChar(parts, '/');
  }

  /** Any URL whose second segment is not `t` is refused. */
  lemma PostIdsNeedTopic(apiUrl: string, url: string)
    requires var parts := Split(Split(Replace(url, apiUrl, ""), "?")[0], "/");
      |parts| >= 2 && parts[1] != "t"
    ensures PostIds(apiUrl, url) == Failure("AssertionError")
  {
  }

  // ---------------------------------------------------------------------
  // Recent contributions

  /** A contribution as `get_modified_documents` reads it: its language,
      the type letter and id of its document, its author's name, and the
      version it created. */
  datatype Contribution = Contribution(lang: string, docType: string, documentId: int, user: string, versionId: int)

  type Key = (int, string)

  function KeyOf(c: Contribution): Key { (c.documentId, c.docType) }

  /** The contributions kept: in the language, not to an image, an outing or
      an incident report, and not by an excluded user. */
  predicate Kept(lang: string, excluded: seq<string>, c: Contribution)
  {
    c.lang == lang && c.docType != "i" && c.docType != "o" && c.docType != "x" && c.user !in excluded
  }

  /** The `OrderedDict` after the contributions `cs`: its keys in insertion
      order, and its lists. */
  function Collect(lang: string, excluded: seq<string>, st: (seq<Key>, Groups<Key, Contribution>), cs: seq<Contribution>)
    : (seq<Key>, Groups<Key, Contribution>)
    decreases |cs|
  {
    if |cs| == 0 then st
    else
      var c := cs[0];
      var next := if Kept(lang, excluded, c) then
        (if KeyOf(c) in st.0 then st.0 else st.0 + [KeyOf(c)], Append(st.1, KeyOf(c), c))
      else st;
      Collect(lang, excluded, next, cs[1..])
  }

  /** `get_modified_documents`, with the contributions passed in. */
  method GetModifiedDocuments(lang: string, contributions: seq<Contribution>, excluded: seq<string>)
    returns (keys: seq<Key>, groups: Groups<Key, Contribution>)
    ensures (keys, groups) == Collect(lang, excluded, ([], map[]), contributions)
  {
    keys, groups := [], map[];
    var i := 0;
    while i < |contributions|
      invariant 0 <= i <= |contributions|
      invariant Collect(lang, excluded, (keys, groups), contributions[i..]) == Collect(lang, excluded, ([], map[]), contributions)
      invariant forall k :: k in keys <==> k in groups
    {
      assert contributions[i..][1..] == contributions[i + 1..];
      var contrib := contributions[i];
      if contrib.lang == lang && contrib.docType != "i" && contrib.docType != "o" && contrib.docType != "x" &&
         contrib.user !in excluded {
        var key := (contrib.documentId, contrib.docType);
        ghost var before := groups;
        if key !in groups {
          keys := keys + [key];
          groups := groups[key := []];
        }
        groups := groups[key := groups[key] + [contrib]];
        assert groups == Append(before, key, contrib);
      }
      i := i + 1;
    }
    assert contributions[i..] == [];
  }

  /** The contributions kept, in order. */
  function KeptOf(lang: string, excluded: seq<string>, cs: seq<Contribution>): (r: seq<Contribution>)
    ensures forall c :: c in r <==> c in cs && Kept(lang, excluded, c)
  {
    if |cs| == 0 then []
    else (if Kept(lang, excluded, cs[0]) then [cs[0]] else []) + KeptOf(lang, excluded, cs[1..])
  }

  function KeySeq(cs: seq<Contribution>): (r: seq<Key>)
    ensures |r| == |cs| && forall i :: 0 <= i < |cs| ==> r[i] == KeyOf(cs[i])
  {
    seq(|cs|, i requires 0 <= i < |cs| => KeyOf(cs[i]))
  }

  function Pairs(cs: seq<Contribution>): (r: seq<(Key, Contribution)>)
    ensures |r| == |cs| && forall i :: 0 <= i < |cs| ==> r[i] == (KeyOf(cs[i]), cs[i])
  {
    seq(|cs|, i requires 0 <= i < |cs| => (KeyOf(cs[i]), cs[i]))
  }

  /** The dictionary is the kept contributions' keys inserted in order, and
      the kept contributions appended under their keys. */
  lemma {:induction false} CollectIsGrouping(lang: string, excluded: seq<string>, order: seq<Key>,
                                            acc: Groups<Key, Contribution>, cs: seq<Contribution>)
    ensures Collect(lang, excluded, (order, acc), cs)
      == (InsertAll(order, KeySeq(KeptOf(lang, excluded, cs))), AppendAll(acc, Pairs(KeptOf(lang, excluded, cs))))
    decreases |cs|
  {
    if |cs| > 0 {
      var c := cs[0];
      var rest := KeptOf(lang, excluded, cs[1..]);
      if Kept(lang, excluded, c) {
        CollectIsGrouping(lang, excluded, if KeyOf(c) in order then order else order + [KeyOf(c)],
                          Append(acc, KeyOf(c), c), cs[1..]);
        var kept := [c] + rest;
        assert KeySeq(kept)[1..] == KeySeq(rest);
        assert Pairs(kept)[1..] == Pairs(rest);
      } else {
        CollectIsGrouping(lang, excluded, order, acc, cs[1..]);
        assert [] + rest == rest;
      }
    }
  }

  /** What `get_modified_documents` returns: one key per document that has
      a kept contribution, each once, in the order of the document's first
      kept contribution; under each key, the kept contributions to that
      document, in input order. */
  lemma ModifiedDocuments(lang: string, excluded: seq<string>, cs: seq<Contribution>)
    ensures var (keys, groups) := Collect(lang, excluded, ([], map[]), cs);
      var kept := KeptOf(lang, excluded, cs);
      && Distinct(keys)
      && (forall k :: k in keys <==> k in KeySeq(kept))
      && (forall i, j :: 0 <= i < j < |keys| ==>
            keys[i] in KeySeq(kept) && keys[j] in KeySeq(kept) &&
            FirstAt(KeySeq(kept), keys[i]) < FirstAt(KeySeq(kept), keys[j]))
      && groups.Keys == KeysOf(Pairs(kept))
      && (forall k :: k in groups ==> groups[k] == ValuesFor(Pairs(kept), k))
  {
    CollectIsGrouping(lang, excluded, [], map[], cs);
    var kept := KeptOf(lang, excluded, cs);
    InsertAllSpec([], KeySeq(kept));
    AppendAllSpec(map[], Pairs(kept));
    var empty: Groups<Key, Contribution> := map[];
    assert forall k: Key :: Listed(empty, k) == [];
  }

  /** Each list holds only kept contributions, to the document its key
      names. */
  lemma {:induction false} GroupedAreKept(lang: string, excluded: seq<string>, cs: seq<Contribution>, key: Key)
    ensures forall c :: c in ValuesFor(Pairs(KeptOf(lang, excluded, cs)), key) ==>
      c in cs && Kept(lang, excluded, c) && KeyOf(c) == key
  {
    ValuesForPairs(KeptOf(lang, excluded, cs), key);
  }

  lemma {:induction false} ValuesForPairs(cs: seq<Contribution>, key: Key)
    ensures forall c :: c in ValuesFor(Pairs(cs), key) ==> c in cs && KeyOf(c) == key
    decreases |cs|
  {
    if |cs| > 0 {
      ValuesForPairs(cs[1..], key);
      assert Pairs(cs)[1..] == Pairs(cs[1..]);
    }
  }
}
