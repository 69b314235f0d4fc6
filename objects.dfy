/** `campbot/objects.py`: the dictionaries the API returns, wrapped so that
    `obj.key` reads `obj["key"]`; the document types and their URL paths;
    locales, their title and text length; document URLs; validity and the
    personal-document test. */
module Objects {
  import opened Wrappers
  import opened Text
  import opened Json

  /** The contents of one API dictionary. */
  type Data = map<string, Json>

  // ---------------------------------------------------------------------
  // Document types

  datatype DocType = WikiUser | Area | Waypoint | Outing | Image | Map | Xreport | Article | Book | Route

  /** The type letter the API uses for a document type. */
  function Letter(t: DocType): string
  {
    match t
    case WikiUser => "u"
    case Area => "a"
    case Waypoint => "w"
    case Outing => "o"
    case Image => "i"
    case Map => "m"
    case Xreport => "x"
    case Article => "c"
    case Book => "b"
    case Route => "r"
  }

  /** `get_constructor`: the class for a type letter; any other key raises. */
  function Constructor(letter: string): Result<DocType>
  {
    if letter == "u" then Success(WikiUser)
    else if letter == "a" then Success(Area)
    else if letter == "w" then Success(Waypoint)
    else if letter == "o" then Success(Outing)
    else if letter == "i" then Success(Image)
    else if letter == "m" then Success(Map)
    else if letter == "x" then Success(Xreport)
    else if letter == "c" then Success(Article)
    else if letter == "b" then Success(Book)
    else if letter == "r" then Success(Route)
    else Failure("KeyError")
  }

  /** The ten letters name the ten types, one each: the lookup succeeds
      exactly on a type's letter and gives that type back. */
  lemma ConstructorLetters(letter: string, t: DocType)
    ensures Constructor(Letter(t)) == Success(t)
    ensures Constructor(letter).Success? ==> Letter(Constructor(letter).value) == letter
    ensures Constructor(letter).Failure? <==> letter !in {"u", "a", "w", "o", "i", "m", "x", "c", "b", "r"}
    ensures Constructor(letter).Failure? ==> Constructor(letter).error == "KeyError"
  {
  }

  /** The class attribute `url_path`. */
  function UrlPath(t: DocType): (p: string)
    ensures |p| > 0 && '/' !in p
  {
    match t
    case WikiUser => "profiles"
    case Area => "areas"
    case Waypoint => "waypoints"
    case Outing => "outings"
    case Image => "images"
    case Map => "maps"
    case Xreport => "xreports"
    case Article => "articles"
    case Book => "books"
    case Route => "routes"
  }

  /** A URL path names one document type. */
  lemma UrlPathInjective(a: DocType, b: DocType)
    ensures UrlPath(a) == UrlPath(b) ==> a == b
  {
  }

  // ---------------------------------------------------------------------
  // Attribute access

  predicate Private(item: string) { |item| > 0 && item[0] == '_' }

  /** `obj.item` for a key of the dictionary: names that start with `_`
      and missing keys raise. */
  function Attr(d: Data, item: string): (r: Result<Json>)
    ensures r.Success? <==> item in d && !Private(item)
    ensures r.Success? ==> r.value == d[item]
  {
    if |item| > 0 && item[0] == '_' then Failure("AttributeError")
    else if item !in d then Failure("AttributeError")
    else Success(d[item])
  }

  /** A `BotObject`: a dictionary, plus the ordinary instance attributes
      Python keeps beside it. Python looks up an instance attribute first
      and only falls back to `__getattr__` when there is none. */
  class BotObject {
    var data: Data
    var attributes: map<string, Json>

    constructor (d: Data)
      ensures data == d && attributes == map[]
    {
      data := d;
      attributes := map[];
    }

    function Get(item: string): Result<Json>
      reads this
    {
      if item in attributes then Success(attributes[item]) else Attr(data, item)
    }

    /** `__setattr__`: an existing key is updated in the dictionary, any
        other name becomes an instance attribute. */
    method SetAttr(key: string, value: Json)
      modifies this
      ensures key in old(data) ==> data == old(data)[key := value] && attributes == old(attributes)
      ensures key !in old(data) ==> attributes == old(attributes)[key := value] && data == old(data)
      ensures key !in old(data) || (key !in old(attributes) && !Private(key)) ==> Get(key) == Success(value)
    {
      if key in data {
        data := data[key := value];
      } else {
        attributes := attributes[key := value];
      }
    }
  }

  // ---------------------------------------------------------------------
  // str() of a decoded value

  /** Python's `str(v)`; containers show the `repr` of their elements. */
  function PyStr(v: Json): string
  {
    match v
    case Str(s) => s
    case _ => PyRepr(v)
  }

  function PyRepr(v: Json): string
    decreases v, 1
  {
    match v
    case Null => "None"
    case Bool(b) => if b then "True" else "False"
    case Int(i) => IntToString(i)
    case Str(s) => ReprString(s)
    case List(items) => "[" + ReprItems(items) + "]"
    case Dict(entries) => "{" + ReprEntries(entries) + "}"
    case Other(t) => "<" + t + ">"
  }

  function ReprItems(items: seq<Json>): string
    decreases items
  {
    if |items| == 0 then ""
    else if |items| == 1 then PyRepr(items[0])
    else PyRepr(items[0]) + ", " + ReprItems(items[1..])
  }

  function ReprEntries(entries: seq<Entry>): string
    decreases entries
  {
    if |entries| == 0 then ""
    else
      var head := ReprString(entries[0].key) + ": " + PyRepr(entries[0].value);
      if |entries| == 1 then head else head + ", " + ReprEntries(entries[1..])
  }

  /** Python's truth value. */
  predicate Truthy(v: Json)
  {
    match v
    case Null => false
    case Bool(b) => b
    case Int(i) => i != 0
    case Str(s) => |s| > 0
    case List(items) => |items| > 0
    case Dict(entries) => |entries| > 0
    case Other(_) => true
  }

  // ---------------------------------------------------------------------
  // Locales

  /** `Locale.get_title`: `"prefix : title"` when the locale has a prefix,
      the title as it is otherwise. */
  function LocaleTitle(l: Data): (r: Result<Json>)
    ensures "title_prefix" in l && "title" in l ==> r == Success(Str(PyStr(l["title_prefix"]) + " : " + PyStr(l["title"])))
    ensures "title_prefix" !in l ==> r == Attr(l, "title")
    ensures r.Failure? <==> "title" !in l
  {
    if "title_prefix" in l then
      var prefix := Attr(l, "title_prefix");
      var title := Attr(l, "title");
      if title.Failure? then Failure(title.error)
      else Success(Str(PyStr(prefix.value) + " : " + PyStr(title.value)))
    else Attr(l, "title")
  }

  /** `Locale.get_locale_fields`. */
  function LocaleFields(): seq<string>
  {
    [
    "description", "gear", "remarks", "route_history", "summary", "access", "access_period",
    "title", "external_resources", "other_comments", "slope", "slackline_anchor1", "slackline_anchor2"
    ]
  }

  lemma LocaleFieldsDistinct()
    ensures |LocaleFields()| == 13
    ensures forall i, j :: 0 <= i < j < |LocaleFields()| ==> LocaleFields()[i] != LocaleFields()[j]
  {
  }

  /** `len(v)`; a number or a boolean has none. */
  function PyLen(v: Json): Result<nat>
  {
    match v
    case Str(s) => Success(|s|)
    case List(items) => Success(|items|)
    case Dict(entries) => Success(|entries|)
    case _ => Failure("TypeError")
  }

  /** What one field adds to the length: nothing when absent or empty. */
  function FieldLength(l: Data, field: string): Result<nat>
  {
    if field in l && Truthy(l[field]) then PyLen(l[field]) else Success(0)
  }

  /** The length of the fields `fields`, raising at the first field that
      has no length. */
  function LengthOf(l: Data, fields: seq<string>): Result<nat>
  {
    if |fields| == 0 then Success(0)
    else
      var h := FieldLength(l, fields[0]);
      if h.Failure? then h
      else
        var rest := LengthOf(l, fields[1..]);
        if rest.Failure? then rest else Success(h.value + rest.value)
  }

  /** `Locale.get_length`. */
  method LocaleLength(l: Data) returns (r: Result<nat>)
    ensures r == LengthOf(l, LocaleFields())
  {
    var fields := LocaleFields();
    var result: nat := 0;
    var i := 0;
    while i < |fields|
      invariant 0 <= i <= |fields|
      invariant LengthOf(l, fields) == AddTo(result, LengthOf(l, fields[i..]))
    {
      var n := FieldLength(l, fields[i]);
      LengthStep(l, fields, i, result);
      if n.Failure? {
        return n;
      }
      result := result + n.value;
      i := i + 1;
    }
    assert fields[i..] == [];
    r := Success(result);
  }

  /** The length from field `i` on, by that field. */
  lemma LengthStep(l: Data, fields: seq<string>, i: nat, result: nat)
    requires i < |fields|
    ensures var n := FieldLength(l, fields[i]);
      AddTo(result, LengthOf(l, fields[i..])) ==
        if n.Failure? then n else AddTo(result + n.value, LengthOf(l, fields[i + 1..]))
  {
    assert fields[i..][0] == fields[i] && fields[i..][1..] == fields[i + 1..];
  }

  function AddTo(n: nat, r: Result<nat>): Result<nat>
  {
    if r.Failure? then r else Success(n + r.value)
  }

  /** A locale whose text fields are text (or missing, or null). */
  predicate TextLocale(l: Data, fields: seq<string>)
  {
    forall k :: 0 <= k < |fields| && fields[k] in l ==> l[fields[k]].Str? || l[fields[k]].Null?
  }

  function TextLength(v: Json): nat { if v.Str? then |v.s| else 0 }

  /** Text fields always have a length. */
  lemma {:induction false} TextLocaleHasLength(l: Data, fields: seq<string>)
    requires TextLocale(l, fields)
    ensures LengthOf(l, fields).Success?
  {
    if |fields| > 0 {
      assert TextLocale(l, fields[1..]) by {
        forall k | 0 <= k < |fields[1..]| && fields[1..][k] in l
          ensures l[fields[1..][k]].Str? || l[fields[1..][k]].Null?
        {
          assert fields[1..][k] == fields[k + 1];
        }
      }
      TextLocaleHasLength(l, fields[1..]);
    }
  }

  /** A field outside the list does not count. */
  lemma {:induction false} LengthIgnoresOtherFields(l: Data, fields: seq<string>, f: string, v: Json)
    requires f !in fields
    ensures LengthOf(l[f := v], fields) == LengthOf(l, fields)
  {
    if |fields| > 0 {
      LengthIgnoresOtherFields(l, fields[1..], f, v);
    }
  }

  /** Rewriting the text of one listed field changes the length by exactly
      the change of that field's length. */
  lemma {:induction false} LengthOfUpdate(l: Data, fields: seq<string>, f: string, t: string)
    requires TextLocale(l, fields)
    requires forall i, j :: 0 <= i < j < |fields| ==> fields[i] != fields[j]
    requires f in fields
    ensures LengthOf(l[f := Str(t)], fields).Success? && LengthOf(l, fields).Success?
    ensures LengthOf(l[f := Str(t)], fields).value + (if f in l then TextLength(l[f]) else 0)
            == LengthOf(l, fields).value + |t|
  {
    TextLocaleHasLength(l, fields);
    var l' := l[f := Str(t)];
    assert TextLocale(l', fields);
    TextLocaleHasLength(l', fields);
    if fields[0] == f {
      assert f !in fields[1..];
      LengthIgnoresOtherFields(l, fields[1..], f, Str(t));
    } else {
      assert TextLocale(l, fields[1..]) by {
        forall k | 0 <= k < |fields[1..]| && fields[1..][k] in l
          ensures l[fields[1..][k]].Str? || l[fields[1..][k]].Null?
        {
          assert fields[1..][k] == fields[k + 1];
        }
      }
      assert f in fields[1..];
      LengthOfUpdate(l, fields[1..], f, t);
    }
  }

  // ---------------------------------------------------------------------
  // Wiki documents

  /** A wiki document: its type, its fields, and its `locales` list when the
      document has one. */
  datatype WikiDoc = WikiDoc(kind: DocType, data: Data, locales: Option<seq<Data>>)

  /** `locale.lang == lang`, reading the attribute. */
  function LangIs(l: Data, lang: string): Result<bool>
  {
    var v := Attr(l, "lang");
    if v.Failure? then Failure(v.error) else Success(v.value == Str(lang))
  }

  /** The position of the first locale in `lang` from `i` on. */
  function FindLocale(ls: seq<Data>, lang: string, i: nat): Result<Option<nat>>
    decreases |ls| - i
  {
    if i >= |ls| then Success(None)
    else
      var m := LangIs(ls[i], lang);
      if m.Failure? then Failure(m.error)
      else if m.value then Success(Some(i))
      else FindLocale(ls, lang, i + 1)
  }

  /** `WikiObject.get_locale`. */
  function GetLocale(doc: WikiDoc, lang: string): Result<Option<Data>>
  {
    if doc.locales.None? then Success(None)
    else
      var r := FindLocale(doc.locales.value, lang, 0);
      if r.Failure? then Failure(r.error)
      else if r.value.None? then Success(None)
      else if r.value.value < |doc.locales.value| then Success(Some(doc.locales.value[r.value.value]))
      else Success(None)
  }

  /** The search stops at the first locale in the language; earlier locales
      all carry another language; no match means none carries it; a locale
      without `lang` met before any match raises. */
  lemma {:induction false} FindLocaleFirst(ls: seq<Data>, lang: string, i: nat)
    requires i <= |ls|
    ensures var r := FindLocale(ls, lang, i);
      && (r.Success? && r.value.Some? ==>
            i <= r.value.value < |ls| && "lang" in ls[r.value.value] && ls[r.value.value]["lang"] == Str(lang)
            && forall j :: i <= j < r.value.value ==> "lang" in ls[j] && ls[j]["lang"] != Str(lang))
      && (r.Success? && r.value.None? ==> forall j :: i <= j < |ls| ==> "lang" in ls[j] && ls[j]["lang"] != Str(lang))
      && (r.Failure? ==> r.error == "AttributeError" && exists j :: i <= j < |ls| && "lang" !in ls[j])
    decreases |ls| - i
  {
    if i < |ls| {
      FindLocaleFirst(ls, lang, i + 1);
    }
  }

  lemma GetLocaleSpec(doc: WikiDoc, lang: string)
    ensures doc.locales.None? ==> GetLocale(doc, lang) == Success(None)
    ensures var r := GetLocale(doc, lang);
      r.Success? && r.value.Some? ==>
        (doc.locales.Some? && r.value.value in doc.locales.value && Attr(r.value.value, "lang") == Success(Str(lang)))
    ensures doc.locales.Some? && GetLocale(doc, lang) == Success(None) ==>
      forall j :: 0 <= j < |doc.locales.value| ==> LangIs(doc.locales.value[j], lang) == Success(false)
  {
    if doc.locales.Some? {
      FindLocaleFirst(doc.locales.value, lang, 0);
    }
  }

  /** `get_url`: `ui/url_path/id`, and `/lang` when a language is given. */
  function GetUrl(ui: string, doc: WikiDoc, lang: Option<string>): Result<string>
  {
    var id := Attr(doc.data, "document_id");
    if id.Failure? then Failure(id.error)
    else Success(ui + "/" + UrlPath(doc.kind) + "/" + PyStr(id.value) + (if lang.None? then "" else "/" + lang.value))
  }

  /** `get_history_url`: `ui/url_path/history/id/lang`. */
  function GetHistoryUrl(ui: string, doc: WikiDoc, lang: string): Result<string>
  {
    var id := Attr(doc.data, "document_id");
    if id.Failure? then Failure(id.error)
    else Success(ui + "/" + UrlPath(doc.kind) + "/history/" + PyStr(id.value) + "/" + lang)
  }

  lemma NoSlashInNumber(i: int)
    ensures '/' !in IntToString(i)
  {
    var s := IntToString(i);
    forall k | 0 <= k < |s| ensures s[k] != '/' {
      if i < 0 && k > 0 {
        assert s[k] == NatToString(-i)[k - 1];
      }
    }
  }

  /** Reading a URL back: after `ui/` come the URL path, the number and the
      language, separated by slashes; the URL path names the type. */
  lemma GetUrlParts(ui: string, doc: WikiDoc, id: int, lang: Option<string>)
    requires "document_id" in doc.data && doc.data["document_id"] == Int(id)
    requires lang.Some? ==> '/' !in lang.value
    ensures GetUrl(ui, doc, lang).Success?
    ensures var url := GetUrl(ui, doc, lang).value;
      && ui + "/" <= url
      && Split(url[|ui| + 1..], "/") ==
           [UrlPath(doc.kind), IntToString(id)] + (if lang.Some? then [lang.value] else [])
  {
    var parts := [UrlPath(doc.kind), IntToString(id)] + (if lang.Some? then [lang.value] else []);
    NoSlashInNumber(id);
    assert PyStr(Int(id)) == IntToString(id);
    var url := GetUrl(ui, doc, lang).value;
    var rest := UrlPath(doc.kind) + "/" + IntToString(id) + (if lang.None? then "" else "/" + lang.value);
    assert url == (ui + "/") + rest;
    assert url[|ui| + 1..] == rest;
    if lang.Some? {
      assert parts[1..][1..] == [lang.value];
      assert Join(parts[1..], "/") == IntToString(id) + "/" + lang.value;
    } else {
      assert Join(parts[1..], "/") == IntToString(id);
    }
    assert Join(parts, "/") == UrlPath(doc.kind) + "/" + Join(parts[1..], "/");
    assert Join(parts, "/") == rest;
    assert forall k :: 0 <= k < |parts| ==> '/' !in parts[k];
    SplitJoinChar(parts, '/');
    assert Split(rest, "/") == parts;
  }

  lemma HistoryJoin(path: string, num: string, lang: string)
    ensures Join([path, "history", num, lang], "/") == path + "/history/" + num + "/" + lang
  {
    JoinFour(path, "history", num, lang, "/");
    assert path + "/" + "history" + "/" == path + "/history/";
  }

  lemma GetHistoryUrlParts(ui: string, doc: WikiDoc, id: int, lang: string)
    requires "document_id" in doc.data && doc.data["document_id"] == Int(id)
    requires '/' !in lang
    ensures GetHistoryUrl(ui, doc, lang).Success?
    ensures var url := GetHistoryUrl(ui, doc, lang).value;
      && ui + "/" <= url
      && Split(url[|ui| + 1..], "/") == [UrlPath(doc.kind), "history", IntToString(id), lang]
  {
    var num := IntToString(id);
    var parts := [UrlPath(doc.kind), "history", num, lang];
    NoSlashInNumber(id);
    assert PyStr(Int(id)) == num;
    var url := GetHistoryUrl(ui, doc, lang).value;
    var rest := UrlPath(doc.kind) + "/history/" + num + "/" + lang;
    assert url == (ui + "/") + rest;
    assert url[|ui| + 1..] == rest;
    HistoryJoin(UrlPath(doc.kind), num, lang);
    assert '/' !in UrlPath(doc.kind) && '/' !in "history" && '/' !in num && '/' !in lang;
    assert forall k :: 0 <= k < |parts| ==> '/' !in parts[k];
    SplitJoinChar(parts, '/');
  }

  // ---------------------------------------------------------------------
  // Validity and personal documents

  /** `get_invalidity_reason`: only waypoints have one. The custodianship
      is read only for huts and gîtes. */
  function InvalidityReason(doc: WikiDoc): Result<Option<string>>
  {
    if doc.kind != Waypoint then Success(None)
    else
      var wt := Attr(doc.data, "waypoint_type");
      if wt.Failure? then Failure(wt.error)
      else
        var hut := wt.value == Str("hut") || wt.value == Str("gite");
        var custodianship := if hut then Attr(doc.data, "custodianship") else Success(Null);
        if custodianship.Failure? then Failure(custodianship.error)
        else if hut && custodianship.value == Null then Success(Some("custodianship is missing"))
        else
          var elevation := Attr(doc.data, "elevation");
          if elevation.Failure? then Failure(elevation.error)
          else if elevation.value == Null && wt.value != Str("climbing_indoor") then Success(Some("elevation is missing"))
          else Success(None)
  }

  /** `is_valid`. */
  function IsValid(doc: WikiDoc): (r: Result<bool>)
    ensures r.Success? <==> InvalidityReason(doc).Success?
    ensures r.Success? ==> (r.value <==> InvalidityReason(doc).value.None?)
  {
    var reason := InvalidityReason(doc);
    if reason.Failure? then Failure(reason.error) else Success(reason.value.None?)
  }

  /** A waypoint with all three fields: which reason is given when. */
  lemma WaypointReasons(doc: WikiDoc)
    requires doc.kind == Waypoint
    requires "waypoint_type" in doc.data && "custodianship" in doc.data && "elevation" in doc.data
    ensures var wt, c, e := doc.data["waypoint_type"], doc.data["custodianship"], doc.data["elevation"];
      var hutMissing := (wt == Str("hut") || wt == Str("gite")) && c == Null;
      && (InvalidityReason(doc) == Success(Some("custodianship is missing")) <==> hutMissing)
      && (InvalidityReason(doc) == Success(Some("elevation is missing")) <==>
            !hutMissing && e == Null && wt != Str("climbing_indoor"))
      && (IsValid(doc) == Success(true) <==> !hutMissing && (e != Null || wt == Str("climbing_indoor")))
  {
  }

  /** The scenario of the source's own test: a summit without elevation is
      invalid, giving it one makes it valid, turning it into a hut without
      custodianship makes it invalid again. */
  lemma WaypointScenario(d: Data)
    requires "waypoint_type" in d && d["waypoint_type"] == Str("summit")
    requires "elevation" in d && d["elevation"] == Null
    ensures InvalidityReason(WikiDoc(Waypoint, d, None)) == Success(Some("elevation is missing"))
    ensures var d1 := d["elevation" := Int(12)];
      && InvalidityReason(WikiDoc(Waypoint, d1, None)) == Success(None)
      && InvalidityReason(WikiDoc(Waypoint, d1["waypoint_type" := Str("hut")]["custodianship" := Null], None))
           == Success(Some("custodianship is missing"))
  {
  }

  /** `is_personal`: users, incident reports and outings always; articles of
      type `personal`; images that are personal or under copyright. */
  function IsPersonal(doc: WikiDoc): Result<bool>
  {
    match doc.kind
    case WikiUser => Success(true)
    case Xreport => Success(true)
    case Outing => Success(true)
    case Article =>
      var t := Attr(doc.data, "article_type");
      if t.Failure? then Failure(t.error) else Success(t.value == Str("personal"))
    case Image =>
      var t := Attr(doc.data, "image_type");
      if t.Failure? then Failure(t.error) else Success(t.value == Str("personal") || t.value == Str("copyright"))
    case _ => Success(false)
  }

  /** Which documents are personal, whatever their fields. */
  lemma PersonalKinds(doc: WikiDoc)
    ensures doc.kind in {WikiUser, Xreport, Outing} ==> IsPersonal(doc) == Success(true)
    ensures doc.kind in {Area, Waypoint, Map, Book, Route} ==> IsPersonal(doc) == Success(false)
    ensures doc.kind == Article && "article_type" in doc.data ==>
      (IsPersonal(doc) == Success(true) <==> doc.data["article_type"] == Str("personal"))
    ensures doc.kind == Image && "image_type" in doc.data ==>
      (IsPersonal(doc) == Success(true) <==> doc.data["image_type"] in {Str("personal"), Str("copyright")})
    ensures IsPersonal(doc).Failure? <==>
      (doc.kind == Article && "article_type" !in doc.data) || (doc.kind == Image && "image_type" !in doc.data)
  {
  }
}
