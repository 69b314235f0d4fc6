/** `campbot/processors/core.py`: a markdown processor is an ordered list
    of modifiers (text to text); it checks its own fixtures when it is
    built, and applied to a document it rewrites the text fields of the
    locales it is meant for, in place. */
module Processor {
  import opened Wrappers
  import opened Json
  import opened Objects

  type Modifier = string -> string

  /** The modifiers applied left to right, each to the output of the one
      before. */
  function ApplyAll(ms: seq<Modifier>, md: string): string
    decreases |ms|
  {
    if |ms| == 0 then md else ApplyAll(ms[1..], ms[0](md))
  }

  lemma {:induction false} ApplyAllAppend(a: seq<Modifier>, b: seq<Modifier>, md: string)
    ensures ApplyAll(a + b, md) == ApplyAll(b, ApplyAll(a, md))
    decreases |a|
  {
    if |a| == 0 {
      assert a + b == b;
    } else {
      assert (a + b)[1..] == a[1..] + b;
      ApplyAllAppend(a[1..], b, a[0](md));
    }
  }

  /** No modifier: the text as it is; one more modifier at the end: applied
      to what the others produced. */
  lemma ApplyAllShape(ms: seq<Modifier>, m: Modifier, md: string)
    ensures ApplyAll([], md) == md
    ensures ApplyAll(ms + [m], md) == m(ApplyAll(ms, md))
  {
    ApplyAllAppend(ms, [m], md);
  }

  /** Modifiers that each leave a text as it is leave it as it is together. */
  lemma {:induction false} ApplyAllFixed(ms: seq<Modifier>, md: string)
    requires forall k :: 0 <= k < |ms| ==> ms[k](md) == md
    ensures ApplyAll(ms, md) == md
    decreases |ms|
  {
    if |ms| > 0 { ApplyAllFixed(ms[1..], md); }
  }

  /** A fixture: `modify(source)` must give `expected`. */
  datatype Fixture = Fixture(source: string, expected: string)

  predicate Passes(ms: seq<Modifier>, t: Fixture) { ApplyAll(ms, t.source) == t.expected }

  /** `modify`. */
  method Modify(ms: seq<Modifier>, md: string) returns (result: string)
    ensures result == ApplyAll(ms, md)
  {
    result := md;
    var i := 0;
    while i < |ms|
      invariant 0 <= i <= |ms|
      invariant ApplyAll(ms, md) == ApplyAll(ms[i..], result)
    {
      assert ms[i..][1..] == ms[i + 1..];
      result := ms[i](result);
      i := i + 1;
    }
    assert ms[i..] == [];
  }

  /** `do_tests`: the first fixture that fails raises `TEST FAILED`. */
  method DoTests(ms: seq<Modifier>, tests: seq<Fixture>) returns (err: Option<string>)
    ensures err.None? <==> forall k :: 0 <= k < |tests| ==> Passes(ms, tests[k])
    ensures err.Some? ==> err.value == "TEST FAILED"
  {
    var i := 0;
    while i < |tests|
      invariant 0 <= i <= |tests|
      invariant forall k :: 0 <= k < i ==> Passes(ms, tests[k])
    {
      var result := Modify(ms, tests[i].source);
      if result != tests[i].expected {
        return Some("TEST FAILED");
      }
      i := i + 1;
    }
    err := None;
  }

  // ---------------------------------------------------------------------
  // Rewriting the locales of a document

  /** A field `__call__` rewrites: listed, present, not empty, not the
      title. */
  predicate Processed(d: Data, f: string)
  {
    f in d && Truthy(d[f]) && f != "title" && d[f].Str?
  }

  function FieldStep(ms: seq<Modifier>, st: (Data, bool), f: string): (Data, bool)
  {
    var (d, updated) := st;
    if Processed(d, f) then
      var n := ApplyAll(ms, d[f].s);
      (d[f := Str(n)], updated || n != d[f].s)
    else st
  }

  /** The locale and the `updated` flag after the fields `fields`. */
  function FieldsFrom(ms: seq<Modifier>, st: (Data, bool), fields: seq<string>): (Data, bool)
    decreases |fields|
  {
    if |fields| == 0 then st else FieldsFrom(ms, FieldStep(ms, st, fields[0]), fields[1..])
  }

  /** What rewriting the listed fields of a locale does: the same keys; each
      processed field holds the modified text; every other field is as it
      was; the flag is raised exactly when some processed field changed. */
  lemma {:induction false} FieldsFromSpec(ms: seq<Modifier>, d: Data, updated: bool, fields: seq<string>)
    requires forall i, j :: 0 <= i < j < |fields| ==> fields[i] != fields[j]
    ensures var r := FieldsFrom(ms, (d, updated), fields);
      && r.0.Keys == d.Keys
      && (forall f :: f in d && !(f in fields && Processed(d, f)) ==> r.0[f] == d[f])
      && (forall f :: f in fields && Processed(d, f) ==> r.0[f] == Str(ApplyAll(ms, d[f].s)))
      && (r.1 <==> updated || exists f :: f in fields && Processed(d, f) && ApplyAll(ms, d[f].s) != d[f].s)
    decreases |fields|
  {
    if |fields| > 0 {
      var f0 := fields[0];
      var (d1, u1) := FieldStep(ms, (d, updated), f0);
      FieldsFromSpec(ms, d1, u1, fields[1..]);
      assert forall f :: f in fields[1..] ==> f != f0 by {
        forall f | f in fields[1..] ensures f != f0 {
          var k :| 0 <= k < |fields[1..]| && fields[1..][k] == f;
          assert fields[k + 1] == f;
        }
      }
      assert forall f :: f != f0 ==> (Processed(d1, f) <==> Processed(d, f)) && (f in d ==> d1[f] == d[f]);
      assert forall f :: f in fields <==> f == f0 || f in fields[1..];
    }
  }

  lemma FieldsFromNext(ms: seq<Modifier>, st: (Data, bool), fields: seq<string>, i: nat)
    requires i < |fields|
    ensures FieldsFrom(ms, st, fields[i..]) == FieldsFrom(ms, FieldStep(ms, st, fields[i]), fields[i + 1..])
  {
    assert fields[i..][1..] == fields[i + 1..];
  }

  /** The locale after `__call__`, when it is one of those processed. */
  function Rewritten(ms: seq<Modifier>, d: Data): Data { FieldsFrom(ms, (d, false), LocaleFields()).0 }

  function Changes(ms: seq<Modifier>, d: Data): bool { FieldsFrom(ms, (d, false), LocaleFields()).1 }

  /** The title is never rewritten, and no field is added or removed. */
  lemma TitleNeverRewritten(ms: seq<Modifier>, d: Data)
    ensures Rewritten(ms, d).Keys == d.Keys
    ensures "title" in d ==> Rewritten(ms, d)["title"] == d["title"]
    ensures forall f :: f in d && f !in LocaleFields() ==> Rewritten(ms, d)[f] == d[f]
    ensures Changes(ms, d) <==> exists f :: f in LocaleFields() && Processed(d, f) && ApplyAll(ms, d[f].s) != d[f].s
  {
    LocaleFieldsDistinct();
    FieldsFromSpec(ms, d, false, LocaleFields());
  }

  /** A locale of the document that the processor is meant for. */
  predicate Selected(langs: Option<set<string>>, lang: Result<Json>)
  {
    langs.None? || (lang.Success? && lang.value.Str? && lang.value.s in langs.value)
  }

  /** With a language list, reading `locale.lang` on a locale that has
      none raises `AttributeError`; without one it is never read. */
  predicate Raises(langs: Option<set<string>>, lang: Result<Json>)
  {
    langs.Some? && lang.Failure?
  }

  /** A locale after `__call__`: rewritten when selected, as it was
      otherwise. */
  function Outcome(ms: seq<Modifier>, langs: Option<set<string>>, lang: Result<Json>, d: Data): Data
  {
    if Selected(langs, lang) then Rewritten(ms, d) else d
  }

  predicate ChangedBy(ms: seq<Modifier>, langs: Option<set<string>>, lang: Result<Json>, d: Data)
  {
    Selected(langs, lang) && Changes(ms, d)
  }

  class MarkdownProcessor {
    const modifiers: seq<Modifier>
    /** `None`: every language. */
    const langs: Option<set<string>>

    constructor (ms: seq<Modifier>, ls: Option<set<string>>)
      ensures modifiers == ms && langs == ls
    {
      modifiers := ms;
      langs := ls;
    }

    /** Building a processor: its modifiers, then its fixtures checked. */
    static method Create(ms: seq<Modifier>, ls: Option<set<string>>, tests: seq<Fixture>)
      returns (r: Result<MarkdownProcessor>)
      ensures r.Success? <==> forall k :: 0 <= k < |tests| ==> Passes(ms, tests[k])
      ensures r.Failure? ==> r.error == "TEST FAILED"
      ensures r.Success? ==> fresh(r.value) && r.value.modifiers == ms && r.value.langs == ls
    {
      var p := new MarkdownProcessor(ms, ls);
      var err := DoTests(ms, tests);
      if err.Some? {
        return Failure(err.value);
      }
      r := Success(p);
    }

    /** The inner loop of `__call__` over the listed fields of one locale. */
    method RewriteFields(locale: BotObject, fields: seq<string>) returns (updated: bool)
      modifies locale
      ensures locale.data == FieldsFrom(modifiers, (old(locale.data), false), fields).0
      ensures updated == FieldsFrom(modifiers, (old(locale.data), false), fields).1
      ensures locale.attributes == old(locale.attributes)
    {
      updated := false;
      var i := 0;
      while i < |fields|
        invariant 0 <= i <= |fields|
        invariant FieldsFrom(modifiers, (locale.data, updated), fields[i..])
                  == FieldsFrom(modifiers, (old(locale.data), false), fields)
        invariant locale.attributes == old(locale.attributes)
      {
        FieldsFromNext(modifiers, (locale.data, updated), fields, i);
        var field := fields[i];
        if field in locale.data && Truthy(locale.data[field]) && field != "title" && locale.data[field].Str? {
          var markdown := locale.data[field].s;
          var newValue := Modify(modifiers, markdown);
          updated := updated || newValue != markdown;
          locale.data := locale.data[field := Str(newValue)];
        }
        i := i + 1;
      }
      assert fields[i..] == [];
    }

    /** The fields of `get_locale_fields` of one locale. */
    method RewriteLocale(locale: BotObject) returns (updated: bool)
      modifies locale
      ensures locale.data == Rewritten(modifiers, old(locale.data))
      ensures updated == Changes(modifiers, old(locale.data))
      ensures locale.attributes == old(locale.attributes)
    {
      updated := RewriteFields(locale, LocaleFields());
    }

    /** One locale of `__call__`: rewritten when it is in one of the
        processor's languages. With a language list, `locale.lang` is read,
        and a locale without it raises. */
    method ProcessLocale(locale: BotObject) returns (r: Result<bool>)
      modifies locale
      ensures r.Failure? <==> Raises(langs, old(locale.Get("lang")))
      ensures r.Failure? ==> r.error == old(locale.Get("lang")).error && locale.data == old(locale.data)
      ensures r.Success? ==> locale.data == Outcome(modifiers, langs, old(locale.Get("lang")), old(locale.data))
      ensures r.Success? ==> r.value == ChangedBy(modifiers, langs, old(locale.Get("lang")), old(locale.data))
      ensures locale.attributes == old(locale.attributes)
    {
      var lang := locale.Get("lang");
      if langs.Some? && lang.Failure? {
        return Failure(lang.error);
      }
      var changed := false;
      if Selected(langs, lang) {
        changed := RewriteLocale(locale);
      }
      r := Success(changed);
    }

    /** `__call__` on the locales of a document (none when it has no
        `locales`): each selected locale is rewritten, the others are left
        alone, and the answer says whether any text changed. A locale that
        raises stops the loop: the locales before it stay rewritten, it and
        those after it are untouched. */
    method Call(locales: seq<BotObject>) returns (r: Result<bool>)
      requires forall i, j :: 0 <= i < j < |locales| ==> locales[i] != locales[j]
      modifies set i | 0 <= i < |locales| :: locales[i]
      ensures r.Failure? <==> exists i :: 0 <= i < |locales| && Raises(langs, old(locales[i].Get("lang")))
      ensures r.Success? ==> forall i :: 0 <= i < |locales| ==>
        locales[i].data == Outcome(modifiers, langs, old(locales[i].Get("lang")), old(locales[i].data))
      ensures r.Success? ==>
        (r.value <==> exists i :: (0 <= i < |locales| &&
                                   ChangedBy(modifiers, langs, old(locales[i].Get("lang")), old(locales[i].data))))
      ensures r.Failure? ==>
        exists k :: 0 <= k < |locales| && Raises(langs, old(locales[k].Get("lang"))) &&
          r.error == old(locales[k].Get("lang")).error &&
          (forall j :: 0 <= j < k ==> !Raises(langs, old(locales[j].Get("lang")))) &&
          (forall j :: 0 <= j < k ==>
            locales[j].data == Outcome(modifiers, langs, old(locales[j].Get("lang")), old(locales[j].data))) &&
          (forall j :: k <= j < |locales| ==> locales[j].data == old(locales[j].data))
      ensures forall i :: 0 <= i < |locales| ==> locales[i].attributes == old(locales[i].attributes)
    {
      var updated := false;
      var i := 0;
      while i < |locales|
        invariant 0 <= i <= |locales|
        invariant forall j :: 0 <= j < |locales| ==> locales[j].attributes == old(locales[j].attributes)
        invariant forall j :: 0 <= j < i ==> !Raises(langs, old(locales[j].Get("lang")))
        invariant forall j :: 0 <= j < i ==>
          locales[j].data == Outcome(modifiers, langs, old(locales[j].Get("lang")), old(locales[j].data))
        invariant forall j :: i <= j < |locales| ==> locales[j].data == old(locales[j].data)
        invariant updated <==> exists j :: 0 <= j < i &&
                                   ChangedBy(modifiers, langs, old(locales[j].Get("lang")), old(locales[j].data))
      {
        assert locales[i].Get("lang") == old(locales[i].Get("lang"));
        label step:
        var changed := ProcessLocale(locales[i]);
        assert forall j :: 0 <= j < |locales| && j != i ==>
          locales[j].data == old@step(locales[j].data) && locales[j].attributes == old@step(locales[j].attributes);
        if changed.Failure? {
          return Failure(changed.error);
        }
        updated := updated || changed.value;
        i := i + 1;
      }
      r := Success(updated);
    }
  }
}
