/** The link rules of `BBCodeRemover` in `campbot/processors/bbcode.py`,
    five consecutive case-insensitive rules: `[url]` around an address
    becomes the bare address, `[url=target]label[/url]` becomes the
    markdown link `[label](target)`, and `[email]` tags become `mailto:`
    links. A lazy group `(.*?)` stops at the first place, on the same line,
    where the rest of the pattern matches. */
module BBUrls {
  import opened Wrappers
  import opened Text
  import opened Rewrite
  import opened Processor
  import opened Tags

  /** The first `e >= lo` on the line of `lo` at which `close` stands: the
      end of a lazy `(.*?)` followed by the literal `close`. */
  function FirstAt(s: string, lo: nat, close: string): (r: Option<nat>)
    requires |close| > 0
    ensures r.Some? ==> lo <= r.value && At(s, r.value, close)
    decreases |s| - lo
  {
    if At(s, lo, close) then Some(lo)
    else if lo < |s| && s[lo] != '\n' then FirstAt(s, lo + 1, close)
    else None
  }

  /** `(.*?)\](.*?)` followed by `close`, from `lo`: the first `]` on the
      line after which `close` follows on the same line, and where that
      `close` stands. */
  function LabelAt(s: string, lo: nat, close: string): (r: Option<(nat, nat)>)
    requires |close| > 0
    ensures r.Some? ==> lo <= r.value.0 < r.value.1 && r.value.0 < |s| && s[r.value.0] == ']' && FirstAt(s, r.value.0 + 1, close) == Some(r.value.1)
    decreases |s| - lo
  {
    if lo >= |s| || s[lo] == '\n' then None
    else if s[lo] == ']' && FirstAt(s, lo + 1, close).Some? then Some((lo, FirstAt(s, lo + 1, close).value))
    else LabelAt(s, lo + 1, close)
  }

  /** `\[url=?\] *(http|www)(.*?)\[/url\]` becomes `\1\2 `: the address and
      a space. */
  function BareAt(s: string, i: nat): Option<Match>
  {
    if At(s, i, "[url") then
      var p := if i + 4 < |s| && s[i + 4] == '=' then i + 5 else i + 4;
      if p < |s| && s[p] == ']' then
        var q := CharRun(s, p + 1, ' ');
        var g := if At(s, q, "http") then Some(q + 4) else if At(s, q, "www") then Some(q + 3) else None;
        if g.None? then None
        else match FirstAt(s, g.value, "[/url]")
          case None => None
          case Some(e) => Some(Match(e + 6, s[q..e] + " "))
      else None
    else None
  }

  /** `\[url\=(.*?)\]\[\/url\]` becomes ` \1 `. */
  function EmptyAt(s: string, i: nat): Option<Match>
  {
    if At(s, i, "[url=") then
      match FirstAt(s, i + 5, "][/url]")
      case None => None
      case Some(e) => Some(Match(e + 7, " " + s[i + 5..e] + " "))
    else None
  }

  /** `\[url\=(.*?)\](.*?)\[\/url\]` becomes `[\2](\1)`. */
  function LabelledAt(s: string, i: nat): Option<Match>
  {
    if At(s, i, "[url=") then
      match LabelAt(s, i + 5, "[/url]")
      case None => None
      case Some((m, e)) => Some(Match(e + 6, "[" + s[m + 1..e] + "](" + s[i + 5..m] + ")"))
    else None
  }

  /** `\[email\](.*?)\[/email\]` becomes `[\1](mailto:\1)`. */
  function EmailAt(s: string, i: nat): Option<Match>
  {
    if At(s, i, "[email]") then
      match FirstAt(s, i + 7, "[/email]")
      case None => None
      case Some(e) => Some(Match(e + 8, "[" + s[i + 7..e] + "](mailto:" + s[i + 7..e] + ")"))
    else None
  }

  /** `\[email\=(.*?)\](.*?)\[\/email\]` becomes `[\2](mailto:\1)`. */
  function EmailLabelledAt(s: string, i: nat): Option<Match>
  {
    if At(s, i, "[email=") then
      match LabelAt(s, i + 7, "[/email]")
      case None => None
      case Some((m, e)) => Some(Match(e + 8, "[" + s[m + 1..e] + "](mailto:" + s[i + 7..m] + ")"))
    else None
  }

  function Bare(): Matcher { (s: string, i: nat) => BareAt(s, i) }
  function Empty(): Matcher { (s: string, i: nat) => EmptyAt(s, i) }
  function Labelled(): Matcher { (s: string, i: nat) => LabelledAt(s, i) }
  function Email(): Matcher { (s: string, i: nat) => EmailAt(s, i) }
  function EmailLabelled(): Matcher { (s: string, i: nat) => EmailLabelledAt(s, i) }

  /** The five rules, in the source's order. */
  function LinkMatchers(): seq<Matcher> { [Bare(), Empty(), Labelled(), Email(), EmailLabelled()] }

  function LinkRules(): seq<Modifier> { Converters(LinkMatchers()) }

  /** What rule `k` reads at `i`. */
  function LinkAt(s: string, i: nat, k: nat): Option<Match>
    requires k < 5
  {
    if k == 0 then BareAt(s, i)
    else if k == 1 then EmptyAt(s, i)
    else if k == 2 then LabelledAt(s, i)
    else if k == 3 then EmailAt(s, i)
    else EmailLabelledAt(s, i)
  }

  lemma RuleIs(s: string, i: nat, k: nat)
    requires k < 5
    ensures LinkMatchers()[k](s, i) == LinkAt(s, i, k)
  {
  }

  // ---------------------------------------------------------------------
  // Where the rules fire

  /** The lazy group runs over a stretch with no `[` and no line break, up
      to the first `close`. */
  lemma {:induction false} FirstAtPlain(s: string, lo: nat, e: nat, close: string)
    requires |close| > 0 && close[0] == '[' && lo <= e && At(s, e, close)
    requires forall k :: lo <= k < e ==> s[k] != '[' && s[k] != '\n'
    ensures FirstAt(s, lo, close) == Some(e)
    decreases e - lo
  {
    if lo < e {
      AtBracket(s, lo, close);
      FirstAtPlain(s, lo + 1, e, close);
    }
  }

  lemma BareNeedsTwo(s: string, i: nat)
    requires BareAt(s, i).Some?
    ensures i < |s| && s[i] == '[' && exists e :: i < e < |s| && s[e] == '['
  {
    AtBracket(s, i, "[url");
    var p := if i + 4 < |s| && s[i + 4] == '=' then i + 5 else i + 4;
    var q := CharRun(s, p + 1, ' ');
    var g := if At(s, q, "http") then q + 4 else q + 3;
    var e := FirstAt(s, g, "[/url]").value;
    AtBracket(s, e, "[/url]");
  }

  lemma EmptyNeedsTwo(s: string, i: nat)
    requires EmptyAt(s, i).Some?
    ensures i < |s| && s[i] == '[' && exists e :: i < e < |s| && s[e] == '['
  {
    AtBracket(s, i, "[url=");
    var e := FirstAt(s, i + 5, "][/url]").value;
    AtChar(s, e, "][/url]", 1);
  }

  lemma LabelledNeedsTwo(s: string, i: nat, open: string, close: string)
    requires (open == "[url=" && close == "[/url]") || (open == "[email=" && close == "[/email]")
    requires At(s, i, open) && LabelAt(s, i + |open|, close).Some?
    ensures i < |s| && s[i] == '[' && exists e :: i < e < |s| && s[e] == '['
  {
    AtBracket(s, i, open);
    AtBracket(s, LabelAt(s, i + |open|, close).value.1, close);
  }

  lemma EmailNeedsTwo(s: string, i: nat)
    requires EmailAt(s, i).Some?
    ensures i < |s| && s[i] == '[' && exists e :: i < e < |s| && s[e] == '['
  {
    AtBracket(s, i, "[email]");
    AtBracket(s, FirstAt(s, i + 7, "[/email]").value, "[/email]");
  }

  /** Every rule fires only at a `[`, and only when another `[` follows. */
  lemma NeedsTwo(s: string, i: nat, k: nat)
    requires k < 5 && LinkMatchers()[k](s, i).Some?
    ensures i < |s| && s[i] == '['
    ensures exists e :: i < e < |s| && s[e] == '['
  {
    RuleIs(s, i, k);
    if k == 0 {
      BareNeedsTwo(s, i);
    } else if k == 1 {
      EmptyNeedsTwo(s, i);
    } else if k == 2 {
      LabelledNeedsTwo(s, i, "[url=", "[/url]");
    } else if k == 3 {
      EmailNeedsTwo(s, i);
    } else {
      LabelledNeedsTwo(s, i, "[email=", "[/email]");
    }
  }

  /** At most one `[`. */
  predicate OneBracket(s: string)
  {
    forall j, l :: 0 <= j < l < |s| && s[j] == '[' ==> s[l] != '['
  }

  /** A text with at most one `[` goes through the rules from `from` on
      unchanged: each of them needs two. */
  lemma OneBracketQuiet(s: string, from: nat)
    requires OneBracket(s) && from <= 5
    ensures ApplyAll(LinkRules()[from..], s) == s
  {
    var ms := LinkRules()[from..];
    forall k | 0 <= k < |ms| ensures ms[k](s) == s {
      var f := LinkMatchers()[from + k];
      forall j | 0 <= j < |s| ensures !Valid(s, j, f(s, j)) {
        if Valid(s, j, f(s, j)) {
          NeedsTwo(s, j, from + k);
        }
      }
      SubNoMatch(s, f);
    }
    ApplyAllFixed(ms, s);
  }

  lemma NoBracketOne(s: string)
    requires '[' !in s
    ensures OneBracket(s)
  {
  }

  /** The rules before `k` leave the text as it is, rule `k` rewrites it,
      and the result has at most one `[`: that is the outcome. */
  lemma FiresThenQuiet(k: nat, s: string, r: string)
    requires k < 5
    requires ApplyAll(LinkRules()[..k], s) == s
    requires Sub(s, LinkMatchers()[k]) == r && OneBracket(r)
    ensures ApplyAll(LinkRules(), s) == r
  {
    var ms := LinkRules();
    assert ms == ms[..k] + ms[k..];
    ApplyAllAppend(ms[..k], ms[k..], s);
    assert ms[k..][1..] == ms[k + 1..];
    assert ms[k..][0](s) == r;
    OneBracketQuiet(r, k + 1);
  }

  lemma PlainJoin(a: string, m: string, b: string)
    requires '[' !in a && '[' !in m && '[' !in b
    ensures OneBracket(a + m + b)
  {
    assert '[' !in a + m + b;
  }

  /** Each rule only fires at a `[`. */
  lemma RulesAtBrackets(s: string, k: nat)
    requires k < 5
    ensures AtBracketsOnly(LinkMatchers()[k], s)
  {
    forall j: nat ensures LinkMatchers()[k](s, j).Some? ==> j < |s| && s[j] == '[' {
      if LinkMatchers()[k](s, j).Some? { NeedsTwo(s, j, k); }
    }
  }

  /** The text at `q` starts with the literal `lit` that `x` starts with. */
  lemma LitAt(s: string, q: nat, x: string, lit: string)
    requires q + |x| <= |s| && s[q..q + |x|] == x && StartsWith(x, lit)
    ensures At(s, q, lit)
  {
    StartsAtSlice(x, 0, lit);
    assert s[q..q + |lit|] == x[..|lit|];
    StartsAtSlice(s, q, lit);
    MatchesFromICOfExact(s, q, lit, 0);
  }

  // ---------------------------------------------------------------------
  // What the rules do

  /** The opener of a bare address: `[url]` or `[url=]`. */
  predicate BareOpener(o: string) { o == "[url]" || o == "[url=]" }

  /** An address the first rule recognises. */
  predicate Address(x: string)
  {
    (StartsWith(x, "http") || StartsWith(x, "www")) && '[' !in x && '\n' !in x
  }

  /** The opener read at `i`: `[url`, then `]` or `=]`. */
  lemma BareOpenerAt(s: string, i: nat, o: string)
    requires BareOpener(o) && At(s, i, o)
    ensures At(s, i, "[url") && i + |o| <= |s|
    ensures (if i + 4 < |s| && s[i + 4] == '=' then i + 5 else i + 4) == i + |o| - 1
    ensures s[i + |o| - 1] == ']'
  {
    AtPrefix(s, i, o, 4);
    assert o[..4] == "[url";
    AtChar(s, i, o, 4);
    if o == "[url=]" { AtChar(s, i, o, 5); }
  }

  /** The address at `q`: the group it opens with, and its end. */
  lemma AddressAt(s: string, q: nat, x: string)
    requires Address(x) && q + |x| <= |s| && s[q..q + |x|] == x
    ensures CharRun(s, q, ' ') == q
    ensures (if At(s, q, "http") then Some(q + 4) else if At(s, q, "www") then Some(q + 3) else None)
         == Some(q + (if StartsWith(x, "http") then 4 else 3))
    ensures q + (if StartsWith(x, "http") then 4 else 3) <= q + |x|
  {
    StartsAtSlice(x, 0, if StartsWith(x, "http") then "http" else "www");
    assert s[q] == x[0];
    CharRunAt(s, q, q, ' ');
    if StartsWith(x, "http") {
      LitAt(s, q, x, "http");
    } else {
      NotAt(s, q, "http", 0);
      LitAt(s, q, x, "www");
    }
  }

  /** Where the bare rule finds the parts of `[url]address[/url]`. */
  lemma BareAtParts(s: string, i: nat, o: string, x: string, q: nat, e: nat)
    requires BareOpener(o) && Address(x) && At(s, i, o) && q == i + |o| && e == q + |x|
    requires e <= |s| && s[q..e] == x && At(s, e, "[/url]")
    ensures BareAt(s, i) == Some(Match(i + |o| + |x| + 6, x + " "))
  {
    BareOpenerAt(s, i, o);
    AddressAt(s, q, x);
    var g := q + (if StartsWith(x, "http") then 4 else 3);
    forall k | g <= k < e ensures s[k] != '[' && s[k] != '\n' { assert s[k] == x[k - q]; }
    FirstAtPlain(s, g, e, "[/url]");
    BareAtAt(s, i, q, g, e);
  }

  /** `BareAt` by the positions it finds: the `]` before `q`, the address
      scan from `g` and the closing tag at `e`. */
  lemma BareAtAt(s: string, i: nat, q: nat, g: nat, e: nat)
    requires At(s, i, "[url") && 1 <= q <= |s| && s[q - 1] == ']'
    requires (if i + 4 < |s| && s[i + 4] == '=' then i + 5 else i + 4) == q - 1
    requires CharRun(s, q, ' ') == q
    requires (if At(s, q, "http") then Some(q + 4) else if At(s, q, "www") then Some(q + 3) else None) == Some(g)
    requires FirstAt(s, g, "[/url]") == Some(e) && q <= e
    ensures BareAt(s, i) == Some(Match(e + 6, s[q..e] + " "))
  {
  }

  lemma BareAtLink(a: string, o: string, x: string, b: string)
    requires BareOpener(o) && Address(x)
    ensures BareAt(a + (o + x + "[/url]") + b, |a|) == Some(Match(|a| + |o| + |x| + 6, x + " "))
  {
    MidSlice(a, o + x + "[/url]", b);
    BareAtFrame(a + (o + x + "[/url]") + b, |a|, o, x);
  }

  lemma BareAtFrame(s: string, i: nat, o: string, x: string)
    requires BareOpener(o) && Address(x)
    requires i + |o + x + "[/url]"| <= |s| && s[i..i + |o + x + "[/url]"|] == o + x + "[/url]"
    ensures BareAt(s, i) == Some(Match(i + |o| + |x| + 6, x + " "))
  {
    FramePieces(s, i, o, x, "[/url]");
    BareAtParts(s, i, o, x, i + |o|, i + |o| + |x|);
  }


  /** Rule `k` reading `mid` whole, between two texts without `[`,
      rewrites only `mid`. */
  lemma RuleRewrites(k: nat, a: string, mid: string, b: string, out: string)
    requires k < 5 && '[' !in a && '[' !in b && |mid| > 0
    requires LinkMatchers()[k](a + mid + b, |a|) == Some(Match(|a| + |mid|, out))
    ensures Sub(a + mid + b, LinkMatchers()[k]) == a + out + b
  {
    RulesAtBrackets(a + mid + b, k);
    SubFramed(LinkMatchers()[k], a, mid, b, out);
  }

  lemma BareRewrites(a: string, o: string, x: string, b: string)
    requires '[' !in a && '[' !in b && BareOpener(o) && Address(x)
    ensures Sub(a + (o + x + "[/url]") + b, LinkMatchers()[0]) == a + (x + " ") + b
  {
    BareAtLink(a, o, x, b);
    RuleIs(a + (o + x + "[/url]") + b, |a|, 0);
    RuleRewrites(0, a, o + x + "[/url]", b, x + " ");
  }

  /** `[url]address[/url]`, with an address starting with `http` or `www`,
      becomes the address followed by a space; the text around it is
      kept. */
  lemma BareLink(a: string, o: string, x: string, b: string)
    requires '[' !in a && '[' !in b && BareOpener(o) && Address(x)
    ensures ApplyAll(LinkRules(), a + (o + x + "[/url]") + b) == a + (x + " ") + b
  {
    BareRewrites(a, o, x, b);
    PlainJoin(a, x + " ", b);
    assert LinkRules()[..0] == [];
    FiresThenQuiet(0, a + (o + x + "[/url]") + b, a + (x + " ") + b);
  }

  // ---------------------------------------------------------------------
  // Texts with two `[`

  /** The only `[` of `s` stand at `i` and `c`. */
  predicate TwoBrackets(s: string, i: nat, c: nat)
  {
    i < c < |s| && s[i] == '[' && s[c] == '[' && forall j :: 0 <= j < |s| && s[j] == '[' ==> j == i || j == c
  }

  /** Rule `k` fires nowhere in `s`. */
  ghost predicate Silent(s: string, k: nat)
    requires k < 5
  {
    forall j: nat :: j < |s| ==> LinkMatchers()[k](s, j).None?
  }

  /** With two `[`, a rule that does not fire at the first fires nowhere:
      after the second no `[` follows. */
  lemma SilentFirst(s: string, i: nat, c: nat, k: nat)
    requires TwoBrackets(s, i, c) && k < 5 && LinkMatchers()[k](s, i).None?
    ensures Silent(s, k)
  {
    forall j: nat | j < |s| ensures LinkMatchers()[k](s, j).None? {
      if LinkMatchers()[k](s, j).Some? { NeedsTwo(s, j, k); }
    }
  }

  lemma SilentKeeps(s: string, k: nat)
    requires k < 5 && Silent(s, k)
    ensures LinkRules()[k](s) == s
  {
    var f := LinkMatchers()[k];
    forall j | 0 <= j < |s| ensures !Valid(s, j, f(s, j)) { }
    SubNoMatch(s, f);
    assert LinkRules()[k] == Converter(f);
  }

  /** Rules that fire nowhere leave the text as it is. */
  lemma SilentBefore(s: string, k: nat)
    requires k <= 5 && forall n :: 0 <= n < k ==> Silent(s, n)
    ensures ApplyAll(LinkRules()[..k], s) == s
  {
    var ms := LinkRules()[..k];
    forall n | 0 <= n < |ms| ensures ms[n](s) == s { SilentKeeps(s, n); }
    ApplyAllFixed(ms, s);
  }

  /** `a`, a tag pair around `x`, then `b`: the two `[` are those of the
      tags. */
  lemma TwoBracketsOf(a: string, o: string, x: string, cl: string, b: string)
    requires |o| > 0 && o[0] == '[' && '[' !in o[1..] && |cl| > 0 && cl[0] == '[' && '[' !in cl[1..]
    requires '[' !in a && '[' !in x && '[' !in b
    ensures TwoBrackets(a + (o + x + cl) + b, |a|, |a| + |o| + |x|)
  {
    var s := a + (o + x + cl) + b;
    var c := |a| + |o| + |x|;
    forall j | 0 <= j < |s| && j != |a| && j != c ensures s[j] != '[' {
      if j < |a| {
        assert s[j] == a[j];
      } else if j < |a| + |o| {
        assert s[j] == o[1..][j - |a| - 1];
      } else if j < c {
        assert s[j] == x[j - |a| - |o|];
      } else if j < c + |cl| {
        assert s[j] == cl[1..][j - c - 1];
      } else {
        assert s[j] == b[j - c - |cl|];
      }
    }
  }

  /** The lazy group finds no `close` on the rest of the line. */
  lemma {:induction false} FirstAtNone(s: string, lo: nat, close: string)
    requires |close| > 0 && lo <= |s| && forall e :: lo <= e <= |s| ==> !At(s, e, close)
    ensures FirstAt(s, lo, close).None?
    decreases |s| - lo
  {
    if lo < |s| && s[lo] != '\n' { FirstAtNone(s, lo + 1, close); }
  }

  /** The lazy group before `][/url]` runs over a stretch with no line
      break where no `[` follows a character, up to the first `][/url]`. */
  lemma {:induction false} FirstAtPlainAfter(s: string, lo: nat, e: nat, close: string)
    requires |close| > 1 && close[1] == '[' && lo <= e && At(s, e, close)
    requires forall k :: lo <= k < e ==> s[k] != '\n'
    requires forall k :: lo < k <= e ==> s[k] != '['
    ensures FirstAt(s, lo, close) == Some(e)
    decreases e - lo
  {
    if lo < e {
      if At(s, lo, close) { AtChar(s, lo, close, 1); }
      FirstAtPlainAfter(s, lo + 1, e, close);
    }
  }

  /** `(.*?)\]` stops at the first `]` of the line after which `close`
      follows. */
  lemma {:induction false} LabelAtPlain(s: string, lo: nat, m: nat, e: nat, close: string)
    requires |close| > 0 && lo <= m < |s| && s[m] == ']' && FirstAt(s, m + 1, close) == Some(e)
    requires forall k :: lo <= k < m ==> s[k] != ']' && s[k] != '\n'
    ensures LabelAt(s, lo, close) == Some((m, e))
    decreases m - lo
  {
    if lo < m { LabelAtPlain(s, lo + 1, m, e, close); }
  }

  /** A target and a label that the labelled rules split as written: no
      bracket and no line break in either. */
  predicate Plain(x: string) { '[' !in x && ']' !in x && '\n' !in x }

  /** Where the labelled rules find the parts of `open target]label close`. */
  lemma LabelParts(s: string, lo: nat, t: string, l: string, close: string, m: nat, e: nat)
    requires Plain(t) && '[' !in l && '\n' !in l && |close| > 0 && close[0] == '['
    requires m == lo + |t| && e == m + 1 + |l|
    requires e <= |s| && s[lo..e] == t + "]" + l
    requires At(s, e, close)
    ensures LabelAt(s, lo, close) == Some((m, e))
    ensures s[lo..m] == t && s[m + 1..e] == l
  {
    LabelSlices(s, lo, t, l, m, e);
    FirstAtPlain(s, m + 1, e, close);
    LabelAtPlain(s, lo, m, e, close);
  }

  /** The pieces of `target]label` standing at `lo`. */
  lemma LabelSlices(s: string, lo: nat, t: string, l: string, m: nat, e: nat)
    requires Plain(t) && '[' !in l && '\n' !in l
    requires m == lo + |t| && e == m + 1 + |l|
    requires e <= |s| && s[lo..e] == t + "]" + l
    ensures s[lo..m] == t && s[m] == ']' && s[m + 1..e] == l
    ensures forall k :: lo <= k < m ==> s[k] != ']' && s[k] != '\n'
    ensures forall k :: m + 1 <= k < e ==> s[k] != '[' && s[k] != '\n'
  {
    var x := t + "]" + l;
    SliceOf(s, lo, x, 0, |t|);
    SliceOf(s, lo, x, |t|, 1);
    SliceOf(s, lo, x, |t| + 1, |l|);
    assert x[..|t|] == t && x[|t| + 1..] == l;
  }

  // ---------------------------------------------------------------------
  // `[url=target]label[/url]`

  /** A label the labelled rule keeps whole: no `[`, no line break, and not
      ending with `]` (the empty-link rule would read `]` + `[/url]`). */
  predicate Label(l: string) { |l| > 0 && '[' !in l && '\n' !in l && l[|l| - 1] != ']' }

  function WebLink(l: string, t: string): string { "[" + l + "](" + t + ")" }

  function LabelledText(t: string, l: string): string { "[url=" + (t + "]" + l) + "[/url]" }

  /** Where the labelled rule finds the parts of `[url=target]label[/url]`. */
  lemma LabelledAtParts(s: string, i: nat, t: string, l: string)
    requires Plain(t) && Label(l) && At(s, i, "[url=")
    requires i + 5 + |t| + 1 + |l| <= |s| && s[i + 5..i + 5 + |t| + 1 + |l|] == t + "]" + l
    requires At(s, i + 5 + |t| + 1 + |l|, "[/url]")
    ensures LabelledAt(s, i) == Some(Match(i + 5 + |t| + 1 + |l| + 6, WebLink(l, t)))
  {
    LabelParts(s, i + 5, t, l, "[/url]", i + 5 + |t|, i + 5 + |t| + 1 + |l|);
  }

  lemma LabelledAtLink(a: string, t: string, l: string, b: string)
    requires Plain(t) && Label(l)
    ensures var s := a + LabelledText(t, l) + b;
      LabelledAt(s, |a|) == Some(Match(|a| + |LabelledText(t, l)|, WebLink(l, t)))
  {
    MidSlice(a, LabelledText(t, l), b);
    LabelledAtFrame(a + LabelledText(t, l) + b, |a|, t, l);
  }

  lemma LabelledAtFrame(s: string, i: nat, t: string, l: string)
    requires Plain(t) && Label(l)
    requires i + |LabelledText(t, l)| <= |s| && s[i..i + |LabelledText(t, l)|] == LabelledText(t, l)
    ensures LabelledAt(s, i) == Some(Match(i + |LabelledText(t, l)|, WebLink(l, t)))
  {
    FramePieces(s, i, "[url=", t + "]" + l, "[/url]");
    LabelledAtParts(s, i, t, l);
  }

  /** The bare rule wants `]` or `=]` after `[url`. */
  lemma BareNotAt(s: string, i: nat)
    requires At(s, i, "[url=") && i + 5 < |s| && s[i + 5] != ']'
    ensures BareAt(s, i).None?
  {
    AtPrefix(s, i, "[url=", 4);
    assert "[url="[..4] == "[url";
    AtChar(s, i, "[url=", 4);
  }

  /** The empty-link rule wants `][/url]`: with two `[`, only just before
      the second. */
  lemma EmptyNotAt(s: string, i: nat, c: nat)
    requires TwoBrackets(s, i, c) && i + 5 < c && s[c - 1] != ']'
    ensures EmptyAt(s, i).None?
  {
    forall e | i + 5 <= e <= |s| ensures !At(s, e, "][/url]") {
      if e + 1 < |s| && s[e + 1] != '[' {
        NotAt(s, e, "][/url]", 1);
      } else if e + 1 == c {
        NotAt(s, e, "][/url]", 0);
      }
    }
    FirstAtNone(s, i + 5, "][/url]");
  }

  /** Neither the bare rule nor the empty-link rule fires on a labelled
      link. */
  lemma LabelledQuietBefore(a: string, t: string, l: string, b: string)
    requires '[' !in a && '[' !in b && Plain(t) && |t| > 0 && Label(l)
    ensures ApplyAll(LinkRules()[..2], a + LabelledText(t, l) + b) == a + LabelledText(t, l) + b
  {
    var x := t + "]" + l;
    var s := a + LabelledText(t, l) + b;
    var c := |a| + 5 + |x|;
    Framing(a, "[url=", x, "[/url]", b);
    TwoBracketsOf(a, "[url=", x, "[/url]", b);
    SliceOf(s, |a| + 5, x, 0, 1);
    SliceOf(s, |a| + 5, x, |x| - 1, 1);
    BareNotAt(s, |a|);
    EmptyNotAt(s, |a|, c);
    QuietAtFirst(s, |a|, c, 2);
  }

  lemma LabelledRewrites(a: string, t: string, l: string, b: string)
    requires '[' !in a && '[' !in b && Plain(t) && Label(l)
    ensures Sub(a + LabelledText(t, l) + b, LinkMatchers()[2]) == a + WebLink(l, t) + b
  {
    var s := a + LabelledText(t, l) + b;
    LabelledAtLink(a, t, l, b);
    assert LinkMatchers()[2](s, |a|) == LabelledAt(s, |a|);
    RuleRewrites(2, a, LabelledText(t, l), b, WebLink(l, t));
  }

  /** Text whose only `[` opens `m`. */
  lemma OneOpening(a: string, m: string, b: string)
    requires '[' !in a && '[' !in b && |m| > 0 && '[' !in m[1..]
    ensures OneBracket(a + m + b)
  {
    var s := a + m + b;
    forall j | 0 <= j < |s| && j != |a| ensures s[j] != '[' {
      if j < |a| {
        assert s[j] == a[j];
      } else if j < |a| + |m| {
        assert s[j] == m[1..][j - |a| - 1];
      } else {
        assert s[j] == b[j - |a| - |m|];
      }
    }
  }

  /** `[url=target]label[/url]` becomes the markdown link
      `[label](target)`; the text around it is kept. */
  lemma LabelledLink(a: string, t: string, l: string, b: string)
    requires '[' !in a && '[' !in b && Plain(t) && |t| > 0 && Label(l)
    ensures ApplyAll(LinkRules(), a + LabelledText(t, l) + b) == a + WebLink(l, t) + b
  {
    LabelledQuietBefore(a, t, l, b);
    LabelledRewrites(a, t, l, b);
    OneOpening(a, WebLink(l, t), b);
    FiresThenQuiet(2, a + LabelledText(t, l) + b, a + WebLink(l, t) + b);
  }

  // ---------------------------------------------------------------------
  // `[url=target][/url]`

  function EmptyText(t: string): string { "[url=" + t + "][/url]" }

  /** Where the empty-link rule finds the target of `[url=target][/url]`. */
  lemma EmptyAtParts(s: string, i: nat, t: string)
    requires Plain(t) && At(s, i, "[url=")
    requires i + 5 + |t| <= |s| && s[i + 5..i + 5 + |t|] == t && At(s, i + 5 + |t|, "][/url]")
    ensures EmptyAt(s, i) == Some(Match(i + 5 + |t| + 7, " " + t + " "))
  {
    var e := i + 5 + |t|;
    SliceOf(s, i + 5, t, 0, |t|);
    AtChar(s, e, "][/url]", 0);
    FirstAtPlainAfter(s, i + 5, e, "][/url]");
  }

  lemma EmptyAtLink(a: string, t: string, b: string)
    requires Plain(t)
    ensures var s := a + EmptyText(t) + b;
      EmptyAt(s, |a|) == Some(Match(|a| + |EmptyText(t)|, " " + t + " "))
  {
    Framing(a, "[url=", t, "][/url]", b);
    EmptyAtParts(a + EmptyText(t) + b, |a|, t);
  }

  lemma EmptyRewrites(a: string, t: string, b: string)
    requires '[' !in a && '[' !in b && Plain(t)
    ensures Sub(a + EmptyText(t) + b, LinkMatchers()[1]) == a + (" " + t + " ") + b
  {
    var s := a + EmptyText(t) + b;
    EmptyAtLink(a, t, b);
    assert LinkMatchers()[1](s, |a|) == EmptyAt(s, |a|);
    RuleRewrites(1, a, EmptyText(t), b, " " + t + " ");
  }

  /** The bare rule does not fire on `[url=target][/url]`. */
  lemma EmptyQuietBefore(a: string, t: string, b: string)
    requires '[' !in a && '[' !in b && Plain(t) && |t| > 0
    ensures ApplyAll(LinkRules()[..1], a + EmptyText(t) + b) == a + EmptyText(t) + b
  {
    var s := a + EmptyText(t) + b;
    assert EmptyText(t) == "[url=" + (t + "]") + "[/url]";
    Framing(a, "[url=", t + "]", "[/url]", b);
    TwoBracketsOf(a, "[url=", t + "]", "[/url]", b);
    EmptyQuietAt(s, |a|, t, |a| + 5 + |t + "]"|);
  }

  lemma EmptyQuietAt(s: string, i: nat, t: string, c: nat)
    requires Plain(t) && |t| > 0 && TwoBrackets(s, i, c) && At(s, i, "[url=")
    requires c == i + 5 + |t + "]"| && c <= |s| && s[i + 5..c] == t + "]"
    ensures ApplyAll(LinkRules()[..1], s) == s
  {
    SliceOf(s, i + 5, t + "]", 0, 1);
    BareNotAt(s, i);
    QuietAtFirst(s, i, c, 1);
  }

  /** `[url=target][/url]` becomes the target between two spaces; the text
      around it is kept. */
  lemma EmptyLink(a: string, t: string, b: string)
    requires '[' !in a && '[' !in b && Plain(t) && |t| > 0
    ensures ApplyAll(LinkRules(), a + EmptyText(t) + b) == a + (" " + t + " ") + b
  {
    EmptyQuietBefore(a, t, b);
    EmptyRewrites(a, t, b);
    PlainJoin(a, " " + t + " ", b);
    FiresThenQuiet(1, a + EmptyText(t) + b, a + (" " + t + " ") + b);
  }

  // ---------------------------------------------------------------------
  // `[email]address[/email]` and `[email=address]label[/email]`

  function EmailText(x: string): string { "[email]" + x + "[/email]" }

  function MailLink(l: string, x: string): string { "[" + l + "](mailto:" + x + ")" }

  lemma EmailAtParts(s: string, i: nat, x: string)
    requires '[' !in x && '\n' !in x && At(s, i, "[email]")
    requires i + 7 + |x| <= |s| && s[i + 7..i + 7 + |x|] == x && At(s, i + 7 + |x|, "[/email]")
    ensures EmailAt(s, i) == Some(Match(i + 7 + |x| + 8, MailLink(x, x)))
  {
    SliceOf(s, i + 7, x, 0, |x|);
    FirstAtPlain(s, i + 7, i + 7 + |x|, "[/email]");
  }

  lemma EmailAtLink(a: string, x: string, b: string)
    requires '[' !in x && '\n' !in x
    ensures var s := a + EmailText(x) + b;
      EmailAt(s, |a|) == Some(Match(|a| + |EmailText(x)|, MailLink(x, x)))
  {
    Framing(a, "[email]", x, "[/email]", b);
    EmailAtParts(a + EmailText(x) + b, |a|, x);
  }

  lemma EmailRewrites(a: string, x: string, b: string)
    requires '[' !in a && '[' !in b && '[' !in x && '\n' !in x
    ensures Sub(a + EmailText(x) + b, LinkMatchers()[3]) == a + MailLink(x, x) + b
  {
    var s := a + EmailText(x) + b;
    EmailAtLink(a, x, b);
    assert LinkMatchers()[3](s, |a|) == EmailAt(s, |a|);
    RuleRewrites(3, a, EmailText(x), b, MailLink(x, x));
  }

  /** The url rules do not fire at an `[email` tag. */
  lemma UrlRulesNotAt(s: string, i: nat, o: string)
    requires |o| > 1 && o[..2] == "[e" && At(s, i, o)
    ensures BareAt(s, i).None? && EmptyAt(s, i).None? && LabelledAt(s, i).None?
  {
    AtDiffers(s, i, o, "[url", 1);
    AtDiffers(s, i, o, "[url=", 1);
  }

  /** Rules `0` to `k - 1` fire nowhere in a text with two `[` when they do
      not fire at the first. */
  lemma QuietAtFirst(s: string, i: nat, c: nat, k: nat)
    requires TwoBrackets(s, i, c) && k <= 5
    requires forall n :: 0 <= n < k ==> LinkAt(s, i, n).None?
    ensures ApplyAll(LinkRules()[..k], s) == s
  {
    forall n | 0 <= n < k ensures Silent(s, n) {
      RuleIs(s, i, n);
      SilentFirst(s, i, c, n);
    }
    SilentBefore(s, k);
  }

  lemma EmailQuietBefore(a: string, x: string, b: string)
    requires '[' !in a && '[' !in b && '[' !in x
    ensures ApplyAll(LinkRules()[..3], a + EmailText(x) + b) == a + EmailText(x) + b
  {
    var s := a + EmailText(x) + b;
    Framing(a, "[email]", x, "[/email]", b);
    TwoBracketsOf(a, "[email]", x, "[/email]", b);
    UrlRulesNotAt(s, |a|, "[email]");
    QuietAtFirst(s, |a|, |a| + 7 + |x|, 3);
  }

  /** `[email]address[/email]` becomes `[address](mailto:address)`; the
      text around it is kept. */
  lemma EmailLink(a: string, x: string, b: string)
    requires '[' !in a && '[' !in b && '[' !in x && '\n' !in x
    ensures ApplyAll(LinkRules(), a + EmailText(x) + b) == a + MailLink(x, x) + b
  {
    EmailQuietBefore(a, x, b);
    EmailRewrites(a, x, b);
    OneOpening(a, MailLink(x, x), b);
    FiresThenQuiet(3, a + EmailText(x) + b, a + MailLink(x, x) + b);
  }

  function EmailLabelledText(t: string, l: string): string { "[email=" + (t + "]" + l) + "[/email]" }

  lemma EmailLabelledAtParts(s: string, i: nat, t: string, l: string)
    requires Plain(t) && '[' !in l && '\n' !in l && At(s, i, "[email=")
    requires i + 7 + |t| + 1 + |l| <= |s| && s[i + 7..i + 7 + |t| + 1 + |l|] == t + "]" + l
    requires At(s, i + 7 + |t| + 1 + |l|, "[/email]")
    ensures EmailLabelledAt(s, i) == Some(Match(i + 7 + |t| + 1 + |l| + 8, MailLink(l, t)))
  {
    LabelParts(s, i + 7, t, l, "[/email]", i + 7 + |t|, i + 7 + |t| + 1 + |l|);
  }

  lemma EmailLabelledAtLink(a: string, t: string, l: string, b: string)
    requires Plain(t) && '[' !in l && '\n' !in l
    ensures var s := a + EmailLabelledText(t, l) + b;
      EmailLabelledAt(s, |a|) == Some(Match(|a| + |EmailLabelledText(t, l)|, MailLink(l, t)))
  {
    Framing(a, "[email=", t + "]" + l, "[/email]", b);
    EmailLabelledAtParts(a + EmailLabelledText(t, l) + b, |a|, t, l);
  }

  lemma EmailLabelledRewrites(a: string, t: string, l: string, b: string)
    requires '[' !in a && '[' !in b && Plain(t) && '[' !in l && '\n' !in l
    ensures Sub(a + EmailLabelledText(t, l) + b, LinkMatchers()[4]) == a + MailLink(l, t) + b
  {
    var s := a + EmailLabelledText(t, l) + b;
    EmailLabelledAtLink(a, t, l, b);
    assert LinkMatchers()[4](s, |a|) == Some(Match(|a| + |EmailLabelledText(t, l)|, MailLink(l, t)));
    RuleRewrites(4, a, EmailLabelledText(t, l), b, MailLink(l, t));
  }

  lemma EmailLabelledQuietBefore(a: string, t: string, l: string, b: string)
    requires '[' !in a && '[' !in b && Plain(t) && '[' !in l
    ensures ApplyAll(LinkRules()[..4], a + EmailLabelledText(t, l) + b) == a + EmailLabelledText(t, l) + b
  {
    var s := a + EmailLabelledText(t, l) + b;
    Framing(a, "[email=", t + "]" + l, "[/email]", b);
    TwoBracketsOf(a, "[email=", t + "]" + l, "[/email]", b);
    UrlRulesNotAt(s, |a|, "[email=");
    AtDiffers(s, |a|, "[email=", "[email]", 6);
    QuietAtFirst(s, |a|, |a| + 7 + |t| + 1 + |l|, 4);
  }

  /** `[email=address]label[/email]` becomes `[label](mailto:address)`; the
      text around it is kept. */
  lemma EmailLabelledLink(a: string, t: string, l: string, b: string)
    requires '[' !in a && '[' !in b && Plain(t) && '[' !in l && '\n' !in l
    ensures ApplyAll(LinkRules(), a + EmailLabelledText(t, l) + b) == a + MailLink(l, t) + b
  {
    EmailLabelledQuietBefore(a, t, l, b);
    EmailLabelledRewrites(a, t, l, b);
    OneOpening(a, MailLink(l, t), b);
    FiresThenQuiet(4, a + EmailLabelledText(t, l) + b, a + MailLink(l, t) + b);
  }

  // ---------------------------------------------------------------------
  // Other `[url]` contents

  /** Text after `[url]` that is not an address: it does not open with a
      space, `h` or `w`. */
  predicate NotAddress(x: string)
  {
    |x| > 0 && '[' !in x && x[0] != ' ' && !SameIgnoreCase(x[0], 'h') && !SameIgnoreCase(x[0], 'w')
  }

  function KeptText(x: string): string { "[url]" + x + "[/url]" }

  lemma BareKeptAt(s: string, i: nat, x: string)
    requires NotAddress(x) && At(s, i, "[url]")
    requires i + 5 + |x| <= |s| && s[i + 5..i + 5 + |x|] == x
    ensures BareAt(s, i).None?
  {
    BareOpenerAt(s, i, "[url]");
    SliceOf(s, i + 5, x, 0, 1);
    CharRunAt(s, i + 5, i + 5, ' ');
    NotAt(s, i + 5, "http", 0);
    NotAt(s, i + 5, "www", 0);
  }

  /** `[url]` around anything but an address is left as it is, by all five
      rules. */
  lemma KeptLink(a: string, x: string, b: string)
    requires '[' !in a && '[' !in b && NotAddress(x)
    ensures ApplyAll(LinkRules(), a + KeptText(x) + b) == a + KeptText(x) + b
  {
    var s := a + KeptText(x) + b;
    Framing(a, "[url]", x, "[/url]", b);
    TwoBracketsOf(a, "[url]", x, "[/url]", b);
    KeptQuietAt(s, |a|, x, |a| + |"[url]"| + |x|);
    AllLinkRules();
  }

  lemma AllLinkRules()
    ensures LinkRules()[..5] == LinkRules()
  {
  }

  lemma KeptQuietAt(s: string, i: nat, x: string, c: nat)
    requires NotAddress(x) && TwoBrackets(s, i, c) && At(s, i, "[url]")
    requires c == i + |"[url]"| + |x| && c <= |s| && s[i + |"[url]"|..c] == x
    ensures ApplyAll(LinkRules()[..5], s) == s
  {
    BareKeptAt(s, i, x);
    AtDiffers(s, i, "[url]", "[url=", 4);
    AtDiffers(s, i, "[url]", "[email]", 1);
    AtDiffers(s, i, "[url]", "[email=", 1);
    QuietAtFirst(s, i, c, 5);
  }

  // ---------------------------------------------------------------------
  // Single-link examples of the source's own test table, through the five
  // link rules

  function BareFixture(): Fixture
  {
    Fixture("[url]" + "http://www.google.com" + "[/url]", "http://www.google.com" + " ")
  }

  function BareEmptyOpenerFixture(): Fixture
  {
    Fixture("[url=]" + "http://www.zone-di-tranquillita.ch/" + "[/url]", "http://www.zone-di-tranquillita.ch/" + " ")
  }

  function LabelledFixture(): Fixture
  {
    Fixture(LabelledText("http://www.google.com", "google"), WebLink("google", "http://www.google.com"))
  }

  function EmailFixture(): Fixture
  {
    Fixture(EmailText("dev@camptocamp.org"), MailLink("dev@camptocamp.org", "dev@camptocamp.org"))
  }

  function EmailLabelledFixture(): Fixture
  {
    Fixture(EmailLabelledText("dev@camptocamp.org", "email"), MailLink("email", "dev@camptocamp.org"))
  }

  function KeptFixture(): Fixture { Fixture(KeptText("pas.touche.fr"), KeptText("pas.touche.fr")) }

  lemma Unframed(x: string)
    ensures "" + x + "" == x
  {
  }

  // Each single-link example of the source's test table passes through the
  // five link rules.

  lemma GoogleStarts()
    ensures StartsWith("http://www.google.com", "http")
  {
    var google := "http://www.google.com";
    MatchesFromSlice(google, 0, "http", 0);
    assert google[0..4] == "http";
  }

  lemma GoogleAddress()
    ensures Address("http://www.google.com") && Plain("http://www.google.com") && Label("google")
  {
    GoogleStarts();
  }

  lemma BareFixturePasses()
    ensures Passes(LinkRules(), BareFixture())
  {
    var google := "http://www.google.com";
    GoogleAddress();
    BareLink("", "[url]", google, "");
    Unframed("[url]" + google + "[/url]");
    Unframed(google + " ");
  }

  lemma ZoneStarts()
    ensures StartsWith("http://www.zone-di-tranquillita.ch/", "http")
  {
    var zone := "http://www.zone-di-tranquillita.ch/";
    MatchesFromSlice(zone, 0, "http", 0);
    assert zone[0..4] == "http";
  }

  lemma ZoneAddress()
    ensures Address("http://www.zone-di-tranquillita.ch/")
  {
    ZoneStarts();
  }

  lemma BareEmptyOpenerFixturePasses()
    ensures Passes(LinkRules(), BareEmptyOpenerFixture())
  {
    var zone := "http://www.zone-di-tranquillita.ch/";
    ZoneAddress();
    BareLink("", "[url=]", zone, "");
    Unframed("[url=]" + zone + "[/url]");
    Unframed(zone + " ");
  }

  lemma LabelledFixturePasses()
    ensures Passes(LinkRules(), LabelledFixture())
  {
    var google := "http://www.google.com";
    GoogleAddress();
    LabelledLink("", google, "google", "");
    Unframed(LabelledText(google, "google"));
    Unframed(WebLink("google", google));
  }

  lemma DevPlain()
    ensures Plain("dev@camptocamp.org") && '[' !in "email" && '\n' !in "email"
  {
  }

  lemma EmailFixturePasses()
    ensures Passes(LinkRules(), EmailFixture())
  {
    var dev := "dev@camptocamp.org";
    DevPlain();
    EmailLink("", dev, "");
    Unframed(EmailText(dev));
    Unframed(MailLink(dev, dev));
  }

  lemma EmailLabelledFixturePasses()
    ensures Passes(LinkRules(), EmailLabelledFixture())
  {
    var dev := "dev@camptocamp.org";
    DevPlain();
    EmailLabelledLink("", dev, "email", "");
    Unframed(EmailLabelledText(dev, "email"));
    Unframed(MailLink("email", dev));
  }

  lemma KeptFixturePasses()
    ensures Passes(LinkRules(), KeptFixture())
  {
    KeptLink("", "pas.touche.fr", "");
    Unframed(KeptText("pas.touche.fr"));
  }
}
