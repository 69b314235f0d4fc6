/** Dictionaries of lists filled by `result.setdefault(key, []).append(v)`
    (written out in the source as "create the list on first use, then
    append"), and the insertion order of an `OrderedDict`'s keys. Both
    `campbot/utils.py` and `campbot/core.py` group this way. */
module Grouping {
  type Groups<K, V> = map<K, seq<V>>

  /** The list `key` of `acc`, empty when there is none yet. */
  function Listed<K(==), V>(acc: Groups<K, V>, key: K): seq<V>
  {
    if key in acc then acc[key] else []
  }

  /** `result[key].append(v)`, creating the list on first use. */
  function Append<K(==), V>(acc: Groups<K, V>, key: K, v: V): Groups<K, V>
  {
    acc[key := Listed(acc, key) + [v]]
  }

  /** Appending the pairs in order. */
  function AppendAll<K(==), V>(acc: Groups<K, V>, ps: seq<(K, V)>): Groups<K, V>
    decreases |ps|
  {
    if |ps| == 0 then acc else AppendAll(Append(acc, ps[0].0, ps[0].1), ps[1..])
  }

  /** The values paired with `key`, in order. */
  function ValuesFor<K(==), V>(ps: seq<(K, V)>, key: K): (r: seq<V>)
    ensures |r| <= |ps|
  {
    if |ps| == 0 then [] else (if ps[0].0 == key then [ps[0].1] else []) + ValuesFor(ps[1..], key)
  }

  function KeysOf<K(==), V>(ps: seq<(K, V)>): set<K>
  {
    set k | 0 <= k < |ps| :: ps[k].0
  }

  lemma KeysOfCons<K, V>(ps: seq<(K, V)>)
    requires |ps| > 0
    ensures KeysOf(ps) == {ps[0].0} + KeysOf(ps[1..])
  {
    var tail := ps[1..];
    forall x | x in KeysOf(ps) ensures x in {ps[0].0} + KeysOf(tail) {
      var k :| 0 <= k < |ps| && ps[k].0 == x;
      if k > 0 { assert tail[k - 1] == ps[k]; }
    }
    forall x | x in KeysOf(tail) ensures x in KeysOf(ps) {
      var k :| 0 <= k < |tail| && tail[k].0 == x;
      assert tail[k] == ps[k + 1];
    }
  }

  /** Each list holds, after what it held, the values paired with its key in
      order, and a list exists exactly when it held something before or some
      pair names its key. */
  lemma AppendAllSpec<K, V>(acc: Groups<K, V>, ps: seq<(K, V)>)
    ensures AppendAll(acc, ps).Keys == acc.Keys + KeysOf(ps)
    ensures forall key :: key in AppendAll(acc, ps) ==> AppendAll(acc, ps)[key] == Listed(acc, key) + ValuesFor(ps, key)
  {
    AppendAllKeys(acc, ps);
    forall key | key in AppendAll(acc, ps)
      ensures AppendAll(acc, ps)[key] == Listed(acc, key) + ValuesFor(ps, key)
    {
      AppendAllList(acc, ps, key);
    }
  }

  lemma {:induction false} AppendAllKeys<K, V>(acc: Groups<K, V>, ps: seq<(K, V)>)
    ensures AppendAll(acc, ps).Keys == acc.Keys + KeysOf(ps)
    decreases |ps|
  {
    if |ps| > 0 {
      AppendAllKeys(Append(acc, ps[0].0, ps[0].1), ps[1..]);
      KeysOfCons(ps);
    }
  }

  lemma {:induction false} AppendAllList<K, V>(acc: Groups<K, V>, ps: seq<(K, V)>, key: K)
    ensures Listed(AppendAll(acc, ps), key) == Listed(acc, key) + ValuesFor(ps, key)
    decreases |ps|
  {
    if |ps| == 0 {
      assert Listed(acc, key) + [] == Listed(acc, key);
    } else {
      var next := Append(acc, ps[0].0, ps[0].1);
      AppendAllList(next, ps[1..], key);
      var before, rest := Listed(acc, key), ValuesFor(ps[1..], key);
      if key == ps[0].0 {
        assert Listed(next, key) == before + [ps[0].1];
        assert (before + [ps[0].1]) + rest == before + ([ps[0].1] + rest);
      } else {
        assert Listed(next, key) == before;
        assert [] + rest == rest;
      }
    }
  }

  // ---------------------------------------------------------------------
  // Insertion order

  /** The keys of an `OrderedDict` after inserting `ks` in order: a key is
      added at the end the first time it is seen. */
  function InsertAll<K(==)>(order: seq<K>, ks: seq<K>): seq<K>
    decreases |ks|
  {
    if |ks| == 0 then order else InsertAll(if ks[0] in order then order else order + [ks[0]], ks[1..])
  }

  predicate Distinct<K(==)>(s: seq<K>)
  {
    forall i, j :: 0 <= i < j < |s| ==> s[i] != s[j]
  }

  /** The position of the first occurrence of `k` in `ks`. */
  function FirstAt<K(==)>(ks: seq<K>, k: K): (r: nat)
    requires k in ks
    ensures r < |ks| && ks[r] == k
  {
    if ks[0] == k then 0 else 1 + FirstAt(ks[1..], k)
  }

  /** No earlier occurrence. */
  lemma {:induction false} FirstAtIsFirst<K>(ks: seq<K>, k: K)
    requires k in ks
    ensures forall j :: 0 <= j < FirstAt(ks, k) ==> ks[j] != k
  {
    if ks[0] != k {
      FirstAtIsFirst(ks[1..], k);
      forall j | 0 < j < FirstAt(ks, k) ensures ks[j] != k {
        assert ks[j] == ks[1..][j - 1];
      }
    }
  }

  /** The keys newly inserted, after those already there: each once, all
      those of `ks` not already there, in the order of their first
      occurrence in `ks`. */
  lemma {:induction false} InsertAllSpec<K>(order: seq<K>, ks: seq<K>)
    requires Distinct(order)
    ensures var r := InsertAll(order, ks);
      && |r| >= |order| && r[..|order|] == order
      && Distinct(r)
      && (forall k :: k in r <==> k in order || k in ks)
      && (forall i :: |order| <= i < |r| ==> r[i] in ks)
      && (forall i, j :: |order| <= i < j < |r| ==> FirstAt(ks, r[i]) < FirstAt(ks, r[j]))
    decreases |ks|
  {
    if |ks| > 0 {
      var x := ks[0];
      var next := if x in order then order else order + [x];
      assert Distinct(next);
      InsertAllSpec(next, ks[1..]);
      InsertStep(order, ks, next, InsertAll(next, ks[1..]));
    }
  }

  /** The inductive step: what inserting `ks[1..]` after `next` gives,
      stated for `order` and `ks`. */
  lemma InsertStep<K>(order: seq<K>, ks: seq<K>, next: seq<K>, r: seq<K>)
    requires |ks| > 0 && Distinct(order) && next == if ks[0] in order then order else order + [ks[0]]
    requires |r| >= |next| && r[..|next|] == next && Distinct(r)
    requires forall k :: k in r <==> k in next || k in ks[1..]
    requires forall i :: |next| <= i < |r| ==> r[i] in ks[1..]
    requires forall i, j :: |next| <= i < j < |r| ==> FirstAt(ks[1..], r[i]) < FirstAt(ks[1..], r[j])
    ensures |r| >= |order| && r[..|order|] == order
    ensures forall k :: k in r <==> k in order || k in ks
    ensures forall i :: |order| <= i < |r| ==> r[i] in ks
    ensures forall i, j :: |order| <= i < j < |r| ==> FirstAt(ks, r[i]) < FirstAt(ks, r[j])
  {
    InsertMembers(order, ks, next, r);
    InsertAfter(order, ks, next, r);
    InsertOrder(order, ks, next, r);
  }

  lemma InsertMembers<K>(order: seq<K>, ks: seq<K>, next: seq<K>, r: seq<K>)
    requires |ks| > 0 && next == if ks[0] in order then order else order + [ks[0]]
    requires forall k :: k in r <==> k in next || k in ks[1..]
    ensures forall k :: k in r <==> k in order || k in ks
  {
    forall k | k in ks[1..] ensures k in ks { }
    forall k | k in ks && k != ks[0] ensures k in ks[1..] {
      var j := FirstAt(ks, k);
      assert ks[1..][j - 1] == k;
    }
  }

  lemma InsertAfter<K>(order: seq<K>, ks: seq<K>, next: seq<K>, r: seq<K>)
    requires |ks| > 0 && next == if ks[0] in order then order else order + [ks[0]]
    requires |r| >= |next| && r[..|next|] == next
    requires forall i :: |next| <= i < |r| ==> r[i] in ks[1..]
    ensures |r| >= |order| && r[..|order|] == order
    ensures forall i :: |order| <= i < |r| ==> r[i] in ks
  {
    assert r[..|order|] == r[..|next|][..|order|];
    forall i | |order| <= i < |r| ensures r[i] in ks {
      if i < |next| {
        assert r[i] == next[i] == ks[0];
      } else {
        assert r[i] in ks[1..];
      }
    }
  }

  /** The order of first occurrences, in the inductive step. */
  lemma InsertOrder<K>(order: seq<K>, ks: seq<K>, next: seq<K>, r: seq<K>)
    requires |ks| > 0 && next == if ks[0] in order then order else order + [ks[0]]
    requires |r| >= |next| && r[..|next|] == next && Distinct(r) && r[..|order|] == order
    requires forall i :: |next| <= i < |r| ==> r[i] in ks[1..]
    requires forall i, j :: |next| <= i < j < |r| ==> FirstAt(ks[1..], r[i]) < FirstAt(ks[1..], r[j])
    ensures forall i, j :: |order| <= i < j < |r| ==> r[i] in ks && r[j] in ks && FirstAt(ks, r[i]) < FirstAt(ks, r[j])
  {
    TailFresh(order, r);
    TailFresh(next, r);
    forall i, j | |order| <= i < j < |r| ensures r[i] in ks && r[j] in ks && FirstAt(ks, r[i]) < FirstAt(ks, r[j]) {
      FirstAtOrder(order, ks, next, r, i, j);
    }
  }

  /** Past a prefix of distinct keys, no key of the prefix comes again. */
  lemma TailFresh<K>(order: seq<K>, r: seq<K>)
    requires Distinct(r) && |order| <= |r| && r[..|order|] == order
    ensures forall m :: |order| <= m < |r| ==> r[m] !in order
  {
    forall m, n | |order| <= m < |r| && 0 <= n < |order| ensures order[n] != r[m] {
      assert order[n] == r[n];
    }
  }

  lemma FirstAtOrder<K>(order: seq<K>, ks: seq<K>, next: seq<K>, r: seq<K>, i: nat, j: nat)
    requires |ks| > 0 && next == if ks[0] in order then order else order + [ks[0]]
    requires |order| <= i < j < |r| && |next| <= |r| && r[..|next|] == next
    requires r[i] !in order && r[j] !in order
    requires |next| <= i ==> r[i] !in next
    requires |next| <= j ==> r[j] !in next && r[j] in ks[1..]
    requires |next| <= i ==> r[i] in ks[1..] && FirstAt(ks[1..], r[i]) < FirstAt(ks[1..], r[j])
    ensures r[i] in ks && r[j] in ks && FirstAt(ks, r[i]) < FirstAt(ks, r[j])
  {
    var x := ks[0];
    if x in order {
      assert r[i] != x && r[j] != x;
      InTail(ks, r[i]);
      InTail(ks, r[j]);
      FirstAtTail(ks, r[i]);
      FirstAtTail(ks, r[j]);
    } else if i == |order| {
      assert r[i] == next[|order|] == x;
      InTail(ks, r[j]);
      FirstAtTail(ks, r[j]);
    } else {
      assert next[|order|] == x;
      InTail(ks, r[i]);
      InTail(ks, r[j]);
      FirstAtTail(ks, r[i]);
      FirstAtTail(ks, r[j]);
    }
  }

  lemma InTail<K>(ks: seq<K>, k: K)
    requires |ks| > 0 && k in ks[1..]
    ensures k in ks
  {
    var m :| 0 <= m < |ks[1..]| && ks[1..][m] == k;
    assert ks[m + 1] == k;
  }

  lemma FirstAtTail<K>(ks: seq<K>, k: K)
    requires |ks| > 0 && k in ks && k != ks[0]
    ensures k in ks[1..] && FirstAt(ks, k) == 1 + FirstAt(ks[1..], k)
  {
  }
}
