/** Python dictionaries keyed by labels: insertion-ordered, last write wins. */
module Dicts {
  import opened Labels

  /** A dictionary as a value: its keys in insertion order and its key-value map. */
  datatype Dict<V> = Dict(keys: seq<Label>, vals: map<Label, V>) {

    /** Keys are distinct and are exactly the keys of the map. */
    ghost predicate Valid()
    {
      && (forall i, j :: 0 <= i < j < |keys| ==> keys[i] != keys[j])
      && (forall l :: l in vals <==> l in keys)
    }

    /** `d[l] = v`: a new key goes last; an existing key keeps its place and takes the new value. */
    function Put(l: Label, v: V): (r: Dict<V>)
      ensures Valid() ==> r.Valid()
      ensures r.vals == vals[l := v]
      ensures |keys| <= |r.keys| && r.keys[..|keys|] == keys
      ensures Valid() ==> (r.keys == keys <==> l in vals)
    {
      Dict(if l in vals then keys else keys + [l], vals[l := v])
    }
  }

  function Empty<V>(): Dict<V>
  {
    Dict([], map[])
  }

  /** `a` occurs in `s` before `b` first does. */
  predicate FirstBefore(s: seq<Label>, a: Label, b: Label)
  {
    exists k :: 0 <= k < |s| && s[k] == a && b !in s[..k + 1]
  }

  /** The labels of `s` without repeats, in the order of their first occurrences. */
  function Dedup(s: seq<Label>): (r: seq<Label>)
    ensures forall l :: l in r <==> l in s
    ensures forall i, j :: 0 <= i < j < |r| ==> r[i] != r[j]
  {
    if s == [] then []
    else
      var p := Dedup(s[..|s| - 1]);
      if s[|s| - 1] in s[..|s| - 1] then p else p + [s[|s| - 1]]
  }

  /** The order of `Dedup(s)` is the order of first occurrences in `s`. */
  lemma {:induction false} DedupOrder(s: seq<Label>)
    ensures forall i, j :: 0 <= i < j < |Dedup(s)| ==> FirstBefore(s, Dedup(s)[i], Dedup(s)[j])
  {
    if s != [] {
      var init := s[..|s| - 1];
      var p := Dedup(init);
      DedupOrder(init);
      FirstBeforeExtends(init, s);
      if s[|s| - 1] !in init {
        FirstBeforeLast(init, s, p);
      }
      var r := Dedup(s);
      forall i, j | 0 <= i < j < |r|
        ensures FirstBefore(s, r[i], r[j])
      {
        assert r[i] == p[i];
        if j < |p| {
          assert r[j] == p[j] && FirstBefore(init, p[i], p[j]);
        }
      }
    }
  }

  /** One more label adds itself to the end of the deduplication exactly when it is new. */
  lemma DedupSnoc(s: seq<Label>, l: Label)
    ensures Dedup(s + [l]) == if l in s then Dedup(s) else Dedup(s) + [l]
  {
    assert (s + [l])[..|s + [l]| - 1] == s;
  }

  /** An order of first occurrences in a prefix still holds in the whole sequence. */
  lemma FirstBeforeExtends(init: seq<Label>, s: seq<Label>)
    requires |init| <= |s| && init == s[..|init|]
    ensures forall a, b :: FirstBefore(init, a, b) ==> FirstBefore(s, a, b)
  {
    forall a, b | FirstBefore(init, a, b)
      ensures FirstBefore(s, a, b)
    {
      var k :| 0 <= k < |init| && init[k] == a && b !in init[..k + 1];
      assert s[k] == a && s[..k + 1] == init[..k + 1];
    }
  }

  /** A label that first occurs at the end of `s` comes after every earlier label. */
  lemma FirstBeforeLast(init: seq<Label>, s: seq<Label>, p: seq<Label>)
    requires s != [] && init == s[..|s| - 1] && s[|s| - 1] !in init
    requires forall l :: l in p ==> l in init
    ensures forall i :: 0 <= i < |p| ==> FirstBefore(s, p[i], s[|s| - 1])
  {
    forall i | 0 <= i < |p|
      ensures FirstBefore(s, p[i], s[|s| - 1])
    {
      assert p[i] in init;
      var k :| 0 <= k < |init| && init[k] == p[i];
      assert s[..k + 1] == init[..k + 1];
    }
  }

  /** A sequence without repeats is its own deduplication. */
  lemma {:induction false} DedupDistinct(s: seq<Label>)
    requires forall i, j :: 0 <= i < j < |s| ==> s[i] != s[j]
    ensures Dedup(s) == s
  {
    if s != [] {
      DedupDistinct(s[..|s| - 1]);
      assert s[..|s| - 1] + [s[|s| - 1]] == s;
    }
  }

  function Firsts<V>(ps: seq<(Label, V)>): (r: seq<Label>)
    ensures |r| == |ps| && forall i :: 0 <= i < |ps| ==> r[i] == ps[i].0
  {
    seq(|ps|, i requires 0 <= i < |ps| => ps[i].0)
  }

  /** `{k: v for (k, v) in ps}`: keys in order of first appearance, values from the last. */
  function FromPairs<V>(ps: seq<(Label, V)>): (d: Dict<V>)
    ensures d.Valid()
    ensures d.keys == Dedup(Firsts(ps))
    ensures forall l :: l in d.vals <==> l in Firsts(ps)
  {
    if ps == [] then Empty()
    else
      var init := ps[..|ps| - 1];
      assert Firsts(ps)[..|ps| - 1] == Firsts(init);
      FromPairs(init).Put(ps[|ps| - 1].0, ps[|ps| - 1].1)
  }

  /** The value stored for a label is the one of its last pair. */
  lemma {:induction false} FromPairsLastWins<V>(ps: seq<(Label, V)>, i: nat)
    requires i < |ps|
    requires forall j :: i < j < |ps| ==> ps[j].0 != ps[i].0
    ensures ps[i].0 in FromPairs(ps).vals && FromPairs(ps).vals[ps[i].0] == ps[i].1
  {
    if i < |ps| - 1 {
      FromPairsLastWins(ps[..|ps| - 1], i);
    }
  }

  /** Two pairs with the same label make ONE entry, holding the later value. */
  lemma FromPairsRepeated<V>(l: Label, a: V, b: V)
    ensures FromPairs([(l, a), (l, b)]) == Dict([l], map[l := b])
  {
    var ps := [(l, a), (l, b)];
    assert ps[..1] == [(l, a)];
    assert [(l, a)][..0] == [];
    assert FromPairs(ps[..1]) == Dict([l], map[l := a]);
    assert map[l := a][l := b] == map[l := b];
  }

  /** `d.items()`: the key-value pairs in insertion order. */
  function ItemsOf<V>(d: Dict<V>): (r: seq<(Label, V)>)
    requires d.Valid()
    ensures Firsts(r) == d.keys
    ensures forall i :: 0 <= i < |r| ==> r[i].0 in d.vals && r[i].1 == d.vals[r[i].0]
  {
    seq(|d.keys|, i requires 0 <= i < |d.keys| => (d.keys[i], d.vals[d.keys[i]]))
  }

  /** `dict(d.items()) == d`: rebuilding a dictionary from its items gives it back,
      keys in the same order. */
  lemma ItemsRoundTrip<V>(d: Dict<V>)
    requires d.Valid()
    ensures FromPairs(ItemsOf(d)) == d
  {
    ItemsKeys(d);
    ItemsVals(d);
  }

  lemma ItemsVals<V>(d: Dict<V>)
    requires d.Valid()
    ensures FromPairs(ItemsOf(d)).vals == d.vals
  {
    var e := FromPairs(ItemsOf(d)).vals;
    forall l
      ensures l in e <==> l in d.vals
      ensures l in d.vals ==> l in e && e[l] == d.vals[l]
    {
      if l in d.vals {
        ItemsValue(d, l);
      } else {
        ItemsAbsent(d, l);
      }
    }
    MapExt(e, d.vals);
  }

  lemma ItemsAbsent<V>(d: Dict<V>, l: Label)
    requires d.Valid() && l !in d.vals
    ensures l !in FromPairs(ItemsOf(d)).vals
  {
    assert Firsts(ItemsOf(d)) == d.keys;
  }

  /** Maps with the same keys and the same values are equal. */
  lemma MapExt<K, V>(m: map<K, V>, n: map<K, V>)
    requires forall k :: k in m <==> k in n
    requires forall k :: k in m ==> m[k] == n[k]
    ensures m == n
  {
  }

  lemma ItemsKeys<V>(d: Dict<V>)
    requires d.Valid()
    ensures FromPairs(ItemsOf(d)).keys == d.keys
  {
    DedupDistinct(d.keys);
  }

  lemma ItemsValue<V>(d: Dict<V>, l: Label)
    requires d.Valid() && l in d.vals
    ensures l in FromPairs(ItemsOf(d)).vals && FromPairs(ItemsOf(d)).vals[l] == d.vals[l]
  {
    var ps := ItemsOf(d);
    assert l in d.keys;
    var i :| 0 <= i < |d.keys| && d.keys[i] == l;
    assert ps[i].0 == l;
    FromPairsLastWins(ps, i);
  }

  /** A Python dict object: a mutable ordered dictionary that several owners may share. */
  class SharedDict<V> {
    var entries: Dict<V>

    constructor (d: Dict<V>)
      ensures entries == d
    {
      entries := d;
    }

    /** `self[l] = v`. */
    method Put(l: Label, v: V)
      modifies this
      ensures entries == old(entries).Put(l, v)
    {
      entries := entries.Put(l, v);
    }
  }
}
