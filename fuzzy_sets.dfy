/** `FuzzySet` (fuzzi_logic.py, lines 21-58): a label-to-degree dictionary and a surface,
    built from `label/degree; ...` text or from a caller's dictionary. */
module FuzzySets {
  import opened Wrappers
  import opened Strings
  import opened Labels
  import opened Dicts

  /** A stored degree: a float, or `None` where a caller's dictionary holds `None`
      (`build_inference` stores `None` for an empty first surface). */
  type Degree = Option<real>

  // ---------------------------------------------------------------------------------------
  // Parsing `label/degree; ...` text (lines 32-34)
  // ---------------------------------------------------------------------------------------

  /** Line 32: the text with every `{` and `}` removed, split at `;`. */
  function Segments(text: string): (parts: seq<string>)
    ensures |parts| == Occurrences(RemoveAll(RemoveAll(text, '{'), '}'), ';') + 1
    ensures forall i :: 0 <= i < |parts| ==> ';' !in parts[i]
    ensures Join(parts, ';') == RemoveAll(RemoveAll(text, '{'), '}')
  {
    Split(RemoveAll(RemoveAll(text, '{'), '}'), ';')
  }

  /** Line 34: the `/`-separated fields of the stripped segment. */
  function Fields(part: string): (f: seq<string>)
    ensures |f| == 2 <==> Occurrences(Strip(part), '/') == 1
    ensures forall i :: 0 <= i < |f| ==> '/' !in f[i]
    ensures Join(f, '/') == Strip(part)
  {
    Split(Strip(part), '/')
  }

  /** The (label token, degree token) pairs of the segments that line 34 keeps: those with
      exactly two fields. Every other segment is dropped without an error. */
  function KeptPairs(parts: seq<string>): (pairs: seq<(string, string)>)
    ensures |pairs| <= |parts|
    ensures forall k :: 0 <= k < |pairs| ==> '/' !in pairs[k].0 && '/' !in pairs[k].1
  {
    if parts == [] then []
    else
      var f := Fields(parts[|parts| - 1]);
      KeptPairs(parts[..|parts| - 1]) + (if |f| == 2 then [(f[0], f[1])] else [])
  }

  /** Every kept pair is a segment that, stripped, reads `label/degree`. */
  lemma {:induction false} KeptPairsFromSegments(parts: seq<string>)
    ensures forall k :: 0 <= k < |KeptPairs(parts)| ==>
      exists i :: 0 <= i < |parts| && Strip(parts[i]) == KeptPairs(parts)[k].0 + "/" + KeptPairs(parts)[k].1
  {
    if parts != [] {
      var init := parts[..|parts| - 1];
      var last := |parts| - 1;
      var f := Fields(parts[last]);
      KeptPairsFromSegments(init);
      var prev := KeptPairs(init);
      var pairs := KeptPairs(parts);
      assert pairs == prev + (if |f| == 2 then [(f[0], f[1])] else []);
      forall k | 0 <= k < |pairs|
        ensures exists i :: 0 <= i < |parts| && Strip(parts[i]) == pairs[k].0 + "/" + pairs[k].1
      {
        if k < |prev| {
          var i :| 0 <= i < |init| && Strip(init[i]) == prev[k].0 + "/" + prev[k].1;
          assert parts[i] == init[i];
        } else {
          assert Join(f[1..], '/') == f[1];
          assert Strip(parts[last]) == f[0] + "/" + f[1];
        }
      }
      assert forall k :: 0 <= k < |KeptPairs(parts)| ==>
        exists i :: 0 <= i < |parts| && Strip(parts[i]) == KeptPairs(parts)[k].0 + "/" + KeptPairs(parts)[k].1;
    } else {
      assert KeptPairs(parts) == [];
    }
  }

  /** Dropping is segment by segment: the kept pairs of two runs of segments are the kept
      pairs of the first followed by those of the second. */
  lemma {:induction false} KeptPairsAppend(p: seq<string>, q: seq<string>)
    ensures KeptPairs(p + q) == KeptPairs(p) + KeptPairs(q)
  {
    if q == [] {
      assert p + q == p;
    } else {
      assert (p + q)[..|p + q| - 1] == p + q[..|q| - 1];
      KeptPairsAppend(p, q[..|q| - 1]);
    }
  }

  /** A kept segment contributes its two fields; a segment without exactly one `/` after
      stripping contributes nothing. */
  lemma KeptPairsSingle(part: string)
    ensures Occurrences(Strip(part), '/') == 1 ==>
      KeptPairs([part]) == [(Fields(part)[0], Fields(part)[1])]
    ensures Occurrences(Strip(part), '/') != 1 ==> KeptPairs([part]) == []
  {
    assert [part][..0] == [];
  }

  /** Text without braces is cut at its `;` and nowhere else. */
  lemma SegmentsOfPlain(text: string)
    requires '{' !in text && '}' !in text
    ensures Segments(text) == Split(text, ';')
  {
    RemoveAllAbsent(text, '{');
    RemoveAllAbsent(text, '}');
  }

  /** A segment that strips to `name/degree` is kept as that pair. */
  lemma KeptPairOf(part: string, name: string, degree: string)
    requires '/' !in name && '/' !in degree
    requires Strip(part) == name + "/" + degree
    ensures KeptPairs([part]) == [(name, degree)]
  {
    assert Join([name, degree], '/') == Strip(part);
    SplitJoin([name, degree], '/');
    assert [part][..0] == [];
  }

  /** A segment without `/` is dropped. */
  lemma DroppedSegment(part: string)
    requires '/' !in Strip(part)
    ensures KeptPairs([part]) == []
  {
    SplitNoSeparator(Strip(part), '/');
    assert [part][..0] == [];
  }

  /** Line 33 for one kept pair: the label through `try_parse`, the degree through `float`,
      which raises ValueError on a token it refuses. */
  function Entry(pair: (string, string)): (r: Result<(Label, Degree)>)
    ensures r.Err? <==> ParseFloat(pair.1).None?
    ensures r.Err? ==> r.error == ValueError
    ensures r.Ok? ==> r.value == (LabelOf(TryParse(pair.0)), Some(ParseFloat(pair.1).value))
  {
    match ParseFloat(pair.1)
    case None => Err(ValueError)
    case Some(x) => Ok((LabelOf(TryParse(pair.0)), Some(x)))
  }

  /** The dictionary that lines 32-34 build from the text. */
  function ParseItems(text: string): (r: Result<Dict<Degree>>)
    ensures r.Ok? ==> r.value.Valid()
  {
    match MapAll(Entry, KeptPairs(Segments(text)))
    case Err(e) => Err(e)
    case Ok(es) => Ok(FromPairs(es))
  }

  /** The labels `try_parse` makes of the kept pairs' label tokens. */
  function LabelTokens(pairs: seq<(string, string)>): (labels: seq<Label>)
    ensures |labels| == |pairs|
    ensures forall k :: 0 <= k < |pairs| ==> labels[k] == LabelOf(TryParse(pairs[k].0))
  {
    seq(|pairs|, k requires 0 <= k < |pairs| => LabelOf(TryParse(pairs[k].0)))
  }

  /** Parsing text fails, with ValueError, exactly when a kept segment has a degree token
      that `float` refuses. */
  lemma ParseItemsFails(text: string)
    ensures var pairs := KeptPairs(Segments(text));
      ParseItems(text).Err? <==> exists k :: 0 <= k < |pairs| && ParseFloat(pairs[k].1).None?
    ensures ParseItems(text).Err? ==> ParseItems(text).error == ValueError
  {
    var pairs := KeptPairs(Segments(text));
    EntriesFail(pairs);
    var e := MapAll(Entry, pairs);
    if e.Err? {
      assert ParseItems(text) == Err(e.error);
    } else {
      assert ParseItems(text) == Ok(FromPairs(e.value));
    }
  }

  lemma EntriesFail(pairs: seq<(string, string)>)
    ensures MapAll(Entry, pairs).Err? <==> exists k :: 0 <= k < |pairs| && ParseFloat(pairs[k].1).None?
    ensures MapAll(Entry, pairs).Err? ==> MapAll(Entry, pairs).error == ValueError
  {
    var e := MapAll(Entry, pairs);
    if e.Err? {
      var k :| 0 <= k < |pairs| && Entry(pairs[k]) == Err(e.error);
    } else {
      forall k | 0 <= k < |pairs| ensures ParseFloat(pairs[k].1).Some? {
        assert Entry(pairs[k]).Ok?;
      }
    }
  }

  /** A successful parse has the labels of the kept segments as keys, in order of first
      appearance. */
  lemma ParseItemsKeys(text: string)
    requires ParseItems(text).Ok?
    ensures ParseItems(text).value.keys == Dedup(LabelTokens(KeptPairs(Segments(text))))
  {
    var pairs := KeptPairs(Segments(text));
    var es := MapAll(Entry, pairs).value;
    assert forall k :: 0 <= k < |pairs| ==> Entry(pairs[k]) == Ok(es[k]);
    assert Firsts(es) == LabelTokens(pairs);
  }

  /** In a successful parse each label holds the degree of its LAST kept segment. */
  lemma ParseItemsLastWins(text: string, k: nat)
    requires ParseItems(text).Ok?
    requires k < |KeptPairs(Segments(text))|
    requires var labels := LabelTokens(KeptPairs(Segments(text)));
      forall j :: k < j < |labels| ==> labels[j] != labels[k]
    ensures var pairs := KeptPairs(Segments(text));
      LabelTokens(pairs)[k] in ParseItems(text).value.vals && ParseFloat(pairs[k].1).Some? &&
      ParseItems(text).value.vals[LabelTokens(pairs)[k]] == Some(ParseFloat(pairs[k].1).value)
  {
    var pairs := KeptPairs(Segments(text));
    EntriesLastWins(pairs, MapAll(Entry, pairs).value, k);
  }

  lemma EntriesLastWins(pairs: seq<(string, string)>, es: seq<(Label, Degree)>, k: nat)
    requires |es| == |pairs| && forall i :: 0 <= i < |pairs| ==> Entry(pairs[i]) == Ok(es[i])
    requires k < |pairs|
    requires var labels := LabelTokens(pairs);
      forall j :: k < j < |labels| ==> labels[j] != labels[k]
    ensures LabelTokens(pairs)[k] in FromPairs(es).vals && ParseFloat(pairs[k].1).Some? &&
      FromPairs(es).vals[LabelTokens(pairs)[k]] == Some(ParseFloat(pairs[k].1).value)
  {
    assert forall j :: 0 <= j < |es| ==> es[j].0 == LabelTokens(pairs)[j];
    FromPairsLastWins(es, k);
  }

  /** A token with no white space at either end and none of `{`, `}`, `;`, `/`. */
  predicate Plain(t: string)
  {
    t != [] && !IsSpace(t[0]) && !IsSpace(t[|t| - 1]) &&
    '{' !in t && '}' !in t && ';' !in t && '/' !in t
  }

  /** A segment with no brace and no `;`. */
  predicate Unbraced(p: string)
  {
    '{' !in p && '}' !in p && ';' !in p
  }

  /** Three brace-free segments joined by `;` are cut back into those three. */
  lemma SegmentsOfThree(p1: string, p2: string, p3: string)
    requires Unbraced(p1) && Unbraced(p2) && Unbraced(p3)
    ensures Segments(p1 + ";" + p2 + ";" + p3) == [p1, p2, p3]
  {
    var t := p1 + ";" + p2 + ";" + p3;
    assert '{' !in t && '}' !in t;
    SegmentsOfPlain(t);
    assert Join([p2, p3], ';') == p2 + ";" + p3 by {
      assert [p2, p3][1..] == [p3];
    }
    assert Join([p1, p2, p3], ';') == t by {
      assert [p1, p2, p3][1..] == [p2, p3];
    }
    SplitJoin([p1, p2, p3], ';');
  }

  /** `name/degree`, with or without one leading space, is kept as the pair of its tokens. */
  lemma PairSegment(name: string, degree: string)
    requires Plain(name) && Plain(degree)
    ensures KeptPairs([name + "/" + degree]) == [(name, degree)]
    ensures KeptPairs([" " + name + "/" + degree]) == [(name, degree)]
  {
    var t := name + "/" + degree;
    assert t[0] == name[0] && t[|t| - 1] == degree[|degree| - 1];
    StripUnpadded(t);
    KeptPairOf(t, name, degree);
    assert " " + name + "/" + degree == [' '] + t;
    StripLeadingSpace(t);
    KeptPairOf(" " + name + "/" + degree, name, degree);
  }

  /** A word with a leading space and no `/` is dropped. */
  lemma WordSegment(w: string)
    requires Plain(w)
    ensures KeptPairs([" " + w]) == []
  {
    assert " " + w == [' '] + w;
    StripLeadingSpace(w);
    DroppedSegment(" " + w);
  }

  /** Kept pairs of a few segments, segment by segment. */
  lemma KeptPairsOfThree(p1: string, p2: string, p3: string)
    ensures KeptPairs([p1, p2, p3]) == KeptPairs([p1]) + KeptPairs([p2]) + KeptPairs([p3])
  {
    assert [p1, p2, p3] == [p1] + [p2] + [p3];
    KeptPairsAppend([p1], [p2]);
    KeptPairsAppend([p1] + [p2], [p3]);
  }

  /** The segments `n1/d1`, ` m` and ` n2/d2`: the middle one is dropped, the others kept. */
  lemma KeptAroundWord(n1: string, d1: string, m: string, n2: string, d2: string)
    requires Plain(n1) && Plain(d1) && Plain(m) && Plain(n2) && Plain(d2)
    ensures KeptPairs([n1 + "/" + d1, " " + m, " " + n2 + "/" + d2]) == [(n1, d1), (n2, d2)]
  {
    KeptPairsOfThree(n1 + "/" + d1, " " + m, " " + n2 + "/" + d2);
    PairSegment(n1, d1);
    WordSegment(m);
    PairSegment(n2, d2);
    assert [(n1, d1)] + [] + [(n2, d2)] == [(n1, d1), (n2, d2)];
  }

  /** `n1/d1; m; n2/d2`: the middle segment is dropped without an error, the others kept. */
  lemma PairWordPair(n1: string, d1: string, m: string, n2: string, d2: string)
    requires Plain(n1) && Plain(d1) && Plain(m) && Plain(n2) && Plain(d2)
    ensures KeptPairs(Segments((n1 + "/" + d1) + ";" + (" " + m) + ";" + (" " + n2 + "/" + d2)))
         == [(n1, d1), (n2, d2)]
  {
    SegmentsOfThree(n1 + "/" + d1, " " + m, " " + n2 + "/" + d2);
    KeptAroundWord(n1, d1, m, n2, d2);
  }

  /** Two pairs with good degrees give their two entries, in order. */
  lemma EntriesOfTwo(q1: (string, string), q2: (string, string), l1: Label, l2: Label, x1: real, x2: real)
    requires LabelOf(TryParse(q1.0)) == l1 && LabelOf(TryParse(q2.0)) == l2
    requires ParseFloat(q1.1) == Some(x1) && ParseFloat(q2.1) == Some(x2)
    ensures MapAll(Entry, [q1, q2]) == Ok([(l1, Some(x1)), (l2, Some(x2))])
  {
    MapAllTwo(Entry, q1, q2);
  }

  /** `n1/d1; m; n2/d2` with both labels reading as the same key `l`: no error for the middle
      segment, and one entry, with the later degree. */
  lemma ParsePairWordPair(n1: string, d1: string, m: string, n2: string, d2: string,
                          l: Label, x1: real, x2: real)
    requires Plain(n1) && Plain(d1) && Plain(m) && Plain(n2) && Plain(d2)
    requires LabelOf(TryParse(n1)) == l && LabelOf(TryParse(n2)) == l
    requires ParseFloat(d1) == Some(x1) && ParseFloat(d2) == Some(x2)
    ensures ParseItems((n1 + "/" + d1) + ";" + (" " + m) + ";" + (" " + n2 + "/" + d2))
         == Ok(Dict([l], map[l := Some(x2)]))
  {
    PairWordPair(n1, d1, m, n2, d2);
    EntriesOfTwo((n1, d1), (n2, d2), l, l, x1, x2);
    FromPairsRepeated(l, Some(x1), Some(x2));
  }

  // ---------------------------------------------------------------------------------------
  // Default zeros for an explicit surface (lines 44-46)
  // ---------------------------------------------------------------------------------------

  /** The dictionary after lines 44-46 have visited `surface`: each label whose entry is
      absent or `None` is set to 0 (a new label goes last, a `None` entry keeps its place). */
  function Completed(d: Dict<Degree>, surface: seq<Label>): (r: Dict<Degree>)
    ensures d.Valid() ==> r.Valid()
    ensures |d.keys| <= |r.keys| && r.keys[..|d.keys|] == d.keys
  {
    if surface == [] then d
    else
      var c := Completed(d, surface[..|surface| - 1]);
      var l := surface[|surface| - 1];
      if l in c.vals && c.vals[l].Some? then c else c.Put(l, Some(0.0))
  }

  /** The entries a surface completion ends with, stated directly: a surface label that is
      absent or `None` becomes 0, every other entry is kept, nothing is removed. */
  function Defaulted(vals: map<Label, Degree>, surface: seq<Label>): map<Label, Degree>
  {
    map l | l in vals.Keys + (set x | x in surface) ::
      if l in surface && (l !in vals || vals[l].None?) then Some(0.0) else vals[l]
  }

  /** The loop of lines 44-46 computes exactly the direct description. */
  lemma {:induction false} CompletedIsDefaulted(d: Dict<Degree>, surface: seq<Label>)
    ensures Completed(d, surface).vals == Defaulted(d.vals, surface)
  {
    if surface == [] {
      assert Defaulted(d.vals, surface) == d.vals;
    } else {
      var init := surface[..|surface| - 1];
      var l := surface[|surface| - 1];
      CompletedIsDefaulted(d, init);
      var c := Completed(d, init);
      assert forall x :: x in surface <==> x in init || x == l;
      var r := Completed(d, surface);
      var want := Defaulted(d.vals, surface);
      assert r.vals.Keys == want.Keys;
      forall x | x in want
        ensures r.vals[x] == want[x]
      {
        if x != l {
          assert r.vals[x] == c.vals[x];
        }
      }
    }
  }

  /** The surface labels that have no entry in `vals`, in surface order. */
  function Absent(vals: map<Label, Degree>, surface: seq<Label>): (r: seq<Label>)
    ensures forall l :: l in r <==> l in surface && l !in vals
  {
    if surface == [] then []
    else
      var l := surface[|surface| - 1];
      Absent(vals, surface[..|surface| - 1]) + (if l in vals then [] else [l])
  }

  /** The order of the completed dictionary: the old keys, then each surface label that had no
      entry, once, in the order of its first place in the surface. */
  lemma {:induction false} CompletedOrder(d: Dict<Degree>, surface: seq<Label>)
    ensures Completed(d, surface).keys == d.keys + Dedup(Absent(d.vals, surface))
  {
    if surface == [] {
      assert d.keys + [] == d.keys;
    } else {
      var init := surface[..|surface| - 1];
      var l := surface[|surface| - 1];
      CompletedOrder(d, init);
      CompletedHas(d, init, l);
      CompletedStep(d, surface);
      AbsentStep(d.vals, surface);
      if l !in Completed(d, init).vals {
        var a := Dedup(Absent(d.vals, init));
        assert d.keys + a + [l] == d.keys + (a + [l]);
      }
    }
  }

  /** One more surface label adds a key exactly when it has no entry yet. */
  lemma CompletedStep(d: Dict<Degree>, surface: seq<Label>)
    requires surface != []
    ensures var c := Completed(d, surface[..|surface| - 1]);
      var l := surface[|surface| - 1];
      Completed(d, surface).keys == if l in c.vals then c.keys else c.keys + [l]
  {
  }

  /** One more surface label adds a new label to the deduplicated absent ones exactly when it
      had no entry and was not on the surface before. */
  lemma AbsentStep(vals: map<Label, Degree>, surface: seq<Label>)
    requires surface != []
    ensures var init := surface[..|surface| - 1];
      var l := surface[|surface| - 1];
      Dedup(Absent(vals, surface)) ==
        if l in vals || l in init then Dedup(Absent(vals, init)) else Dedup(Absent(vals, init)) + [l]
  {
    var init := surface[..|surface| - 1];
    var l := surface[|surface| - 1];
    var a := Absent(vals, init);
    if l in vals {
      assert Absent(vals, surface) == a + [] == a;
    } else {
      assert Absent(vals, surface) == a + [l];
      assert l in a <==> l in init;
      DedupSnoc(a, l);
    }
  }

  /** A label has an entry after completion exactly when it had one or is on the surface. */
  lemma CompletedHas(d: Dict<Degree>, surface: seq<Label>, l: Label)
    ensures l in Completed(d, surface).vals <==> l in d.vals || l in surface
  {
    CompletedIsDefaulted(d, surface);
  }

  /** Surface completeness: afterwards every surface label holds a degree; entries that held a
      degree keep it, absent or `None` surface labels hold 0, and no entry is removed. */
  lemma CompletedCovers(d: Dict<Degree>, surface: seq<Label>)
    ensures forall l :: l in Completed(d, surface).vals <==> l in d.vals || l in surface
    ensures forall l :: l in surface ==>
      l in Completed(d, surface).vals && Completed(d, surface).vals[l].Some?
    ensures forall l :: l in d.vals && d.vals[l].Some? ==> Completed(d, surface).vals[l] == d.vals[l]
    ensures forall l :: l in surface && (l !in d.vals || d.vals[l].None?) ==>
      Completed(d, surface).vals[l] == Some(0.0)
    ensures forall l :: l in d.vals && l !in surface ==> Completed(d, surface).vals[l] == d.vals[l]
  {
    CompletedIsDefaulted(d, surface);
  }

  // ---------------------------------------------------------------------------------------
  // The FuzzySet object
  // ---------------------------------------------------------------------------------------

  class FuzzySet {
    /** `self.__items`: the dictionary object itself, which may be the caller's. */
    const items: SharedDict<Degree>
    /** `self.__surface`. */
    const surface: seq<Label>

    /** `FuzzySet(d, surface)` with a dictionary (lines 35-46). The set keeps the caller's
        dictionary itself, not a copy, and with a surface writes default zeros INTO it. */
    constructor FromDict(d: SharedDict<Degree>, given: Option<seq<Label>>)
      requires d.entries.Valid()
      modifies d
      ensures items == d && d.entries.Valid()
      ensures given.None? ==> surface == old(d.entries.keys) && d.entries == old(d.entries)
      ensures given.Some? ==> surface == given.value && d.entries == Completed(old(d.entries), given.value)
    {
      items := d;
      surface := if given.None? then d.entries.keys else given.value;
      new;
      if given.Some? {
        var s := given.value;
        for i := 0 to |s|
          invariant d.entries == Completed(old(d.entries), s[..i])
          invariant d.entries.Valid()
        {
          var l := s[i];
          assert s[..i + 1][..i] == s[..i];
          if l !in d.entries.vals || d.entries.vals[l].None? {
            d.Put(l, Some(0.0));
          }
        }
        assert s[..|s|] == s;
      }
    }

    /** `FuzzySet(text, surface)` with a string (lines 31-46): the parsed dictionary is a fresh
        one; a degree `float` refuses raises ValueError and no set is built. */
    static method FromText(text: string, given: Option<seq<Label>>) returns (r: Result<FuzzySet>)
      ensures ParseItems(text).Err? ==> r == Err(ValueError)
      ensures ParseItems(text).Ok? ==> r.Ok? && fresh(r.value) && fresh(r.value.items)
      ensures ParseItems(text).Ok? && given.None? ==>
        r.value.items.entries == ParseItems(text).value && r.value.surface == ParseItems(text).value.keys
      ensures ParseItems(text).Ok? && given.Some? ==>
        r.value.items.entries == Completed(ParseItems(text).value, given.value) && r.value.surface == given.value
    {
      var parsed := ParseItems(text);
      if parsed.Err? {
        ParseItemsFails(text);
        return Err(parsed.error);
      }
      var d := new SharedDict(parsed.value);
      var s := new FuzzySet.FromDict(d, given);
      return Ok(s);
    }

    /** `self[l]` (lines 48-49): the stored degree, or KeyError. */
    function Get(l: Label): (r: Result<Degree>)
      reads items
      ensures r.Ok? <==> l in items.entries.vals
      ensures r.Ok? ==> r.value == items.entries.vals[l]
      ensures r.Err? ==> r.error == KeyError
    {
      if l in items.entries.vals then Ok(items.entries.vals[l]) else Err(KeyError)
    }

    /** `self.items()` (lines 54-55): the pairs in insertion order, from which the dictionary
        can be rebuilt unchanged. */
    function Items(): (r: seq<(Label, Degree)>)
      reads items
      requires items.entries.Valid()
      ensures Firsts(r) == items.entries.keys
      ensures FromPairs(r) == items.entries
    {
      ItemsRoundTrip(items.entries);
      ItemsOf(items.entries)
    }
  }
}
