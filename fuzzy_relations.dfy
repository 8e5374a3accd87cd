/** `FuzzyRelation` (fuzzi_logic.py, lines 61-113): degrees on pairs of labels, built from two
    fuzzy sets with a T-norm, and combined cell by cell with another relation. */
module FuzzyRelations {
  import opened Wrappers
  import opened Labels
  import opened Dicts
  import opened Norms
  import opened FuzzySets

  /** `self.__relations`: a degree per (first label, second label) pair. */
  type Cells = map<(Label, Label), real>

  /** Two cell maps agree when they agree pair by pair. */
  lemma CellsExt(m: Cells, n: Cells)
    requires forall x, y :: (x, y) in m <==> (x, y) in n
    requires forall x, y :: (x, y) in m ==> m[(x, y)] == n[(x, y)]
    ensures m == n
  {
    assert forall p :: p in m <==> (p.0, p.1) in n;
    assert m.Keys == n.Keys;
  }

  function SetOf(s: seq<Label>): set<Label>
  {
    set l | l in s
  }

  // ---------------------------------------------------------------------------------------
  // Construction (lines 70-77)
  // ---------------------------------------------------------------------------------------

  /** Some pair of stored entries hands a `None` degree to the norm (`min(None, x)` raises
      TypeError). */
  ghost predicate ReachesNone(a: Dict<Degree>, b: Dict<Degree>)
  {
    exists x, y :: NoneAt(a, b, x, y)
  }

  /** The norm would be called on the entries of `x` and `y`, and one of them is `None`. */
  predicate NoneAt(a: Dict<Degree>, b: Dict<Degree>, x: Label, y: Label)
  {
    x in a.vals && y in b.vals && (a.vals[x].None? || b.vals[y].None?)
  }

  /** The cells lines 75-77 store: the norm of every pair of ENTRIES of the two dictionaries
      (their items, which may go beyond their surfaces). */
  ghost function ProductCells(a: Dict<Degree>, b: Dict<Degree>, norm: (real, real) -> real): (r: Result<Cells>)
    ensures r.Err? ==> r.error == TypeError
  {
    if ReachesNone(a, b) then Err(TypeError)
    else Ok(map x, y | x in a.vals && y in b.vals ::
              (x, y) := assert !NoneAt(a, b, x, y); norm(a.vals[x].value, b.vals[y].value))
  }

  /** Relation shape: the cells are exactly the pairs of entries of the two dictionaries, each
      holding the norm of the two degrees; `get` on any other pair raises KeyError. */
  lemma ProductCellsEntries(a: Dict<Degree>, b: Dict<Degree>, norm: (real, real) -> real)
    requires ProductCells(a, b, norm).Ok?
    ensures forall x, y :: (x, y) in ProductCells(a, b, norm).value <==> x in a.vals && y in b.vals
    ensures forall x, y :: (x, y) in ProductCells(a, b, norm).value ==>
      a.vals[x].Some? && b.vals[y].Some? &&
      ProductCells(a, b, norm).value[(x, y)] == norm(a.vals[x].value, b.vals[y].value)
  {
    forall x, y | x in a.vals && y in b.vals
      ensures a.vals[x].Some? && b.vals[y].Some?
    {
      assert !NoneAt(a, b, x, y);
    }
  }

  /** A `None` degree stops the construction only if the other set has entries at all: the
      inner loop never calls the norm when either dictionary is empty. */
  lemma ReachesNoneIff(a: Dict<Degree>, b: Dict<Degree>)
    ensures ReachesNone(a, b) <==>
      ((exists x :: x in a.vals && a.vals[x].None?) && b.vals != map[])
      || ((exists y :: y in b.vals && b.vals[y].None?) && a.vals != map[])
  {
    if (exists x :: x in a.vals && a.vals[x].None?) && b.vals != map[] {
      var x :| x in a.vals && a.vals[x].None?;
      var y :| y in b.vals;
      assert NoneAt(a, b, x, y);
    }
    if (exists y :: y in b.vals && b.vals[y].None?) && a.vals != map[] {
      var y :| y in b.vals && b.vals[y].None?;
      var x :| x in a.vals;
      assert NoneAt(a, b, x, y);
    }
  }

  /** Relation shape: every pair of surface labels holds a cell, and it is the norm of the two
      degrees, when each set holds a degree for every label of its surface (what the
      constructor of a set with an explicit surface guarantees). */
  lemma ProductCellsOnSurfaces(a: Dict<Degree>, s1: seq<Label>, b: Dict<Degree>, s2: seq<Label>,
                               norm: (real, real) -> real)
    requires ProductCells(a, b, norm).Ok?
    requires forall x :: x in s1 ==> x in a.vals
    requires forall y :: y in s2 ==> y in b.vals
    ensures forall x, y :: x in s1 && y in s2 ==>
      (x, y) in ProductCells(a, b, norm).value &&
      a.vals[x].Some? && b.vals[y].Some? &&
      ProductCells(a, b, norm).value[(x, y)] == norm(a.vals[x].value, b.vals[y].value)
  {
    forall x, y | x in s1 && y in s2
      ensures a.vals[x].Some? && b.vals[y].Some?
    {
      assert !NoneAt(a, b, x, y);
    }
  }

  /** The nested loop of lines 75-77: the first set's entries outer, the second's inner, the
      norm of each pair stored; the first `None` handed to the norm raises TypeError. */
  method FillCells(a: Dict<Degree>, b: Dict<Degree>, norm: (real, real) -> real) returns (r: Result<Cells>)
    requires a.Valid() && b.Valid()
    ensures r == ProductCells(a, b, norm)
  {
    var acc: Cells := map[];
    for i := 0 to |a.keys|
      invariant forall x, y :: x in a.keys[..i] && y in b.keys ==> !NoneAt(a, b, x, y)
      invariant forall x, y :: (x, y) in acc <==> x in a.keys[..i] && y in b.keys
      invariant forall x, y :: (x, y) in acc ==> acc[(x, y)] == norm(a.vals[x].value, b.vals[y].value)
    {
      var x := a.keys[i];
      assert forall u :: u in a.keys[..i + 1] <==> u in a.keys[..i] || u == x;
      var row := FillRow(a, b, x, norm, acc);
      if row.Err? {
        return Err(TypeError);
      }
      acc := row.value;
    }
    assert a.keys[..|a.keys|] == a.keys;
    assert !ReachesNone(a, b);
    ghost var spec := ProductCells(a, b, norm).value;
    assert forall x, y :: (x, y) in spec <==> x in a.keys && y in b.keys;
    CellsExt(acc, spec);
    return Ok(acc);
  }

  /** The inner loop of lines 76-77 for one entry `x` of the first set: `acc` extended with the
      norm of `x`'s degree and each degree of the second set, or TypeError at the first `None`. */
  method FillRow(a: Dict<Degree>, b: Dict<Degree>, x: Label, norm: (real, real) -> real, acc: Cells)
    returns (r: Result<Cells>)
    requires b.Valid() && x in a.vals
    ensures r.Err? <==> exists y :: y in b.keys && NoneAt(a, b, x, y)
    ensures r.Err? ==> r.error == TypeError
    ensures r.Ok? ==> forall u, y :: (u, y) in r.value <==> (u, y) in acc || (u == x && y in b.keys)
    ensures r.Ok? ==> forall u, y :: (u, y) in acc && u != x ==> r.value[(u, y)] == acc[(u, y)]
    ensures r.Ok? ==> forall y :: y in b.keys ==> !NoneAt(a, b, x, y) && r.value[(x, y)] == norm(a.vals[x].value, b.vals[y].value)
  {
    var row := acc;
    for j := 0 to |b.keys|
      invariant forall y :: y in b.keys[..j] ==> !NoneAt(a, b, x, y)
      invariant forall u, y :: (u, y) in row <==> (u, y) in acc || (u == x && y in b.keys[..j])
      invariant forall u, y :: (u, y) in acc && u != x ==> row[(u, y)] == acc[(u, y)]
      invariant forall y :: y in b.keys[..j] ==> row[(x, y)] == norm(a.vals[x].value, b.vals[y].value)
    {
      var y := b.keys[j];
      assert forall v :: v in b.keys[..j + 1] <==> v in b.keys[..j] || v == y;
      var d1, d2 := a.vals[x], b.vals[y];
      if d1.None? || d2.None? {
        assert NoneAt(a, b, x, y);
        return Err(TypeError);
      }
      row := row[(x, y) := norm(d1.value, d2.value)];
    }
    assert b.keys[..|b.keys|] == b.keys;
    return Ok(row);
  }

  // ---------------------------------------------------------------------------------------
  // Transposition (lines 85-93)
  // ---------------------------------------------------------------------------------------

  /** The cells `transpose` produces as written: line 90 unpacks each `(key, value)` item into
      three names, which raises ValueError on the first item; only an empty relation gets through. */
  function TransposedAsWritten(cells: Cells): (r: Result<Cells>)
    ensures r.Ok? <==> cells == map[]
    ensures r.Ok? ==> r.value == map[]
    ensures r.Err? ==> r.error == ValueError
  {
    if cells == map[] then Ok(map[]) else Err(ValueError)
  }

  /** Transposing twice as written is not the identity: a one-cell relation already fails. */
  lemma TransposeFailsOnOneCell()
    ensures TransposedAsWritten(OneCell()) == Err(ValueError)
    ensures Swapped(OneCell())[(Num(2.0), Num(1.0))] == 0.5
  {
    assert (Num(1.0), Num(2.0)) in OneCell();
  }

  /** The relation `FuzzyRelation(FuzzySet("1/0.5"), FuzzySet("2/1"))`: one cell. */
  function OneCell(): Cells
  {
    map[(Num(1.0), Num(2.0)) := 0.5]
  }

  /** What `transpose` is meant to do: every cell (a, b) -> v becomes (b, a) -> v. */
  function Swapped(cells: Cells): (r: Cells)
    ensures forall x, y :: (x, y) in r <==> (y, x) in cells
    ensures forall x, y :: (y, x) in cells ==> r[(x, y)] == cells[(y, x)]
  {
    map p | p in cells :: (p.1, p.0) := cells[p]
  }

  /** Swapping is an involution, which the intended transpose promises. */
  lemma SwappedInvolution(cells: Cells)
    ensures Swapped(Swapped(cells)) == cells
  {
    var twice := Swapped(Swapped(cells));
    assert forall p :: p in twice <==> (p.0, p.1) in cells;
    assert twice.Keys == cells.Keys;
  }

  // ---------------------------------------------------------------------------------------
  // Aggregation (lines 95-108)
  // ---------------------------------------------------------------------------------------

  /** The outcome of `R.aggregate(O, agg)` from the cells and surfaces of both relations:
      ArithmeticError when a surface differs as a set; otherwise `agg` of the two cells on every
      pair of R's surfaces, KeyError if one of those cells is missing from either relation. */
  ghost function AggregateCells(c: Cells, s1: seq<Label>, s2: seq<Label>,
                                oc: Cells, os1: seq<Label>, os2: seq<Label>,
                                agg: (real, real) -> real): (r: Result<Cells>)
    ensures r.Ok? ==> forall x, y :: (x, y) in r.value <==> x in s1 && y in s2
  {
    if SetOf(s1) != SetOf(os1) || SetOf(s2) != SetOf(os2) then Err(ArithmeticError)
    else CombinedCells(c, oc, s1, s2, agg)
  }

  /** A pair of R's surfaces whose cell is missing from R or from O. */
  predicate MissingAt(c: Cells, oc: Cells, x: Label, y: Label)
  {
    (x, y) !in c || (x, y) !in oc
  }

  /** Lines 103-106 once the surfaces match: `agg` of the two cells on every pair of R's
      surfaces, or KeyError when one of them is missing. */
  ghost function CombinedCells(c: Cells, oc: Cells, s1: seq<Label>, s2: seq<Label>,
                               agg: (real, real) -> real): (r: Result<Cells>)
    ensures r.Ok? ==> forall x, y :: (x, y) in r.value <==> x in s1 && y in s2
    ensures r.Err? ==> r.error == KeyError
  {
    if exists x, y :: x in s1 && y in s2 && MissingAt(c, oc, x, y) then Err(KeyError)
    else Ok(map x, y | x in s1 && y in s2 ::
              (x, y) := assert !MissingAt(c, oc, x, y); agg(c[(x, y)], oc[(x, y)]))
  }

  /** Aggregated cells: `agg` of R's cell and O's cell on every pair of R's surfaces; KeyError
      exactly when one of those cells is missing. */
  lemma CombinedCellsValues(c: Cells, oc: Cells, s1: seq<Label>, s2: seq<Label>, agg: (real, real) -> real)
    ensures CombinedCells(c, oc, s1, s2, agg).Err? <==> exists x, y :: x in s1 && y in s2 && MissingAt(c, oc, x, y)
    ensures CombinedCells(c, oc, s1, s2, agg).Ok? ==> forall x, y :: x in s1 && y in s2 ==>
      (x, y) in c && (x, y) in oc &&
      CombinedCells(c, oc, s1, s2, agg).value[(x, y)] == agg(c[(x, y)], oc[(x, y)])
  {
    var r := CombinedCells(c, oc, s1, s2, agg);
    if r.Ok? {
      forall x, y | x in s1 && y in s2
        ensures (x, y) in c && (x, y) in oc && r.value[(x, y)] == agg(c[(x, y)], oc[(x, y)])
      {
        assert !MissingAt(c, oc, x, y);
      }
    }
  }

  /** The nested loop of lines 103-106 over R's surfaces; the first missing cell raises KeyError. */
  method CombineCells(c: Cells, oc: Cells, s1: seq<Label>, s2: seq<Label>, agg: (real, real) -> real)
    returns (r: Result<Cells>)
    ensures r == CombinedCells(c, oc, s1, s2, agg)
  {
    var acc: Cells := map[];
    for i := 0 to |s1|
      invariant forall x, y :: x in s1[..i] && y in s2 ==> !MissingAt(c, oc, x, y)
      invariant forall x, y :: (x, y) in acc <==> x in s1[..i] && y in s2
      invariant forall x, y :: (x, y) in acc ==> !MissingAt(c, oc, x, y) && acc[(x, y)] == agg(c[(x, y)], oc[(x, y)])
    {
      var x := s1[i];
      assert forall u :: u in s1[..i + 1] <==> u in s1[..i] || u == x;
      var row := CombineRow(c, oc, x, s2, agg, acc);
      if row.Err? {
        return Err(KeyError);
      }
      acc := row.value;
    }
    assert s1[..|s1|] == s1;
    ghost var spec := CombinedCells(c, oc, s1, s2, agg);
    assert spec.Ok?;
    CellsExt(acc, spec.value);
    return Ok(acc);
  }

  /** The inner loop of lines 104-106 for one label `x` of R's first surface. */
  method CombineRow(c: Cells, oc: Cells, x: Label, s2: seq<Label>, agg: (real, real) -> real, acc: Cells)
    returns (r: Result<Cells>)
    ensures r.Err? <==> exists y :: y in s2 && MissingAt(c, oc, x, y)
    ensures r.Err? ==> r.error == KeyError
    ensures r.Ok? ==> forall u, y :: (u, y) in r.value <==> (u, y) in acc || (u == x && y in s2)
    ensures r.Ok? ==> forall u, y :: (u, y) in acc && u != x ==> r.value[(u, y)] == acc[(u, y)]
    ensures r.Ok? ==> forall y :: y in s2 ==> !MissingAt(c, oc, x, y) && r.value[(x, y)] == agg(c[(x, y)], oc[(x, y)])
  {
    var row := acc;
    for j := 0 to |s2|
      invariant forall y :: y in s2[..j] ==> !MissingAt(c, oc, x, y)
      invariant forall u, y :: (u, y) in row <==> (u, y) in acc || (u == x && y in s2[..j])
      invariant forall u, y :: (u, y) in acc && u != x ==> row[(u, y)] == acc[(u, y)]
      invariant forall y :: y in s2[..j] ==> row[(x, y)] == agg(c[(x, y)], oc[(x, y)])
    {
      var y := s2[j];
      assert forall v :: v in s2[..j + 1] <==> v in s2[..j] || v == y;
      var key := (x, y);
      if key !in c || key !in oc {
        assert MissingAt(c, oc, x, y);
        return Err(KeyError);
      }
      row := row[key := agg(c[key], oc[key])];
    }
    assert s2[..|s2|] == s2;
    return Ok(row);
  }

  /** Aggregation fails with ArithmeticError exactly when the first or the second surfaces
      differ as sets. */
  lemma AggregateMismatch(c: Cells, s1: seq<Label>, s2: seq<Label>,
                          oc: Cells, os1: seq<Label>, os2: seq<Label>, agg: (real, real) -> real)
    ensures AggregateCells(c, s1, s2, oc, os1, os2, agg) == Err(ArithmeticError) <==>
      (exists l :: (l in s1) != (l in os1)) || (exists l :: (l in s2) != (l in os2))
  {
    SetOfDiffers(s1, os1);
    SetOfDiffers(s2, os2);
  }

  /** Two surfaces differ as sets exactly when some label is in one and not the other. */
  lemma SetOfDiffers(s: seq<Label>, t: seq<Label>)
    ensures SetOf(s) != SetOf(t) <==> exists l :: (l in s) != (l in t)
  {
    if exists l :: (l in s) != (l in t) {
      var l :| (l in s) != (l in t);
      assert (l in SetOf(s)) != (l in SetOf(t));
    } else {
      forall l ensures l in SetOf(s) <==> l in SetOf(t) {
        assert (l in s) == (l in t);
      }
      assert SetOf(s) == SetOf(t);
    }
  }

  /** With a commutative `agg` (such as the default `max`), `R.aggregate(O)` and
      `O.aggregate(R)` fail alike or hold the same cells. */
  lemma AggregateSymmetric(c: Cells, s1: seq<Label>, s2: seq<Label>,
                           oc: Cells, os1: seq<Label>, os2: seq<Label>, agg: (real, real) -> real)
    requires forall u, v :: agg(u, v) == agg(v, u)
    ensures AggregateCells(c, s1, s2, oc, os1, os2, agg) == AggregateCells(oc, os1, os2, c, s1, s2, agg)
  {
    SetOfDiffers(s1, os1);
    SetOfDiffers(s2, os2);
    if SetOf(s1) == SetOf(os1) && SetOf(s2) == SetOf(os2) {
      var r := CombinedCells(c, oc, s1, s2, agg);
      var q := CombinedCells(oc, c, os1, os2, agg);
      assert forall x, y :: MissingAt(c, oc, x, y) == MissingAt(oc, c, x, y);
      if r.Ok? {
        assert q.Ok?;
        forall x, y | (x, y) in r.value ensures r.value[(x, y)] == q.value[(x, y)] {
          assert x in s1 && y in s2;
          assert x in os1 && y in os2;
          assert !MissingAt(c, oc, x, y);
          assert r.value[(x, y)] == agg(c[(x, y)], oc[(x, y)]);
          var u, v := c[(x, y)], oc[(x, y)];
          assert agg(u, v) == agg(v, u);
          assert q.value[(x, y)] == agg(oc[(x, y)], c[(x, y)]);
        }
        CellsExt(r.value, q.value);
      }
    }
  }

  /** `max` is commutative, so the default aggregation is symmetric. */
  lemma MaxAggregateSymmetric(c: Cells, s1: seq<Label>, s2: seq<Label>,
                              oc: Cells, os1: seq<Label>, os2: seq<Label>)
    ensures AggregateCells(c, s1, s2, oc, os1, os2, Max) == AggregateCells(oc, os1, os2, c, s1, s2, Max)
  {
    AggregateSymmetric(c, s1, s2, oc, os1, os2, Max);
  }

  // ---------------------------------------------------------------------------------------
  // The FuzzyRelation object
  // ---------------------------------------------------------------------------------------

  class FuzzyRelation {
    var cells: Cells
    var surface1: seq<Label>
    var surface2: seq<Label>
    var norm: (real, real) -> real

    /** `FuzzyRelation(FuzzySet(), FuzzySet(), norm)`: the empty relation with which
        `transpose` and `aggregate` start. */
    constructor Empty(norm: (real, real) -> real)
      ensures cells == map[] && surface1 == [] && surface2 == [] && this.norm == norm
    {
      cells := map[];
      surface1 := [];
      surface2 := [];
      this.norm := norm;
    }

    /** `FuzzyRelation(set1, set2, norm)` (lines 62-77): the surfaces of the two sets, and the
        norm of the two degrees on every pair of their entries, the first set's entries in the
        outer loop; a `None` degree handed to the norm raises TypeError. */
    static method Create(set1: FuzzySet, set2: FuzzySet, norm: (real, real) -> real)
      returns (r: Result<FuzzyRelation>)
      requires set1.items.entries.Valid() && set2.items.entries.Valid()
      ensures var spec := ProductCells(set1.items.entries, set2.items.entries, norm);
        && (spec.Err? ==> r == Err(spec.error))
        && (spec.Ok? ==>
              (r.Ok? && fresh(r.value) && r.value.cells == spec.value
               && r.value.surface1 == set1.surface && r.value.surface2 == set2.surface
               && r.value.norm == norm))
    {
      var rel := new FuzzyRelation.Empty(norm);
      rel.surface1 := set1.surface;
      rel.surface2 := set2.surface;
      var cells := FillCells(set1.items.entries, set2.items.entries, norm);
      if cells.Err? {
        return Err(TypeError);
      }
      rel.cells := cells.value;
      return Ok(rel);
    }

    /** `surfaces()` (lines 79-80). */
    function Surfaces(): (r: (seq<Label>, seq<Label>))
      reads this
      ensures r.0 == surface1 && r.1 == surface2
    {
      (surface1, surface2)
    }

    /** `get(a, b)` (lines 82-83): the stored cell, or KeyError. */
    function Get(x: Label, y: Label): (r: Result<real>)
      reads this
      ensures r.Ok? <==> (x, y) in cells
      ensures r.Ok? ==> r.value == cells[(x, y)]
      ensures r.Err? ==> r.error == KeyError
    {
      if (x, y) in cells then Ok(cells[(x, y)]) else Err(KeyError)
    }

    /** `transpose()` as written (lines 85-93): a fresh relation with the surfaces swapped and
        the same norm, which succeeds only when there is no cell to unpack. */
    method Transpose() returns (r: Result<FuzzyRelation>)
      ensures TransposedAsWritten(cells).Err? ==> r == Err(ValueError)
      ensures TransposedAsWritten(cells).Ok? ==>
        r.Ok? && fresh(r.value) && r.value.cells == TransposedAsWritten(cells).value
        && r.value.surface1 == surface2 && r.value.surface2 == surface1 && r.value.norm == norm
    {
      var instance := new FuzzyRelation.Empty(norm);
      instance.surface1 := surface2;
      instance.surface2 := surface1;
      if cells != map[] {
        // the first `(key, value)` item does not unpack into `item1, item2, freq`
        return Err(ValueError);
      }
      return Ok(instance);
    }

    /** What `transpose()` is evidently meant to return: a fresh relation with the surfaces
        and every cell swapped, and the same norm. */
    method Swap() returns (r: FuzzyRelation)
      ensures fresh(r)
      ensures r.cells == Swapped(cells) && r.surface1 == surface2 && r.surface2 == surface1 && r.norm == norm
    {
      r := new FuzzyRelation.Empty(norm);
      r.surface1 := surface2;
      r.surface2 := surface1;
      r.cells := Swapped(cells);
    }

    /** `aggregate(other, agg)` (lines 95-108): ArithmeticError when the surfaces differ as
        sets; else a fresh relation with this relation's surfaces, the default `min` as its norm
        (this relation's norm is not carried over), and `agg` of the two cells on every pair of
        this relation's surfaces. Neither operand changes. */
    method Aggregate(other: FuzzyRelation, agg: (real, real) -> real) returns (r: Result<FuzzyRelation>)
      ensures var spec := AggregateCells(cells, surface1, surface2, other.cells, other.surface1, other.surface2, agg);
        && (spec.Err? ==> r == Err(spec.error))
        && (spec.Ok? ==>
              (r.Ok? && fresh(r.value) && r.value.cells == spec.value
               && r.value.surface1 == surface1 && r.value.surface2 == surface2 && r.value.norm == Min))
    {
      if SetOf(surface1) != SetOf(other.surface1) || SetOf(surface2) != SetOf(other.surface2) {
        return Err(ArithmeticError);
      }
      var instance := new FuzzyRelation.Empty(Min);
      instance.surface1 := surface1;
      instance.surface2 := surface2;
      var combined := CombineCells(cells, other.cells, surface1, surface2, agg);
      if combined.Err? {
        return Err(combined.error);
      }
      instance.cells := combined.value;
      return Ok(instance);
    }
  }
}
