/** The pressure and temperature rules of main.py (lines 8-16 and 42-43), worked through the
    model: "if the pressure is high, the temperature is average" and "if the pressure is low,
    the temperature is low", aggregated with `max` and applied to the high-pressure set. */
module PressureExample {
  import opened Wrappers
  import opened Labels
  import opened Dicts
  import opened Norms
  import opened FuzzySets
  import opened FuzzyRelations
  import opened Inference

  const Pressures: seq<Label> := [Num(800.0), Num(830.0), Num(860.0), Num(900.0)]
  const Temperatures: seq<Label> := [Num(300.0), Num(350.0), Num(400.0)]

  // The sets of main.py, written out as the dictionaries their texts parse to. The parse of
  // these literal texts is not proved here; `FuzzySets.ParseItems` and its lemmas describe it.

  /** What `FuzzySet("800/0.4; 830/0.6; 860/0.8; 900/1")` parses to. */
  const HighPressure: Dict<Degree> :=
    Dict(Pressures, map[Num(800.0) := Some(0.4), Num(830.0) := Some(0.6), Num(860.0) := Some(0.8), Num(900.0) := Some(1.0)])
  /** What `FuzzySet("800/1; 830/0.9; 860/0.6; 900/0.4")` parses to. */
  const LowPressure: Dict<Degree> :=
    Dict(Pressures, map[Num(800.0) := Some(1.0), Num(830.0) := Some(0.9), Num(860.0) := Some(0.6), Num(900.0) := Some(0.4)])
  /** What `FuzzySet("300/0.5; 350/1; 400/0.5")` parses to. */
  const AverageTemperature: Dict<Degree> :=
    Dict(Temperatures, map[Num(300.0) := Some(0.5), Num(350.0) := Some(1.0), Num(400.0) := Some(0.5)])
  /** What `FuzzySet("300/1; 350/0.4; 400/0.1")` parses to. */
  const LowTemperature: Dict<Degree> :=
    Dict(Temperatures, map[Num(300.0) := Some(1.0), Num(350.0) := Some(0.4), Num(400.0) := Some(0.1)])

  /** Both rule relations build without error. */
  lemma RulesBuild()
    ensures ProductCells(HighPressure, AverageTemperature, Min).Ok?
    ensures ProductCells(LowPressure, LowTemperature, Min).Ok?
  {
    assert forall x, y :: !NoneAt(HighPressure, AverageTemperature, x, y);
    assert forall x, y :: !NoneAt(LowPressure, LowTemperature, x, y);
  }

  /** The aggregated relation R that main.py prints, row by row (pressures) and column by
      column (temperatures). */
  const Aggregated: Cells := map[
    (Num(800.0), Num(300.0)) := 1.0, (Num(800.0), Num(350.0)) := 0.4, (Num(800.0), Num(400.0)) := 0.4,
    (Num(830.0), Num(300.0)) := 0.9, (Num(830.0), Num(350.0)) := 0.6, (Num(830.0), Num(400.0)) := 0.5,
    (Num(860.0), Num(300.0)) := 0.6, (Num(860.0), Num(350.0)) := 0.8, (Num(860.0), Num(400.0)) := 0.5,
    (Num(900.0), Num(300.0)) := 0.5, (Num(900.0), Num(350.0)) := 1.0, (Num(900.0), Num(400.0)) := 0.5]

  /** `relation1.aggregate(relation2)` holds the cells above. */
  lemma AggregatedRelation()
    ensures ProductCells(HighPressure, AverageTemperature, Min).Ok?
    ensures ProductCells(LowPressure, LowTemperature, Min).Ok?
    ensures AggregateCells(ProductCells(HighPressure, AverageTemperature, Min).value, Pressures, Temperatures,
                           ProductCells(LowPressure, LowTemperature, Min).value, Pressures, Temperatures, Max)
            == Ok(Aggregated)
  {
    RulesBuild();
    ProductCellsOnSurfaces(HighPressure, Pressures, AverageTemperature, Temperatures, Min);
    ProductCellsOnSurfaces(LowPressure, Pressures, LowTemperature, Temperatures, Min);
    var r1 := ProductCells(HighPressure, AverageTemperature, Min).value;
    var r2 := ProductCells(LowPressure, LowTemperature, Min).value;
    CombinedRules(r1, r2);
    assert SetOf(Pressures) == SetOf(Pressures) && SetOf(Temperatures) == SetOf(Temperatures);
  }

  lemma CombinedRules(r1: Cells, r2: Cells)
    requires forall x, y :: x in Pressures && y in Temperatures ==>
      (x, y) in r1 && r1[(x, y)] == Min(HighPressure.vals[x].value, AverageTemperature.vals[y].value)
    requires forall x, y :: x in Pressures && y in Temperatures ==>
      (x, y) in r2 && r2[(x, y)] == Min(LowPressure.vals[x].value, LowTemperature.vals[y].value)
    ensures CombinedCells(r1, r2, Pressures, Temperatures, Max) == Ok(Aggregated)
  {
    var r := CombinedCells(r1, r2, Pressures, Temperatures, Max);
    assert r.Ok?;
    AggregatedKeys();
    forall x, y | (x, y) in r.value ensures r.value[(x, y)] == Aggregated[(x, y)] {
      AggregatedCell(x, y);
    }
    CellsExt(r.value, Aggregated);
  }

  lemma AggregatedKeys()
    ensures forall x, y :: (x, y) in Aggregated <==> x in Pressures && y in Temperatures
  {
  }

  lemma AggregatedCell(x: Label, y: Label)
    requires x in Pressures && y in Temperatures
    ensures (x, y) in Aggregated
    ensures Aggregated[(x, y)] ==
      Max(Min(HighPressure.vals[x].value, AverageTemperature.vals[y].value),
          Min(LowPressure.vals[x].value, LowTemperature.vals[y].value))
  {
  }

  /** `build_inference(high_pressure, relation)`: the temperature is 300 to degree 0.6, 350 to
      degree 1 and 400 to degree 0.5. */
  lemma InferenceOnHighPressure()
    ensures Infer(HighPressure, Pressures, Pressures, Temperatures, Aggregated, Min, Max)
            == Ok(Dict(Temperatures, map[Num(300.0) := Some(0.6), Num(350.0) := Some(1.0), Num(400.0) := Some(0.5)]))
  {
    HighColumn(Num(300.0), 1.0, 0.9, 0.6, 0.5);
    HighColumn(Num(350.0), 0.4, 0.6, 0.8, 1.0);
    HighColumn(Num(400.0), 0.4, 0.5, 0.5, 0.5);
    OutputsOfThree(HighPressure, Aggregated, Pressures, Num(300.0), Num(350.0), Num(400.0), Min, Max);
    assert SetOf(Pressures) == SetOf(Pressures);
  }

  /** The output loop over three distinct labels whose columns all succeed. */
  lemma OutputsOfThree(inp: Dict<Degree>, cells: Cells, xs: seq<Label>, y1: Label, y2: Label, y3: Label,
                       fin: (real, real) -> real, fout: (real, real) -> real)
    requires y1 != y2 && y1 != y3 && y2 != y3
    requires Column(inp, cells, xs, y1, fin, fout).Ok?
    requires Column(inp, cells, xs, y2, fin, fout).Ok?
    requires Column(inp, cells, xs, y3, fin, fout).Ok?
    ensures Outputs(inp, cells, xs, [y1, y2, y3], fin, fout) ==
      Ok(Dict([y1, y2, y3], map[y1 := Column(inp, cells, xs, y1, fin, fout).value,
                                y2 := Column(inp, cells, xs, y2, fin, fout).value,
                                y3 := Column(inp, cells, xs, y3, fin, fout).value]))
  {
    var c1 := Column(inp, cells, xs, y1, fin, fout).value;
    var c2 := Column(inp, cells, xs, y2, fin, fout).value;
    var c3 := Column(inp, cells, xs, y3, fin, fout).value;
    OutputsOfTwo(inp, cells, xs, y1, y2, fin, fout);
    var d2 := Dict([y1, y2], map[y1 := c1, y2 := c2]);
    assert [y1, y2, y3][..2] == [y1, y2];
    assert y3 !in d2.vals;
    assert d2.Put(y3, c3) == Dict([y1, y2, y3], map[y1 := c1, y2 := c2, y3 := c3]);
  }

  lemma OutputsOfTwo(inp: Dict<Degree>, cells: Cells, xs: seq<Label>, y1: Label, y2: Label,
                     fin: (real, real) -> real, fout: (real, real) -> real)
    requires y1 != y2
    requires Column(inp, cells, xs, y1, fin, fout).Ok?
    requires Column(inp, cells, xs, y2, fin, fout).Ok?
    ensures Outputs(inp, cells, xs, [y1, y2], fin, fout) ==
      Ok(Dict([y1, y2], map[y1 := Column(inp, cells, xs, y1, fin, fout).value,
                            y2 := Column(inp, cells, xs, y2, fin, fout).value]))
  {
    var c1 := Column(inp, cells, xs, y1, fin, fout).value;
    var c2 := Column(inp, cells, xs, y2, fin, fout).value;
    var d0: Dict<Degree> := Empty();
    var d1 := Dict([y1], map[y1 := c1]);
    assert [y1][..0] == [];
    assert d0.Put(y1, c1) == d1;
    assert Outputs(inp, cells, xs, [y1], fin, fout) == Ok(d1);
    assert [y1, y2][..1] == [y1];
    assert y2 !in d1.vals;
    assert d1.Put(y2, c2) == Dict([y1, y2], map[y1 := c1, y2 := c2]);
  }

  /** The column of one temperature whose four cells are `r1` to `r4`: the `min` of each
      pressure's degree and its cell, combined with `max` in surface order. */
  lemma HighColumn(y: Label, r1: real, r2: real, r3: real, r4: real)
    requires (Num(800.0), y) in Aggregated && Aggregated[(Num(800.0), y)] == r1
    requires (Num(830.0), y) in Aggregated && Aggregated[(Num(830.0), y)] == r2
    requires (Num(860.0), y) in Aggregated && Aggregated[(Num(860.0), y)] == r3
    requires (Num(900.0), y) in Aggregated && Aggregated[(Num(900.0), y)] == r4
    ensures Column(HighPressure, Aggregated, Pressures, y, Min, Max) ==
      Ok(Some(Max(Max(Max(Min(0.4, r1), Min(0.6, r2)), Min(0.8, r3)), Min(1.0, r4))))
  {
    var h, r := HighPressure, Aggregated;
    var p1, p2, p3, p4 := Num(800.0), Num(830.0), Num(860.0), Num(900.0);
    assert h.vals[p1] == Some(0.4) && h.vals[p2] == Some(0.6) && h.vals[p3] == Some(0.8) && h.vals[p4] == Some(1.0);
    ColumnOfFour(h, r, p1, p2, p3, p4, y, Min, Max);
  }

  /** The inner loop over four labels whose steps all succeed: the steps combined in order. */
  lemma ColumnOfFour(inp: Dict<Degree>, cells: Cells, p1: Label, p2: Label, p3: Label, p4: Label, y: Label,
                     fin: (real, real) -> real, fout: (real, real) -> real)
    requires Step(inp, cells, p1, y, fin).Ok? && Step(inp, cells, p2, y, fin).Ok?
    requires Step(inp, cells, p3, y, fin).Ok? && Step(inp, cells, p4, y, fin).Ok?
    ensures Column(inp, cells, [p1, p2, p3, p4], y, fin, fout) ==
      Ok(Some(fout(fout(fout(Step(inp, cells, p1, y, fin).value, Step(inp, cells, p2, y, fin).value),
                         Step(inp, cells, p3, y, fin).value),
                    Step(inp, cells, p4, y, fin).value)))
  {
    var v1, v2 := Step(inp, cells, p1, y, fin).value, Step(inp, cells, p2, y, fin).value;
    var v3, v4 := Step(inp, cells, p3, y, fin).value, Step(inp, cells, p4, y, fin).value;
    assert [p1][..0] == [];
    assert Column(inp, cells, [p1], y, fin, fout) == Ok(Some(v1));
    assert [p1, p2][..1] == [p1];
    assert Column(inp, cells, [p1, p2], y, fin, fout) == Ok(Some(fout(v1, v2)));
    assert [p1, p2, p3][..2] == [p1, p2];
    assert Column(inp, cells, [p1, p2, p3], y, fin, fout) == Ok(Some(fout(fout(v1, v2), v3)));
    assert [p1, p2, p3, p4][..3] == [p1, p2, p3];
  }

  /** An input set over another surface, `FuzzySet("1/0.1; 2/0.2; 3/0.3")`, is refused. */
  lemma InferenceOnOtherSurface()
    ensures Infer(Dict([Num(1.0), Num(2.0), Num(3.0)], map[Num(1.0) := Some(0.1), Num(2.0) := Some(0.2), Num(3.0) := Some(0.3)]),
                  [Num(1.0), Num(2.0), Num(3.0)], Pressures, Temperatures, Aggregated, Min, Max)
            == Err(ArithmeticError)
  {
    assert Num(1.0) in SetOf([Num(1.0), Num(2.0), Num(3.0)]);
  }
}
