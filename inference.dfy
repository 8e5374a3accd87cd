/** `build_inference` (fuzzi_logic.py, lines 116-135): generalised max-min composition of an
    input fuzzy set with a relation. */
module Inference {
  import opened Wrappers
  import opened Labels
  import opened Dicts
  import opened Norms
  import opened FuzzySets
  import opened FuzzyRelations

  // ---------------------------------------------------------------------------------------
  // The computation, stated on values
  // ---------------------------------------------------------------------------------------

  /** Line 127 for one pair: `func_in(input_set[x], relation.get(x, y))`, the arguments read
      left to right. A missing input label or cell raises KeyError; a `None` input degree
      handed to `func_in` raises TypeError. */
  function Step(inp: Dict<Degree>, cells: Cells, x: Label, y: Label, fin: (real, real) -> real): (r: Result<real>)
    ensures r.Ok? <==> x in inp.vals && (x, y) in cells && inp.vals[x].Some?
    ensures r.Ok? ==> r.value == fin(inp.vals[x].value, cells[(x, y)])
    ensures r.Err? ==> r.error == KeyError || r.error == TypeError
  {
    if x !in inp.vals then Err(KeyError)
    else if (x, y) !in cells then Err(KeyError)
    else if inp.vals[x].None? then Err(TypeError)
    else Ok(fin(inp.vals[x].value, cells[(x, y)]))
  }

  /** Lines 125-131: the accumulator `res` once the inner loop has visited `xs`. It starts as
      `None`, takes the first value, then `func_out(res, value)` of each later one. */
  function Column(inp: Dict<Degree>, cells: Cells, xs: seq<Label>, y: Label,
                  fin: (real, real) -> real, fout: (real, real) -> real): (r: Result<Degree>)
    ensures r.Ok? ==> (r.value.None? <==> xs == [])
    ensures r.Err? ==> r.error == KeyError || r.error == TypeError
  {
    if xs == [] then Ok(None)
    else
      var init := xs[..|xs| - 1];
      match Column(inp, cells, init, y, fin, fout)
      case Err(e) => Err(e)
      case Ok(res) =>
        match Step(inp, cells, xs[|xs| - 1], y, fin)
        case Err(e) => Err(e)
        case Ok(v) => Ok(Some(if res.None? then v else fout(res.value, v)))
  }

  /** A column succeeds exactly when every step of it does. */
  lemma {:induction false} ColumnOk(inp: Dict<Degree>, cells: Cells, xs: seq<Label>, y: Label,
                                    fin: (real, real) -> real, fout: (real, real) -> real)
    ensures Column(inp, cells, xs, y, fin, fout).Ok? <==>
      forall k :: 0 <= k < |xs| ==> Step(inp, cells, xs[k], y, fin).Ok?
  {
    if xs != [] {
      var init := xs[..|xs| - 1];
      ColumnOk(inp, cells, init, y, fin, fout);
      assert forall k :: 0 <= k < |init| ==> init[k] == xs[k];
    }
  }

  /** Lines 124-133: the output dictionary once the outer loop has visited `ys`; the first
      failing column stops it. */
  function Outputs(inp: Dict<Degree>, cells: Cells, xs: seq<Label>, ys: seq<Label>,
                   fin: (real, real) -> real, fout: (real, real) -> real): (r: Result<Dict<Degree>>)
    ensures r.Ok? ==> r.value.Valid()
  {
    if ys == [] then Ok(Empty())
    else
      match Outputs(inp, cells, xs, ys[..|ys| - 1], fin, fout)
      case Err(e) => Err(e)
      case Ok(d) =>
        match Column(inp, cells, xs, ys[|ys| - 1], fin, fout)
        case Err(e) => Err(e)
        case Ok(v) => Ok(d.Put(ys[|ys| - 1], v))
  }

  /** `build_inference(input, relation, func_in, func_out)` on values: ArithmeticError when the
      input surface and the relation's first surface differ as sets, else the output
      dictionary (its set's surface is its keys, line 135). */
  function Infer(inp: Dict<Degree>, inputSurface: seq<Label>, s1: seq<Label>, s2: seq<Label>, cells: Cells,
                 fin: (real, real) -> real, fout: (real, real) -> real): (r: Result<Dict<Degree>>)
    ensures r.Ok? ==> r.value.Valid()
  {
    if SetOf(inputSurface) != SetOf(s1) then Err(ArithmeticError)
    else Outputs(inp, cells, s1, s2, fin, fout)
  }

  // ---------------------------------------------------------------------------------------
  // What the computation promises
  // ---------------------------------------------------------------------------------------

  /** The composition fails with ArithmeticError exactly when the surfaces differ as sets; a
      lookup or a `None` degree raises KeyError or TypeError instead. */
  lemma InferMismatch(inp: Dict<Degree>, inputSurface: seq<Label>, s1: seq<Label>, s2: seq<Label>, cells: Cells,
                      fin: (real, real) -> real, fout: (real, real) -> real)
    ensures Infer(inp, inputSurface, s1, s2, cells, fin, fout) == Err(ArithmeticError) <==>
      exists l :: (l in inputSurface) != (l in s1)
  {
    SetOfDiffers(inputSurface, s1);
    OutputsErrors(inp, cells, s1, s2, fin, fout);
  }

  /** The output loop only raises what a column raises. */
  lemma {:induction false} OutputsErrors(inp: Dict<Degree>, cells: Cells, xs: seq<Label>, ys: seq<Label>,
                                         fin: (real, real) -> real, fout: (real, real) -> real)
    ensures var r := Outputs(inp, cells, xs, ys, fin, fout);
      r.Err? ==> r.error == KeyError || r.error == TypeError
  {
    if ys != [] {
      OutputsErrors(inp, cells, xs, ys[..|ys| - 1], fin, fout);
    }
  }

  /** The composition succeeds exactly when every column does. */
  lemma OutputsOk(inp: Dict<Degree>, cells: Cells, xs: seq<Label>, ys: seq<Label>,
                  fin: (real, real) -> real, fout: (real, real) -> real)
    ensures Outputs(inp, cells, xs, ys, fin, fout).Ok? <==>
      forall k :: 0 <= k < |ys| ==> Column(inp, cells, xs, ys[k], fin, fout).Ok?
  {
    if Outputs(inp, cells, xs, ys, fin, fout).Ok? {
      forall k | 0 <= k < |ys| ensures Column(inp, cells, xs, ys[k], fin, fout).Ok? {
        OutputsValueAt(inp, cells, xs, ys, ys[k], fin, fout);
      }
    } else if forall k :: 0 <= k < |ys| ==> Column(inp, cells, xs, ys[k], fin, fout).Ok? {
      OutputsAllOk(inp, cells, xs, ys, fin, fout);
    }
  }

  /** When every column succeeds, so does the output loop. */
  lemma {:induction false} OutputsAllOk(inp: Dict<Degree>, cells: Cells, xs: seq<Label>, ys: seq<Label>,
                                        fin: (real, real) -> real, fout: (real, real) -> real)
    requires forall k :: 0 <= k < |ys| ==> Column(inp, cells, xs, ys[k], fin, fout).Ok?
    ensures Outputs(inp, cells, xs, ys, fin, fout).Ok?
  {
    if ys != [] {
      var init := ys[..|ys| - 1];
      forall k | 0 <= k < |init| ensures Column(inp, cells, xs, init[k], fin, fout).Ok? {
        assert init[k] == ys[k];
      }
      OutputsAllOk(inp, cells, xs, init, fin, fout);
      assert Column(inp, cells, xs, ys[|ys| - 1], fin, fout).Ok?;
    }
  }

  /** Output shape: one entry per label of the relation's second surface, in that order and
      without repeats. */
  lemma {:induction false} OutputsKeys(inp: Dict<Degree>, cells: Cells, xs: seq<Label>, ys: seq<Label>,
                                       fin: (real, real) -> real, fout: (real, real) -> real)
    requires Outputs(inp, cells, xs, ys, fin, fout).Ok?
    ensures Outputs(inp, cells, xs, ys, fin, fout).value.keys == Dedup(ys)
  {
    if ys != [] {
      var init := ys[..|ys| - 1];
      var y := ys[|ys| - 1];
      var prev := Outputs(inp, cells, xs, init, fin, fout);
      var col := Column(inp, cells, xs, y, fin, fout);
      assert prev.Ok? && col.Ok?;
      OutputsKeys(inp, cells, xs, init, fin, fout);
      var d := prev.value;
      assert Outputs(inp, cells, xs, ys, fin, fout) == Ok(d.Put(y, col.value));
      assert y in init <==> y in d.vals;
    }
  }

  /** Each entry of the output holds its label's column. */
  lemma OutputsValues(inp: Dict<Degree>, cells: Cells, xs: seq<Label>, ys: seq<Label>,
                      fin: (real, real) -> real, fout: (real, real) -> real)
    requires Outputs(inp, cells, xs, ys, fin, fout).Ok?
    ensures var d := Outputs(inp, cells, xs, ys, fin, fout).value;
      forall y :: y in ys ==>
        y in d.vals && Column(inp, cells, xs, y, fin, fout).Ok? && d.vals[y] == Column(inp, cells, xs, y, fin, fout).value
  {
    forall y | y in ys
      ensures var d := Outputs(inp, cells, xs, ys, fin, fout).value;
        y in d.vals && Column(inp, cells, xs, y, fin, fout).Ok? && d.vals[y] == Column(inp, cells, xs, y, fin, fout).value
    {
      OutputsValueAt(inp, cells, xs, ys, y, fin, fout);
    }
  }

  lemma {:induction false} OutputsValueAt(inp: Dict<Degree>, cells: Cells, xs: seq<Label>, ys: seq<Label>, y: Label,
                                          fin: (real, real) -> real, fout: (real, real) -> real)
    requires Outputs(inp, cells, xs, ys, fin, fout).Ok?
    requires y in ys
    ensures var d := Outputs(inp, cells, xs, ys, fin, fout).value;
      y in d.vals && Column(inp, cells, xs, y, fin, fout).Ok? && d.vals[y] == Column(inp, cells, xs, y, fin, fout).value
  {
    var init := ys[..|ys| - 1];
    var last := ys[|ys| - 1];
    var prev := Outputs(inp, cells, xs, init, fin, fout);
    var col := Column(inp, cells, xs, last, fin, fout);
    assert prev.Ok? && col.Ok?;
    var r := prev.value.Put(last, col.value);
    assert Outputs(inp, cells, xs, ys, fin, fout) == Ok(r);
    if y != last {
      assert ys == init + [last];
      assert y in init;
      OutputsValueAt(inp, cells, xs, init, y, fin, fout);
    }
  }

  /** Once a column fails on a prefix of `xs`, it fails with that error on the whole. */
  lemma {:induction false} ColumnErrStays(inp: Dict<Degree>, cells: Cells, xs: seq<Label>, i: nat, y: Label,
                                          fin: (real, real) -> real, fout: (real, real) -> real)
    requires i <= |xs|
    requires Column(inp, cells, xs[..i], y, fin, fout).Err?
    ensures Column(inp, cells, xs, y, fin, fout) == Column(inp, cells, xs[..i], y, fin, fout)
    decreases |xs|
  {
    if i == |xs| {
      assert xs[..i] == xs;
    } else {
      var init := xs[..|xs| - 1];
      assert init[..i] == xs[..i];
      ColumnErrStays(inp, cells, init, i, y, fin, fout);
    }
  }

  /** Once the output loop fails on a prefix of `ys`, it fails with that error on the whole. */
  lemma {:induction false} OutputsErrStays(inp: Dict<Degree>, cells: Cells, xs: seq<Label>, ys: seq<Label>, j: nat,
                                           fin: (real, real) -> real, fout: (real, real) -> real)
    requires j <= |ys|
    requires Outputs(inp, cells, xs, ys[..j], fin, fout).Err?
    ensures Outputs(inp, cells, xs, ys, fin, fout) == Outputs(inp, cells, xs, ys[..j], fin, fout)
    decreases |ys|
  {
    if j == |ys| {
      assert ys[..j] == ys;
    } else {
      var init := ys[..|ys| - 1];
      assert init[..j] == ys[..j];
      OutputsErrStays(inp, cells, xs, init, j, fin, fout);
    }
  }

  /** A left fold seeded with its first value: `func_out` combines the values in order. */
  function FoldLeft(f: (real, real) -> real, acc: real, vs: seq<real>): real
    decreases |vs|
  {
    if vs == [] then acc else FoldLeft(f, f(acc, vs[0]), vs[1..])
  }

  lemma {:induction false} FoldLeftSnoc(f: (real, real) -> real, acc: real, vs: seq<real>, v: real)
    ensures FoldLeft(f, acc, vs + [v]) == f(FoldLeft(f, acc, vs), v)
    decreases |vs|
  {
    if vs != [] {
      assert (vs + [v])[1..] == vs[1..] + [v];
      FoldLeftSnoc(f, f(acc, vs[0]), vs[1..], v);
    }
  }

  /** The values `func_in(input[x], R(x, y))` for the labels `xs`, in order. */
  function StepValues(inp: Dict<Degree>, cells: Cells, xs: seq<Label>, y: Label, fin: (real, real) -> real): (vs: seq<real>)
    requires forall k :: 0 <= k < |xs| ==> Step(inp, cells, xs[k], y, fin).Ok?
    ensures |vs| == |xs|
    ensures forall k :: 0 <= k < |xs| ==> vs[k] == Step(inp, cells, xs[k], y, fin).value
  {
    seq(|xs|, k requires 0 <= k < |xs| => Step(inp, cells, xs[k], y, fin).value)
  }

  /** Each output entry is the left fold of `func_out` over the `func_in` values, seeded with
      the first of them. */
  lemma {:induction false} ColumnIsFold(inp: Dict<Degree>, cells: Cells, xs: seq<Label>, y: Label,
                                        fin: (real, real) -> real, fout: (real, real) -> real)
    requires xs != []
    requires forall k :: 0 <= k < |xs| ==> Step(inp, cells, xs[k], y, fin).Ok?
    ensures var vs := StepValues(inp, cells, xs, y, fin);
      Column(inp, cells, xs, y, fin, fout) == Ok(Some(FoldLeft(fout, vs[0], vs[1..])))
  {
    var vs := StepValues(inp, cells, xs, y, fin);
    ColumnOk(inp, cells, xs, y, fin, fout);
    if |xs| > 1 {
      var init := xs[..|xs| - 1];
      assert forall k :: 0 <= k < |init| ==> init[k] == xs[k];
      ColumnIsFold(inp, cells, init, y, fin, fout);
      var ws := StepValues(inp, cells, init, y, fin);
      assert vs[1..] == ws[1..] + [vs[|vs| - 1]];
      FoldLeftSnoc(fout, ws[0], ws[1..], vs[|vs| - 1]);
    }
  }

  /** With the defaults `min` and `max`, an output entry is the largest of the
      `min(input[x], R(x, y))`: at least each of them, and equal to one of them. */
  lemma {:induction false} MaxMinColumn(inp: Dict<Degree>, cells: Cells, xs: seq<Label>, y: Label)
    requires xs != []
    requires forall k :: 0 <= k < |xs| ==> Step(inp, cells, xs[k], y, Min).Ok?
    ensures Column(inp, cells, xs, y, Min, Max).Ok?
    ensures var v := Column(inp, cells, xs, y, Min, Max).value.value;
      && (forall k :: 0 <= k < |xs| ==> Step(inp, cells, xs[k], y, Min).value <= v)
      && (exists k :: 0 <= k < |xs| && Step(inp, cells, xs[k], y, Min).value == v)
  {
    ColumnOk(inp, cells, xs, y, Min, Max);
    var v := Column(inp, cells, xs, y, Min, Max).value.value;
    var last := Step(inp, cells, xs[|xs| - 1], y, Min).value;
    if |xs| == 1 {
      assert Step(inp, cells, xs[0], y, Min).value == v;
    } else {
      var init := xs[..|xs| - 1];
      assert forall k :: 0 <= k < |init| ==> init[k] == xs[k];
      MaxMinColumn(inp, cells, init, y);
      var w := Column(inp, cells, init, y, Min, Max).value.value;
      assert v == Max(w, last);
      var k :| 0 <= k < |init| && Step(inp, cells, init[k], y, Min).value == w;
      if v == w {
        assert Step(inp, cells, xs[k], y, Min).value == v;
      } else {
        assert Step(inp, cells, xs[|xs| - 1], y, Min).value == v;
      }
    }
  }

  /** With `min` and `max`: an output entry is at most the largest relation cell in its column
      and at most the largest input degree; with all degrees and cells in [0, 1], so is it. */
  lemma MaxMinBounds(inp: Dict<Degree>, cells: Cells, xs: seq<Label>, y: Label)
    requires xs != []
    requires forall k :: 0 <= k < |xs| ==>
      xs[k] in inp.vals && inp.vals[xs[k]].Some? && (xs[k], y) in cells
    ensures Column(inp, cells, xs, y, Min, Max).Ok?
    ensures var v := Column(inp, cells, xs, y, Min, Max).value.value;
      && (exists k :: 0 <= k < |xs| && v <= cells[(xs[k], y)])
      && (exists k :: 0 <= k < |xs| && v <= inp.vals[xs[k]].value)
      && ((forall k :: 0 <= k < |xs| ==>
             0.0 <= inp.vals[xs[k]].value <= 1.0 && 0.0 <= cells[(xs[k], y)] <= 1.0) ==> 0.0 <= v <= 1.0)
  {
    MaxMinColumn(inp, cells, xs, y);
    var v := Column(inp, cells, xs, y, Min, Max).value.value;
    var k :| 0 <= k < |xs| && Step(inp, cells, xs[k], y, Min).value == v;
    assert Step(inp, cells, xs[k], y, Min).Ok?;
    assert v <= cells[(xs[k], y)] && v <= inp.vals[xs[k]].value;
    if forall j :: 0 <= j < |xs| ==> 0.0 <= inp.vals[xs[j]].value <= 1.0 && 0.0 <= cells[(xs[j], y)] <= 1.0 {
      assert Step(inp, cells, xs[0], y, Min).value <= v;
    }
  }

  /** The composition succeeds when the surfaces agree as sets, every label of the first surface
      holds a degree in the input, and the relation has a cell for every pair of its surfaces. */
  lemma InferSucceeds(inp: Dict<Degree>, inputSurface: seq<Label>, s1: seq<Label>, s2: seq<Label>, cells: Cells,
                      fin: (real, real) -> real, fout: (real, real) -> real)
    requires forall l :: l in inputSurface <==> l in s1
    requires forall x :: x in s1 ==> x in inp.vals && inp.vals[x].Some?
    requires forall x, y :: x in s1 && y in s2 ==> (x, y) in cells
    ensures Infer(inp, inputSurface, s1, s2, cells, fin, fout).Ok?
  {
    SetOfDiffers(inputSurface, s1);
    OutputsOk(inp, cells, s1, s2, fin, fout);
    forall k | 0 <= k < |s2| ensures Column(inp, cells, s1, s2[k], fin, fout).Ok? {
      ColumnOk(inp, cells, s1, s2[k], fin, fout);
      forall j | 0 <= j < |s1| ensures Step(inp, cells, s1[j], s2[k], fin).Ok? {
        assert s1[j] in s1;
      }
    }
  }

  // ---------------------------------------------------------------------------------------
  // The procedure
  // ---------------------------------------------------------------------------------------

  /** `build_inference(input_set, relation, func_in, func_out)` (lines 116-135): a fresh fuzzy
      set over a fresh dictionary whose surface is the output labels in order. */
  method BuildInference(input: FuzzySet, relation: FuzzyRelation,
                        fin: (real, real) -> real, fout: (real, real) -> real)
    returns (r: Result<FuzzySet>)
    ensures var spec := Infer(input.items.entries, input.surface, relation.surface1, relation.surface2,
                              relation.cells, fin, fout);
      && (spec.Err? ==> r == Err(spec.error))
      && (spec.Ok? ==>
            (r.Ok? && fresh(r.value) && fresh(r.value.items)
             && r.value.items.entries == spec.value && r.value.surface == spec.value.keys))
  {
    var surfaces := relation.Surfaces();
    if SetOf(input.surface) != SetOf(surfaces.0) {
      return Err(ArithmeticError);
    }
    var output := OutputLoop(input.items.entries, relation.cells, surfaces.0, surfaces.1, fin, fout);
    if output.Err? {
      return Err(output.error);
    }
    var d := new SharedDict(output.value);
    var s := new FuzzySet.FromDict(d, None);
    return Ok(s);
  }

  /** The outer loop of lines 124-133 over the output labels `ys`. */
  method OutputLoop(inp: Dict<Degree>, cells: Cells, xs: seq<Label>, ys: seq<Label>,
                    fin: (real, real) -> real, fout: (real, real) -> real)
    returns (r: Result<Dict<Degree>>)
    ensures r == Outputs(inp, cells, xs, ys, fin, fout)
  {
    var output: Dict<Degree> := Empty();
    for j := 0 to |ys|
      invariant Outputs(inp, cells, xs, ys[..j], fin, fout) == Ok(output)
    {
      var y := ys[j];
      assert ys[..j + 1][..j] == ys[..j];
      var res := ColumnLoop(inp, cells, xs, y, fin, fout);
      if res.Err? {
        OutputsErrStays(inp, cells, xs, ys, j + 1, fin, fout);
        return Err(res.error);
      }
      output := output.Put(y, res.value);
    }
    assert ys[..|ys|] == ys;
    return Ok(output);
  }

  /** The inner loop of lines 125-131 for one output label `y`. */
  method ColumnLoop(inp: Dict<Degree>, cells: Cells, xs: seq<Label>, y: Label,
                    fin: (real, real) -> real, fout: (real, real) -> real)
    returns (r: Result<Degree>)
    ensures r == Column(inp, cells, xs, y, fin, fout)
  {
    var res: Degree := None;
    for i := 0 to |xs|
      invariant Column(inp, cells, xs[..i], y, fin, fout) == Ok(res)
    {
      var x := xs[i];
      assert xs[..i + 1][..i] == xs[..i];
      var step := Step(inp, cells, x, y, fin);
      if step.Err? {
        ColumnErrStays(inp, cells, xs, i + 1, y, fin, fout);
        return Err(step.error);
      }
      if res.None? {
        res := Some(step.value);
      } else {
        res := Some(fout(res.value, step.value));
      }
    }
    assert xs[..|xs|] == xs;
    return Ok(res);
  }
}
