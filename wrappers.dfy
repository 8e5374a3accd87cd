/** Failure-compatible result types shared by the whole model. */
module Wrappers {

  datatype Option<T> = None | Some(value: T)

  /** The Python exceptions the fuzzy-logic core can raise, by class. */
  datatype Error =
    | KeyError         // lookup of a label or a label pair that is not stored
    | ValueError       // float() of a bad degree token, or a failed tuple unpacking
    | TypeError        // min/max (or any norm) handed a None degree
    | ArithmeticError  // aggregate / build_inference on surfaces that differ as sets

  datatype Result<T> = Ok(value: T) | Err(error: Error)

  /** Applies `f` to each element in order and stops at the first failure, as a Python loop
      or comprehension does when a call raises. */
  function MapAll<A, B>(f: A -> Result<B>, xs: seq<A>): (r: Result<seq<B>>)
    ensures r.Err? <==> exists k :: 0 <= k < |xs| && f(xs[k]).Err?
    ensures r.Err? ==> exists k :: 0 <= k < |xs| && f(xs[k]) == Err(r.error)
    ensures r.Ok? ==> |r.value| == |xs| && forall k :: 0 <= k < |xs| ==> f(xs[k]) == Ok(r.value[k])
  {
    if xs == [] then Ok([])
    else
      var init := xs[..|xs| - 1];
      assert forall k :: 0 <= k < |init| ==> init[k] == xs[k];
      match MapAll(f, init)
      case Err(e) => Err(e)
      case Ok(bs) =>
        match f(xs[|xs| - 1])
        case Err(e) => Err(e)
        case Ok(b) => Ok(bs + [b])
  }

  /** The error is that of the first failing element: every element before it succeeds. */
  lemma {:induction false} MapAllFirstFailure<A, B>(f: A -> Result<B>, xs: seq<A>)
    requires MapAll(f, xs).Err?
    ensures exists k ::
      0 <= k < |xs| && f(xs[k]) == Err(MapAll(f, xs).error) && (forall j :: 0 <= j < k ==> f(xs[j]).Ok?)
  {
    var init := xs[..|xs| - 1];
    if MapAll(f, init).Err? {
      MapAllFirstFailure(f, init);
      var k :| 0 <= k < |init| && f(init[k]) == Err(MapAll(f, init).error) &&
        (forall j :: 0 <= j < k ==> f(init[j]).Ok?);
      assert xs[k] == init[k];
      assert forall j :: 0 <= j < k ==> xs[j] == init[j];
    } else {
      assert forall j :: 0 <= j < |init| ==> xs[j] == init[j];
    }
  }

  /** Two elements that both succeed give their two results, in order. */
  lemma MapAllTwo<A, B>(f: A -> Result<B>, a: A, b: A)
    requires f(a).Ok? && f(b).Ok?
    ensures MapAll(f, [a, b]) == Ok([f(a).value, f(b).value])
  {
    assert [a][..0] == [];
    assert MapAll(f, [a]) == Ok([] + [f(a).value]);
    assert [] + [f(a).value] == [f(a).value];
    assert [a, b][..1] == [a];
    assert [f(a).value] + [f(b).value] == [f(a).value, f(b).value];
  }
}
