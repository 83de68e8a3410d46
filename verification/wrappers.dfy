/** Failure-carrying datatypes shared by the whole model.

    `Option` stands for a Python attribute that may still hold `None`;
    `Fallible` stands for a computation that may raise one of the Python
    exceptions the analysed code can run into. */
module Wrappers {

  datatype Option<+T> = None | Some(value: T) {
    function GetOr(default: T): T {
      match this
      case Some(v) => v
      case None => default
    }
  }

  /** The Python exceptions that the modelled code can raise. */
  datatype PyError = IndexError | ZeroDivisionError | ValueError | AttributeError | TypeError

  datatype Fallible<+T> = Ok(value: T) | Raises(error: PyError)

  /** `f` applied to each element in turn, as a loop that lets the first
      exception propagate. */
  function MapAll<A, B>(xs: seq<A>, f: A -> Fallible<B>): (r: Fallible<seq<B>>)
    ensures r.Ok? <==> forall i :: 0 <= i < |xs| ==> f(xs[i]).Ok?
    ensures r.Ok? ==> |r.value| == |xs| && forall i :: 0 <= i < |xs| ==> f(xs[i]) == Ok(r.value[i])
    ensures r.Raises? ==> exists i :: 0 <= i < |xs| && f(xs[i]) == Raises(r.error) &&
                                     forall j :: 0 <= j < i ==> f(xs[j]).Ok?
  {
    if |xs| == 0 then Ok([])
    else
      var n := |xs| - 1;
      var prev := MapAll(xs[..n], f);
      var last := f(xs[n]);
      if prev.Raises? then Raises(prev.error)
      else if last.Raises? then Raises(last.error)
      else Ok(prev.value + [last.value])
  }
}
