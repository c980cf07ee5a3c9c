/** Failure-carrying datatypes shared by every module of the model. */
module Wrappers {

  /** Python's `None` versus a present value. */
  datatype Option<+T> = None | Some(value: T)

  /** The kind of Python exception a step raises; its message is not modelled. */
  datatype Exc =
    | ValueError   // float("abc"), read_html on a page without a table
    | TypeError    // '<' between a str and an int
    | KeyError     // df["Missing column"]
    | IndexError   // .iloc[0] on an empty frame
    | ParseError   // pd.read_csv on bytes that are not CSV
    | FetchError   // an HTTP request that fails

  /** Either the value a Python call returns or the exception it raises. */
  datatype Result<+T> = Ok(value: T) | Raises(exc: Exc)

  /** Apply `f` to the elements in order, as a Python loop or `Series.apply` does: every
      value when none raises, otherwise the exception of the first element that raises. */
  function Traverse<A, B>(xs: seq<A>, f: A -> Result<B>): (r: Result<seq<B>>)
    ensures r.Ok? <==> forall i :: 0 <= i < |xs| ==> f(xs[i]).Ok?
    ensures r.Ok? ==> |r.value| == |xs| && forall i :: 0 <= i < |xs| ==> f(xs[i]) == Ok(r.value[i])
    ensures r.Raises? ==> exists i :: (0 <= i < |xs| && f(xs[i]) == Raises(r.exc)
      && forall j :: 0 <= j < i ==> f(xs[j]).Ok?)
  {
    if |xs| == 0 then Ok([])
    else
      match f(xs[0])
      case Raises(e) => Raises(e)
      case Ok(b) =>
        var rest := Traverse(xs[1..], f);
        assert forall i :: 1 <= i < |xs| ==> xs[i] == xs[1..][i - 1];
        match rest
        case Raises(e) =>
          var i :| 0 <= i < |xs[1..]| && f(xs[1..][i]) == Raises(e)
            && forall j :: 0 <= j < i ==> f(xs[1..][j]).Ok?;
          assert f(xs[i + 1]) == Raises(e);
          Raises(e)
        case Ok(tail) => Ok([b] + tail)
  }
}
