/** Option and Result, the two failure-compatible wrappers every puzzle module uses.
    Result carries the error text of the `anyhow` error the Rust code raises. */
module Wrappers {

  datatype Option<+T> = None | Some(value: T) {
    predicate IsFailure() { None? }

    function PropagateFailure<U>(): Option<U>
      requires None?
    {
      None
    }

    function Extract(): T
      requires Some?
    {
      value
    }
  }

  datatype Result<+T> = Ok(value: T) | Err(msg: string) {
    predicate IsFailure() { Err? }

    function PropagateFailure<U>(): Result<U>
      requires Err?
    {
      Err(msg)
    }

    function Extract(): T
      requires Ok?
    {
      value
    }
  }

  /** `collect::<Result<Vec<_>>>()`: every value when all are `Ok`, otherwise the first
      error. */
  function Collect<T>(rs: seq<Result<T>>): (r: Result<seq<T>>)
    ensures r.Ok? <==> forall k :: 0 <= k < |rs| ==> rs[k].Ok?
    ensures r.Ok? ==> |r.value| == |rs| && forall k :: 0 <= k < |rs| ==> rs[k] == Ok(r.value[k])
    ensures r.Err? ==> exists k :: 0 <= k < |rs| && rs[k] == Err(r.msg) && forall j :: 0 <= j < k ==> rs[j].Ok?
  {
    if rs == [] then Ok([])
    else
      var rest := Collect(rs[1..]);
      assert forall k :: 1 <= k < |rs| ==> rs[1..][k - 1] == rs[k];
      if rs[0].Err? then Err(rs[0].msg)
      else if rest.Err? then
        var k :| 0 <= k < |rs[1..]| && rs[1..][k] == Err(rest.msg) && forall j :: 0 <= j < k ==> rs[1..][j].Ok?;
        assert rs[k + 1] == Err(rest.msg);
        Err(rest.msg)
      else
        var r := [rs[0].value] + rest.value;
        assert forall k :: 1 <= k < |rs| ==> r[k] == rest.value[k - 1];
        Ok(r)
  }
}
