/** Failure-carrying datatypes shared by every module of the model.

    `Option` stands for a Python value that may be `None`; `Result` stands for
    a computation that either returns a value or raises an exception, the
    exception being described by a short message. */
module Wrappers {

  datatype Option<+T> = None | Some(value: T) {
    predicate IsFailure() {
      None?
    }

    function PropagateFailure<U>(): Option<U>
      requires None?
    {
      None
    }

    function Extract(): T
      requires Some?
    {
      value
    }
  }

  datatype Result<+T> = Ok(value: T) | Err(error: string) {
    predicate IsFailure() {
      Err?
    }

    function PropagateFailure<U>(): Result<U>
      requires Err?
    {
      Err(error)
    }

    function Extract(): T
      requires Ok?
    {
      value
    }
  }

  /** The values of a list of results, or the first error among them: a
      loop that stops at the first exception. */
  function Collect<T>(rs: seq<Result<T>>): (r: Result<seq<T>>)
    ensures r.Ok? <==> forall q :: 0 <= q < |rs| ==> rs[q].Ok?
    ensures r.Ok? ==> |r.value| == |rs| && forall q :: 0 <= q < |rs| ==> rs[q] == Ok(r.value[q])
    decreases |rs|
  {
    if |rs| == 0 then Ok([])
    else
      var first :- rs[0];
      var rest :- Collect(rs[1..]);
      assert forall q :: 1 <= q < |rs| ==> rs[q] == rs[1..][q - 1];
      Ok([first] + rest)
  }

  /** `f` applied to each element of `xs` and its position counted from
      `start`, stopping at the first error: a loop over
      `enumerate(xs, start)` that raises. */
  function CollectNumbered<A, B>(f: (nat, A) -> Result<B>, start: nat, xs: seq<A>): (r: Result<seq<B>>)
    ensures r.Ok? <==> forall q :: 0 <= q < |xs| ==> f(start + q, xs[q]).Ok?
    ensures r.Ok? ==> |r.value| == |xs|
    decreases |xs|
  {
    if |xs| == 0 then Ok([])
    else
      var first :- f(start, xs[0]);
      var rest :- CollectNumbered(f, start + 1, xs[1..]);
      assert forall q :: 1 <= q < |xs| ==> xs[q] == xs[1..][q - 1] && start + q == (start + 1) + (q - 1);
      Ok([first] + rest)
  }

  /** Element `q` of the collected values is what `f` gave for element `q`. */
  lemma {:induction false} CollectNumberedAt<A, B>(f: (nat, A) -> Result<B>, start: nat, xs: seq<A>, q: nat)
    requires CollectNumbered(f, start, xs).Ok? && q < |xs|
    ensures f(start + q, xs[q]) == Ok(CollectNumbered(f, start, xs).value[q])
    decreases q
  {
    var rest := CollectNumbered(f, start + 1, xs[1..]);
    assert CollectNumbered(f, start, xs).value == [f(start, xs[0]).value] + rest.value;
    if q > 0 {
      CollectNumberedAt(f, start + 1, xs[1..], q - 1);
      assert xs[1..][q - 1] == xs[q];
    }
  }
}
