/** The work function the page generator calls, and the adapter that turns an
    array of one-shot callbacks into such a function. */
module Callbacks {
  import opened JsValues

  /** One element of a callback array: something that is not a function, or a
      function giving how the promise it returns for `(page, index)` settles. */
  datatype Element<!V> = NotAFunction | AsyncFunction(call: (int, int) -> Raw<V>)

  const NotAFunctionMessage := "functions in array must be an async function"

  /** How the adapter's call that consumes array position `j` settles, when it is
      made with `(page, index)`; past the end of the array it resolves to `undefined`. */
  function OutcomeAt<V>(elems: seq<Element<V>>, j: nat, page: int, index: int): (r: Raw<V>)
    ensures j >= |elems| ==> r == Resolved(Undefined)
    ensures j < |elems| && elems[j].NotAFunction? ==>
              r == Rejected(ErrorObject(PagingError(NotAFunctionMessage, 0, -1)))
    ensures j < |elems| && elems[j].AsyncFunction? ==> r == elems[j].call(page, index)
  {
    if j >= |elems| then Resolved(Undefined)
    else match elems[j]
      case NotAFunction => Rejected(ErrorObject(PagingError(NotAFunctionMessage, 0, -1)))
      case AsyncFunction(call) => call(page, index)
  }

  /** The closure made by `makePagingAsyncCallbackFromArray`: an iterator over the array. */
  class ArrayCallback<!V> {
    const elems: seq<Element<V>>
    var cursor: nat

    ghost predicate Valid()
      reads this
    {
      cursor <= |elems|
    }

    constructor (elems: seq<Element<V>>)
      ensures Valid() && this.elems == elems && cursor == 0
    {
      this.elems := elems;
      cursor := 0;
    }

    /** Consume the next element, if any, and call it with `(page, index)`. */
    method Call(page: int, index: int) returns (r: Raw<V>)
      requires Valid()
      modifies this
      ensures Valid()
      ensures cursor == Min(old(cursor) + 1, |elems|)
      ensures r == OutcomeAt(elems, old(cursor), page, index)
    {
      if cursor == |elems| {
        r := Resolved(Undefined);
      } else {
        var e := elems[cursor];
        cursor := cursor + 1;
        match e
        case NotAFunction =>
          r := Rejected(ErrorObject(PagingError(NotAFunctionMessage, 0, -1)));
        case AsyncFunction(call) =>
          r := call(page, index);
      }
    }
  }

  /** The `asyncCallback` the page generator is given: the caller's own function,
      or the adapter over an array. */
  datatype Work<!V> = Direct(f: (int, int) -> Raw<V>) | FromArray(adapter: ArrayCallback<V>)

  function Frame<V>(w: Work<V>): set<object>
  {
    if w.FromArray? then {w.adapter} else {}
  }

  /** `asyncCallback(page, index)`. */
  method Invoke<V>(w: Work<V>, page: int, index: int) returns (r: Raw<V>)
    requires w.FromArray? ==> w.adapter.Valid()
    modifies Frame(w)
    ensures w.Direct? ==> r == w.f(page, index)
    ensures w.FromArray? ==>
              && w.adapter.Valid()
              && w.adapter.cursor == Min(old(w.adapter.cursor) + 1, |w.adapter.elems|)
              && r == OutcomeAt(w.adapter.elems, old(w.adapter.cursor), page, index)
  {
    match w
    case Direct(f) => r := f(page, index);
    case FromArray(a) => r := a.Call(page, index);
  }
}
