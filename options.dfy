/** The options of the paging generator and how missing ones are filled in. */
module Options {
  import opened JsValues

  /** A complete set of options (`PagingOptions` in the library). */
  datatype PagingOptions<!V> = PagingOptions(
    isLast: Js<V> -> Verdict<V>,
    isError: Js<V> -> Verdict<V>,
    keepOrder: bool,
    maxErrors: int,
    throwOnMaxError: bool)

  /** What the caller passes (`Partial<PagingOptions>`): `None` is a key that is absent. */
  datatype PartialOptions<!V> = PartialOptions(
    isLast: Option<Js<V> -> Verdict<V>>,
    isError: Option<Js<V> -> Verdict<V>>,
    keepOrder: Option<bool>,
    maxErrors: Option<int>,
    throwOnMaxError: Option<bool>)

  /** The default `isLast`: `v == undefined`, which with loose equality holds of `undefined` and `null`. */
  function LooselyUndefined<V>(v: Js<V>): (r: Verdict<V>)
    ensures r.Returns?
    ensures r.holds <==> v == Undefined || v == Null
  {
    Returns(v.Undefined? || v.Null?)
  }

  /** The default `isError`: `v instanceof Error`. */
  function InstanceOfError<V>(v: Js<V>): (r: Verdict<V>)
    ensures r.Returns?
    ensures r.holds <==> exists f :: v == ErrorObject(f)
  {
    Returns(v.ErrorObject?)
  }

  /** `defaultOptions`: neither predicate throws, items come in completion order, errors
      are not counted, and a spent budget would not throw. */
  function Defaults<V>(): (d: PagingOptions<V>)
    ensures d.isLast == LooselyUndefined && d.isError == InstanceOfError
    ensures !d.keepOrder && d.maxErrors < 0 && !d.throwOnMaxError
  {
    PagingOptions(LooselyUndefined, InstanceOfError, false, -1, false)
  }

  /** No option given: the default argument of the generator. */
  function NoOptions<V>(): PartialOptions<V>
  {
    PartialOptions(None, None, None, None, None)
  }

  /** `o` takes every option present in `p`, and the default for every one that is absent. */
  ghost predicate Overrides<V>(p: PartialOptions<V>, o: PagingOptions<V>)
  {
    var d := Defaults<V>();
    o.isLast == (if p.isLast.Some? then p.isLast.value else d.isLast)
    && o.isError == (if p.isError.Some? then p.isError.value else d.isError)
    && o.keepOrder == (if p.keepOrder.Some? then p.keepOrder.value else d.keepOrder)
    && o.maxErrors == (if p.maxErrors.Some? then p.maxErrors.value else d.maxErrors)
    && o.throwOnMaxError == (if p.throwOnMaxError.Some? then p.throwOnMaxError.value else d.throwOnMaxError)
  }

  /** `{ ...defaultOptions, ...options }`. */
  function Merge<V>(p: PartialOptions<V>): (o: PagingOptions<V>)
    ensures Overrides(p, o)
    ensures p == NoOptions() ==> o == Defaults()
  {
    var d := Defaults<V>();
    PagingOptions(
      if p.isLast.Some? then p.isLast.value else d.isLast,
      if p.isError.Some? then p.isError.value else d.isError,
      if p.keepOrder.Some? then p.keepOrder.value else d.keepOrder,
      if p.maxErrors.Some? then p.maxErrors.value else d.maxErrors,
      if p.throwOnMaxError.Some? then p.throwOnMaxError.value else d.throwOnMaxError)
  }

  /** A complete set of options seen as a partial one, as the page generator receives it. */
  function Complete<V>(o: PagingOptions<V>): (p: PartialOptions<V>)
    ensures Merge(p) == o
  {
    PartialOptions(Some(o.isLast), Some(o.isError), Some(o.keepOrder), Some(o.maxErrors), Some(o.throwOnMaxError))
  }
}
