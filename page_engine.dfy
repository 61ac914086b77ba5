/** One page of calls: the `pageGenerator` of the library. All `pageSize` calls are
    launched at once; their outcomes are stored as they settle and handed out one
    poll at a time. What a launched call amounts to is fixed when it is launched
    (`outcomes`, the classified result of its promise); when it settles is an input:
    the caller of `Settle`. */
module PageEngine {
  import opened JsValues
  import opened Options
  import opened Callbacks
  import opened SetFacts

  /** What one awaited call amounts to once its raw result has been classified. */
  datatype Outcome<V> = Delivered(value: Js<V>) | Failed(error: Js<V>) | Terminal

  /** `wrapCallback`: the error test comes first, then the last test; an exception
      thrown by either predicate, or a rejected promise, is an error. */
  function Classify<V>(opts: PagingOptions<V>, raw: Raw<V>): (o: Outcome<V>)
    ensures raw.Rejected? ==> o == Failed(raw.reason)
    ensures raw.Resolved? && opts.isError(raw.value) == Returns(true) ==> o == Failed(raw.value)
    ensures raw.Resolved? && opts.isError(raw.value).Throws? ==>
              o == Failed(opts.isError(raw.value).exception)
    ensures raw.Resolved? && opts.isError(raw.value) == Returns(false) && opts.isLast(raw.value).Throws? ==>
              o == Failed(opts.isLast(raw.value).exception)
    ensures o.Terminal? <==>
              raw.Resolved? && opts.isError(raw.value) == Returns(false) && opts.isLast(raw.value) == Returns(true)
    ensures o.Delivered? <==>
              raw.Resolved? && opts.isError(raw.value) == Returns(false) && opts.isLast(raw.value) == Returns(false)
    ensures o.Delivered? ==> o.value == raw.value
  {
    match raw
    case Rejected(reason) => Failed(reason)
    case Resolved(v) =>
      match opts.isError(v)
      case Throws(e) => Failed(e)
      case Returns(isErr) =>
        if isErr then Failed(v)
        else
          match opts.isLast(v)
          case Throws(e) => Failed(e)
          case Returns(isLast) => if isLast then Terminal else Delivered(v)
  }

  /** With the default options a rejection or an `Error` value is an error, `undefined` and
      `null` end the stream, and every other value is delivered as it resolved. */
  lemma DefaultsClassify<V>(raw: Raw<V>)
    ensures raw.Rejected? ==> Classify(Defaults(), raw) == Failed(raw.reason)
    ensures raw.Resolved? && raw.value.ErrorObject? ==> Classify(Defaults(), raw) == Failed(raw.value)
    ensures raw.Resolved? && (raw.value == Undefined || raw.value == Null) ==> Classify(Defaults(), raw) == Terminal
    ensures raw.Resolved? && (raw.value.Str? || raw.value.Other?) ==> Classify(Defaults(), raw) == Delivered(raw.value)
  {
  }

  /** An entry of `results`: `{error, index}` or `{v, index}`; an absent field reads as `undefined`. */
  datatype Slot<V> = Slot(value: Js<V>, error: Js<V>, index: nat)

  function SlotOf<V>(o: Outcome<V>, index: nat): Slot<V>
    requires !o.Terminal?
  {
    if o.Failed? then Slot(Undefined, o.error, index) else Slot(o.value, Undefined, index)
  }

  /** `PagingResult`: what is handed to the caller. */
  datatype PagingResult<V> = PagingResult(value: Js<V>, error: Js<V>, page: int, index: int)

  function ItemOf<V>(s: Slot<V>, page: int): PagingResult<V>
  {
    PagingResult(s.value, s.error, page, s.index)
  }

  /** One turn of the page's poll loop: an item, a pause, or the final marker. */
  datatype PollResult<V> = Item(item: PagingResult<V>) | Wait | PageEnd(done: bool, page: int, index: int)

  /** `add`: in completion order a `push`; in call order `results[index] = obj`,
      which leaves holes when the index is past the end. */
  function Place<V>(results: seq<Option<Slot<V>>>, keepOrder: bool, s: Slot<V>): (r: seq<Option<Slot<V>>>)
    ensures !keepOrder ==> r == results + [Some(s)]
    ensures keepOrder ==>
              && |r| == (if s.index < |results| then |results| else s.index + 1)
              && r[s.index] == Some(s)
              && (forall k | 0 <= k < |r| && k != s.index ::
                    r[k] == if k < |results| then results[k] else None)
  {
    if !keepOrder then results + [Some(s)]
    else if s.index < |results| then results[s.index := Some(s)]
    else results + seq(s.index - |results|, _ => None) + [Some(s)]
  }

  /** The items made from a run of filled slots. */
  function Items<V>(rs: seq<Option<Slot<V>>>, page: int): (r: seq<PagingResult<V>>)
    requires forall k | 0 <= k < |rs| :: rs[k].Some?
    ensures |r| == |rs|
    ensures forall k | 0 <= k < |rs| :: r[k] == ItemOf(rs[k].value, page)
  {
    if rs == [] then [] else Items(rs[..|rs| - 1], page) + [ItemOf(rs[|rs| - 1].value, page)]
  }

  /** Delivering one more slot adds its item at the end. */
  lemma ItemsExtend<V>(rs: seq<Option<Slot<V>>>, n: nat, page: int)
    requires n < |rs| && forall k | 0 <= k <= n :: rs[k].Some?
    ensures Items(rs[..n + 1], page) == Items(rs[..n], page) + [ItemOf(rs[n].value, page)]
  {
    assert rs[..n + 1][..n] == rs[..n];
  }

  /** The entry stored for a call that did not end the stream. */
  function SlotFor<V>(outcomes: seq<Outcome<V>>, i: nat): Slot<V>
    requires i < |outcomes| && !outcomes[i].Terminal?
  {
    SlotOf(outcomes[i], i)
  }

  ghost predicate Below(arrivals: seq<nat>, n: nat)
  {
    forall k | 0 <= k < |arrivals| :: arrivals[k] < n
  }

  ghost predicate Distinct(arrivals: seq<nat>)
  {
    forall a, b | 0 <= a < b < |arrivals| :: arrivals[a] != arrivals[b]
  }

  /** The indices in a sequence of arrivals. */
  ghost function Elems(arrivals: seq<nat>): (r: set<nat>)
    ensures forall i :: i in r <==> i in arrivals
    ensures |r| <= |arrivals|
    ensures Distinct(arrivals) ==> |r| == |arrivals|
  {
    if arrivals == [] then {}
    else
      var last := arrivals[|arrivals| - 1];
      var prefix := arrivals[..|arrivals| - 1];
      assert arrivals == prefix + [last];
      assert Distinct(arrivals) ==> Distinct(prefix) && last !in prefix;
      Elems(prefix) + {last}
  }

  /** No call settles twice, so at most `n` of the `n` calls of a page have settled. */
  lemma DistinctBound(arrivals: seq<nat>, n: nat)
    requires Below(arrivals, n) && Distinct(arrivals)
    ensures |arrivals| <= n
  {
    SubsetCard(Elems(arrivals), Range(n));
  }

  /** How many of the settled calls ended the stream: the page's `undefResult`. */
  ghost function TerminalCount<V>(outcomes: seq<Outcome<V>>, arrivals: seq<nat>): (r: nat)
    requires Below(arrivals, |outcomes|)
    ensures r <= |arrivals|
  {
    if arrivals == [] then 0
    else
      TerminalCount(outcomes, arrivals[..|arrivals| - 1])
        + if outcomes[arrivals[|arrivals| - 1]].Terminal? then 1 else 0
  }

  /** The entries of the settled calls that did not end the stream, in the order they settled. */
  ghost function Live<V>(outcomes: seq<Outcome<V>>, arrivals: seq<nat>): (r: seq<Slot<V>>)
    requires Below(arrivals, |outcomes|)
    ensures |r| + TerminalCount(outcomes, arrivals) == |arrivals|
    ensures forall k | 0 <= k < |r| ::
              && r[k].index in arrivals && r[k].index < |outcomes|
              && !outcomes[r[k].index].Terminal?
              && r[k] == SlotFor(outcomes, r[k].index)
  {
    if arrivals == [] then []
    else
      var i := arrivals[|arrivals| - 1];
      var prev := Live(outcomes, arrivals[..|arrivals| - 1]);
      assert forall x | x in arrivals[..|arrivals| - 1] :: x in arrivals;
      if outcomes[i].Terminal? then prev else prev + [SlotFor(outcomes, i)]
  }

  /** The settled calls that did not end the stream. */
  ghost function LiveIndices<V>(outcomes: seq<Outcome<V>>, arrivals: seq<nat>): (r: set<nat>)
    requires Below(arrivals, |outcomes|)
    ensures forall i :: i in r <==> i in arrivals && i < |outcomes| && !outcomes[i].Terminal?
    ensures |r| + TerminalCount(outcomes, arrivals) <= |arrivals|
    ensures Distinct(arrivals) ==> |r| + TerminalCount(outcomes, arrivals) == |arrivals|
  {
    if arrivals == [] then {}
    else
      var i := arrivals[|arrivals| - 1];
      var prefix := arrivals[..|arrivals| - 1];
      assert arrivals == prefix + [i];
      assert Distinct(arrivals) ==> Distinct(prefix) && i !in prefix;
      var prev := LiveIndices(outcomes, prefix);
      if outcomes[i].Terminal? then prev else prev + {i}
  }

  /** `results` after the calls in `arrivals` have settled, in that order, each passed to `add`. */
  ghost function Store<V>(keepOrder: bool, outcomes: seq<Outcome<V>>, arrivals: seq<nat>): (r: seq<Option<Slot<V>>>)
    requires Below(arrivals, |outcomes|)
  {
    if arrivals == [] then []
    else
      var i := arrivals[|arrivals| - 1];
      var prev := Store(keepOrder, outcomes, arrivals[..|arrivals| - 1]);
      if outcomes[i].Terminal? then prev else Place(prev, keepOrder, SlotFor(outcomes, i))
  }

  /** What `results` holds: only entries of settled calls that did not end the stream, each at
      its own index in call order, and with no holes in completion order. */
  ghost predicate Shaped<V>(keepOrder: bool, outcomes: seq<Outcome<V>>, arrivals: seq<nat>, r: seq<Option<Slot<V>>>)
    requires Below(arrivals, |outcomes|)
  {
    && (forall k | 0 <= k < |r| && r[k].Some? ::
          && r[k].value.index in arrivals && r[k].value.index < |outcomes|
          && !outcomes[r[k].value.index].Terminal?
          && r[k].value == SlotFor(outcomes, r[k].value.index))
    && (keepOrder ==> forall k | 0 <= k < |r| && r[k].Some? :: r[k].value.index == k)
    && (!keepOrder ==> |r| + TerminalCount(outcomes, arrivals) == |arrivals| && forall k | 0 <= k < |r| :: r[k].Some?)
  }

  lemma {:induction false} StoreShape<V>(keepOrder: bool, outcomes: seq<Outcome<V>>, arrivals: seq<nat>)
    requires Below(arrivals, |outcomes|)
    ensures Shaped(keepOrder, outcomes, arrivals, Store(keepOrder, outcomes, arrivals))
  {
    if arrivals != [] {
      var prefix := arrivals[..|arrivals| - 1];
      StoreShape(keepOrder, outcomes, prefix);
      assert forall x | x in prefix :: x in arrivals;
    }
  }

  /** A run of `n` filled entries from the front accounts for `n` settled calls that
      did not end the stream, so those and the terminal ones are at most all settled calls. */
  lemma {:induction false} FilledFits<V>(keepOrder: bool, outcomes: seq<Outcome<V>>, arrivals: seq<nat>, n: nat)
    requires Below(arrivals, |outcomes|)
    requires n <= |Store(keepOrder, outcomes, arrivals)|
    requires forall k | 0 <= k < n :: Store(keepOrder, outcomes, arrivals)[k].Some?
    ensures n + TerminalCount(outcomes, arrivals) <= |arrivals|
  {
    StoreShape(keepOrder, outcomes, arrivals);
    if keepOrder {
      var live := LiveIndices(outcomes, arrivals);
      forall k: nat | k < n
        ensures k in live
      {
        assert Store(keepOrder, outcomes, arrivals)[k].value.index == k;
      }
      RangeInside(n, live);
    }
  }

  /** Each value, wrapped as a filled entry. */
  function Somes<T>(s: seq<T>): (r: seq<Option<T>>)
    ensures |r| == |s| && forall k | 0 <= k < |s| :: r[k] == Some(s[k])
  {
    seq(|s|, k requires 0 <= k < |s| => Some(s[k]))
  }

  /** Completion order: `results` holds, without holes, the entries of the calls that did
      not end the stream, in the order they settled. */
  lemma {:induction false} StoreCompletion<V>(outcomes: seq<Outcome<V>>, arrivals: seq<nat>)
    requires Below(arrivals, |outcomes|)
    ensures Store(false, outcomes, arrivals) == Somes(Live(outcomes, arrivals))
  {
    if arrivals != [] {
      var i := arrivals[|arrivals| - 1];
      var prefix := arrivals[..|arrivals| - 1];
      StoreCompletion(outcomes, prefix);
      if !outcomes[i].Terminal? {
        var prev := Live(outcomes, prefix);
        assert Somes(prev + [SlotFor(outcomes, i)]) == Somes(prev) + [Some(SlotFor(outcomes, i))];
      }
    }
  }

  /** Call order: the entry of every settled call that did not end the stream sits at its own index. */
  lemma {:induction false} StoreCallOrder<V>(outcomes: seq<Outcome<V>>, arrivals: seq<nat>)
    requires Below(arrivals, |outcomes|)
    ensures forall i | i in LiveIndices(outcomes, arrivals) ::
              i < |Store(true, outcomes, arrivals)| && Store(true, outcomes, arrivals)[i] == Some(SlotFor(outcomes, i))
  {
    if arrivals != [] {
      var x := arrivals[|arrivals| - 1];
      var prefix := arrivals[..|arrivals| - 1];
      StoreCallOrder(outcomes, prefix);
      forall i | i in LiveIndices(outcomes, arrivals)
        ensures i < |Store(true, outcomes, arrivals)| && Store(true, outcomes, arrivals)[i] == Some(SlotFor(outcomes, i))
      {
        if i != x {
          assert i in LiveIndices(outcomes, prefix);
        }
      }
    }
  }

  /** Every settled call that did not end the stream has its entry among the live ones:
      this is where it sits. */
  lemma {:induction false} LivePosition<V>(outcomes: seq<Outcome<V>>, arrivals: seq<nat>, i: nat) returns (k: nat)
    requires Below(arrivals, |outcomes|)
    requires i in arrivals && i < |outcomes| && !outcomes[i].Terminal?
    ensures k < |Live(outcomes, arrivals)| && Live(outcomes, arrivals)[k].index == i
  {
    var x := arrivals[|arrivals| - 1];
    var prefix := arrivals[..|arrivals| - 1];
    var prev := Live(outcomes, prefix);
    if i == x {
      k := |prev|;
    } else {
      var j :| 0 <= j < |arrivals| && arrivals[j] == i;
      assert prefix[j] == i;
      k := LivePosition(outcomes, prefix, i);
    }
  }

  /** Since no call settles twice, no two live entries belong to the same call. */
  lemma {:induction false} LiveDistinct<V>(outcomes: seq<Outcome<V>>, arrivals: seq<nat>)
    requires Below(arrivals, |outcomes|) && Distinct(arrivals)
    ensures forall a, b | 0 <= a < b < |Live(outcomes, arrivals)| ::
              Live(outcomes, arrivals)[a].index != Live(outcomes, arrivals)[b].index
  {
    if arrivals != [] {
      var x := arrivals[|arrivals| - 1];
      var prefix := arrivals[..|arrivals| - 1];
      assert arrivals == prefix + [x];
      assert x !in prefix;
      LiveDistinct(outcomes, prefix);
    }
  }

  /** `n` distinct arrivals below `n` are all of `0 .. n - 1`. */
  lemma AllSettled(arrivals: seq<nat>, n: nat)
    requires Below(arrivals, n) && Distinct(arrivals) && |arrivals| == n
    ensures forall i | 0 <= i < n :: i in arrivals
  {
    SubsetCard(Elems(arrivals), Range(n));
  }

  class Page<!V> {
    const page: int
    const pageSize: nat
    const opts: PagingOptions<V>
    /** `outcomes[i]`: what the wrapped promise of the call with index `i` settles to. */
    const outcomes: seq<Outcome<V>>

    var results: seq<Option<Slot<V>>>
    var count: nat
    var undefResult: nat

    /** The indices of the calls that have settled, in the order they settled. */
    ghost var arrivals: seq<nat>

    ghost predicate Valid()
      reads this
    {
      && |outcomes| == pageSize
      && Below(arrivals, pageSize) && Distinct(arrivals)
      && results == Store(opts.keepOrder, outcomes, arrivals)
      && undefResult == TerminalCount(outcomes, arrivals)
      && count <= |results| && (forall k | 0 <= k < count :: results[k].Some?)
      && count + undefResult <= |arrivals| <= pageSize
    }

    /** The slot that the poll loop reads next is filled. */
    ghost predicate Ready(k: nat)
      reads this
    {
      k < |results| && results[k].Some?
    }

    /** The items handed out so far. */
    ghost function Delivered(): seq<PagingResult<V>>
      reads this
      requires Valid()
    {
      Items(results[..count], page)
    }

    /** A page ends (`count + undefResult == pageSize`) only when every call has settled and
        every call that did not end the stream has been handed out. */
    lemma Finish()
      requires Valid() && count + undefResult == pageSize
      ensures |arrivals| == pageSize && forall i | 0 <= i < pageSize :: i in arrivals
      ensures forall i | 0 <= i < pageSize && !outcomes[i].Terminal? ::
                exists k | 0 <= k < count :: Delivered()[k].index == i
    {
      AllSettled(arrivals, pageSize);
      if opts.keepOrder {
        FinishCallOrder();
        StoreShape(true, outcomes, arrivals);
        forall i | 0 <= i < pageSize && !outcomes[i].Terminal?
          ensures exists k | 0 <= k < count :: Delivered()[k].index == i
        {
          assert results[i].value.index == i;
          assert Delivered()[i].index == i;
        }
      } else {
        FinishCompletion();
        forall i | 0 <= i < pageSize && !outcomes[i].Terminal?
          ensures exists k | 0 <= k < count :: Delivered()[k].index == i
        {
          var k := LivePosition(outcomes, arrivals, i);
          assert Delivered()[k].index == i;
        }
      }
    }

    /** Conversely, once every call has settled and every call that did not end the stream
        has been handed out, the page has ended. */
    lemma FinishWhenHandedOut()
      requires Valid() && |arrivals| == pageSize
      requires forall i | 0 <= i < pageSize && !outcomes[i].Terminal? ::
                 exists k | 0 <= k < count :: Delivered()[k].index == i
      ensures count + undefResult == pageSize
    {
      AllSettled(arrivals, pageSize);
      DeliveredFacts();
      var d := Delivered();
      var n := count;
      var handed: seq<nat> := seq(n, k requires 0 <= k < n => if d[k].index < 0 then 0 else d[k].index);
      var live := LiveIndices(outcomes, arrivals);
      forall i | i in live
        ensures i in Elems(handed)
      {
        var k :| 0 <= k < count && d[k].index == i;
        assert handed[k] == i;
      }
      SubsetCard(live, Elems(handed));
    }

    /** In completion order a finished page has handed out the calls that did not end the
        stream in the order they settled. */
    lemma FinishCompletion()
      requires Valid() && count + undefResult == pageSize && !opts.keepOrder
      ensures count == |Live(outcomes, arrivals)|
      ensures forall k | 0 <= k < count :: Delivered()[k] == ItemOf(Live(outcomes, arrivals)[k], page)
    {
      StoreShape(false, outcomes, arrivals);
      StoreCompletion(outcomes, arrivals);
    }

    /** In call order a page ends only when the calls that did not end the stream are exactly
        the first `count` ones: the terminal calls are the last. */
    lemma FinishCallOrder()
      requires Valid() && count + undefResult == pageSize && opts.keepOrder
      ensures forall i | 0 <= i < pageSize :: i < count <==> !outcomes[i].Terminal?
    {
      AllSettled(arrivals, pageSize);
      StoreShape(true, outcomes, arrivals);
      var live := LiveIndices(outcomes, arrivals);
      forall k: nat | k < count
        ensures k in live
      {
        assert results[k].value.index == k;
      }
      assert Range(count) <= live;
      SubsetCard(Range(count), live);
      forall i | 0 <= i < pageSize
        ensures i < count <==> !outcomes[i].Terminal?
      {
        assert i in arrivals;
        assert i < count <==> i in Range(count);
      }
    }

    /** The marker a finished page returns says `done` exactly when one of its calls ended
        the stream. */
    lemma DoneMarker()
      requires Valid() && count + undefResult == pageSize
      ensures undefResult == 0 <==> forall i | 0 <= i < pageSize :: !outcomes[i].Terminal?
    {
      AllSettled(arrivals, pageSize);
      var live := LiveIndices(outcomes, arrivals);
      assert |live| + undefResult == pageSize;
      if undefResult == 0 {
        assert live <= Range(pageSize);
        SubsetCard(live, Range(pageSize));
        forall i | 0 <= i < pageSize
          ensures !outcomes[i].Terminal?
        {
          assert i in Range(pageSize);
        }
      }
      if forall i | 0 <= i < pageSize :: !outcomes[i].Terminal? {
        forall k: nat | k < pageSize
          ensures k in live
        {
          assert k in arrivals;
        }
        RangeInside(pageSize, live);
      }
    }

    /** A finished page whose calls that did not end the stream are exactly the first `n`
        has handed out `n` items. */
    lemma FinishedCount(n: nat)
      requires Valid() && count + undefResult == pageSize && n <= pageSize
      requires forall i | 0 <= i < pageSize :: outcomes[i].Terminal? <==> i >= n
      ensures count == n
    {
      AllSettled(arrivals, pageSize);
      var live := LiveIndices(outcomes, arrivals);
      forall i: nat
        ensures i in live <==> i in Range(n)
      {
        if i < pageSize {
          assert i in arrivals;
        }
      }
      assert live == Range(n);
    }

    /** In call order a terminal call before a call that did not end the stream leaves a
        hole that is never filled: the page never ends. */
    lemma CallOrderStuck(t: nat, j: nat)
      requires Valid() && opts.keepOrder
      requires t < j < pageSize && outcomes[t].Terminal? && !outcomes[j].Terminal?
      ensures count + undefResult < pageSize
    {
      if count + undefResult == pageSize {
        FinishCallOrder();
        assert false;
      }
    }

    /** Once every call has settled the poll loop never pauses: in completion order always,
        in call order when no terminal call comes before a call that did not end the stream. */
    lemma NoWaitOnceSettled()
      requires Valid() && |arrivals| == pageSize && count + undefResult < pageSize
      requires opts.keepOrder ==>
                 forall t, j | 0 <= t < j < pageSize :: outcomes[t].Terminal? ==> outcomes[j].Terminal?
      ensures Ready(count)
    {
      if opts.keepOrder {
        AllSettled(arrivals, pageSize);
        var live := LiveIndices(outcomes, arrivals);
        if count !in live {
          assert count in arrivals;
          forall i | i in live
            ensures i in Range(count)
          {
            assert !outcomes[i].Terminal?;
          }
          SubsetCard(live, Range(count));
          assert false;
        }
        StoreCallOrder(outcomes, arrivals);
      } else {
        StoreShape(false, outcomes, arrivals);
      }
    }

    /** Every item handed out carries the page, the index of its own call and that call's
        outcome; no call is handed out twice; in call order the items come by index. */
    lemma DeliveredFacts()
      requires Valid()
      ensures forall k | 0 <= k < count ::
                && Delivered()[k].page == page
                && 0 <= Delivered()[k].index < pageSize
                && Delivered()[k].index in arrivals
                && !outcomes[Delivered()[k].index].Terminal?
                && Delivered()[k] == ItemOf(SlotFor(outcomes, Delivered()[k].index), page)
      ensures opts.keepOrder ==> forall k | 0 <= k < count :: Delivered()[k].index == k
      ensures forall a, b | 0 <= a < b < count :: Delivered()[a].index != Delivered()[b].index
    {
      StoreShape(opts.keepOrder, outcomes, arrivals);
      if !opts.keepOrder {
        StoreCompletion(outcomes, arrivals);
        LiveDistinct(outcomes, arrivals);
      }
    }

    /** The start of `pageGenerator`: every call of the page is launched, in index order,
        before anything is delivered. */
    constructor (work: Work<V>, page: int, pageSize: nat, opts: PagingOptions<V>)
      requires work.FromArray? ==> work.adapter.Valid()
      modifies Frame(work)
      ensures Valid()
      ensures this.page == page && this.pageSize == pageSize && this.opts == opts
      ensures results == [] && count == 0 && undefResult == 0 && arrivals == []
      ensures |outcomes| == pageSize
      ensures work.Direct? ==> forall i | 0 <= i < pageSize :: outcomes[i] == Classify(opts, work.f(page, i))
      ensures work.FromArray? ==>
                && work.adapter.Valid()
                && work.adapter.cursor == Min(old(work.adapter.cursor) + pageSize, |work.adapter.elems|)
                && (forall i | 0 <= i < pageSize ::
                      outcomes[i] == Classify(opts, OutcomeAt(work.adapter.elems, old(work.adapter.cursor) + i, page, i)))
    {
      ghost var start := if work.FromArray? then work.adapter.cursor else 0;
      var launched: seq<Outcome<V>> := [];
      for i := 0 to pageSize
        invariant |launched| == i
        invariant work.Direct? ==> forall k | 0 <= k < i :: launched[k] == Classify(opts, work.f(page, k))
        invariant work.FromArray? ==>
                    && work.adapter.Valid()
                    && work.adapter.cursor == Min(start + i, |work.adapter.elems|)
                    && (forall k | 0 <= k < i ::
                          launched[k] == Classify(opts, OutcomeAt(work.adapter.elems, start + k, page, k)))
      {
        var r := Invoke(work, page, i);
        launched := launched + [Classify(opts, r)];
      }
      this.page := page;
      this.pageSize := pageSize;
      this.opts := opts;
      outcomes := launched;
      results := [];
      count := 0;
      undefResult := 0;
      arrivals := [];
    }

    /** The call with index `i` settles: `wrapCallback` after its `await`. */
    method Settle(i: nat)
      requires Valid()
      requires i < pageSize && i !in arrivals
      modifies this
      ensures Valid()
      ensures arrivals == old(arrivals) + [i]
      ensures count == old(count)
      ensures outcomes[i].Terminal? ==>
                results == old(results) && undefResult == old(undefResult) + 1
      ensures !outcomes[i].Terminal? ==>
                && results == Place(old(results), opts.keepOrder, SlotFor(outcomes, i))
                && undefResult == old(undefResult)
      ensures Delivered() == old(Delivered())
    {
      var o := outcomes[i];
      ghost var before := arrivals;
      ghost var stored := results;
      arrivals := arrivals + [i];
      assert arrivals[..|arrivals| - 1] == before;
      if o.Terminal? {
        undefResult := undefResult + 1;
      } else {
        results := Place(results, opts.keepOrder, SlotOf(o, i));
        forall k | 0 <= k < count
          ensures results[k] == stored[k]
        {
          if opts.keepOrder {
            StoreShape(opts.keepOrder, outcomes, before);
            assert stored[k].value.index == k && k in before;
          }
        }
      }
      DistinctBound(arrivals, pageSize);
      assert results[..count] == stored[..count];
    }

    /** One turn of the poll loop, or the final marker once every call is accounted for. */
    method Poll() returns (r: PollResult<V>)
      requires Valid()
      modifies this`count
      ensures Valid()
      ensures old(count) + undefResult == pageSize ==>
                r == PageEnd(undefResult != 0, page, -1) && count == old(count)
      ensures old(count) + undefResult < pageSize && !Ready(old(count)) ==>
                r == Wait && count == old(count)
      ensures old(count) + undefResult < pageSize && Ready(old(count)) ==>
                && r == Item(ItemOf(results[old(count)].value, page))
                && count == old(count) + 1
                && Delivered() == old(Delivered()) + [r.item]
    {
      if count + undefResult < pageSize {
        if count < |results| && results[count].Some? {
          r := Item(ItemOf(results[count].value, page));
          FilledFits(opts.keepOrder, outcomes, arrivals, count + 1);
          ItemsExtend(results, count, page);
          count := count + 1;
        } else {
          r := Wait;
        }
      } else {
        r := PageEnd(undefResult != 0, page, -1);
      }
    }
  }
}
