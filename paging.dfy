/** `pagingGenerator`: the stream that chains pages of calls, forwards their items and
    keeps the error budget. Each `Next` is one `await it.next()` of the consumer; a pull
    that is blocked while the current page polls for results answers `Pending` and is
    continued by the next `Next`, once the environment has settled some calls (`Settle`). */
module Paging {
  import opened JsValues
  import opened Options
  import opened Callbacks
  import opened PageEngine
  import opened StreamModel

  class PagingGenerator<!V> {
    const source: Source<V>
    const opts: PagingOptions<V>
    const pageSize: nat
    /** The function the pages call: the source itself, or the adapter over the array. */
    const work: Option<Work<V>>
    const adapter: ArrayCallback?<V>

    var phase: Phase
    /** The number of pages started; the current one is `page - 1`. */
    var page: nat
    var current: Page?<V>
    var errorCount: nat
    /** The item yielded last, while the generator is suspended at its `yield`. */
    var held: Option<PagingResult<V>>

    /** Every item yielded so far, and those of the pages before the current one. */
    ghost var delivered: seq<PagingResult<V>>
    ghost var pastPages: seq<seq<PagingResult<V>>>
    /** The items whose error has been counted: all but one held at its `yield`. */
    ghost var checked: seq<PagingResult<V>>

    /** How far the array adapter has got. */
    ghost function Cursor(): nat
      reads adapter
    {
      if adapter != null then adapter.cursor else 0
    }

    ghost predicate Valid()
      reads this, current, adapter
    {
      && pageSize > 0
      && WorkInv(source, work, adapter)
      && PhaseInv(source, pageSize, opts, phase, page, current, pastPages, delivered, Cursor())
      && BudgetState(opts.maxErrors, phase, held, errorCount, checked, delivered)
    }

    /** `pagingGenerator(asyncCallback, pageSize, options)`: nothing runs before the first pull. */
    constructor (source: Source<V>, pageSize: int, options: PartialOptions<V>)
      ensures Valid()
      ensures this.source == source && opts == Merge(options) && this.pageSize == NormalizePageSize(pageSize)
      ensures phase == NotStarted && current == null && (adapter != null ==> fresh(adapter))
    {
      this.source := source;
      opts := Merge(options);
      this.pageSize := NormalizePageSize(pageSize);
      match source {
        case Callback(f) =>
          work := Some(Direct(f));
          adapter := null;
        case CallbackArray(elems) =>
          var a := new ArrayCallback(elems);
          work := Some(FromArray(a));
          adapter := a;
        case NotCallable =>
          work := None;
          adapter := null;
      }
      phase := NotStarted;
      page := 0;
      current := null;
      errorCount := 0;
      held := None;
      delivered := [];
      pastPages := [];
      checked := [];
    }

    /** The first pull runs the set-up of the body: a source that cannot be called is
        rejected; otherwise page 0 is launched, and its poll loop waits. */
    method Start() returns (s: Step<V>)
      requires Valid() && phase == NotStarted
      modifies this`phase, this`current, this`page, adapter
      ensures Valid()
      ensures source.NotCallable? ==>
                && s == Raised(PagingError(FirstParamMessage, 0, -1)) && phase == Ended(BadSource)
                && page == old(page) && current == old(current)
      ensures !source.NotCallable? ==>
                && s == Pending && phase == Running && page == 1
                && fresh(current) && current.count == 0 && current.arrivals == []
    {
      if work.None? {
        phase := Ended(BadSource);
        s := Raised(PagingError(FirstParamMessage, 0, -1));
      } else {
        var first := Launch(0);
        current := first;
        page := 1;
        phase := Running;
        s := Pending;
      }
    }

    /** `pageGenerator` for page `p`: all its calls are launched, the array adapter moving
        on by `pageSize` elements. */
    method Launch(p: nat) returns (next: Page<V>)
      requires WorkInv(source, work, adapter) && !source.NotCallable?
      requires source.CallbackArray? ==> Cursor() == Min(p * pageSize, |source.elems|)
      modifies adapter
      ensures fresh(next) && next.Valid()
      ensures next.page == p && next.pageSize == pageSize && next.opts == opts
      ensures next.results == [] && next.count == 0 && next.undefResult == 0 && next.arrivals == []
      ensures next.outcomes == Launched(source, pageSize, opts, p)
      ensures WorkInv(source, work, adapter)
      ensures source.CallbackArray? ==> Cursor() == Min((p + 1) * pageSize, |source.elems|)
    {
      ghost var cursor := Cursor();
      next := new Page(work.value, p, pageSize, opts);
      match source {
        case Callback(f) =>
          LaunchedDirect(f, pageSize, opts, p, next.outcomes);
        case CallbackArray(elems) =>
          LaunchedArray(elems, pageSize, opts, p, cursor, next.outcomes);
          CursorAdvance(cursor, pageSize, |elems|, p);
      }
    }

    /** The generator resumes after a `yield`: the item's error, if any, is counted, and
        the budget is checked. */
    method Resume() returns (stop: Option<Step<V>>)
      requires Valid() && phase == Running
      modifies this`checked, this`errorCount, this`held, this`phase
      ensures Valid() && held.None?
      ensures old(held).None? ==> stop.None? && errorCount == old(errorCount)
      ensures old(held).Some? ==> errorCount == old(errorCount) + Counted(opts, old(held).value)
      ensures stop.Some? <==> old(held).Some? && Stops(opts, errorCount)
      ensures stop.Some? ==> stop.value == BudgetStep(opts, old(held).value) && phase == Ended(Budget)
      ensures stop.None? ==> phase == Running
    {
      stop := None;
      if held.Some? {
        if Stops(opts, errorCount + Counted(opts, held.value)) {
          var s := StopAtBudget();
          stop := Some(s);
        } else {
          CountHeld();
        }
      }
    }

    /** The item held at the `yield` is counted and the budget is not yet spent. */
    method CountHeld()
      requires Valid() && phase == Running && held.Some?
      requires !Stops(opts, errorCount + Counted(opts, held.value))
      modifies this`checked, this`errorCount, this`held
      ensures Valid() && held.None?
      ensures errorCount == old(errorCount) + Counted(opts, old(held).value)
    {
      BudgetContinue(opts, errorCount, checked, held.value, delivered);
      checked := checked + [held.value];
      errorCount := errorCount + Counted(opts, held.value);
      held := None;
    }

    /** The item held at the `yield` spends the budget: the generator ends. */
    method StopAtBudget() returns (s: Step<V>)
      requires Valid() && phase == Running && held.Some?
      requires Stops(opts, errorCount + Counted(opts, held.value))
      modifies this`checked, this`errorCount, this`held, this`phase
      ensures errorCount == old(errorCount) + Counted(opts, old(held).value)
      ensures s == BudgetStep(opts, old(held).value)
      ensures Valid() && phase == Ended(Budget) && held.None?
    {
      BudgetStop(opts, errorCount, checked, held.value, delivered);
      BudgetStopPages(source, pageSize, opts, page, current, pastPages, delivered, Cursor());
      s := BudgetStep(opts, held.value);
      checked := checked + [held.value];
      errorCount := errorCount + Counted(opts, held.value);
      held := None;
      phase := Ended(Budget);
    }

    /** A page ended without a terminal call: it goes to the past pages and the next page
        is launched. */
    method Chain()
      requires Valid() && phase == Running && held.None?
      requires current.count + current.undefResult == pageSize && current.undefResult == 0
      modifies this`pastPages, this`current, this`page, adapter
      ensures Valid()
      ensures page == old(page) + 1
      ensures fresh(current) && current.count == 0 && current.arrivals == []
      ensures pastPages == old(pastPages) + [old(current.Delivered())]
    {
      ghost var items := current.Delivered();
      var next := Launch(page);
      ChainPages(source, pageSize, opts, page, current, next, pastPages, delivered, Cursor());
      pastPages := pastPages + [items];
      current := next;
      page := page + 1;
    }

    /** One turn of the current page's poll loop, seen from the consumer's pull: an item is
        yielded; a pause leaves the pull pending; the page's final marker either ends the
        stream (`done`) or starts the next page. */
    method Pull() returns (s: Step<V>)
      requires Valid() && phase == Running && held.None?
      modifies this`held, this`delivered, this`phase, this`pastPages, this`current, this`page, current`count, adapter
      ensures page == old(page) ==> current == old(current)
      ensures Valid()
      ensures s.Yielded? || s == Pending || s.Returned?
      ensures s.Yielded? ==>
                && phase == Running && held == Some(s.item) && delivered == old(delivered) + [s.item]
                && page == old(page) && s.item.page == page - 1
      ensures s == Pending ==> phase == Running && delivered == old(delivered) && held.None?
      ensures s.Returned? ==>
                && phase == Ended(Exhausted) && delivered == old(delivered) && page == old(page)
                && s.result == PagingResult(Undefined, Undefined, page, -1)
      ensures page != old(page) ==>
                && s == Pending && page == old(page) + 1
                && fresh(current) && current.count == 0 && current.arrivals == []
                && old(current.count) == pageSize
      ensures old(current.count + current.undefResult) == pageSize && old(current.undefResult) != 0 ==>
                s == Returned(PagingResult(Undefined, Undefined, page, -1))
      ensures old(current.count + current.undefResult) == pageSize && old(current.undefResult) == 0 ==>
                s == Pending && page == old(page) + 1
      ensures old(current.count + current.undefResult) < pageSize && old(current.Ready(current.count)) ==>
                s == Yielded(ItemOf(old(current.results[current.count]).value, old(page) - 1))
      ensures old(current.count + current.undefResult) < pageSize && !old(current.Ready(current.count)) ==>
                s == Pending && page == old(page)
    {
      if current.count + current.undefResult == pageSize {
        s := EndPage();
      } else if current.count < |current.results| && current.results[current.count].Some? {
        var item := Take();
        s := Yielded(item);
      } else {
        var r := current.Poll();
        s := Pending;
      }
    }

    /** The poll loop finds the next entry filled: it is yielded and the generator holds it. */
    method Take() returns (item: PagingResult<V>)
      requires Valid() && phase == Running && held.None?
      requires current.count + current.undefResult < pageSize && current.Ready(current.count)
      modifies this`held, this`delivered, current`count
      ensures item == ItemOf(current.results[old(current.count)].value, page - 1)
      ensures held == Some(item) && delivered == old(delivered) + [item]
      ensures Valid()
    {
      ghost var before := current.Delivered();
      var r := current.Poll();
      item := r.item;
      BudgetHold(opts.maxErrors, errorCount, checked, delivered, item);
      assert delivered + [item] == Flatten(pastPages) + (before + [item]);
      held := Some(item);
      delivered := delivered + [item];
    }

    /** The page's final marker: `done` ends the stream, otherwise the next page starts. */
    method EndPage() returns (s: Step<V>)
      requires Valid() && phase == Running && held.None?
      requires current.count + current.undefResult == pageSize
      modifies this`phase, this`pastPages, this`current, this`page, current`count, adapter
      ensures page == old(page) ==> current == old(current)
      ensures Valid()
      ensures old(current.undefResult) != 0 ==>
                && s == Returned(PagingResult(Undefined, Undefined, page, -1))
                && phase == Ended(Exhausted) && page == old(page)
      ensures old(current.undefResult) == 0 ==>
                && s == Pending && phase == Running && page == old(page) + 1
                && fresh(current) && current.count == 0 && current.arrivals == []
    {
      var r := current.Poll();
      if r.done {
        phase := Ended(Exhausted);
        s := Returned(PagingResult(Undefined, Undefined, page, -1));
      } else {
        Chain();
        s := Pending;
      }
    }

    /** A pull on a running generator: the held item is counted, and unless that spends
        the budget, the current page's poll loop takes one turn. */
    method Proceed() returns (s: Step<V>)
      requires Valid() && phase == Running
      modifies this`checked, this`errorCount, this`held, this`delivered, this`phase, this`pastPages
      modifies this`current, this`page, current`count, adapter
      ensures page == old(page) ==> current == old(current)
      ensures page != old(page) ==> fresh(current) && current.count == 0 && current.arrivals == []
      ensures old(held).Some? ==> errorCount == old(errorCount) + Counted(opts, old(held).value)
      ensures s.Yielded? ==> delivered == old(delivered) + [s.item] && held == Some(s.item) && s.item.page == page - 1
      ensures !s.Yielded? ==> delivered == old(delivered)
      ensures s.Returned? && phase == Ended(Exhausted) ==> s.result == PagingResult(Undefined, Undefined, page, -1)
      ensures s == Pending ==> phase == Running
      ensures old(held).Some? && Stops(opts, old(errorCount) + Counted(opts, old(held).value)) ==>
                s == BudgetStep(opts, old(held).value) && phase == Ended(Budget)
      ensures old(held).None? || !Stops(opts, old(errorCount) + Counted(opts, old(held).value)) ==>
                && (old(current.count + current.undefResult) == pageSize && old(current.undefResult) != 0 ==>
                      s == Returned(PagingResult(Undefined, Undefined, page, -1)) && phase == Ended(Exhausted))
                && (old(current.count + current.undefResult) == pageSize && old(current.undefResult) == 0 ==>
                      s == Pending && page == old(page) + 1)
                && (old(current.count + current.undefResult) < pageSize && old(current.Ready(current.count)) ==>
                      s == Yielded(ItemOf(old(current.results[current.count]).value, old(page) - 1)))
                && (old(current.count + current.undefResult) < pageSize && !old(current.Ready(current.count)) ==>
                      s == Pending && page == old(page))
      ensures Valid()
    {
      var stop := Resume();
      if stop.Some? {
        s := stop.value;
      } else {
        s := Pull();
      }
    }

    /** `await it.next()` on the stream. */
    method Next() returns (s: Step<V>)
      requires Valid()
      modifies this, (if current == null then {} else {current})`count, adapter
      ensures page == old(page) ==> current == old(current)
      ensures page != old(page) ==> fresh(current) && current.count == 0 && current.arrivals == []
      ensures page == old(page) && current != null ==>
                && current.arrivals == old(current.arrivals) && current.results == old(current.results)
                && current.undefResult == old(current.undefResult)
      ensures old(phase).Ended? ==> s == Closed && phase == old(phase)
      ensures old(phase) == NotStarted && source.NotCallable? ==>
                s == Raised(PagingError(FirstParamMessage, 0, -1)) && phase == Ended(BadSource)
      ensures old(phase) == NotStarted && !source.NotCallable? ==>
                s == Pending && phase == Running && page == 1
      ensures old(phase) == Running && old(held).Some? ==>
                errorCount == old(errorCount) + Counted(opts, old(held).value)
      ensures old(phase) == Running && old(held).Some? && Stops(opts, old(errorCount) + Counted(opts, old(held).value)) ==>
                s == BudgetStep(opts, old(held).value) && phase == Ended(Budget)
      ensures s.Yielded? ==> delivered == old(delivered) + [s.item] && held == Some(s.item) && s.item.page == page - 1
      ensures !s.Yielded? ==> delivered == old(delivered)
      ensures s.Returned? && phase == Ended(Exhausted) ==> s.result == PagingResult(Undefined, Undefined, page, -1)
      ensures s == Pending ==> phase == Running
      ensures old(phase) == Running && (old(held).None? || !Stops(opts, old(errorCount) + Counted(opts, old(held).value))) ==>
                && (old(current.count + current.undefResult) == pageSize && old(current.undefResult) != 0 ==>
                      s == Returned(PagingResult(Undefined, Undefined, page, -1)) && phase == Ended(Exhausted))
                && (old(current.count + current.undefResult) == pageSize && old(current.undefResult) == 0 ==>
                      s == Pending && page == old(page) + 1)
                && (old(current.count + current.undefResult) < pageSize && old(current.Ready(current.count)) ==>
                      s == Yielded(ItemOf(old(current.results[current.count]).value, old(page) - 1)))
                && (old(current.count + current.undefResult) < pageSize && !old(current.Ready(current.count)) ==>
                      s == Pending && page == old(page))
      ensures Valid()
    {
      match phase {
        case NotStarted =>
          s := Start();
        case Ended(_) =>
          s := Closed;
        case Running =>
          s := Proceed();
      }
    }

    /** When the budget ends the stream, a positive `maxErrors` has been met exactly, by the
        last item yielded; with `maxErrors == 0` the first item went through and no other. */
    lemma BudgetReached()
      requires Valid() && phase == Ended(Budget)
      ensures opts.maxErrors >= 0 && |delivered| > 0
      ensures opts.maxErrors > 0 ==>
                ErrorsIn(delivered) == opts.maxErrors && delivered[|delivered| - 1].error != Undefined
      ensures opts.maxErrors == 0 ==> |delivered| == 1
    {
      assert delivered == checked;
      BudgetSpent(opts.maxErrors, errorCount, checked);
    }

    /** Before the budget ends the stream, no more than `maxErrors` items with an error have
        been yielded. */
    lemma BudgetNotReached()
      requires Valid() && phase != Ended(Budget)
      ensures opts.maxErrors > 0 ==> ErrorsIn(delivered) <= opts.maxErrors
      ensures opts.maxErrors == 0 ==> |delivered| <= 1
    {
      BudgetUnspent(opts.maxErrors, phase, held, errorCount, checked, delivered);
    }

    /** A negative `maxErrors` turns the budget off: errors are not even counted. */
    lemma NoBudget()
      requires Valid() && opts.maxErrors < 0
      ensures phase != Ended(Budget) && errorCount == 0
    {
    }

    /** A stream that ended with `done`: every page before the last had no terminal call,
        the last had one, and every call of the earlier pages was yielded. */
    lemma StreamEnd()
      requires Valid() && phase == Ended(Exhausted)
      ensures page >= 1 && !source.NotCallable?
      ensures forall p | 0 <= p < page - 1 :: NoTerminal(Launched(source, pageSize, opts, p))
      ensures !NoTerminal(Launched(source, pageSize, opts, page - 1))
      ensures |delivered| == (page - 1) * pageSize + current.count
    {
      current.DoneMarker();
      forall p | 0 <= p < |pastPages|
        ensures |pastPages[p]| == pageSize && NoTerminal(Launched(source, pageSize, opts, p))
      {
        assert PageComplete(pastPages[p], Launched(source, pageSize, opts, p), p, pageSize, opts.keepOrder);
      }
      FlattenLength(pastPages, pageSize);
    }

    /** Every item yielded is the item of its own call, on a page already started: the
        value and error that call settled to, its page and its index, passed through
        unchanged. */
    lemma PassedThrough()
      requires Valid()
      ensures forall k | 0 <= k < |delivered| ::
                delivered[k].page < page && FromOwnCall(source, pageSize, opts, delivered[k])
    {
      if phase != NotStarted && phase != Ended(BadSource) {
        PastFromOwnCalls(pastPages, source, pageSize, opts);
        current.DeliveredFacts();
        var before := Flatten(pastPages);
        forall k | 0 <= k < |delivered|
          ensures delivered[k].page < page && FromOwnCall(source, pageSize, opts, delivered[k])
        {
          if k < |before| {
            assert delivered[k] in before;
          } else {
            assert delivered[k] == current.Delivered()[k - |before|];
          }
        }
      }
    }

    /** An array source whose elements never end the stream themselves yields every element
        once, over `|elems| / pageSize + 1` pages: the stream ends on the first page that
        reaches past the end of the array. */
    lemma ArrayStreamLength()
      requires Valid() && phase == Ended(Exhausted)
      requires source.CallbackArray? && EndsWithArray(source.elems, opts)
      ensures |delivered| == |source.elems|
      ensures page == |source.elems| / pageSize + 1
    {
      StreamEnd();
      ArrayPages(source.elems, pageSize, opts, page - 1);
      current.FinishedCount(|source.elems| - (page - 1) * pageSize);
    }

    /** The call with index `i` of the current page settles. */
    method Settle(i: nat)
      requires Valid() && phase == Running && i < pageSize && i !in current.arrivals
      modifies current
      ensures Valid()
      ensures current.arrivals == old(current.arrivals) + [i]
      ensures current.Delivered() == old(current.Delivered())
    {
      current.Settle(i);
    }
  }
}
