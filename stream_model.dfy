/** The values the stream is made of and the facts about them: what each page launches,
    the pages chained so far, and the error budget. */
module StreamModel {
  import opened JsValues
  import opened Options
  import opened Callbacks
  import opened PageEngine

  /** The first argument: an async function, an array of them, or anything else. */
  datatype Source<!V> =
    | Callback(f: (int, int) -> Raw<V>)
    | CallbackArray(elems: seq<Element<V>>)
    | NotCallable

  const FirstParamMessage := "first parameter must be an async function"
  const MaxErrorsMessage := "max errors reached"

  /** What one pull of the consumer gets: a yielded item, the returned value, a thrown
      error; `Pending` while the pull is still waiting, `Closed` once the generator has
      finished (`{value: undefined, done: true}`). */
  datatype Step<V> =
    | Yielded(item: PagingResult<V>)
    | Returned(result: PagingResult<V>)
    | Raised(error: Failure)
    | Pending
    | Closed

  /** How the generator finished: the first parameter was rejected, a page ended with
      `done`, or the error budget was reached. */
  datatype Ending = BadSource | Exhausted | Budget

  datatype Phase = NotStarted | Running | Ended(how: Ending)

  /** A page size that is not positive is replaced by 2. */
  function NormalizePageSize(n: int): (r: nat)
    ensures r > 0
    ensures n > 0 ==> r == n
    ensures n <= 0 ==> r == 2
  {
    if n <= 0 then 2 else n
  }

  /** How the call with index `i` of page `p` settles. An array source is advanced by one
      element per call, `pageSize` calls per page. */
  function RawAt<V>(source: Source<V>, pageSize: nat, p: nat, i: nat): Raw<V>
    requires !source.NotCallable?
  {
    match source
    case Callback(f) => f(p, i)
    case CallbackArray(elems) => OutcomeAt(elems, p * pageSize + i, p, i)
  }

  /** Element `j` of an array source is used by the call with index `j % pageSize` of page
      `j / pageSize`, and called with those two numbers. */
  lemma ArrayElementCall<V>(elems: seq<Element<V>>, pageSize: nat, j: nat)
    requires pageSize > 0 && j < |elems|
    ensures j % pageSize < pageSize && (j / pageSize) * pageSize + j % pageSize == j
    ensures RawAt(CallbackArray(elems), pageSize, j / pageSize, j % pageSize)
              == OutcomeAt(elems, j, j / pageSize, j % pageSize)
  {
  }

  /** What the calls of page `p` amount to, by index. */
  ghost function Launched<V>(source: Source<V>, pageSize: nat, opts: PagingOptions<V>, p: nat): seq<Outcome<V>>
    requires !source.NotCallable?
  {
    seq(pageSize, i requires 0 <= i < pageSize => Classify(opts, RawAt(source, pageSize, p, i)))
  }

  ghost predicate NoTerminal<V>(outcomes: seq<Outcome<V>>)
  {
    forall i | 0 <= i < |outcomes| :: !outcomes[i].Terminal?
  }

  /** Once the array is exhausted every further call resolves to `undefined`. */
  lemma OutcomeAtPast<V>(elems: seq<Element<V>>, a: nat, i: nat, p: int)
    ensures OutcomeAt(elems, Min(a, |elems|) + i, p, i) == OutcomeAt(elems, a + i, p, i)
  {
  }

  /** All the items, page after page. */
  function Flatten<T>(pages: seq<seq<T>>): (r: seq<T>)
  {
    if pages == [] then [] else Flatten(pages[..|pages| - 1]) + pages[|pages| - 1]
  }

  lemma FlattenPush<T>(pages: seq<seq<T>>, last: seq<T>)
    ensures Flatten(pages + [last]) == Flatten(pages) + last
  {
    assert (pages + [last])[..|pages|] == pages;
  }

  lemma {:induction false} FlattenLength<T>(pages: seq<seq<T>>, n: nat)
    requires forall p | 0 <= p < |pages| :: |pages[p]| == n
    ensures |Flatten(pages)| == |pages| * n
  {
    if pages != [] {
      var prefix := pages[..|pages| - 1];
      FlattenLength(prefix, n);
      assert |pages| * n == |prefix| * n + n;
    }
  }

  /** The items a finished page without terminal calls hands out: one per call, each the
      item of its own call (that call's value and error, the page and the call's index), by
      index in call order. */
  ghost predicate PageComplete<V>(items: seq<PagingResult<V>>, outcomes: seq<Outcome<V>>, p: int, pageSize: nat,
                                  keepOrder: bool)
  {
    && |items| == pageSize && |outcomes| == pageSize && NoTerminal(outcomes)
    && (forall k | 0 <= k < |items| ::
          0 <= items[k].index < pageSize && items[k] == ItemOf(SlotFor(outcomes, items[k].index), p))
    && (keepOrder ==> forall k | 0 <= k < |items| :: items[k].index == k)
    && (forall a, b {:trigger IndexOf(items, a), IndexOf(items, b)} | 0 <= a < b < |items| ::
          IndexOf(items, a) != IndexOf(items, b))
  }

  function IndexOf<V>(items: seq<PagingResult<V>>, k: nat): int
    requires k < |items|
  {
    items[k].index
  }

  /** Whether an item counts against the budget: `error !== undefined` with counting on. */
  function Counted<V>(opts: PagingOptions<V>, item: PagingResult<V>): (r: nat)
    ensures r <= 1
    ensures r == 1 <==> item.error != Undefined && opts.maxErrors >= 0
  {
    if item.error != Undefined && opts.maxErrors >= 0 then 1 else 0
  }

  /** `errorCount >= maxErrors && maxErrors >= 0`. */
  predicate Stops<V>(opts: PagingOptions<V>, errorCount: nat)
    ensures opts.maxErrors < 0 ==> !Stops(opts, errorCount)
    ensures opts.maxErrors == 0 ==> Stops(opts, errorCount)
  {
    errorCount >= opts.maxErrors && opts.maxErrors >= 0
  }

  /** What the pull after the item that reached the budget gets. */
  function BudgetStep<V>(opts: PagingOptions<V>, item: PagingResult<V>): (s: Step<V>)
    ensures s.Raised? <==> opts.throwOnMaxError
    ensures s.Raised? ==> s.error == PagingError(MaxErrorsMessage, item.page, item.index)
    ensures s.Returned? <==> !opts.throwOnMaxError
    ensures s.Returned? ==> s.result == PagingResult(Undefined, Str(MaxErrorsMessage), item.page, item.index)
  {
    if opts.throwOnMaxError then Raised(PagingError(MaxErrorsMessage, item.page, item.index))
    else Returned(PagingResult(Undefined, Str(MaxErrorsMessage), item.page, item.index))
  }

  /** The number of items with an error. */
  function ErrorsIn<V>(items: seq<PagingResult<V>>): (r: nat)
    ensures r <= |items|
  {
    if items == [] then 0
    else ErrorsIn(items[..|items| - 1]) + if items[|items| - 1].error != Undefined then 1 else 0
  }

  lemma ErrorsInPush<V>(items: seq<PagingResult<V>>, item: PagingResult<V>)
    ensures ErrorsIn(items + [item]) == ErrorsIn(items) + if item.error != Undefined then 1 else 0
  {
    assert (items + [item])[..|items|] == items;
  }

  /** The error budget after the items `checked` have been counted: a stream that has not
      stopped for it has fewer than `maxErrors` errors among them, and one that has stopped
      reached `maxErrors` with its last item and not before. */
  ghost predicate BudgetInv<V>(maxErrors: int, stopped: bool, errorCount: nat, checked: seq<PagingResult<V>>)
  {
    && (maxErrors < 0 ==> errorCount == 0 && !stopped)
    && (maxErrors >= 0 ==> errorCount == ErrorsIn(checked))
    && (maxErrors >= 0 && !stopped && |checked| > 0 ==> errorCount < maxErrors)
    && (stopped ==>
          && |checked| > 0 && ErrorsIn(checked) >= maxErrors
          && (|checked| == 1 || ErrorsIn(checked[..|checked| - 1]) < maxErrors))
  }

  /** Counting one more item keeps the budget invariant, whether or not it stops the stream. */
  lemma BudgetCount<V>(maxErrors: int, errorCount: nat, checked: seq<PagingResult<V>>, item: PagingResult<V>)
    requires BudgetInv(maxErrors, false, errorCount, checked)
    ensures var count := errorCount + if item.error != Undefined && maxErrors >= 0 then 1 else 0;
            BudgetInv(maxErrors, count >= maxErrors && maxErrors >= 0, count, checked + [item])
  {
    ErrorsInPush(checked, item);
    assert (checked + [item])[..|checked|] == checked;
  }

  /** The pages a running stream has started: `page - 1` finished ones, none of which had a
      terminal call, and the current one, launched with the outcomes its source gives. Only
      constant fields of the current page are involved. */
  ghost predicate PagesShape<V>(source: Source<V>, pageSize: nat, opts: PagingOptions<V>, page: nat,
                                current: Page<V>, pastPages: seq<seq<PagingResult<V>>>)
  {
    && !source.NotCallable?
    && page >= 1 && |pastPages| == page - 1
    && current.page == page - 1 && current.pageSize == pageSize && current.opts == opts
    && current.outcomes == Launched(source, pageSize, opts, page - 1)
    && PastComplete(pastPages, source, pageSize, opts)
  }

  /** Each of the past pages had no terminal call and handed out all its calls. */
  ghost predicate PastComplete<V>(pastPages: seq<seq<PagingResult<V>>>, source: Source<V>, pageSize: nat,
                                  opts: PagingOptions<V>)
    requires !source.NotCallable?
  {
    forall p {:trigger PageComplete(pastPages[p], Launched(source, pageSize, opts, p), p, pageSize, opts.keepOrder)}
      | 0 <= p < |pastPages| ::
      PageComplete(pastPages[p], Launched(source, pageSize, opts, p), p, pageSize, opts.keepOrder)
  }

  lemma PastCompletePush<V>(pastPages: seq<seq<PagingResult<V>>>, items: seq<PagingResult<V>>, source: Source<V>,
                            pageSize: nat, opts: PagingOptions<V>)
    requires !source.NotCallable? && PastComplete(pastPages, source, pageSize, opts)
    requires PageComplete(items, Launched(source, pageSize, opts, |pastPages|), |pastPages|, pageSize, opts.keepOrder)
    ensures PastComplete(pastPages + [items], source, pageSize, opts)
  {
    var pages := pastPages + [items];
    forall p | 0 <= p < |pages|
      ensures PageComplete(pages[p], Launched(source, pageSize, opts, p), p, pageSize, opts.keepOrder)
    {
      if p < |pastPages| {
        assert pages[p] == pastPages[p];
        assert PageComplete(pastPages[p], Launched(source, pageSize, opts, p), p, pageSize, opts.keepOrder);
      }
    }
  }

  /** `item` is what the call with its index on its page hands out: that call did not end
      the stream, and the item carries the call's value and error unchanged. */
  ghost predicate FromOwnCall<V>(source: Source<V>, pageSize: nat, opts: PagingOptions<V>, item: PagingResult<V>)
  {
    && !source.NotCallable?
    && item.page >= 0 && 0 <= item.index < pageSize
    && !Launched(source, pageSize, opts, item.page)[item.index].Terminal?
    && item == ItemOf(SlotFor(Launched(source, pageSize, opts, item.page), item.index), item.page)
  }

  /** Every item of the past pages is its own call's item, from one of those pages. */
  lemma {:induction false} PastFromOwnCalls<V>(pastPages: seq<seq<PagingResult<V>>>, source: Source<V>,
                                               pageSize: nat, opts: PagingOptions<V>)
    requires !source.NotCallable? && PastComplete(pastPages, source, pageSize, opts)
    ensures forall x | x in Flatten(pastPages) :: x.page < |pastPages| && FromOwnCall(source, pageSize, opts, x)
  {
    if pastPages != [] {
      var n := |pastPages| - 1;
      var prefix, last := pastPages[..n], pastPages[n];
      forall p | 0 <= p < n
        ensures PageComplete(prefix[p], Launched(source, pageSize, opts, p), p, pageSize, opts.keepOrder)
      {
        assert prefix[p] == pastPages[p];
      }
      PastFromOwnCalls(prefix, source, pageSize, opts);
      assert PageComplete(last, Launched(source, pageSize, opts, n), n, pageSize, opts.keepOrder);
      forall x | x in last
        ensures x.page == n && FromOwnCall(source, pageSize, opts, x)
      {
        var k :| 0 <= k < |last| && last[k] == x;
      }
    }
  }

  /** A page that finished without a terminal call handed out every one of its calls. */
  lemma FinishedPage<V>(current: Page<V>)
    requires current.Valid() && current.count + current.undefResult == current.pageSize
    requires current.undefResult == 0
    ensures PageComplete(current.Delivered(), current.outcomes, current.page, current.pageSize, current.opts.keepOrder)
  {
    current.DoneMarker();
    current.DeliveredFacts();
  }

  /** The stream so far: the items of the finished pages, then those of the current page. */
  ghost predicate PagesInv<V>(source: Source<V>, pageSize: nat, opts: PagingOptions<V>, page: nat,
                              current: Page?<V>, pastPages: seq<seq<PagingResult<V>>>,
                              delivered: seq<PagingResult<V>>)
    reads current
  {
    && current != null && current.Valid()
    && PagesShape(source, pageSize, opts, page, current, pastPages)
    && delivered == Flatten(pastPages) + current.Delivered()
  }

  /** The calls of a page of a callback source are the source's own calls. */
  lemma LaunchedDirect<V>(f: (int, int) -> Raw<V>, pageSize: nat, opts: PagingOptions<V>, p: nat, outcomes: seq<Outcome<V>>)
    requires |outcomes| == pageSize
    requires forall i | 0 <= i < pageSize :: outcomes[i] == Classify(opts, f(p, i))
    ensures outcomes == Launched(Callback(f), pageSize, opts, p)
  {
    assert forall i | 0 <= i < pageSize :: outcomes[i] == Launched(Callback(f), pageSize, opts, p)[i];
  }

  /** The adapter over an array hands page `p` the elements from `p * pageSize` on, or
      `undefined` past the end. */
  lemma LaunchedArray<V>(elems: seq<Element<V>>, pageSize: nat, opts: PagingOptions<V>, p: nat, cursor: nat,
                         outcomes: seq<Outcome<V>>)
    requires cursor == Min(p * pageSize, |elems|) && |outcomes| == pageSize
    requires forall i | 0 <= i < pageSize :: outcomes[i] == Classify(opts, OutcomeAt(elems, cursor + i, p, i))
    ensures outcomes == Launched(CallbackArray(elems), pageSize, opts, p)
  {
    forall i | 0 <= i < pageSize
      ensures outcomes[i] == Launched(CallbackArray(elems), pageSize, opts, p)[i]
    {
      OutcomeAtPast(elems, p * pageSize, i, p);
    }
  }

  lemma CursorAdvance(cursor: nat, pageSize: nat, n: nat, p: nat)
    requires cursor == Min(p * pageSize, n)
    ensures Min(cursor + pageSize, n) == Min((p + 1) * pageSize, n)
  {
    assert (p + 1) * pageSize == p * pageSize + pageSize;
  }

  /** A finished page without terminal calls joins the past pages, and the next one becomes
      the current page. */
  lemma ChainPages<V>(source: Source<V>, pageSize: nat, opts: PagingOptions<V>, page: nat,
                      current: Page<V>, next: Page<V>, pastPages: seq<seq<PagingResult<V>>>,
                      delivered: seq<PagingResult<V>>, cursor: nat)
    requires PagesInv(source, pageSize, opts, page, current, pastPages, delivered)
    requires current.count + current.undefResult == pageSize && current.undefResult == 0
    requires next.Valid() && next.page == page && next.pageSize == pageSize && next.opts == opts
    requires next.results == [] && next.count == 0
    requires next.outcomes == Launched(source, pageSize, opts, page)
    requires source.CallbackArray? ==> cursor == Min((page + 1) * pageSize, |source.elems|)
    ensures PhaseInv(source, pageSize, opts, Running, page + 1, next, pastPages + [current.Delivered()], delivered, cursor)
  {
    var items := current.Delivered();
    FinishedPage(current);
    PastCompletePush(pastPages, items, source, pageSize, opts);
    FlattenPush(pastPages, items);
    assert next.Delivered() == [];
  }

  /** The generator resumes and counts the item it held, and the count stays below a
      non-negative `maxErrors`: the generator goes on. */
  lemma BudgetContinue<V>(opts: PagingOptions<V>, errorCount: nat, checked: seq<PagingResult<V>>,
                          item: PagingResult<V>, delivered: seq<PagingResult<V>>)
    requires BudgetState(opts.maxErrors, Running, Some(item), errorCount, checked, delivered)
    requires !Stops(opts, errorCount + Counted(opts, item))
    ensures BudgetState(opts.maxErrors, Running, None, errorCount + Counted(opts, item), checked + [item], delivered)
  {
    BudgetCount(opts.maxErrors, errorCount, checked, item);
  }

  /** The generator resumes and counts the item it held, and the count reaches a
      non-negative `maxErrors`: the generator ends. */
  lemma BudgetStop<V>(opts: PagingOptions<V>, errorCount: nat, checked: seq<PagingResult<V>>,
                      item: PagingResult<V>, delivered: seq<PagingResult<V>>)
    requires BudgetState(opts.maxErrors, Running, Some(item), errorCount, checked, delivered)
    requires Stops(opts, errorCount + Counted(opts, item))
    ensures BudgetState(opts.maxErrors, Ended(Budget), None, errorCount + Counted(opts, item), checked + [item], delivered)
  {
    BudgetCount(opts.maxErrors, errorCount, checked, item);
  }

  /** A stop by the budget leaves the pages as they stood. */
  lemma BudgetStopPages<V>(source: Source<V>, pageSize: nat, opts: PagingOptions<V>, page: nat, current: Page?<V>,
                           pastPages: seq<seq<PagingResult<V>>>, delivered: seq<PagingResult<V>>, cursor: nat)
    requires PhaseInv(source, pageSize, opts, Running, page, current, pastPages, delivered, cursor)
    ensures PhaseInv(source, pageSize, opts, Ended(Budget), page, current, pastPages, delivered, cursor)
  {
  }

  /** The generator yields one more item and holds it until the consumer pulls again. */
  lemma BudgetHold<V>(maxErrors: int, errorCount: nat, checked: seq<PagingResult<V>>,
                      delivered: seq<PagingResult<V>>, item: PagingResult<V>)
    requires BudgetState(maxErrors, Running, None, errorCount, checked, delivered)
    ensures BudgetState(maxErrors, Running, Some(item), errorCount, checked, delivered + [item])
  {
  }

  /** Once the budget has stopped the stream: with a positive `maxErrors` exactly that many
      items carried an error, the last one among them; with `maxErrors == 0` only the first
      item went through. */
  lemma BudgetSpent<V>(maxErrors: int, errorCount: nat, checked: seq<PagingResult<V>>)
    requires BudgetInv(maxErrors, true, errorCount, checked)
    ensures maxErrors >= 0 && |checked| > 0
    ensures maxErrors > 0 ==> ErrorsIn(checked) == maxErrors && checked[|checked| - 1].error != Undefined
    ensures maxErrors == 0 ==> |checked| == 1
  {
    var prefix := checked[..|checked| - 1];
    assert ErrorsIn(checked) == ErrorsIn(prefix) + if checked[|checked| - 1].error != Undefined then 1 else 0;
    if |checked| == 1 {
      assert prefix == [];
    }
  }

  /** While the budget has not stopped the stream, at most `maxErrors` of the items yielded
      carry an error, and with `maxErrors == 0` at most one item has been yielded. */
  lemma BudgetUnspent<V>(maxErrors: int, phase: Phase, held: Option<PagingResult<V>>, errorCount: nat,
                         checked: seq<PagingResult<V>>, delivered: seq<PagingResult<V>>)
    requires BudgetState(maxErrors, phase, held, errorCount, checked, delivered) && phase != Ended(Budget)
    ensures maxErrors > 0 ==> ErrorsIn(delivered) <= maxErrors
    ensures maxErrors == 0 ==> |delivered| <= 1
  {
    if held.Some? {
      ErrorsInPush(checked, held.value);
      if checked == [] {
        assert ErrorsIn(delivered) <= |delivered| == 1;
      }
    } else {
      assert delivered == checked;
    }
  }

  /** No element of the array ends the stream itself, but `undefined`, which the adapter
      gives once the array is exhausted, does (as the default `isLast` says). */
  ghost predicate EndsWithArray<V>(elems: seq<Element<V>>, opts: PagingOptions<V>)
  {
    && (forall j: nat, p: int, i: int | j < |elems| :: !Classify(opts, OutcomeAt(elems, j, p, i)).Terminal?)
    && Classify(opts, Resolved(Undefined)).Terminal?
  }

  /** With such an array, the call with index `i` of page `p` ends the stream exactly when
      it comes after the last element. */
  lemma LaunchedFromArray<V>(elems: seq<Element<V>>, pageSize: nat, opts: PagingOptions<V>, p: nat)
    requires EndsWithArray(elems, opts)
    ensures forall i | 0 <= i < pageSize ::
              Launched(CallbackArray(elems), pageSize, opts, p)[i].Terminal? <==> p * pageSize + i >= |elems|
  {
  }

  lemma {:induction false} MulMono(a: nat, b: nat, d: nat)
    ensures a <= b ==> a * d <= b * d
  {
    if a < b {
      MulMono(a, b - 1, d);
      assert b * d == (b - 1) * d + d;
    }
  }

  /** `q` is `m / d` when `m` lies in `[q * d, q * d + d)`. */
  lemma DivUnique(m: nat, d: nat, q: nat)
    requires d > 0 && q * d <= m < q * d + d
    ensures m / d == q
  {
    var q', r' := m / d, m % d;
    assert m == q' * d + r' && 0 <= r' < d;
    assert (q + 1) * d == q * d + d;
    assert (q' + 1) * d == q' * d + d;
    MulMono(q + 1, q', d);
    MulMono(q' + 1, q, d);
  }

  /** With such an array, if pages `0 .. q - 1` had no terminal call and page `q` had one,
      then `q` is `|elems| / pageSize` and page `q` ends the stream from the first call
      past the end of the array on. */
  lemma ArrayPages<V>(elems: seq<Element<V>>, pageSize: nat, opts: PagingOptions<V>, q: nat)
    requires pageSize > 0 && EndsWithArray(elems, opts)
    requires forall p | 0 <= p < q :: NoTerminal(Launched(CallbackArray(elems), pageSize, opts, p))
    requires !NoTerminal(Launched(CallbackArray(elems), pageSize, opts, q))
    ensures q == |elems| / pageSize && q * pageSize <= |elems|
    ensures forall i | 0 <= i < pageSize ::
              Launched(CallbackArray(elems), pageSize, opts, q)[i].Terminal? <==> i >= |elems| - q * pageSize
  {
    var m := |elems|;
    LaunchedFromArray(elems, pageSize, opts, q);
    var t :| 0 <= t < pageSize && Launched(CallbackArray(elems), pageSize, opts, q)[t].Terminal?;
    assert m < q * pageSize + pageSize;
    if q > 0 {
      LaunchedFromArray(elems, pageSize, opts, q - 1);
      assert NoTerminal(Launched(CallbackArray(elems), pageSize, opts, q - 1));
      assert !Launched(CallbackArray(elems), pageSize, opts, q - 1)[pageSize - 1].Terminal?;
      assert (q - 1) * pageSize + (pageSize - 1) == q * pageSize - 1;
    }
    DivUnique(m, pageSize, q);
  }

  /** How the generator's function relates to its first argument: none for a value that is
      not callable, the callback itself, or the adapter over the array. */
  ghost predicate WorkInv<V>(source: Source<V>, work: Option<Work<V>>, adapter: ArrayCallback?<V>)
    reads adapter
  {
    && (source.NotCallable? <==> work.None?)
    && (source.Callback? ==> work == Some(Direct(source.f)))
    && (source.CallbackArray? <==> adapter != null)
    && (source.CallbackArray? ==>
          && work == Some(FromArray(adapter))
          && adapter.elems == source.elems
          && adapter.Valid())
  }

  /** What each phase of the generator has done: nothing before the first pull; pages
      launched while running, with the adapter `pageSize` elements further per page; and
      at the end, no item for a rejected first parameter, and otherwise the pages as they
      stood, the last one finished with a terminal call when the stream ran out. */
  ghost predicate PhaseInv<V>(source: Source<V>, pageSize: nat, opts: PagingOptions<V>, phase: Phase, page: nat,
                              current: Page?<V>, pastPages: seq<seq<PagingResult<V>>>,
                              delivered: seq<PagingResult<V>>, cursor: nat)
    reads current
  {
    match phase
    case NotStarted =>
      page == 0 && delivered == [] && pastPages == [] && cursor == 0
    case Running =>
      && PagesInv(source, pageSize, opts, page, current, pastPages, delivered)
      && (source.CallbackArray? ==> cursor == Min(page * pageSize, |source.elems|))
    case Ended(how) =>
      && (how == BadSource ==> source.NotCallable? && delivered == [])
      && (how != BadSource ==> PagesInv(source, pageSize, opts, page, current, pastPages, delivered))
      && (how == Exhausted ==>
            && current.count + current.undefResult == pageSize
            && current.undefResult > 0)
  }

  /** The error budget of the generator: every item yielded is counted except the one held
      at its `yield`, and only a running generator holds one. */
  ghost predicate BudgetState<V>(maxErrors: int, phase: Phase, held: Option<PagingResult<V>>, errorCount: nat,
                                 checked: seq<PagingResult<V>>, delivered: seq<PagingResult<V>>)
  {
    && delivered == checked + (if held.Some? then [held.value] else [])
    && (held.Some? ==> phase == Running)
    && BudgetInv(maxErrors, phase == Ended(Budget), errorCount, checked)
  }
}
