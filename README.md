# paging-async-generator in Dafny

This Dafny project models the core of the TypeScript library `paging-async-generator`. The
library wraps an asynchronous callback `(page, index) => Promise<T>`, or an array of such
callbacks, into an async generator. The generator launches the callback `pageSize` times at
once for page 0. It hands out the results one by one as `{value, error, page, index}`, and
then launches the next page. It stops on the first page where a call's result counts as the
last one. An optional error budget (`maxErrors`) ends the stream early, either by throwing
or by returning quietly.

The model is imperative where the library changes state:

- `PageEngine.Page` is one run of `pageGenerator`. Its constructor launches all the calls of
  the page. `Settle(i)` is call `i`'s `wrapCallback` resuming after its `await`. `Poll` is one
  turn of the poll loop.
- `Paging.PagingGenerator` is `pagingGenerator`. Each `Next` is one step of a consumer's
  `it.next()`.
- `Callbacks.ArrayCallback` is the closure made by `makePagingAsyncCallbackFromArray`. Its
  `cursor` is the position of the array iterator.

Modelling choices:

- **Concurrency.** How a launched call will settle is fixed when it is launched: the
  classified result of its promise, a pure function of `(page, index)`. When it settles is
  left open. The environment calls `Settle` in any order, once per call. A consumer pull that
  is blocked while the page polls (`await setImmediate`) answers `Pending`; a later `Next`
  carries the same pull on. A `Next` that starts no page keeps the same page object, with
  its settled calls and filled slots as they were, and one that starts a page makes a fresh
  one with no call settled and nothing handed out, so consecutive pulls compose. So one `await it.next()` of the library is a run of `Next`
  calls that ends with the first answer that is not `Pending`.
- **Values.** JavaScript values are the datatype `Js`. It distinguishes `undefined`, `null`,
  `Error` objects (including the library's `PagingError`) and the caller's own values, so
  that loose `== undefined`, strict `!== undefined` and `instanceof Error` can be written
  exactly.
- **Predicates.** A caller-supplied predicate gives a `Verdict`: a boolean, or the exception
  it throws.
- **Error budget.** The error of a yielded item is counted only when the generator resumes
  after its `yield`, as in the library. So the generator holds that item (`held`) until the
  next pull.

Results:

- **Classification** (`Classify`). A rejected promise or a throwing predicate is an error.
  `isError` is tested before `isLast`. A value for which both hold is therefore an error and
  does not end the stream, as the code at `src/index.ts:105-107` has it. With the default
  options, `undefined` and `null` end the stream and `Error` values are errors
  (`DefaultsClassify`).
- **Page accounting.** A page ends exactly when every call has settled and every call that
  did not end the stream has been handed out: `Finish` proves "only when" and
  `FinishWhenHandedOut` proves "when". No call is handed out twice (`DeliveredFacts`). The
  page's marker says `done` exactly when one of its calls ended the stream (`DoneMarker`).
- **Completion order** hands out the items in the order their calls settled
  (`FinishCompletion`). **Call order** (`keepOrder`) hands them out by index
  (`DeliveredFacts`). In call order a page ends only if all its terminal calls come after all
  the others (`FinishCallOrder`). A terminal call before a non-terminal one leaves a hole in
  `results` that is never filled: under `keepOrder` such a page never finishes
  (`CallOrderStuck`). Once every call has settled otherwise, the poll loop never pauses
  again (`NoWaitOnceSettled`).
- **Chaining.** Pages are numbered 0, 1, 2, and so on. Every page before the current one
  yielded exactly `pageSize` items and had no terminal call, and the stream is their items
  followed by those of the current page (`StreamModel.PagesInv`, kept by every method of
  the generator). Every item yielded is its own call's item: the value or error that call
  settled to, with that call's page and index (`PassedThrough`). A stream that ends with
  `done` has yielded `(page - 1) * pageSize` items plus those of its last page
  (`StreamEnd`).
- **Driver step.** Each pull after set-up, unless the budget stops it, answers as the
  current page's state dictates (`Pull`, `Next`). A finished page with a terminal call
  returns the final result. A finished page without one starts the next page. A filled next
  slot is yielded as that slot's item. Otherwise the pull stays pending.
- **Error budget.** A negative `maxErrors` disables counting (`NoBudget`). Otherwise:
  - the pull after the item that reaches `maxErrors` throws or returns `"max errors
    reached"` for that item's page and index (`Next`, `StopAtBudget`);
  - when the stream stops there, exactly `maxErrors` errors have been yielded, the last one
    included (`BudgetReached`);
  - before that point no more than `maxErrors` have been yielded (`BudgetNotReached`);
  - with `maxErrors == 0` the first item alone goes through.
- **Array adapter.** The adapter advances one element per call and resolves to `undefined`
  after the end of the array. It rejects any element that is not a function. Element `j` is
  consumed by call `j % pageSize` of page `j / pageSize` (`ArrayElementCall`). Take an
  array of `M` elements where no element's result ends the stream, but an `undefined`
  result does (as under the default options). A stream over it that ended with the `done`
  marker has yielded exactly `M` items over `M / pageSize + 1` pages (`ArrayStreamLength`).
  A stream that the error budget stopped first is not covered, and neither are options
  under which `undefined` does not end the stream (then the calls past the end deliver
  `undefined` items and the stream goes on).

Files, in import order:

- `js_values.dfy`: JavaScript values and settled promises.
- `set_facts.dfy`: cardinality facts about sets of indices.
- `options.dfy`: `defaultOptions` and the merge.
- `callbacks.dfy`: the callback and the array adapter.
- `page_engine.dfy`: `pageGenerator`.
- `stream_model.dfy`: the definitions and lemmas the stream relies on.
- `paging.dfy`: `pagingGenerator`.

## Model

| member | source | states |
|---|---|---|
| Options.LooselyUndefined | src/index.ts:27 | the default `isLast` never throws and holds exactly of `undefined` and `null`, as loose `== undefined` does |
| Options.InstanceOfError | src/index.ts:28 | the default `isError` never throws and holds exactly of `Error` objects |
| Options.Defaults | src/index.ts:26-32 | `defaultOptions`: `isLast` is loose `== undefined`, `isError` is `instanceof Error`, `keepOrder` false, a negative `maxErrors` (no budget), `throwOnMaxError` false |
| Options.Merge | src/index.ts:155 | every option the caller gives wins; every absent one takes its default; no options at all gives exactly `defaultOptions` (`isLast` is loose `== undefined`, `isError` is `instanceof Error`, `keepOrder` false, `maxErrors` -1, `throwOnMaxError` false) |
| Options.Complete | src/index.ts:92 | merging an already complete option set over the defaults again, as `pageGenerator` does, changes nothing |
| Callbacks.OutcomeAt | src/index.ts:76-83 | the adapter call that consumes position `j` resolves to `undefined` past the end, rejects with `PagingError("functions in array must be an async function", 0, -1)` for an element that is not a function, and otherwise settles as that element called with `(page, index)` |
| Callbacks.ArrayCallback.constructor | src/index.ts:75 | the adapter starts at the first element of the array |
| Callbacks.ArrayCallback.Call | src/index.ts:76-83 | each call consumes one element (none once the array is exhausted) and settles as the element at the old position dictates |
| Callbacks.Invoke | src/index.ts:115 | `asyncCallback(page, i)`: the caller's function itself, or the adapter, which moves on by one element |
| PageEngine.Classify | src/index.ts:103-110 | a rejected promise, a value `isError` accepts, or an exception from either predicate is an error; a value that is not an error ends the stream exactly when `isLast` accepts it; anything else is delivered as it resolved; `isError` is decided first |
| PageEngine.DefaultsClassify | src/index.ts:26-32 | under the default options a rejection or an `Error` value is an error, `undefined` and `null` end the stream, and strings and other values are delivered as they resolved |
| PageEngine.Place | src/index.ts:96-102 | completion order appends the entry; call order puts it at its own index, padding with holes, and leaves every other slot as it was |
| PageEngine.Items | src/index.ts:123-128 | each delivered entry becomes `{value, error, page, index}` of the page, one for one and in the same order |
| PageEngine.ItemsExtend | src/index.ts:121-129 | delivering the next filled slot adds its item at the end of what was delivered |
| PageEngine.DistinctBound | src/index.ts:114-116 | a page with `pageSize` calls, each settling once, never sees more than `pageSize` settlements |
| PageEngine.StoreShape | src/index.ts:95-111 | `results` holds only entries of settled calls that did not end the stream, each the entry of its own call; in call order each sits at its own index; in completion order there are no holes, and the entries plus `undefResult` account for every settlement |
| PageEngine.FilledFits | src/index.ts:119-121 | while the poll loop reads filled slots, `count + undefResult` never exceeds the settled calls |
| PageEngine.StoreCompletion | src/index.ts:99-100 | in completion order `results` is the entries of the non-terminal settled calls, in the order they settled |
| PageEngine.StoreCallOrder | src/index.ts:97-98 | in call order every settled non-terminal call's entry is at its own index |
| PageEngine.LivePosition | src/index.ts:104-109 | every settled call that did not end the stream has an entry, with its own index, among those stored in completion order |
| PageEngine.LiveDistinct | src/index.ts:104-109 | no call has two stored entries |
| PageEngine.AllSettled | src/index.ts:119 | `pageSize` distinct settlements of a page's calls are all of them |
| PageEngine.Page.constructor | src/index.ts:114-116 | all `pageSize` calls of the page are made before anything is delivered, in index order, with `(page, i)`; the array adapter moves on by `pageSize` elements, or to its end |
| PageEngine.Page.Settle | src/index.ts:95-111 | call `i` settles once: a terminal outcome increments `undefResult`; any other outcome is placed with `add`; nothing delivered changes |
| PageEngine.Page.Poll | src/index.ts:119-138 | once `count + undefResult == pageSize` the page returns its marker with `index -1` and `done` set exactly when `undefResult != 0`; otherwise a filled slot `count` is yielded as an item of the page and `count` moves on; otherwise the loop pauses |
| PageEngine.Page.Finish | src/index.ts:119 | a page ends only when every call has settled and every call that did not end the stream has been handed out |
| PageEngine.Page.FinishWhenHandedOut | src/index.ts:119 | conversely, once every call has settled and every call that did not end the stream has been handed out, `count + undefResult == pageSize` and the page ends |
| PageEngine.Page.FinishCompletion | src/index.ts:118-135 | in completion order a finished page has handed out the non-terminal calls in the order they settled, each exactly once |
| PageEngine.Page.FinishCallOrder | src/index.ts:118-135 | in call order a page ends only when the first `count` calls are exactly the non-terminal ones |
| PageEngine.Page.DoneMarker | src/index.ts:137-138 | the marker says `done` if and only if some call of the page ended the stream |
| PageEngine.Page.FinishedCount | src/index.ts:118-135 | a finished page whose non-terminal calls are exactly the first `n` has yielded `n` items |
| PageEngine.Page.CallOrderStuck | src/index.ts:121 | in call order a terminal call before a non-terminal one keeps `count + undefResult` below `pageSize` for good: the page never finishes |
| PageEngine.Page.NoWaitOnceSettled | src/index.ts:119-134 | once every call has settled and the page has not ended, the next slot is filled and the loop does not pause (in call order, when terminal calls come last) |
| PageEngine.Page.DeliveredFacts | src/index.ts:123-129 | every item handed out carries the page, the index of its own call and that call's value or error; no call is handed out twice; in call order the items come in index order |
| StreamModel.NormalizePageSize | src/index.ts:156 | a page size that is not positive becomes 2; a positive one is kept |
| StreamModel.ArrayElementCall | src/index.ts:74-84 | array element `j` is consumed by call `j % pageSize` of page `j / pageSize` and called with exactly those two numbers |
| StreamModel.OutcomeAtPast | src/index.ts:78 | once the array is exhausted, further adapter calls behave as if the cursor had kept counting |
| StreamModel.LaunchedDirect | src/index.ts:114-116 | the calls of page `p` with a callback are `asyncCallback(p, i)` for each index |
| StreamModel.LaunchedArray | src/index.ts:75-81 | page `p` of an array source consumes the elements from `p * pageSize` on |
| StreamModel.FinishedPage | src/index.ts:137 | a page that finished without a terminal call had no terminal call at all and handed out `pageSize` items, one per index, each carrying its own call's value or error with the page and the index |
| StreamModel.PastFromOwnCalls | src/index.ts:170-177 | every item of the finished pages is the item of its own call on one of those pages, its value and error unchanged |
| StreamModel.ChainPages | src/index.ts:164-169 | a finished page without a terminal call is followed by page `page`, and the stream's items stay the finished pages' items followed by the current page's |
| StreamModel.Counted | src/index.ts:179 | an item counts against the budget, once, exactly when its error is not `undefined` and `maxErrors >= 0` |
| StreamModel.Stops | src/index.ts:181 | a negative `maxErrors` never stops the stream; a `maxErrors` of 0 stops it right after the first item, whatever its error |
| StreamModel.BudgetStep | src/index.ts:182-191 | with `throwOnMaxError` the answer is a thrown `PagingError("max errors reached", page, index)`, otherwise a return of `{value: undefined, error: "max errors reached", page, index}`, for the last item's page and index |
| StreamModel.BudgetStopPages | src/index.ts:181-191 | a stop by the budget leaves the pages and the items yielded as they stood |
| StreamModel.BudgetCount | src/index.ts:179-181 | counting one more yielded item keeps the budget invariant: the count is the number of errors among counted items, and a stop happens at the first item that brings it to `maxErrors` |
| StreamModel.BudgetContinue | src/index.ts:179-181 | an item that keeps the count below `maxErrors` is counted and the generator goes on |
| StreamModel.BudgetStop | src/index.ts:181-191 | an item that brings the count to `maxErrors` ends the generator |
| StreamModel.BudgetHold | src/index.ts:172-177 | a yielded item is held, uncounted, until the consumer pulls again |
| StreamModel.BudgetSpent | src/index.ts:179-191 | after a stop by the budget, a positive `maxErrors` was met exactly, by the last item; with 0 only one item went through |
| StreamModel.BudgetUnspent | src/index.ts:179-181 | before the budget stops the stream, at most `maxErrors` yielded items carry an error |
| StreamModel.LaunchedFromArray | src/index.ts:78 | for an array whose elements never end the stream, the call with index `i` of page `p` ends it exactly when `p * pageSize + i` is past the end |
| StreamModel.ArrayPages | src/index.ts:74-84 | for such an array the first page with a terminal call is page `|elems| / pageSize`, and its terminal calls are those past the end of the array |
| Paging.PagingGenerator.constructor | src/index.ts:149-156 | creating the generator runs nothing; the options are merged over the defaults and a page size that is not positive becomes 2; no page exists yet, and an array adapter, if any, is new |
| Paging.PagingGenerator.Start | src/index.ts:157-162 | the first pull throws `PagingError("first parameter must be an async function", 0, -1)` for a source that is neither a function nor an array; otherwise page 0 is launched and the page counter becomes 1 |
| Paging.PagingGenerator.Launch | src/index.ts:159 | `pageGenerator(asyncCallback, p, pageSize, opts)` issues the calls of page `p`, the adapter moving on by one page |
| Paging.PagingGenerator.Resume | src/index.ts:179-191 | resuming after a `yield` counts the held item's error (only when `maxErrors >= 0`) and ends the stream exactly when the count reaches a non-negative `maxErrors` |
| Paging.PagingGenerator.CountHeld | src/index.ts:179 | the held item is counted and the generator goes on |
| Paging.PagingGenerator.StopAtBudget | src/index.ts:181-191 | the budget is spent: with `throwOnMaxError` a `PagingError("max errors reached", page, index)` of the last item, otherwise a return of `{value: undefined, error: "max errors reached", page, index}` |
| Paging.PagingGenerator.Chain | src/index.ts:168 | a finished page without terminal calls joins the past pages and the next page is launched with the next number |
| Paging.PagingGenerator.Pull | src/index.ts:164-177 | one step of the current page, decided by its state: when `count + undefResult == pageSize`, a return of `{undefined, undefined, page, -1}` if `undefResult != 0` and otherwise the next page; before that, the item of a filled slot `count`, which is held and added to the stream, or a pending pull when that slot is empty; unless the next page starts, the current page object stays the one it was |
| Paging.PagingGenerator.Take | src/index.ts:172-177 | the item yielded is the page's filled slot `count` with the page's number, it is held, and it is added to the stream |
| Paging.PagingGenerator.EndPage | src/index.ts:164-169 | a `done` marker returns `{page, index: -1, value: undefined, error: undefined}` with the number of pages started; any other marker starts the next page, and otherwise the current page object stays |
| Paging.PagingGenerator.Proceed | src/index.ts:164-191 | a pull on a running generator: the held item is counted and the budget applied, and otherwise the current page's state dictates the answer (the final return, the next page, the filled slot's item, or pending); the page object stays unless a page starts, and then it is a fresh one with no call settled and nothing handed out |
| Paging.PagingGenerator.Next | src/index.ts:162-195 | `it.next()`: closed once finished; the first pull sets up or throws; each later pull first counts the held item and applies the budget, and otherwise gives the answer the current page's state dictates (the final return, the next page, the filled slot's item, or pending); only a yield adds to the stream; a pull that starts no page keeps the current page object with its settled calls, filled slots and `done` count, and one that starts a page makes a fresh one with no call settled and nothing handed out |
| Paging.PagingGenerator.BudgetReached | src/index.ts:179-191 | when the budget ends the stream, a positive `maxErrors` errors have been yielded exactly, the last item among them; with `maxErrors == 0` exactly one item was yielded |
| Paging.PagingGenerator.BudgetNotReached | src/index.ts:179-181 | until the budget ends the stream, at most `maxErrors` yielded items carry an error, and with `maxErrors == 0` at most one item is yielded |
| Paging.PagingGenerator.NoBudget | src/index.ts:179-181 | with a negative `maxErrors` the budget never ends the stream and nothing is counted |
| Paging.PagingGenerator.StreamEnd | src/index.ts:164-166 | a stream ended by `done`: every earlier page had no terminal call and yielded `pageSize` items; the last page had a terminal call |
| Paging.PagingGenerator.PassedThrough | src/index.ts:170-177 | every item yielded, on every page started, is its own call's item: that call did not end the stream and the item has its value or error, its page and its index unchanged |
| Paging.PagingGenerator.ArrayStreamLength | src/index.ts:154 | a stream over an array of `M` elements, none of whose results ends the stream while an `undefined` result does, that ended with the `done` marker has yielded `M` items over `M / pageSize + 1` pages |
| Paging.PagingGenerator.Settle | src/index.ts:104 | a call of the current page settles, without changing what has been delivered |

## Left out

- A callback that throws synchronously, instead of returning a rejected promise, is not modelled. In the library that exception escapes the launch loop at line 115. Here every call gives a promise.
- Promises still in flight when a page is abandoned are not modelled. A page is only left once every call has settled, or when the budget ends the stream. Settling a call of a page that is no longer current is not modelled.
- Options: an option key that is present with the value `undefined` is not modelled. The spread would copy that `undefined`; here a key is either absent or has a value.
- Options: `maxErrors` is an integer here, while the library takes any JavaScript number. A fractional budget (`errorCount >= 2.5` stops at the third error) or `NaN` (every comparison is false, so the budget never stops the stream) is not modelled.
- `NormalizePageSize` does not model a `pageSize` that is `NaN` or not an integer. Page sizes are integers here, so `!pageSize` is the same as `pageSize == 0`.
- The event loop and `setImmediate` are not modelled. A pause is a `Pending` answer. The order in which calls settle is the order of `Settle` calls.
- `isLast` and `isError` are modelled as pure functions of the value, applied when a call is launched. A predicate with state (one that counts or logs the results it sees), which the library calls as each call settles and in that order, is not modelled.
- `Classify` takes a predicate's answer as a boolean. JavaScript truthiness of other return values is not modelled.
- A consumer that stops early (`return()` on the generator, `break` in `for await`) is not modelled.
- Changes to the array after the adapter was made are not modelled. The adapter reads a fixed sequence.
- The sample programs, the build configuration and the type declarations that only describe shapes (`PagingAsyncCallback`, `PagingResultIntermediary`) are not part of this model.
- `Paging.PagingGenerator.Next` states what one step answers. That a pull is answered after finitely many steps once the calls have settled is not stated as a property over runs; `NoWaitOnceSettled` states it for one page under `Valid()`.
