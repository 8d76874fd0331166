# WpfAsyncValidation: error table and validation runs

This project models the deterministic core of `AsyncValidationViewModelBase`. That class is a WPF view-model base. It validates its own properties off the UI thread and publishes per-property errors through `INotifyDataErrorInfo`. With the asynchronous shell removed, the core is:

- the error table `modelErrors`, a map from property name to its list of `ValidationResult`s (the empty name holds object-level errors);
- the busy counter `_isValidating`, which overlapping runs increment and decrement;
- the two validation runs, `ValidateAsync` (whole object) and `ValidatePropertyAsync` (one property);
- the notifications the class raises;
- the list helpers `AnyEx` and `ToSingleListEx` of `ObjectHelper`.

Layout:

- `object_helper.dfy` (module `ObjectHelper`): `Nullable<T>` stands for a .NET reference that may be null, plus the two helpers.
- `error_table.dfy` (`ErrorTable`): `ValidationResult`, the table type, and the three table updates as functions. The invariant `NoEmptyLists` says no key maps to an empty list.
- `member_names.dfy` (`MemberNames`): `GetMemberNamesFromValidationResults`, `Distinct`, and the "first non-null, non-empty name" rule.
- `busy_counter.dfy` (`BusyCounter`): the counter over any interleaving of the Begin and End steps of several runs.
- `validation_runs.dfy` (`ValidationRuns`): what each step of a run does to the table, which keys it announces and which events it raises. The lemmas state the run-level properties.
- `view_model.dfy` (`AsyncValidation`): the class. Its fields are the table, the counter, the dialog switch and the event log; a ghost trace records run steps. Each method is proved against the functions above.

The evaluator's output is a parameter, `Outcome`: either the list of results (a null entry is `ValidationResult.Success`) or the message of the exception it threw. A run is split into the steps that other runs can interleave with:

- `BeginValidation`: increment the counter, raise `IsValidating`.
- The worker. For `ValidateAsync` this is `ClearAllErrors`; the evaluator's await then ends the step. For `ValidatePropertyAsync` the worker itself awaits the evaluator between its two halves, so it is two steps: `ClearPropertyError`, then `ValidatePropertyStoreErrors`.
- The continuation: `ValidateAllContinue`, or `ValidatePropertyContinue`.
- `EndValidation`: the `finally` block, then the completion callback.

`ValidateAsync` and `ValidatePropertyAsync` run these steps in order, for one run with no other run interleaved (`ValidatePropertyWork` is the two worker halves back to back). `OverlappingPropertyRuns` states what two property runs on the same key leave when their worker halves interleave (clear, clear, store, store): the first run's failures followed by the second's.

Three behaviours of the code are easy to miss; the model follows the code:

- `ValidateAsync` does not store a failure that has no non-null, non-empty member name (AsyncValidationViewModelBase.cs:273-278). Such an object-level failure is announced under `""` but recorded nowhere, so `HasErrors` may be false after a run that produced failures. `ObjectLevelFailureNotStored` proves this for a failure on a named property next to a failure with no member names.
- `ValidatePropertyAsync` stores every failure under the validated property, whatever member names it carries (:356-361). It announces every member name of every failure, with null names read as `""`. It does not apply the first-name rule.
- The per-key property-changed notification raised by `RaisePropertyChangedEvent(() => prop)` (:310, :394) carries the name of the captured variable, `prop`. It does not carry the key. It is not part of the event log (see Left out).

## Model

| member | source | states |
|---|---|---|
| ObjectHelper.AnyEx | WpfAsyncValidation/ObjectHelper.cs:12-18 | false for a null list; for a non-null list, true exactly when it has an element |
| ObjectHelper.ToSingleListEx | WpfAsyncValidation/ObjectHelper.cs:48-54 | the empty list for null, the one-element list `[x]` otherwise |
| ObjectHelper.AnyExOfSingleList | WpfAsyncValidation/ObjectHelper.cs:12-54 | `AnyEx(ToSingleListEx(x))` holds exactly when `x` is non-null; the list has at most one element |
| ErrorTable.PresentIffErrors | WpfAsyncValidation/AsyncValidationViewModelBase.cs:137-146 | under the no-empty-list invariant, a key is present exactly when it holds a failure |
| ErrorTable.NonEmptyIffSomeErrors | WpfAsyncValidation/AsyncValidationViewModelBase.cs:132-135 | under the invariant, the table is non-empty exactly when some key holds a failure |
| ErrorTable.Cleared | WpfAsyncValidation/AsyncValidationViewModelBase.cs:165-169 | the key is absent afterwards, every other key keeps its failures, and the invariant is kept |
| ErrorTable.Appended | WpfAsyncValidation/AsyncValidationViewModelBase.cs:188-200 | the failure is appended to the key's list (a new `[r]` if absent), other keys unchanged, invariant kept |
| ErrorTable.AppendedAll | WpfAsyncValidation/AsyncValidationViewModelBase.cs:202-220 | a null or empty batch changes nothing; otherwise the key's list becomes old list followed by the batch; other keys unchanged; invariant kept |
| MemberNames.AllNamesMentions | WpfAsyncValidation/AsyncValidationViewModelBase.cs:227-229 | a name occurs in the flattened names exactly when some non-success result carries it (null as `""`) |
| MemberNames.Distinct | WpfAsyncValidation/AsyncValidationViewModelBase.cs:230 | the result has no duplicates and holds exactly the elements of the input |
| MemberNames.DistinctOfDistinct | WpfAsyncValidation/AsyncValidationViewModelBase.cs:230 | a duplicate-free input comes back unchanged |
| MemberNames.GetMemberNamesFromValidationResults | WpfAsyncValidation/AsyncValidationViewModelBase.cs:222-233 | empty for null or empty input; duplicate-free; a name is in it exactly when some non-success result carries it, null names read as `""` |
| MemberNames.NullNameReadsAsEmpty | WpfAsyncValidation/AsyncValidationViewModelBase.cs:229 | a null member name of a non-success result yields `""` among the extracted names |
| MemberNames.FirstName | WpfAsyncValidation/AsyncValidationViewModelBase.cs:273 | a found name is non-null, non-empty and among the names; none is found exactly when every name is null or empty |
| MemberNames.FirstNameIsFirst | WpfAsyncValidation/AsyncValidationViewModelBase.cs:273 | every name before the one found is null or empty |
| BusyCounter.BeginStep | WpfAsyncValidation/AsyncValidationViewModelBase.cs:249 | a run's start adds one to the counter and makes the run pending |
| BusyCounter.EndStep | WpfAsyncValidation/AsyncValidationViewModelBase.cs:313 | a pending run's end takes one from the counter and retires the run |
| BusyCounter.CounterCountsPending | WpfAsyncValidation/AsyncValidationViewModelBase.cs:235-239 | in any interleaving of runs, the counter equals the number of runs begun and not yet ended |
| BusyCounter.IsValidatingIffRunPending | WpfAsyncValidation/AsyncValidationViewModelBase.cs:236-239 | the counter is never negative, and `counter > 0` holds exactly while some run is in flight |
| BusyCounter.CompletedRunRestoresCounter | WpfAsyncValidation/AsyncValidationViewModelBase.cs:339-401 | a run that begins and ends with no step in between restores the counter and the set of pending runs |
| ValidationRuns.ErrorResults | WpfAsyncValidation/AsyncValidationViewModelBase.cs:269 | a failure is kept exactly when it occurs as a non-success result; no longer than the input |
| ValidationRuns.ErrorResultsAppend | WpfAsyncValidation/AsyncValidationViewModelBase.cs:269 | filtering distributes over concatenation, so failures keep their order and multiplicity |
| ValidationRuns.ErrorResultsSingle | WpfAsyncValidation/AsyncValidationViewModelBase.cs:356 | one result gives its failure, or nothing for Success; with the previous row this pins the filter down |
| ValidationRuns.Distribute | WpfAsyncValidation/AsyncValidationViewModelBase.cs:271-279 | distribution keeps the no-empty-list invariant |
| ValidationRuns.DistributeLookup | WpfAsyncValidation/AsyncValidationViewModelBase.cs:271-279 | each key receives, after its old failures, exactly the failures whose first usable member name it is, in input order |
| ValidationRuns.UnplacedLeaveTableUnchanged | WpfAsyncValidation/AsyncValidationViewModelBase.cs:273-278 | failures without a non-null, non-empty member name are not stored anywhere |
| ValidationRuns.WithKey | WpfAsyncValidation/AsyncValidationViewModelBase.cs:284-287 | the key is present afterwards, nothing else is added, and no duplicate is introduced |
| ValidationRuns.ValidateAllApply | WpfAsyncValidation/AsyncValidationViewModelBase.cs:269-301 | the continuation of a whole-object run keeps the invariant |
| ValidationRuns.ValidateAllNotified | WpfAsyncValidation/AsyncValidationViewModelBase.cs:281-300 | announces `""` and every name of every failure, each once; only `""` on a fault |
| ValidationRuns.ValidateAllReplacesTable | WpfAsyncValidation/AsyncValidationViewModelBase.cs:261-279 | after clear-then-distribute, each key holds exactly the failures placed under it, in order; nothing from before survives |
| ValidationRuns.ValidateAllFault | WpfAsyncValidation/AsyncValidationViewModelBase.cs:292-301 | a fault after the clear leaves exactly `{"": [ex.Message]}` and announces only `""` |
| ValidationRuns.AllSuccessResults | WpfAsyncValidation/AsyncValidationViewModelBase.cs:227-269 | results that are all Success give no failure and no name |
| ValidationRuns.ValidateAllSuccess | WpfAsyncValidation/AsyncValidationViewModelBase.cs:281-287 | an all-success run leaves an empty table and announces `""` |
| ValidationRuns.MultiMemberFailure | WpfAsyncValidation/AsyncValidationViewModelBase.cs:271-287 | a failure naming `a` then `b` is stored once under `a`, and both are announced |
| ValidationRuns.ObjectLevelFailureNotStored | WpfAsyncValidation/AsyncValidationViewModelBase.cs:271-287 | a failure with no member names is announced under `""` but not stored |
| ValidationRuns.ValidatePropertyStore | WpfAsyncValidation/AsyncValidationViewModelBase.cs:356-361 | after the await, the property's old list is followed by all of the run's failures, whatever names they carry; other keys unchanged; invariant kept |
| ValidationRuns.ValidatePropertyWorker | WpfAsyncValidation/AsyncValidationViewModelBase.cs:351-361 | clear then store with nothing in between: the property holds exactly the run's failures, in order; other keys are unchanged; invariant kept |
| ValidationRuns.OverlappingPropertyRuns | WpfAsyncValidation/AsyncValidationViewModelBase.cs:351-361 | two runs on one key that clear, clear, store, store leave the first run's failures followed by the second's |
| ValidationRuns.ValidatePropertyRecover | WpfAsyncValidation/AsyncValidationViewModelBase.cs:377-385 | on a fault the message is appended under the property; other keys are unchanged |
| ValidationRuns.ValidatePropertyNotified | WpfAsyncValidation/AsyncValidationViewModelBase.cs:366-372 | announces the property and every name of every failure, each once; only the property on a fault |
| ValidationRuns.ValidatePropertyScoped | WpfAsyncValidation/AsyncValidationViewModelBase.cs:346-386 | a property run changes no other key; afterwards the property holds the failures, or exactly one failure with the fault's message, so the table is non-empty |
| ValidationRuns.ExceptionsApplied | WpfAsyncValidation/AsyncValidationViewModelBase.cs:149-158 | the key holds exactly `[ex.Message]` when `count > 0`, is absent otherwise; other keys unchanged |
| ValidationRuns.ErrorsChangedEvents | WpfAsyncValidation/AsyncValidationViewModelBase.cs:307-311 | one `ErrorsChanged` per announced key, in order |
| ValidationRuns.FinallyEventsOrder | WpfAsyncValidation/AsyncValidationViewModelBase.cs:302-321 | `HasErrors`, then `ErrorsChanged` per key, then `IsValidating`, then the completion callback exactly when one was supplied |
| ValidationRuns.FaultEvents | WpfAsyncValidation/AsyncValidationViewModelBase.cs:292-297 | the error dialog is shown exactly on a fault with `EnableShowErrorInDialog` set |
| AsyncValidation.AsyncValidationViewModelBase.constructor | WpfAsyncValidation/AsyncValidationViewModelBase.cs:105 | starts with an empty table, a zero counter and no events |
| AsyncValidation.AsyncValidationViewModelBase.GetErrors | WpfAsyncValidation/AsyncValidationViewModelBase.cs:121-130 | a null name reads as `""`; null exactly when the property is valid, otherwise its non-empty list |
| AsyncValidation.AsyncValidationViewModelBase.HasErrors | WpfAsyncValidation/AsyncValidationViewModelBase.cs:132-135 | true exactly when some key holds a failure |
| AsyncValidation.AsyncValidationViewModelBase.IsPropertyValid | WpfAsyncValidation/AsyncValidationViewModelBase.cs:137-146 | true exactly when the property has no failure, i.e. is absent |
| AsyncValidation.AsyncValidationViewModelBase.IsValidating | WpfAsyncValidation/AsyncValidationViewModelBase.cs:236-239 | true exactly while some run has begun and not ended |
| AsyncValidation.AsyncValidationViewModelBase.ClearPropertyError | WpfAsyncValidation/AsyncValidationViewModelBase.cs:165-169 | the table becomes `Cleared(old, k)` |
| AsyncValidation.AsyncValidationViewModelBase.ClearAllErrors | WpfAsyncValidation/AsyncValidationViewModelBase.cs:171-178 | removing the keys one by one leaves the table empty |
| AsyncValidation.AsyncValidationViewModelBase.AddPropertyError | WpfAsyncValidation/AsyncValidationViewModelBase.cs:188-200 | the table becomes `Appended(old, k, r)` |
| AsyncValidation.AsyncValidationViewModelBase.AddPropertyErrorMessage | WpfAsyncValidation/AsyncValidationViewModelBase.cs:180-186 | returns the failure with the message and member names `[k]`, and appends it under `k` |
| AsyncValidation.AsyncValidationViewModelBase.AddPropertyErrors | WpfAsyncValidation/AsyncValidationViewModelBase.cs:202-220 | the add-each loop leaves the table as `AppendedAll(old, k, batch)` |
| AsyncValidation.AsyncValidationViewModelBase.ValidationExceptionsChanged | WpfAsyncValidation/AsyncValidationViewModelBase.cs:149-163 | the table becomes `ExceptionsApplied` for the name (null as `""`); raises `HasErrors` then `ErrorsChanged(name)` |
| AsyncValidation.AsyncValidationViewModelBase.BeginValidation | WpfAsyncValidation/AsyncValidationViewModelBase.cs:249-250 | counter plus one, the run pending, `IsValidating` holds and is announced |
| AsyncValidation.AsyncValidationViewModelBase.EndValidation | WpfAsyncValidation/AsyncValidationViewModelBase.cs:302-321 | counter minus one, the run retired, events appended exactly as `FinallyEvents` |
| AsyncValidation.AsyncValidationViewModelBase.DistributeErrors | WpfAsyncValidation/AsyncValidationViewModelBase.cs:269-279 | the distribution loop leaves the table as `Distribute(old, errors)` |
| AsyncValidation.AsyncValidationViewModelBase.ValidateAllContinue | WpfAsyncValidation/AsyncValidationViewModelBase.cs:269-301 | table, announced keys and dialog event as `ValidateAllApply`, `ValidateAllNotified` and `FaultEvents` |
| AsyncValidation.AsyncValidationViewModelBase.ValidatePropertyStoreErrors | WpfAsyncValidation/AsyncValidationViewModelBase.cs:356-361 | the table becomes `ValidatePropertyStore(old, k, outcome)` |
| AsyncValidation.AsyncValidationViewModelBase.ValidatePropertyWork | WpfAsyncValidation/AsyncValidationViewModelBase.cs:346-364 | both worker halves back to back: the table becomes `ValidatePropertyWorker(old, k, outcome)` |
| AsyncValidation.AsyncValidationViewModelBase.ValidatePropertyContinue | WpfAsyncValidation/AsyncValidationViewModelBase.cs:366-386 | table, announced keys and dialog event as `ValidatePropertyRecover`, `ValidatePropertyNotified` and `FaultEvents` |
| AsyncValidation.AsyncValidationViewModelBase.ValidateAsync | WpfAsyncValidation/AsyncValidationViewModelBase.cs:246-323 | the final table depends only on the outcome; the counter is restored; events are `IsValidating`, dialog, then `FinallyEvents` |
| AsyncValidation.AsyncValidationViewModelBase.ValidatePropertyAsync | WpfAsyncValidation/AsyncValidationViewModelBase.cs:337-410 | the final table is `ValidatePropertyApply` (worker then recovery) on the old table; the counter is restored; events in the same order |

## Left out

- Concurrency: `Task.Run`/`await`, thread-pool dispatch, `CancellationToken`, `Interlocked` and the per-key atomicity of `ConcurrentDictionary`. Each step of a run is one atomic state change. Interleaving happens only between steps, so two appends racing on one key are not modelled.
- Rule evaluation: `ValidateCoreAsync` and `ValidatePropertyCoreAsync` wrap the DataAnnotations `Validator`, a foreign library. Their output is the `Outcome` parameter, so the `ValidateAllProperties` flag and the property value have no effect in the model.
- An evaluator that returns a null list: `results.Where` then throws and the catch block runs. The model covers this as `Threw` with that exception's message.
- `ObjectHelper.GetName` and the expression-tree overloads of `RaisePropertyChangedEvent` and `NotifyErrorsChanged`: these need reflection. The property-changed events named after captured variables (`prop`, `propertyName`) are therefore not logged. Only the literal `HasErrors`/`IsValidating` events and `ErrorsChanged(key)` are logged.
- Subscriptions: `SubscribePropertyChanged` and its variants are delegate plumbing. The log records every event raised, whether or not a handler is attached.
- `ShowErrorDialog`: an abstract UI hook. It is recorded only as an `ErrorDialogShown` event.
- Null property names: `ClearPropertyError`, `AddPropertyError`, `IsPropertyValid` and `ValidatePropertyAsync` throw `ArgumentNullException` from the dictionary on a null name. The model takes a non-null name for these.
- A null error message, and a null exception passed to `ValidationExceptionsChanged`, are not modelled: messages are plain strings.
- `_isValidating` is a 32-bit `int`. The model's counter is unbounded, so overflow after 2^31 overlapping runs is not modelled.
- ErrorTable.Appended: the result is never null here. A subclass could pass `null` (`ValidationResult.Success`) to `AddPropertyError(k, result)`. With `k` absent, `ToSingleListEx` then gives an empty list and `TryAdd` stores it, which breaks the no-empty-list invariant: `HasErrors` becomes true while `IsPropertyValid(k)` holds. With `k` present, a null entry is appended to its list. The callers inside the class pass only filtered failures (:276) or fresh results (:183).
- AsyncValidation.AsyncValidationViewModelBase.AddPropertyError: takes a non-null result, for the reason given for `Appended`.
- ErrorTable.AppendedAll: the batch's entries are never null here. The source's batch overload would store `Success` (null) entries as they come. Its one caller inside the class (:360) filters Success out first.
- AsyncValidation.AsyncValidationViewModelBase.AddPropertyErrors: takes a batch of non-null results, for the reason given for `AppendedAll`.
- `GetErrors` returns the stored list object itself, which a caller could mutate. The model returns its value, so aliasing is not captured.
