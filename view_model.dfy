/**
 * AsyncValidationViewModelBase: the error table, the busy counter and the
 * notifications it raises, with every validation run split into the steps
 * that other runs may interleave with (start, worker, continuation, finally).
 */
module AsyncValidation {
  import opened ObjectHelper
  import opened ErrorTable
  import opened MemberNames
  import opened BusyCounter
  import opened ValidationRuns

  class AsyncValidationViewModelBase {
    /** modelErrors: property name to its failures. */
    var modelErrors: Store
    /** _isValidating: the number of runs in flight. */
    var isValidating: int
    var enableShowErrorInDialog: bool
    /** Every notification raised so far, in order. */
    var events: seq<Event>
    /** The Begin and End steps of all runs so far. */
    ghost var runs: seq<RunStep>

    ghost predicate Valid()
      reads this
    {
      NoEmptyLists(modelErrors) && WellFormed(runs) && isValidating == Counter(runs)
    }

    constructor ()
      ensures Valid()
      ensures modelErrors == map[] && isValidating == 0 && events == [] && runs == []
      ensures !enableShowErrorInDialog
    {
      modelErrors := map[];
      isValidating := 0;
      enableShowErrorInDialog := false;
      events := [];
      runs := [];
    }

    /** GetErrors: a null name reads as the object key; null when nothing is recorded, else the non-empty list. */
    function GetErrors(propertyName: Nullable<string>): (errors: Nullable<seq<ValidationResult>>)
      reads this
      requires Valid()
      ensures errors.Null? <==> IsPropertyValid(NameOrEmpty(propertyName))
      ensures errors.NotNull? ==> errors.value == Lookup(modelErrors, NameOrEmpty(propertyName)) && errors.value != []
    {
      var key := NameOrEmpty(propertyName);
      if key in modelErrors then NotNull(modelErrors[key]) else Null
    }

    /** HasErrors: some property has a failure recorded. */
    function HasErrors(): (has: bool)
      reads this
      requires Valid()
      ensures has <==> exists k :: Lookup(modelErrors, k) != []
    {
      NonEmptyIffSomeErrors(modelErrors);
      |modelErrors| > 0
    }

    /** IsPropertyValid: no failure is recorded for the property. */
    function IsPropertyValid(propertyName: string): (valid: bool)
      reads this
      requires Valid()
      ensures valid <==> Lookup(modelErrors, propertyName) == []
      ensures valid <==> propertyName !in modelErrors
    {
      if propertyName in modelErrors then !AnyEx(NotNull(modelErrors[propertyName])) else true
    }

    /** IsValidating: some run has started and not yet finished. */
    function IsValidating(): (busy: bool)
      reads this
      requires Valid()
      ensures busy <==> Pending(runs) != {}
    {
      IsValidatingIffRunPending(runs);
      isValidating > 0
    }

    method ClearPropertyError(propertyName: string)
      requires Valid()
      modifies this`modelErrors
      ensures Valid()
      ensures modelErrors == Cleared(old(modelErrors), propertyName)
    {
      modelErrors := modelErrors - {propertyName};
    }

    /** ClearAllErrors: removes the keys one at a time. */
    method ClearAllErrors()
      requires Valid()
      modifies this`modelErrors
      ensures Valid()
      ensures modelErrors == map[]
    {
      var keys := modelErrors.Keys;
      while keys != {}
        invariant modelErrors.Keys <= keys
        invariant NoEmptyLists(modelErrors)
        decreases keys
      {
        var k :| k in keys;
        modelErrors := modelErrors - {k};
        keys := keys - {k};
      }
      assert modelErrors.Keys == {};
    }

    /** AddPropertyError(propertyName, result). */
    method AddPropertyError(propertyName: string, result: ValidationResult)
      requires Valid()
      modifies this`modelErrors
      ensures Valid()
      ensures modelErrors == Appended(old(modelErrors), propertyName, result)
    {
      if propertyName in modelErrors {
        modelErrors := modelErrors[propertyName := modelErrors[propertyName] + [result]];
      } else {
        modelErrors := modelErrors[propertyName := ToSingleListEx(NotNull(result))];
      }
    }

    /** AddPropertyError(propertyName, error): records a failure naming the property and returns it. */
    method AddPropertyErrorMessage(propertyName: string, error: string) returns (result: ValidationResult)
      requires Valid()
      modifies this`modelErrors
      ensures Valid()
      ensures result == ValidationResult(error, [NotNull(propertyName)])
      ensures modelErrors == Appended(old(modelErrors), propertyName, result)
    {
      result := ValidationResult(error, [NotNull(propertyName)]);
      AddPropertyError(propertyName, result);
    }

    /** AddPropertyError(propertyName, results): a null or empty batch is ignored; otherwise each is added in turn. */
    method AddPropertyErrors(propertyName: string, results: Nullable<seq<ValidationResult>>)
      requires Valid()
      modifies this`modelErrors
      ensures Valid()
      ensures modelErrors == AppendedAll(old(modelErrors), propertyName, results)
    {
      if !AnyEx(results) {
        return;
      }
      var batch := results.value;
      if propertyName in modelErrors {
        ghost var start := modelErrors;
        assert batch[..0] == [] && start[propertyName] + [] == start[propertyName];
        assert start[propertyName := start[propertyName] + batch[..0]] == start;
        for i := 0 to |batch|
          invariant Valid()
          invariant modelErrors == start[propertyName := start[propertyName] + batch[..i]]
        {
          assert batch[..i + 1] == batch[..i] + [batch[i]];
          assert (start[propertyName] + batch[..i]) + [batch[i]] == start[propertyName] + batch[..i + 1];
          modelErrors := modelErrors[propertyName := modelErrors[propertyName] + [batch[i]]];
        }
        assert batch[..|batch|] == batch;
      } else {
        modelErrors := modelErrors[propertyName := batch];
      }
    }

    /** ValidationExceptionsChanged: the key gets the exception's message when count > 0 and nothing otherwise. */
    method ValidationExceptionsChanged(propertyName: Nullable<string>, count: int, exMessage: string)
      requires Valid()
      modifies this`modelErrors, this`events
      ensures Valid()
      ensures modelErrors == ExceptionsApplied(old(modelErrors), NameOrEmpty(propertyName), count, exMessage)
      ensures events == old(events) + [PropertyChanged(HasErrorsName), ErrorsChanged(NameOrEmpty(propertyName))]
    {
      var key := NameOrEmpty(propertyName);
      ClearPropertyError(key);
      if count > 0 {
        var _ := AddPropertyErrorMessage(key, exMessage);
      }
      events := events + [PropertyChanged(HasErrorsName)];
      events := events + [ErrorsChanged(key)];
    }

    // ---------------------------------------------------------------- run steps

    /** The start of a run: increment the counter and announce IsValidating. */
    method BeginValidation(ghost run: nat)
      requires Valid() && run !in Begun(runs)
      modifies this`isValidating, this`events, this`runs
      ensures Valid()
      ensures runs == old(runs) + [Begin(run)] && run in Pending(runs)
      ensures isValidating == old(isValidating) + 1 && IsValidating()
      ensures events == old(events) + [PropertyChanged(IsValidatingName)]
    {
      BeginStep(runs, run);
      isValidating := isValidating + 1;
      runs := runs + [Begin(run)];
      IsValidatingIffRunPending(runs);
      events := events + [PropertyChanged(IsValidatingName)];
    }

    /**
     * The finally block and what follows it: announce HasErrors and every
     * key, decrement the counter, announce IsValidating, invoke the callback.
     */
    method EndValidation(ghost run: nat, memberNames: seq<string>, hasCompletion: bool)
      requires Valid() && run in Pending(runs)
      modifies this`isValidating, this`events, this`runs
      ensures Valid()
      ensures runs == old(runs) + [End(run)] && run !in Pending(runs)
      ensures isValidating == old(isValidating) - 1
      ensures events == old(events) + FinallyEvents(memberNames, hasCompletion)
    {
      ghost var before := events;
      events := events + [PropertyChanged(HasErrorsName)];
      for i := 0 to |memberNames|
        invariant events == before + [PropertyChanged(HasErrorsName)] + ErrorsChangedEvents(memberNames[..i])
        invariant runs == old(runs) && isValidating == old(isValidating)
      {
        assert memberNames[..i + 1][..i] == memberNames[..i];
        assert ErrorsChangedEvents(memberNames[..i + 1]) == ErrorsChangedEvents(memberNames[..i]) + [ErrorsChanged(memberNames[i])];
        events := events + [ErrorsChanged(memberNames[i])];
      }
      assert memberNames[..|memberNames|] == memberNames;
      ghost var announced := events;
      EndStep(runs, run);
      isValidating := isValidating - 1;
      runs := runs + [End(run)];
      events := events + [PropertyChanged(IsValidatingName)];
      if hasCompletion {
        events := events + [CompletionInvoked];
      }
      assert events == announced + [PropertyChanged(IsValidatingName)] + (if hasCompletion then [CompletionInvoked] else []);
    }

    /** The distribution loop of ValidateAsync: each failure goes under its first usable member name, if it has one. */
    method DistributeErrors(errorResults: seq<ValidationResult>)
      requires Valid()
      modifies this`modelErrors
      ensures Valid()
      ensures modelErrors == Distribute(old(modelErrors), errorResults)
    {
      for i := 0 to |errorResults|
        invariant Valid()
        invariant modelErrors == Distribute(old(modelErrors), errorResults[..i])
      {
        assert errorResults[..i + 1][..i] == errorResults[..i];
        var propName := FirstName(errorResults[i].memberNames);
        if propName.NotNull? {
          AddPropertyError(propName.value, errorResults[i]);
        }
      }
      assert errorResults[..|errorResults|] == errorResults;
    }

    /** ValidateAsync's continuation: distribute the failures, or record the fault; returns the keys to announce. */
    method ValidateAllContinue(outcome: Outcome) returns (memberNames: seq<string>)
      requires Valid()
      modifies this`modelErrors, this`events
      ensures Valid()
      ensures modelErrors == ValidateAllApply(old(modelErrors), outcome)
      ensures memberNames == ValidateAllNotified(outcome)
      ensures events == old(events) + FaultEvents(enableShowErrorInDialog, outcome)
    {
      match outcome
      case Returned(results) =>
        DistributeErrors(ErrorResults(results));
        memberNames := WithKey(GetMemberNamesFromValidationResults(NotNull(results)), ObjectKey);
      case Threw(message) =>
        if enableShowErrorInDialog {
          events := events + [ErrorDialogShown(message)];
        }
        var _ := AddPropertyErrorMessage(ObjectKey, message);
        memberNames := ToSingleListEx(NotNull(ObjectKey));
    }

    /** The rest of ValidatePropertyAsync's worker, after the evaluator returns: store all failures under the property. */
    method ValidatePropertyStoreErrors(propertyName: string, outcome: Outcome)
      requires Valid()
      modifies this`modelErrors
      ensures Valid()
      ensures modelErrors == ValidatePropertyStore(old(modelErrors), propertyName, outcome)
    {
      if outcome.Returned? {
        var errorResults := ErrorResults(outcome.results);
        if AnyEx(NotNull(errorResults)) {
          AddPropertyErrors(propertyName, NotNull(errorResults));
        }
      }
    }

    /**
     * ValidatePropertyAsync's worker with no other run in its await window:
     * clear the property, then store all failures under it.
     */
    method ValidatePropertyWork(propertyName: string, outcome: Outcome)
      requires Valid()
      modifies this`modelErrors
      ensures Valid()
      ensures modelErrors == ValidatePropertyWorker(old(modelErrors), propertyName, outcome)
    {
      ClearPropertyError(propertyName);
      ValidatePropertyStoreErrors(propertyName, outcome);
    }

    /** ValidatePropertyAsync's continuation: record a fault under the property; returns the keys to announce. */
    method ValidatePropertyContinue(propertyName: string, outcome: Outcome) returns (memberNames: seq<string>)
      requires Valid()
      modifies this`modelErrors, this`events
      ensures Valid()
      ensures modelErrors == ValidatePropertyRecover(old(modelErrors), propertyName, outcome)
      ensures memberNames == ValidatePropertyNotified(propertyName, outcome)
      ensures events == old(events) + FaultEvents(enableShowErrorInDialog, outcome)
    {
      match outcome
      case Returned(results) =>
        memberNames := WithKey(GetMemberNamesFromValidationResults(NotNull(results)), propertyName);
      case Threw(message) =>
        if enableShowErrorInDialog {
          events := events + [ErrorDialogShown(message)];
        }
        var _ := AddPropertyErrorMessage(propertyName, message);
        memberNames := ToSingleListEx(NotNull(propertyName));
    }

    // ------------------------------------------------------------ whole runs

    /** ValidateAsync run to completion with no other run interleaved. */
    method ValidateAsync(ghost run: nat, outcome: Outcome, hasCompletion: bool)
      requires Valid() && run !in Begun(runs)
      modifies this`modelErrors, this`isValidating, this`events, this`runs
      ensures Valid()
      ensures modelErrors == ValidateAllApply(map[], outcome)
      ensures isValidating == old(isValidating) && runs == old(runs) + [Begin(run), End(run)]
      ensures events == old(events) + [PropertyChanged(IsValidatingName)] + FaultEvents(enableShowErrorInDialog, outcome)
                        + FinallyEvents(ValidateAllNotified(outcome), hasCompletion)
    {
      BeginValidation(run);
      ClearAllErrors();
      var memberNames := ValidateAllContinue(outcome);
      EndValidation(run, memberNames, hasCompletion);
    }

    /** ValidatePropertyAsync run to completion with no other run interleaved. */
    method ValidatePropertyAsync(ghost run: nat, propertyName: string, outcome: Outcome, hasCompletion: bool)
      requires Valid() && run !in Begun(runs)
      modifies this`modelErrors, this`isValidating, this`events, this`runs
      ensures Valid()
      ensures modelErrors == ValidatePropertyApply(old(modelErrors), propertyName, outcome)
      ensures isValidating == old(isValidating) && runs == old(runs) + [Begin(run), End(run)]
      ensures events == old(events) + [PropertyChanged(IsValidatingName)] + FaultEvents(enableShowErrorInDialog, outcome)
                        + FinallyEvents(ValidatePropertyNotified(propertyName, outcome), hasCompletion)
    {
      BeginValidation(run);
      ValidatePropertyWork(propertyName, outcome);
      var memberNames := ValidatePropertyContinue(propertyName, outcome);
      EndValidation(run, memberNames, hasCompletion);
    }
  }
}
