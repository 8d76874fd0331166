/**
 * The sequential logic of one validation run with the asynchronous shell
 * removed: what a run does to the error table, which keys it announces and
 * which events it raises, given what the rule evaluator produced.
 */
module ValidationRuns {
  import opened ObjectHelper
  import opened ErrorTable
  import opened MemberNames

  /** The key of object-level errors. */
  const ObjectKey: string := ""
  const HasErrorsName: string := "HasErrors"
  const IsValidatingName: string := "IsValidating"

  /**
   * What the rule evaluator produced: its results, a null entry being
   * ValidationResult.Success, or the message of the exception it threw.
   */
  datatype Outcome = Returned(results: seq<Nullable<ValidationResult>>) | Threw(message: string)

  /** Notifications raised by the view model, in the order they are raised. */
  datatype Event =
    | PropertyChanged(name: string)
    | ErrorsChanged(key: string)
    | ErrorDialogShown(message: string)
    | CompletionInvoked

  /** Where(res => res != ValidationResult.Success): the failures, in order. */
  function ErrorResults(rs: seq<Nullable<ValidationResult>>): (errs: seq<ValidationResult>)
    ensures |errs| <= |rs|
    ensures forall e :: e in errs <==> NotNull(e) in rs
  {
    if rs == [] then []
    else
      assert rs == rs[..|rs| - 1] + [rs[|rs| - 1]];
      ErrorResults(rs[..|rs| - 1]) + (if rs[|rs| - 1].Null? then [] else [rs[|rs| - 1].value])
  }

  /** Filtering distributes over concatenation: failures keep their order and multiplicity. */
  lemma {:induction false} ErrorResultsAppend(a: seq<Nullable<ValidationResult>>, b: seq<Nullable<ValidationResult>>)
    ensures ErrorResults(a + b) == ErrorResults(a) + ErrorResults(b)
  {
    if b != [] {
      var init := b[..|b| - 1];
      ErrorResultsAppend(a, init);
      assert (a + b)[..|a + b| - 1] == a + init;
      assert (a + b)[|a + b| - 1] == b[|b| - 1];
    } else {
      assert a + b == a;
    }
  }

  /** A single result gives its failure, or nothing for Success. */
  lemma ErrorResultsSingle(x: Nullable<ValidationResult>)
    ensures ErrorResults([x]) == if x.Null? then [] else [x.value]
  {
    assert [x][..0] == [];
  }

  /** ValidateAsync's placement of one failure: under its first usable member name; a failure without one is not stored. */
  function Place(m: Store, e: ValidationResult): Store
  {
    match FirstName(e.memberNames)
    case Null => m
    case NotNull(k) => Appended(m, k, e)
  }

  /** The distribution loop of ValidateAsync over the failures errs, starting from table m. */
  function Distribute(m: Store, errs: seq<ValidationResult>): (r: Store)
    ensures NoEmptyLists(m) ==> NoEmptyLists(r)
  {
    if errs == [] then m else Place(Distribute(m, errs[..|errs| - 1]), errs[|errs| - 1])
  }

  /** The failures of errs whose first usable member name is k, in order. */
  function PlacedUnder(errs: seq<ValidationResult>, k: string): seq<ValidationResult>
  {
    if errs == [] then []
    else
      PlacedUnder(errs[..|errs| - 1], k) +
      (if FirstName(errs[|errs| - 1].memberNames) == NotNull(k) then [errs[|errs| - 1]] else [])
  }

  /** Distribution appends to every key exactly the failures whose first usable name is that key, in input order. */
  lemma {:induction false} DistributeLookup(m: Store, errs: seq<ValidationResult>, k: string)
    ensures Lookup(Distribute(m, errs), k) == Lookup(m, k) + PlacedUnder(errs, k)
  {
    if errs != [] {
      var init, e := errs[..|errs| - 1], errs[|errs| - 1];
      DistributeLookup(m, init, k);
      var d := Distribute(m, init);
      if FirstName(e.memberNames) == NotNull(k) {
        calc {
          Lookup(Distribute(m, errs), k);
          Lookup(d, k) + [e];
          (Lookup(m, k) + PlacedUnder(init, k)) + [e];
          Lookup(m, k) + (PlacedUnder(init, k) + [e]);
        }
      } else {
        assert Lookup(Distribute(m, errs), k) == Lookup(d, k);
        assert PlacedUnder(errs, k) == PlacedUnder(init, k) + [];
      }
    }
  }

  /** The failures that ValidateAsync stores nowhere: those without a usable member name. */
  function Unplaced(errs: seq<ValidationResult>): seq<ValidationResult>
  {
    if errs == [] then []
    else
      Unplaced(errs[..|errs| - 1]) +
      (if FirstName(errs[|errs| - 1].memberNames).Null? then [errs[|errs| - 1]] else [])
  }

  /** Distribution leaves every key untouched by the failures without a usable name. */
  lemma {:induction false} UnplacedLeaveTableUnchanged(m: Store, errs: seq<ValidationResult>)
    requires Unplaced(errs) == errs
    ensures Distribute(m, errs) == m
  {
    if errs != [] {
      var init := errs[..|errs| - 1];
      assert |Unplaced(init)| <= |init| by { UnplacedLength(init); }
      assert Unplaced(init) == init;
      UnplacedLeaveTableUnchanged(m, init);
    }
  }

  lemma {:induction false} UnplacedLength(errs: seq<ValidationResult>)
    ensures |Unplaced(errs)| <= |errs|
  {
    if errs != [] { UnplacedLength(errs[..|errs| - 1]); }
  }

  /** The announced keys: names, with k added at the end unless already there (memberNames.Contains / Add). */
  function WithKey(names: seq<string>, k: string): (r: seq<string>)
    ensures k in r
    ensures forall x :: x in r <==> x == k || x in names
    ensures NoDuplicates(names) ==> NoDuplicates(r)
  {
    if k in names then names else names + [k]
  }

  /** The failure that records a fault message under key k (AddPropertyError(k, ex.Message)). */
  function FaultResult(k: string, message: string): ValidationResult
  {
    ValidationResult(message, [NotNull(k)])
  }

  // ---------------------------------------------------------------- ValidateAsync

  /**
   * The continuation of ValidateAsync, applied to the table m it finds:
   * distribution of the failures, or the fault message under the object key.
   */
  function ValidateAllApply(m: Store, outcome: Outcome): (r: Store)
    ensures NoEmptyLists(m) ==> NoEmptyLists(r)
  {
    match outcome
    case Returned(rs) => Distribute(m, ErrorResults(rs))
    case Threw(msg) => Appended(m, ObjectKey, FaultResult(ObjectKey, msg))
  }

  /** The keys ValidateAsync announces: every name of every failure (null as "") plus the object key, each once. */
  function ValidateAllNotified(outcome: Outcome): (keys: seq<string>)
    ensures ObjectKey in keys && NoDuplicates(keys)
    ensures outcome.Returned? ==> forall x :: x in keys <==> x == ObjectKey || Mentions(outcome.results, x)
    ensures outcome.Threw? ==> keys == [ObjectKey]
  {
    match outcome
    case Returned(rs) => WithKey(GetMemberNamesFromValidationResults(NotNull(rs)), ObjectKey)
    case Threw(_) => ToSingleListEx(NotNull(ObjectKey))
  }

  /**
   * After ValidateAsync (the whole table cleared, then the continuation),
   * each key holds exactly the failures whose first usable member name it
   * is, in input order; nothing from before the run survives.
   */
  lemma ValidateAllReplacesTable(rs: seq<Nullable<ValidationResult>>, k: string)
    ensures Lookup(ValidateAllApply(map[], Returned(rs)), k) == PlacedUnder(ErrorResults(rs), k)
    ensures k in ValidateAllApply(map[], Returned(rs)) <==> PlacedUnder(ErrorResults(rs), k) != []
  {
    DistributeLookup(map[], ErrorResults(rs), k);
    assert Lookup(map[], k) == [];
  }

  /** A fault after the clear leaves only the fault message, under the object key, and announces only that key. */
  lemma ValidateAllFault(msg: string)
    ensures ValidateAllApply(map[], Threw(msg)) == map[ObjectKey := [ValidationResult(msg, [NotNull(ObjectKey)])]]
    ensures ValidateAllNotified(Threw(msg)) == [ObjectKey]
  {
  }

  /** Results that are all ValidationResult.Success carry no failure and no name. */
  lemma {:induction false} AllSuccessResults(rs: seq<Nullable<ValidationResult>>)
    requires forall i :: 0 <= i < |rs| ==> rs[i].Null?
    ensures ErrorResults(rs) == [] && AllNames(rs) == []
  {
    if rs != [] {
      var init := rs[..|rs| - 1];
      assert forall i :: 0 <= i < |init| ==> init[i] == rs[i];
      AllSuccessResults(init);
    }
  }

  /** A run that finds no failure leaves an empty table and still announces the object key. */
  lemma ValidateAllSuccess(rs: seq<Nullable<ValidationResult>>)
    requires forall i :: 0 <= i < |rs| ==> rs[i].Null?
    ensures ValidateAllApply(map[], Returned(rs)) == map[]
    ensures ValidateAllNotified(Returned(rs)) == [ObjectKey]
  {
    AllSuccessResults(rs);
  }

  /**
   * A failure naming several members is stored once, under the first, yet
   * every name it carries is announced.
   */
  lemma MultiMemberFailure(msg: string, a: string, b: string)
    requires a != "" && b != "" && a != b
    ensures var o := Returned([NotNull(ValidationResult(msg, [NotNull(a), NotNull(b)]))]);
            && ValidateAllApply(map[], o) == map[a := [ValidationResult(msg, [NotNull(a), NotNull(b)])]]
            && a in ValidateAllNotified(o) && b in ValidateAllNotified(o)
  {
    var r := ValidationResult(msg, [NotNull(a), NotNull(b)]);
    var rs := [NotNull(r)];
    assert ErrorResults(rs) == [r] by { assert rs[..0] == []; }
    assert [r][..0] == [];
    assert FirstName(r.memberNames) == NotNull(a);
    assert Distribute(map[], [r]) == Place(map[], r);
    assert Place(map[], r) == map[a := [r]];
    assert a in NamesOf(r) && b in NamesOf(r) by { assert NamesOf(r)[0] == a && NamesOf(r)[1] == b; }
    assert Mentions(rs, a) && Mentions(rs, b);
  }

  /**
   * A failure that names no member (an object-level failure) is announced
   * under the object key but not stored: beside a failure on a named
   * property, the table holds that property's failure only.
   */
  lemma ObjectLevelFailureNotStored(msg: string, bad: string, name: string)
    requires name != ""
    ensures var o := Returned([NotNull(ValidationResult(bad, [NotNull(name)])), NotNull(ValidationResult(msg, []))]);
            && ValidateAllApply(map[], o) == map[name := [ValidationResult(bad, [NotNull(name)])]]
            && ObjectKey !in ValidateAllApply(map[], o)
            && ValidateAllNotified(o) == [name, ObjectKey]
  {
    var r1, r2 := ValidationResult(bad, [NotNull(name)]), ValidationResult(msg, []);
    var rs := [NotNull(r1), NotNull(r2)];
    assert rs[..1] == [NotNull(r1)] && rs[..1][..0] == [];
    assert ErrorResults(rs) == [r1, r2];
    assert [r1, r2][..1] == [r1] && [r1][..0] == [];
    assert FirstName(r1.memberNames) == NotNull(name);
    assert Distribute(map[], [r1]) == map[name := [r1]];
    assert FirstName(r2.memberNames) == Null;
    assert Distribute(map[], [r1, r2]) == map[name := [r1]];
    assert NamesOf(r1) == [name];
    assert NamesOf(r2) == [];
    assert AllNames(rs[..1]) == [name];
    assert AllNames(rs) == [name];
    assert Distinct([name]) == [name] by { assert [name][..0] == []; }
  }

  // -------------------------------------------------------- ValidatePropertyAsync

  /**
   * The second half of ValidatePropertyAsync's worker, after the evaluator
   * returns: every failure is stored under k whatever member names it
   * carries, after what k already holds. A fault stores nothing here.
   */
  function ValidatePropertyStore(m: Store, k: string, outcome: Outcome): (r: Store)
    ensures NoEmptyLists(m) ==> NoEmptyLists(r)
    ensures forall j :: j != k ==> Lookup(r, j) == Lookup(m, j)
    ensures Lookup(r, k) == Lookup(m, k) + if outcome.Returned? then ErrorResults(outcome.results) else []
  {
    match outcome
    case Returned(rs) => AppendedAll(m, k, NotNull(ErrorResults(rs)))
    case Threw(_) => m
  }

  /**
   * The worker of ValidatePropertyAsync with no other run in its await
   * window: clear k, then store every failure under k. A fault leaves k cleared.
   */
  function ValidatePropertyWorker(m: Store, k: string, outcome: Outcome): (r: Store)
    ensures NoEmptyLists(m) ==> NoEmptyLists(r)
    ensures forall j :: j != k ==> Lookup(r, j) == Lookup(m, j)
    ensures Lookup(r, k) == if outcome.Returned? then ErrorResults(outcome.results) else []
  {
    ValidatePropertyStore(Cleared(m, k), k, outcome)
  }

  /**
   * Two property runs on the same key whose await windows overlap (clear,
   * clear, store, store) leave the first run's failures followed by the
   * second's under that key.
   */
  lemma OverlappingPropertyRuns(m: Store, k: string, a: seq<Nullable<ValidationResult>>, b: seq<Nullable<ValidationResult>>)
    ensures var r := ValidatePropertyStore(ValidatePropertyStore(Cleared(Cleared(m, k), k), k, Returned(a)), k, Returned(b));
            Lookup(r, k) == ErrorResults(a) + ErrorResults(b) && Lookup(r, k) == ErrorResults(a + b)
  {
    ErrorResultsAppend(a, b);
  }

  /** The continuation of ValidatePropertyAsync: on a fault the message is appended under k. */
  function ValidatePropertyRecover(m: Store, k: string, outcome: Outcome): (r: Store)
    ensures NoEmptyLists(m) ==> NoEmptyLists(r)
    ensures forall j :: j != k ==> Lookup(r, j) == Lookup(m, j)
    ensures Lookup(r, k) == Lookup(m, k) + if outcome.Threw? then [FaultResult(k, outcome.message)] else []
  {
    match outcome
    case Returned(_) => m
    case Threw(msg) => Appended(m, k, FaultResult(k, msg))
  }

  /** The keys ValidatePropertyAsync announces: every name of every failure (null as "") plus k, each once; just k on a fault. */
  function ValidatePropertyNotified(k: string, outcome: Outcome): (keys: seq<string>)
    ensures k in keys && NoDuplicates(keys)
    ensures outcome.Returned? ==> forall x :: x in keys <==> x == k || Mentions(outcome.results, x)
    ensures outcome.Threw? ==> keys == [k]
  {
    match outcome
    case Returned(rs) => WithKey(GetMemberNamesFromValidationResults(NotNull(rs)), k)
    case Threw(_) => ToSingleListEx(NotNull(k))
  }

  /** The table after a whole property run with no other run interleaved: worker, then continuation. */
  function ValidatePropertyApply(m: Store, k: string, outcome: Outcome): Store
  {
    ValidatePropertyRecover(ValidatePropertyWorker(m, k, outcome), k, outcome)
  }

  /**
   * A whole property run touches no key but k; afterwards k holds exactly the
   * run's failures, or exactly one failure carrying the fault's message.
   */
  lemma ValidatePropertyScoped(m: Store, k: string, outcome: Outcome)
    requires NoEmptyLists(m)
    ensures var r := ValidatePropertyApply(m, k, outcome);
            && NoEmptyLists(r)
            && (forall j :: j != k ==> Lookup(r, j) == Lookup(m, j))
            && (outcome.Returned? ==> Lookup(r, k) == ErrorResults(outcome.results))
            && (outcome.Threw? ==> r[k] == [ValidationResult(outcome.message, [NotNull(k)])] && |r| > 0)
  {
  }

  // ------------------------------------------------------------------- exceptions

  /** ValidationExceptionsChanged on the table: k is cleared, then given the exception's message when count > 0. */
  function ExceptionsApplied(m: Store, k: string, count: int, message: string): (r: Store)
    ensures NoEmptyLists(m) ==> NoEmptyLists(r)
    ensures count > 0 ==> k in r && r[k] == [ValidationResult(message, [NotNull(k)])]
    ensures count <= 0 ==> k !in r
    ensures forall j :: j != k ==> Lookup(r, j) == Lookup(m, j)
  {
    var cleared := Cleared(m, k);
    if count > 0 then Appended(cleared, k, FaultResult(k, message)) else cleared
  }

  // ----------------------------------------------------------------------- events

  /** One ErrorsChanged event per announced key, in order. */
  function ErrorsChangedEvents(keys: seq<string>): (evs: seq<Event>)
    ensures |evs| == |keys|
    ensures forall i :: 0 <= i < |keys| ==> evs[i] == ErrorsChanged(keys[i])
  {
    if keys == [] then []
    else ErrorsChangedEvents(keys[..|keys| - 1]) + [ErrorsChanged(keys[|keys| - 1])]
  }

  /** What a run raises from its finally block on: HasErrors, ErrorsChanged per key, IsValidating, then the completion callback. */
  function FinallyEvents(keys: seq<string>, hasCompletion: bool): seq<Event>
  {
    [PropertyChanged(HasErrorsName)] + ErrorsChangedEvents(keys) + [PropertyChanged(IsValidatingName)] +
    (if hasCompletion then [CompletionInvoked] else [])
  }

  /**
   * The order of a run's closing events: HasErrors first, then one
   * ErrorsChanged per announced key in order, then IsValidating, and the
   * completion callback last when there is one.
   */
  lemma FinallyEventsOrder(keys: seq<string>, hasCompletion: bool)
    ensures var evs := FinallyEvents(keys, hasCompletion);
            && |evs| == |keys| + 2 + (if hasCompletion then 1 else 0)
            && evs[0] == PropertyChanged(HasErrorsName)
            && (forall i :: 0 <= i < |keys| ==> evs[i + 1] == ErrorsChanged(keys[i]))
            && evs[|keys| + 1] == PropertyChanged(IsValidatingName)
            && (hasCompletion ==> evs[|evs| - 1] == CompletionInvoked)
            && (CompletionInvoked in evs <==> hasCompletion)
  {
  }

  /** The error dialog, shown on a fault only when EnableShowErrorInDialog is set. */
  function FaultEvents(enableDialog: bool, outcome: Outcome): (evs: seq<Event>)
    ensures evs != [] <==> enableDialog && outcome.Threw?
    ensures evs != [] ==> evs == [ErrorDialogShown(outcome.message)]
  {
    if enableDialog && outcome.Threw? then [ErrorDialogShown(outcome.message)] else []
  }
}
