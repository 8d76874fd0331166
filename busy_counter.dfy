/**
 * The busy counter (_isValidating). Every validation run increments it when
 * it starts and decrements it in its finally block; runs may overlap, so the
 * counter is modelled over any interleaving of the runs' Begin and End steps.
 */
module BusyCounter {

  /** One step of a run: its increment at the start, its decrement in finally. */
  datatype RunStep = Begin(run: nat) | End(run: nat)

  /** The counter after the steps of t, starting from zero. */
  function Counter(t: seq<RunStep>): int
  {
    if t == [] then 0
    else Counter(t[..|t| - 1]) + (if t[|t| - 1].Begin? then 1 else -1)
  }

  /** The runs that have started in t. */
  function Begun(t: seq<RunStep>): set<nat>
  {
    if t == [] then {}
    else Begun(t[..|t| - 1]) + (if t[|t| - 1].Begin? then {t[|t| - 1].run} else {})
  }

  /** The runs that have started and not yet finished in t. */
  function Pending(t: seq<RunStep>): set<nat>
  {
    if t == [] then {}
    else if t[|t| - 1].Begin? then Pending(t[..|t| - 1]) + {t[|t| - 1].run}
    else Pending(t[..|t| - 1]) - {t[|t| - 1].run}
  }

  /** Every run begins once, and ends once after it has begun. */
  predicate WellFormed(t: seq<RunStep>)
  {
    t == [] ||
    (WellFormed(t[..|t| - 1]) &&
     match t[|t| - 1]
     case Begin(r) => r !in Begun(t[..|t| - 1])
     case End(r) => r in Pending(t[..|t| - 1]))
  }

  /** With any interleaving of runs, the counter equals the number of runs begun and not yet ended. */
  lemma {:induction false} CounterCountsPending(t: seq<RunStep>)
    requires WellFormed(t)
    ensures Counter(t) == |Pending(t)|
    ensures Pending(t) <= Begun(t)
  {
    if t != [] {
      var init := t[..|t| - 1];
      CounterCountsPending(init);
      match t[|t| - 1]
      case Begin(r) =>
        assert r !in Pending(init);
        assert |Pending(init) + {r}| == |Pending(init)| + 1;
      case End(r) =>
        assert |Pending(init) - {r}| == |Pending(init)| - 1;
    }
  }

  /** A run's start adds one to the counter and makes it pending. */
  lemma BeginStep(t: seq<RunStep>, r: nat)
    requires WellFormed(t) && r !in Begun(t)
    ensures WellFormed(t + [Begin(r)])
    ensures Counter(t + [Begin(r)]) == Counter(t) + 1
    ensures Pending(t + [Begin(r)]) == Pending(t) + {r}
    ensures Begun(t + [Begin(r)]) == Begun(t) + {r}
  {
  }

  /** A pending run's end takes one from the counter and retires it. */
  lemma EndStep(t: seq<RunStep>, r: nat)
    requires WellFormed(t) && r in Pending(t)
    ensures WellFormed(t + [End(r)])
    ensures Counter(t + [End(r)]) == Counter(t) - 1
    ensures Pending(t + [End(r)]) == Pending(t) - {r}
    ensures Begun(t + [End(r)]) == Begun(t)
  {
  }

  /** IsValidating (counter > 0) holds exactly while some run is in flight. */
  lemma IsValidatingIffRunPending(t: seq<RunStep>)
    requires WellFormed(t)
    ensures Counter(t) > 0 <==> Pending(t) != {}
    ensures Counter(t) >= 0
  {
    CounterCountsPending(t);
  }

  /** A run that begins and ends with no step in between restores the counter. */
  lemma CompletedRunRestoresCounter(t: seq<RunStep>, r: nat)
    requires WellFormed(t) && r !in Begun(t)
    ensures WellFormed(t + [Begin(r), End(r)])
    ensures Counter(t + [Begin(r), End(r)]) == Counter(t)
    ensures Pending(t + [Begin(r), End(r)]) == Pending(t)
  {
    CounterCountsPending(t);
    var t1 := t + [Begin(r)];
    assert t1[..|t1| - 1] == t;
    assert WellFormed(t1) && r in Pending(t1);
    var t2 := t + [Begin(r), End(r)];
    assert t2[..|t2| - 1] == t1;
  }
}
