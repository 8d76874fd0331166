/**
 * The error table of the view model: a map from property name to the
 * validation failures currently recorded for it. The empty name stands for
 * object-level errors.
 */
module ErrorTable {
  import opened ObjectHelper

  /** A DataAnnotations validation failure: its message and the member names it concerns (entries may be null). */
  datatype ValidationResult = ValidationResult(errorMessage: string, memberNames: seq<Nullable<string>>)

  type Store = map<string, seq<ValidationResult>>

  /** The table's invariant: no property is recorded with an empty list of failures. */
  ghost predicate NoEmptyLists(m: Store)
  {
    forall k :: k in m ==> m[k] != []
  }

  /** The failures recorded for k, the empty list when k is absent. */
  function Lookup(m: Store, k: string): seq<ValidationResult>
  {
    if k in m then m[k] else []
  }

  /** Under the invariant, a key is present exactly when it holds some failure. */
  lemma PresentIffErrors(m: Store, k: string)
    requires NoEmptyLists(m)
    ensures k in m <==> Lookup(m, k) != []
  {
  }

  /** Under the invariant, the table is non-empty exactly when some key holds a failure. */
  lemma NonEmptyIffSomeErrors(m: Store)
    requires NoEmptyLists(m)
    ensures |m| > 0 <==> exists k :: Lookup(m, k) != []
  {
    if |m| > 0 {
      var k :| k in m;
      assert Lookup(m, k) != [];
    } else {
      assert m == map[];
    }
  }

  /** ClearPropertyError: the key is removed and every other key keeps its failures. */
  function Cleared(m: Store, k: string): (r: Store)
    ensures k !in r && Lookup(r, k) == []
    ensures forall j :: j != k ==> Lookup(r, j) == Lookup(m, j)
    ensures NoEmptyLists(m) ==> NoEmptyLists(r)
  {
    m - {k}
  }

  /** AddPropertyError with one failure: appended to k's list, or a new one-element list. */
  function Appended(m: Store, k: string, e: ValidationResult): (r: Store)
    ensures k in r && Lookup(r, k) == Lookup(m, k) + [e]
    ensures forall j :: j != k ==> Lookup(r, j) == Lookup(m, j)
    ensures NoEmptyLists(m) ==> NoEmptyLists(r)
  {
    if k in m then m[k := m[k] + [e]] else m[k := ToSingleListEx(NotNull(e))]
  }

  /** The failures of a possibly-null batch, none for a null batch. */
  function BatchOrEmpty(es: Nullable<seq<ValidationResult>>): seq<ValidationResult>
  {
    if es.Null? then [] else es.value
  }

  /** AddPropertyError with a batch: a null or empty batch changes nothing, otherwise k's list becomes the old one followed by the batch. */
  function AppendedAll(m: Store, k: string, es: Nullable<seq<ValidationResult>>): (r: Store)
    ensures !AnyEx(es) ==> r == m
    ensures AnyEx(es) ==> k in r
    ensures Lookup(r, k) == Lookup(m, k) + BatchOrEmpty(es)
    ensures forall j :: j != k ==> Lookup(r, j) == Lookup(m, j)
    ensures NoEmptyLists(m) ==> NoEmptyLists(r)
  {
    if !AnyEx(es) then m
    else if k in m then m[k := m[k] + es.value]
    else m[k := es.value]
  }
}
