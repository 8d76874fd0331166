/** Extension helpers on possibly-null values and lists (ObjectHelper). */
module ObjectHelper {

  /** A .NET reference that may be null. */
  datatype Nullable<+T> = Null | NotNull(value: T)

  /** AnyEx: false on a null list, otherwise whether the list has an element. */
  function AnyEx<T>(list: Nullable<seq<T>>): (any: bool)
    ensures list.Null? ==> !any
    ensures list.NotNull? ==> (any <==> list.value != [])
  {
    if list.Null? then false else |list.value| > 0
  }

  /** ToSingleListEx: the empty list for null, the one-element list otherwise. */
  function ToSingleListEx<T>(obj: Nullable<T>): (list: seq<T>)
    ensures obj.Null? ==> list == []
    ensures obj.NotNull? ==> list == [obj.value]
  {
    if obj.Null? then [] else [obj.value]
  }

  /** The two helpers agree: wrapping a value gives a list with an element exactly when the value is non-null. */
  lemma AnyExOfSingleList<T>(obj: Nullable<T>)
    ensures AnyEx(NotNull(ToSingleListEx(obj))) <==> obj.NotNull?
    ensures |ToSingleListEx(obj)| <= 1
  {
  }
}
