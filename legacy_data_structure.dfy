/**
 * DataStructure (legacy model): the list of variables is the identifiers
 * followed by the measures, copied once at construction.
 */
module LegacyDataStructure {
  import opened Wrappers
  import opened Exceptions

  datatype DataStructure<C> = DataStructure(variables: seq<C>)

  /** No element of the iterable is null. */
  predicate NoNullElement<C>(xs: seq<Option<C>>) {
    forall i :: 0 <= i < |xs| ==> xs[i].Some?
  }

  /** The elements of an iterable without nulls. */
  function Elements<C>(xs: seq<Option<C>>): (ys: seq<C>)
    requires NoNullElement(xs)
    ensures |ys| == |xs|
    ensures forall i :: 0 <= i < |xs| ==> xs[i] == Some(ys[i])
  {
    if xs == [] then [] else [xs[0].value] + Elements(xs[1..])
  }

  /** The constructor: `checkNotNull` on the identifiers, then on the measures
      (Java evaluates the arguments in that order), then `ImmutableList.copyOf`
      of the concatenation, which throws a NullPointerException on a null
      element. */
  function NewDataStructure<C>(identifiers: Option<seq<Option<C>>>, measures: Option<seq<Option<C>>>)
    : (r: Result<DataStructure<C>, Exception>)
    ensures r.Success? <==> identifiers.Some? && measures.Some? &&
                            NoNullElement(identifiers.value) && NoNullElement(measures.value)
    ensures identifiers.None? ==> r == Failure(NullPointer(Some("identifier list was null")))
    ensures identifiers.Some? && measures.None? ==> r == Failure(NullPointer(Some("measure list was null")))
    ensures identifiers.Some? && measures.Some? && r.Failure? ==> r.error.NullPointer?
    ensures r.Success? ==>
              var ids, ms, vs := identifiers.value, measures.value, r.value.variables;
              && |vs| == |ids| + |ms|
              && (forall i :: 0 <= i < |ids| ==> ids[i] == Some(vs[i]))
              && (forall i :: 0 <= i < |ms| ==> ms[i] == Some(vs[|ids| + i]))
  {
    match CheckNotNull(identifiers, Some("identifier list was null"))
    case Failure(e) => Failure(e)
    case Success(ids) =>
      match CheckNotNull(measures, Some("measure list was null"))
      case Failure(e) => Failure(e)
      case Success(ms) =>
        if NoNullElement(ids) && NoNullElement(ms) then Success(DataStructure(Elements(ids) + Elements(ms)))
        else Failure(NullPointer(None))
  }

  /** Every identifier precedes every measure in the variable list, and the
      two groups together are exactly the variables. */
  lemma IdentifiersBeforeMeasures<C>(ids: seq<Option<C>>, ms: seq<Option<C>>)
    requires NoNullElement(ids) && NoNullElement(ms)
    ensures var r := NewDataStructure(Some(ids), Some(ms));
            r.Success? && r.value.variables[..|ids|] == Elements(ids) && r.value.variables[|ids|..] == Elements(ms)
  {
    var vs := NewDataStructure(Some(ids), Some(ms)).value.variables;
    assert vs[..|ids|] == Elements(ids);
    assert vs[|ids|..] == Elements(ms);
  }
}
