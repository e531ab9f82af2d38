/**
 * FilterOperation: a dataset that keeps the rows of its child for which the
 * predicate resolves to true, in the child's order, with the child's
 * structure, and that refuses filter and order push-down.
 */
module Filter {
  import opened Wrappers
  import opened Exceptions
  import opened Values

  /** A child dataset: its structure and the rows one traversal yields. */
  datatype Dataset<C> = Dataset(structure: seq<C>, data: seq<Row>)

  /** The bindings of component names the predicate is resolved against. */
  datatype ComponentBindings = ComponentBindings(names: seq<string>)

  /** An ordering or a filtering handed to the operation: the columns it
      names. The filter never looks inside either. */
  datatype OrderingSpecification = OrderingSpecification(columns: seq<string>)
  datatype FilteringSpecification = FilteringSpecification(columns: seq<string>)

  /** The ordering and the filtering that `computeData` receives. */
  datatype Ordering = Ordering(columns: seq<string>)
  datatype Filtering = Filtering(columns: seq<string>)

  /** `condition` is the predicate expression, resolved against the bindings of one row. */
  datatype FilterOperation<C> = FilterOperation(child: Dataset<C>, condition: Row -> Value, bindings: ComponentBindings)

  /** The constructor: `checkNotNull` on the dataset (with a message), then
      on the predicate and the bindings. */
  function NewFilterOperation<C>(dataset: Option<Dataset<C>>, condition: Option<Row -> Value>,
                                 bindings: Option<ComponentBindings>): (r: Result<FilterOperation<C>, Exception>)
    ensures r.Success? <==> dataset.Some? && condition.Some? && bindings.Some?
    ensures dataset.None? ==> r.Failure? && r.error == NullPointer(Some("the dataset was null"))
    ensures dataset.Some? && (condition.None? || bindings.None?) ==> r.Failure? && r.error == NullPointer(None)
    ensures r.Success? ==> r.value.child == dataset.value && r.value.condition == condition.value &&
                           r.value.bindings == bindings.value
  {
    match CheckNotNull(dataset, Some("the dataset was null"))
    case Failure(e) => Failure(e)
    case Success(d) =>
      match CheckNotNull(condition, None)
      case Failure(e) => Failure(e)
      case Success(p) =>
        match CheckNotNull(bindings, None)
        case Failure(e) => Failure(e)
        case Success(b) => Success(FilterOperation(d, p, b))
  }

  /** `computeDataStructure`: the structure is the child's. */
  function ComputeDataStructure<C>(op: FilterOperation<C>): (structure: seq<C>)
    ensures structure == op.child.structure
  {
    op.child.structure
  }

  /** What one resolved predicate value decides: null drops the row, a Boolean
      keeps it when true, and anything else fails the `(Boolean)` cast. */
  function Keep(resolved: Value): (r: Result<bool, Exception>)
    ensures r == Success(true) <==> resolved == Boolean(true)
    ensures r.Failure? <==> !(resolved.Null? || resolved.Boolean?)
    ensures r.Failure? ==> r.error == ClassCast
  {
    match resolved
    case Null => Success(false)
    case Boolean(b) => Success(b)
    case _ => Failure(ClassCast)
  }

  /** One traversal of a row stream: the rows it yields, and the exception
      that ends it early, if any. */
  datatype Stream = Stream(rows: seq<Row>, failure: Option<Exception>)

  /** The filtered stream: rows kept in order; the first row whose predicate
      is neither null nor Boolean ends the stream with its exception. */
  function Filtered(rows: seq<Row>, condition: Row -> Value): (s: Stream)
    ensures |s.rows| <= |rows|
  {
    if rows == [] then Stream([], None)
    else
      match Keep(condition(rows[0]))
      case Failure(e) => Stream([], Some(e))
      case Success(keep) =>
        var rest := Filtered(rows[1..], condition);
        Stream((if keep then [rows[0]] else []) + rest.rows, rest.failure)
  }

  /** One step of the traversal from position i. */
  lemma FilteredStep(rows: seq<Row>, i: nat, condition: Row -> Value)
    requires i < |rows|
    ensures var here, next := Filtered(rows[i..], condition), Filtered(rows[i + 1..], condition);
            match Keep(condition(rows[i]))
            case Failure(e) => here == Stream([], Some(e))
            case Success(keep) => here == Stream((if keep then [rows[i]] else []) + next.rows, next.failure)
  {
    assert rows[i..][1..] == rows[i + 1..];
  }

  /** `computeData`: one binding object is rebound to each child row in turn
      and the predicate resolved against it. The ordering, filtering and
      component arguments are not used. */
  method ComputeData<C>(op: FilterOperation<C>, orders: Ordering,
                        filtering: Filtering, components: set<string>)
    returns (data: Stream)
    ensures data == Filtered(op.child.data, op.condition)
  {
    var rows := op.child.data;
    var yielded: seq<Row> := [];
    var bound: Row := [];
    var i := 0;
    assert rows[0..] == rows;
    while i < |rows|
      invariant 0 <= i <= |rows|
      invariant Filtered(rows, op.condition) ==
                Stream(yielded + Filtered(rows[i..], op.condition).rows, Filtered(rows[i..], op.condition).failure)
    {
      bound := rows[i];
      FilteredStep(rows, i, op.condition);
      var resolved := op.condition(bound);
      if !(resolved.Null? || resolved.Boolean?) {
        return Stream(yielded, Some(ClassCast));
      }
      if resolved == Boolean(true) {
        assert yielded + ([bound] + Filtered(rows[i + 1..], op.condition).rows)
            == (yielded + [bound]) + Filtered(rows[i + 1..], op.condition).rows;
        yielded := yielded + [bound];
      } else {
        assert [] + Filtered(rows[i + 1..], op.condition).rows == Filtered(rows[i + 1..], op.condition).rows;
      }
      i := i + 1;
    }
    assert rows[i..] == [];
    data := Stream(yielded, None);
  }

  /** No size hint is reported. */
  function GetSize<C>(op: FilterOperation<C>): (size: Option<nat>)
    ensures size.None?
  {
    None
  }

  /** No distinct-value counts are reported. */
  function GetDistinctValuesCount<C>(op: FilterOperation<C>): (counts: Option<map<string, nat>>)
    ensures counts.None?
  {
    None
  }

  /** Filter push-down is refused: the call always throws. */
  function UnsupportedFiltering<C>(op: FilterOperation<C>, filtering: FilteringSpecification)
    : (r: Result<FilteringSpecification, Exception>)
    ensures r.Failure? && r.error == UnsupportedOperation("TODO")
  {
    Failure(UnsupportedOperation("TODO"))
  }

  /** Order push-down is refused: the call always throws. */
  function UnsupportedOrdering<C>(op: FilterOperation<C>, ordering: OrderingSpecification)
    : (r: Result<OrderingSpecification, Exception>)
    ensures r.Failure? && r.error == UnsupportedOperation("TODO")
  {
    Failure(UnsupportedOperation("TODO"))
  }

  /** Every yielded row is a child row whose predicate resolved to true;
      in particular a row whose predicate resolves to null is never yielded. */
  lemma {:induction false} FilteredSound(rows: seq<Row>, condition: Row -> Value)
    ensures forall r :: r in Filtered(rows, condition).rows ==> r in rows && condition(r) == Boolean(true)
  {
    if rows != [] {
      FilteredSound(rows[1..], condition);
    }
  }

  /** When the traversal completes, every child row whose predicate resolved
      to true is yielded. */
  lemma {:induction false} FilteredComplete(rows: seq<Row>, condition: Row -> Value)
    requires Filtered(rows, condition).failure.None?
    ensures forall r :: r in rows && condition(r) == Boolean(true) ==> r in Filtered(rows, condition).rows
  {
    if rows != [] {
      FilteredComplete(rows[1..], condition);
      forall r | r in rows && condition(r) == Boolean(true)
        ensures r in Filtered(rows, condition).rows
      {
        if r != rows[0] {
          assert r in rows[1..];
        }
      }
    }
  }

  /** When the traversal completes, each row occurs in the output exactly as
      often as in the child if its predicate resolved to true, and not at all
      otherwise. */
  lemma {:induction false} FilteredCount(rows: seq<Row>, condition: Row -> Value, r: Row)
    ensures Filtered(rows, condition).failure.None? ==>
              multiset(Filtered(rows, condition).rows)[r] ==
              if condition(r) == Boolean(true) then multiset(rows)[r] else 0
  {
    if rows != [] {
      var rest := Filtered(rows[1..], condition);
      FilteredCount(rows[1..], condition, r);
      FilteredUnfold(rows, condition);
      assert multiset(rows) == multiset([rows[0]]) + multiset(rows[1..]) by {
        assert rows == [rows[0]] + rows[1..];
      }
      match Keep(condition(rows[0]))
      case Failure(_) =>
      case Success(keep) =>
        var head := if keep then [rows[0]] else [];
        assert multiset(head + rest.rows) == multiset(head) + multiset(rest.rows);
    }
  }

  /** `a` is `b` with some elements removed, the rest kept in order. */
  predicate IsSubsequence(a: seq<Row>, b: seq<Row>)
    decreases |b|
  {
    if b == [] then a == []
    else (a != [] && a[0] == b[0] && IsSubsequence(a[1..], b[1..])) || IsSubsequence(a, b[1..])
  }

  lemma {:induction false} EmptySubsequence(b: seq<Row>)
    ensures IsSubsequence([], b)
    decreases |b|
  {
    if b != [] {
      EmptySubsequence(b[1..]);
    }
  }

  /** The filter preserves the child's order: its rows are a subsequence of the child's. */
  lemma {:induction false} FilteredInOrder(rows: seq<Row>, condition: Row -> Value)
    ensures IsSubsequence(Filtered(rows, condition).rows, rows)
  {
    if rows != [] {
      FilteredInOrder(rows[1..], condition);
      var rest := Filtered(rows[1..], condition).rows;
      var out := Filtered(rows, condition).rows;
      if Keep(condition(rows[0])) == Success(true) {
        assert out == [rows[0]] + rest;
        assert out[0] == rows[0] && out[1..] == rest;
      } else if Keep(condition(rows[0])).Success? {
        assert out == rest;
      } else {
        EmptySubsequence(rows);
      }
    }
  }

  /** The traversal fails exactly when some child row's predicate resolves to
      a value that is neither null nor a Boolean, and then with a ClassCastException. */
  lemma {:induction false} FilteredFails(rows: seq<Row>, condition: Row -> Value)
    ensures Filtered(rows, condition).failure.Some? <==>
            exists k :: 0 <= k < |rows| && !(condition(rows[k]).Null? || condition(rows[k]).Boolean?)
    ensures Filtered(rows, condition).failure.Some? ==> Filtered(rows, condition).failure == Some(ClassCast)
  {
    if rows != [] {
      FilteredFails(rows[1..], condition);
      if exists k :: 0 <= k < |rows[1..]| && !(condition(rows[1..][k]).Null? || condition(rows[1..][k]).Boolean?) {
        var k :| 0 <= k < |rows[1..]| && !(condition(rows[1..][k]).Null? || condition(rows[1..][k]).Boolean?);
        assert rows[k + 1] == rows[1..][k];
      }
      if exists k :: 0 <= k < |rows| && !(condition(rows[k]).Null? || condition(rows[k]).Boolean?) {
        var k :| 0 <= k < |rows| && !(condition(rows[k]).Null? || condition(rows[k]).Boolean?);
        if k > 0 {
          assert rows[1..][k - 1] == rows[k];
        }
      }
    }
  }

  /** The stream that reads `first` and then, unless `first` failed, `second`. */
  function Concat(first: Stream, second: Stream): Stream {
    if first.failure.Some? then first else Stream(first.rows + second.rows, second.failure)
  }

  /** One row in front of a traversal, as the definition of `Filtered` adds it. */
  function Prepend(decision: Result<bool, Exception>, row: Row, rest: Stream): Stream {
    match decision
    case Failure(e) => Stream([], Some(e))
    case Success(keep) => Stream((if keep then [row] else []) + rest.rows, rest.failure)
  }

  lemma PrependConcat(decision: Result<bool, Exception>, row: Row, first: Stream, second: Stream)
    ensures Prepend(decision, row, Concat(first, second)) == Concat(Prepend(decision, row, first), second)
  {
    if decision.Success? && first.failure.None? {
      var head := if decision.value then [row] else [];
      assert head + (first.rows + second.rows) == (head + first.rows) + second.rows;
    }
  }

  lemma FilteredUnfold(rows: seq<Row>, condition: Row -> Value)
    requires rows != []
    ensures Filtered(rows, condition) == Prepend(Keep(condition(rows[0])), rows[0], Filtered(rows[1..], condition))
  {
  }

  /** The stream is consumed row by row: filtering a concatenation yields the
      first part's rows and then, unless the first part failed, the second's. */
  lemma {:induction false} FilteredAppend(a: seq<Row>, b: seq<Row>, condition: Row -> Value)
    ensures Filtered(a + b, condition) == Concat(Filtered(a, condition), Filtered(b, condition))
  {
    if a == [] {
      assert a + b == b;
    } else {
      var ab := a + b;
      assert ab[0] == a[0] && ab[1..] == a[1..] + b;
      FilteredAppend(a[1..], b, condition);
      FilteredUnfold(a, condition);
      FilteredUnfold(ab, condition);
      PrependConcat(Keep(condition(a[0])), a[0], Filtered(a[1..], condition), Filtered(b, condition));
    }
  }

  /** Filtering the filter's output again with the same predicate changes nothing. */
  lemma {:induction false} FilterIdempotent(rows: seq<Row>, condition: Row -> Value)
    ensures var out := Filtered(rows, condition).rows;
            Filtered(out, condition) == Stream(out, None)
  {
    if rows != [] {
      FilterIdempotent(rows[1..], condition);
      var rest := Filtered(rows[1..], condition).rows;
      var out := Filtered(rows, condition).rows;
      if Keep(condition(rows[0])) == Success(true) {
        assert out == [rows[0]] + rest;
        assert out[0] == rows[0] && out[1..] == rest;
      } else if Keep(condition(rows[0])).Success? {
        assert out == rest;
      }
    }
  }

  /** Rows that match the arity of the structure still match it after filtering. */
  lemma {:induction false} FilterPreservesArity<C>(op: FilterOperation<C>)
    requires forall r :: r in op.child.data ==> |r| == |op.child.structure|
    ensures forall r :: r in Filtered(op.child.data, op.condition).rows ==> |r| == |ComputeDataStructure(op)|
  {
    FilteredSound(op.child.data, op.condition);
  }
}
