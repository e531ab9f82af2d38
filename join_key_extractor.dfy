/**
 * JoinKeyExtractor: resolves the key components of an Order to column
 * positions of a child structure once, then copies those columns out of
 * each row into a reused buffer and hands back a copy of it.
 */
module KeyExtraction {
  import opened Wrappers
  import opened Exceptions
  import opened Values
  import opened Lists

  /** `fromList.indexOf(mapper.apply(k))`: the child column of a mapped key,
      or -1 when the mapper gives null or a component the child lacks. */
  function ChildIndex<C(==)>(fromList: seq<C>, mapped: Option<C>): (r: int)
    ensures -1 <= r < |fromList|
    ensures 0 <= r <==> mapped.Some? && mapped.value in fromList
    ensures 0 <= r ==> fromList[r] == mapped.value
  {
    match mapped
    case None => -1
    case Some(c) => IndexOf(fromList, c)
  }

  /** The mapper of the two-argument constructor: `Function.identity()`. */
  function Identity<C>(): C -> Option<C> {
    c => Some(c)
  }

  /** The mapper of the map-taking constructor: `mapping::get`, null when absent. */
  function Lookup<C(==)>(mapping: map<C, C>): C -> Option<C> {
    c => if c in mapping then Some(mapping[c]) else None
  }

  /** Every key of the order maps to a component of the child structure: the
      condition under which no index is -1, so that reading a row as wide as
      the child structure cannot fail. The constructor does not check it. */
  ghost predicate Resolves<C>(fromList: seq<C>, order: seq<C>, mapper: C -> Option<C>) {
    forall k :: 0 <= k < |order| ==> mapper(order[k]).Some? && mapper(order[k]).value in fromList
  }

  /** `fromList.stream().map(mapper)`: the child's components, each passed
      through the mapper (None for null). */
  function Mapped<C>(fromList: seq<C>, mapper: C -> Option<C>): (mapped: seq<Option<C>>)
    ensures |mapped| == |fromList|
    ensures forall j :: 0 <= j < |fromList| ==> mapped[j] == mapper(fromList[j])
  {
    seq(|fromList|, j requires 0 <= j < |fromList| => mapper(fromList[j]))
  }

  /** The check the constructor leaves commented out: `mapped.containsAll(toList)`.
      It maps the child's side where `Resolves` maps the order's side. */
  predicate MappedContainsAll<C(==)>(fromList: seq<C>, order: seq<C>, mapper: C -> Option<C>) {
    forall k :: 0 <= k < |order| ==> Some(order[k]) in Mapped(fromList, mapper)
  }

  /** Every key column resolves to a position inside a row of `width` values;
      otherwise `dataPoint.get` throws for some key component. */
  ghost predicate Fits<C>(fromList: seq<C>, order: seq<C>, mapper: C -> Option<C>, width: int) {
    forall k :: 0 <= k < |order| ==> 0 <= ChildIndex(fromList, mapper(order[k])) < width
  }

  /** The key of a row: slot i holds the row's value in the column that
      key component i of the order resolves to. */
  ghost function Key<C>(fromList: seq<C>, order: seq<C>, mapper: C -> Option<C>, row: Row): (key: Row)
    requires Fits(fromList, order, mapper, |row|)
  {
    seq(|order|, i requires 0 <= i < |order| => row[ChildIndex(fromList, mapper(order[i]))])
  }

  /** The index computation of the constructor: for each key of the order, in
      order, insert the child index at the key's position in the copied key list. */
  method BuildIndices<C(==)>(fromList: seq<C>, order: seq<C>, mapper: C -> Option<C>)
    returns (indices: seq<int>)
    requires Distinct(order)
    ensures |indices| == |order|
    ensures forall i :: 0 <= i < |order| ==> indices[i] == ChildIndex(fromList, mapper(order[i]))
  {
    var toList := order;
    indices := [];
    for n := 0 to |order|
      invariant |indices| == n
      invariant forall i :: 0 <= i < n ==> indices[i] == ChildIndex(fromList, mapper(order[i]))
    {
      var orderComponent := order[n];
      var at := IndexOf(toList, orderComponent);
      IndexOfDistinct(toList, n);
      // ArrayList.add(at, x) with at == size: the insertion is an append
      indices := indices[..at] + [ChildIndex(fromList, mapper(orderComponent))] + indices[at..];
    }
  }

  method ToArray(s: seq<int>) returns (a: array<int>)
    ensures fresh(a) && a[..] == s
  {
    a := new int[|s|](i requires 0 <= i < |s| => s[i]);
  }

  class JoinKeyExtractor<C(==)> {
    ghost const childStructure: seq<C>
    ghost const order: seq<C>
    ghost const mapper: C -> Option<C>

    const indices: array<int>
    const buffer: array<Value>

    ghost predicate Valid()
      reads indices
    {
      && indices.Length == |order|
      && buffer.Length == |order|
      && forall i :: 0 <= i < |order| ==> indices[i] == ChildIndex(childStructure, mapper(order[i]))
    }

    /** The extractor whose order components are looked up as they are. */
    constructor (childStructure: seq<C>, order: seq<C>)
      requires Distinct(order)
      ensures Valid() && fresh(indices) && fresh(buffer)
      ensures this.childStructure == childStructure && this.order == order
      ensures forall i :: 0 <= i < |order| ==> indices[i] == IndexOf(childStructure, order[i])
    {
      var idx := BuildIndices(childStructure, order, Identity());
      var a := ToArray(idx);
      this.childStructure := childStructure;
      this.order := order;
      this.mapper := Identity();
      indices := a;
      buffer := new Value[|order|](_ => Null);
    }

    /** The extractor whose order components are translated through `mapping`. */
    constructor WithMapping(childStructure: seq<C>, order: seq<C>, mapping: map<C, C>)
      requires Distinct(order)
      ensures Valid() && fresh(indices) && fresh(buffer)
      ensures this.childStructure == childStructure && this.order == order
      ensures forall i :: 0 <= i < |order| ==>
                indices[i] == (if order[i] in mapping then IndexOf(childStructure, mapping[order[i]]) else -1)
    {
      var idx := BuildIndices(childStructure, order, Lookup(mapping));
      var a := ToArray(idx);
      this.childStructure := childStructure;
      this.order := order;
      this.mapper := Lookup(mapping);
      indices := a;
      buffer := new Value[|order|](_ => Null);
    }

    /** The general extractor both public constructors delegate to. */
    constructor WithMapper(childStructure: seq<C>, order: seq<C>, mapper: C -> Option<C>)
      requires Distinct(order)
      ensures Valid() && fresh(indices) && fresh(buffer)
      ensures this.childStructure == childStructure && this.order == order && this.mapper == mapper
    {
      var idx := BuildIndices(childStructure, order, mapper);
      var a := ToArray(idx);
      this.childStructure := childStructure;
      this.order := order;
      this.mapper := mapper;
      indices := a;
      buffer := new Value[|order|](_ => Null);
    }

    /** Copies the key columns of `dataPoint` into the buffer, in key order,
        and returns a fresh copy of the buffer. A key column that does not
        resolve inside the row makes `dataPoint.get` throw. */
    method Apply(dataPoint: array<Value>) returns (r: Result<array<Value>, Exception>)
      requires Valid()
      requires dataPoint != buffer
      modifies buffer
      ensures r.Success? <==> Fits(childStructure, order, mapper, dataPoint.Length)
      ensures r.Success? ==> fresh(r.value) && r.value[..] == buffer[..] == Key(childStructure, order, mapper, dataPoint[..])
      ensures r.Failure? ==> r.error == IndexOutOfBounds
    {
      for i := 0 to indices.Length
        invariant forall k :: 0 <= k < i ==> 0 <= indices[k] < dataPoint.Length && buffer[k] == dataPoint[indices[k]]
      {
        if !(0 <= indices[i] < dataPoint.Length) {
          return Failure(IndexOutOfBounds);
        }
        buffer[i] := dataPoint[indices[i]];
      }
      var key := new Value[buffer.Length](k reads buffer requires 0 <= k < buffer.Length => buffer[k]);
      r := Success(key);
    }
  }

  /** With the identity mapper, key slot i holds the value of the row in the
      column of the child structure that is the key component itself. */
  lemma IdentityKeyAt<C>(fromList: seq<C>, order: seq<C>, row: Row, i: int)
    requires Fits(fromList, order, Identity(), |row|)
    requires 0 <= i < |order|
    ensures exists j :: 0 <= j < |fromList| && j < |row| && fromList[j] == order[i] &&
                        Key(fromList, order, Identity(), row)[i] == row[j]
  {
    var j := IndexOf(fromList, order[i]);
    assert fromList[j] == order[i];
  }

  /** For rows as wide as the child structure, the keys resolve exactly when
      every key component maps to a component of the child structure. */
  lemma ResolvesFits<C>(fromList: seq<C>, order: seq<C>, mapper: C -> Option<C>)
    ensures Resolves(fromList, order, mapper) <==> Fits(fromList, order, mapper, |fromList|)
  {
  }

  /** With the identity mapper the commented-out check is exactly `Resolves`. */
  lemma IdentityCheckResolves<C>(fromList: seq<C>, order: seq<C>)
    ensures MappedContainsAll(fromList, order, Identity()) <==> Resolves(fromList, order, Identity())
  {
    var id: C -> Option<C> := Identity();
    var mapped := Mapped(fromList, id);
    forall k | 0 <= k < |order|
      ensures Some(order[k]) in mapped <==> order[k] in fromList
    {
      if order[k] in fromList {
        var j := IndexOf(fromList, order[k]);
        assert mapped[j] == Some(order[k]);
      }
      if Some(order[k]) in mapped {
        var j :| 0 <= j < |mapped| && mapped[j] == Some(order[k]);
        assert fromList[j] == order[k];
      }
    }
  }

  /** With a lookup mapper the two conditions differ: a key that the mapping
      sends into the child structure resolves, while the child's component,
      absent from the mapping, maps to null and the check would refuse it. */
  lemma LookupCheckDiffers()
    ensures Resolves([1], [2], Lookup(map[2 := 1]))
    ensures !MappedContainsAll([1], [2], Lookup(map[2 := 1]))
  {
    var m := Lookup(map[2 := 1]);
    assert m(2) == Some(1);
    assert 1 !in map[2 := 1];
    assert Mapped([1], m)[0] == None;
    assert Some([2][0]) !in Mapped([1], m);
  }

  /** A key handed out earlier is a separate array: extracting the next key
      overwrites only the shared buffer, never the first key or the input rows. */
  method ExtractTwice<C>(extractor: JoinKeyExtractor<C>, first: array<Value>, second: array<Value>)
    returns (k1: array<Value>, k2: array<Value>)
    requires extractor.Valid() && Resolves(extractor.childStructure, extractor.order, extractor.mapper)
    requires first.Length == second.Length == |extractor.childStructure|
    requires first != extractor.buffer && second != extractor.buffer
    modifies extractor.buffer
    ensures k1 != k2
    ensures k1[..] == Key(extractor.childStructure, extractor.order, extractor.mapper, first[..])
    ensures k2[..] == Key(extractor.childStructure, extractor.order, extractor.mapper, second[..])
  {
    ResolvesFits(extractor.childStructure, extractor.order, extractor.mapper);
    var r1 := extractor.Apply(first);
    k1 := r1.value;
    var r2 := extractor.Apply(second);
    k2 := r2.value;
  }
}
