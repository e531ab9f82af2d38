/**
 * InnerJoinMerger: pairs every right-hand component with the equal left-hand
 * components, then copies the right row's values into those slots of the
 * left row, in place.
 */
module JoinMerge {
  import opened Wrappers
  import opened Exceptions
  import opened Values
  import opened Lists

  /** An entry of the index multimap: (right position, left position). */
  type Entry = (nat, nat)

  /** Order of the multimap's entries: by right position, then left position. */
  predicate EntryLess(a: Entry, b: Entry) {
    a.0 < b.0 || (a.0 == b.0 && a.1 < b.1)
  }

  predicate StrictlySorted(entries: seq<Entry>) {
    forall x, y :: 0 <= x < y < |entries| ==> EntryLess(entries[x], entries[y])
  }

  predicate InRange(entries: seq<Entry>, leftSize: nat, rightSize: nat) {
    forall k :: 0 <= k < |entries| ==> entries[k].0 < rightSize && entries[k].1 < leftSize
  }

  /** What `buildIndices` computes: exactly the pairs of equal right and left
      components, in increasing (right, left) order. */
  ghost predicate IsIndexMap<C>(left: seq<C>, right: seq<C>, entries: seq<Entry>) {
    && InRange(entries, |left|, |right|)
    && (forall k :: 0 <= k < |entries| ==> right[entries[k].0] == left[entries[k].1])
    && (forall i, j :: 0 <= i < |right| && 0 <= j < |left| && right[i] == left[j] ==> (i, j) in entries)
    && StrictlySorted(entries)
  }

  /** The nested loops of `buildIndices`. */
  method BuildIndices<C(==)>(leftList: seq<C>, rightList: seq<C>) returns (entries: seq<Entry>)
    ensures IsIndexMap(leftList, rightList, entries)
  {
    entries := [];
    for i := 0 to |rightList|
      invariant InRange(entries, |leftList|, |rightList|)
      invariant forall k :: 0 <= k < |entries| ==> entries[k].0 < i
      invariant forall k :: 0 <= k < |entries| ==> rightList[entries[k].0] == leftList[entries[k].1]
      invariant forall i', j :: 0 <= i' < i && 0 <= j < |leftList| && rightList[i'] == leftList[j] ==> (i', j) in entries
      invariant StrictlySorted(entries)
    {
      var rightComponent := rightList[i];
      for j := 0 to |leftList|
        invariant InRange(entries, |leftList|, |rightList|)
        invariant forall k :: 0 <= k < |entries| ==> EntryLess(entries[k], (i, j))
        invariant forall k :: 0 <= k < |entries| ==> rightList[entries[k].0] == leftList[entries[k].1]
        invariant forall i', j' :: 0 <= i' < i && 0 <= j' < |leftList| && rightList[i'] == leftList[j'] ==> (i', j') in entries
        invariant forall j' :: 0 <= j' < j && rightComponent == leftList[j'] ==> (i, j') in entries
        invariant StrictlySorted(entries)
      {
        var leftComponent := leftList[j];
        if rightComponent == leftComponent {
          entries := entries + [(i, j)];
        }
      }
    }
  }

  /** The left row after copying, entry by entry in multimap order,
      `right[i]` into slot `j` for every entry (i, j). */
  function Overlay(left: Row, right: Row, entries: seq<Entry>): (merged: Row)
    requires InRange(entries, |left|, |right|)
    ensures |merged| == |left|
    decreases |entries|
  {
    if entries == [] then left
    else Overlay(left[entries[0].1 := right[entries[0].0]], right, entries[1..])
  }

  /** The same copying when left and right are one and the same row: each
      read sees the writes of the entries before it. */
  function SelfOverlay(row: Row, entries: seq<Entry>): (merged: Row)
    requires InRange(entries, |row|, |row|)
    ensures |merged| == |row|
    decreases |entries|
  {
    if entries == [] then row
    else SelfOverlay(row[entries[0].1 := row[entries[0].0]], entries[1..])
  }

  /** The last entry writing left slot `j`, or -1 when no entry targets it. */
  function LastWriter(entries: seq<Entry>, j: nat): (k: int)
    ensures -1 <= k < |entries|
    ensures k == -1 <==> forall m :: 0 <= m < |entries| ==> entries[m].1 != j
    ensures 0 <= k ==> entries[k].1 == j && forall m :: k < m < |entries| ==> entries[m].1 != j
  {
    if entries == [] then -1
    else if entries[|entries| - 1].1 == j then |entries| - 1
    else LastWriter(entries[..|entries| - 1], j)
  }

  /** Slot j of the merged row holds the right value of the last entry that
      targets j, and its old value when no entry does. */
  lemma {:induction false} OverlayAt(left: Row, right: Row, entries: seq<Entry>, j: nat)
    requires InRange(entries, |left|, |right|) && j < |left|
    ensures var k := LastWriter(entries, j);
            Overlay(left, right, entries)[j] == if k == -1 then left[j] else right[entries[k].0]
    decreases |entries|
  {
    if entries != [] {
      var left' := left[entries[0].1 := right[entries[0].0]];
      var rest := entries[1..];
      OverlayAt(left', right, rest, j);
      var k, k' := LastWriter(entries, j), LastWriter(rest, j);
      if k' >= 0 {
        assert entries[k' + 1] == rest[k'];
        assert k == k' + 1;
      } else if entries[0].1 == j {
        assert k == 0;
      } else {
        assert forall m :: 0 <= m < |entries| ==> entries[m].1 != j by {
          forall m | 0 < m < |entries| ensures entries[m].1 != j {
            assert entries[m] == rest[m - 1];
          }
        }
      }
    }
  }

  /** Left slots that no entry targets keep their old value. */
  lemma OverlayUntouched(left: Row, right: Row, entries: seq<Entry>, j: nat)
    requires InRange(entries, |left|, |right|) && j < |left|
    requires forall k :: 0 <= k < |entries| ==> entries[k].1 != j
    ensures Overlay(left, right, entries)[j] == left[j]
  {
    OverlayAt(left, right, entries, j);
  }

  /** Merging twice with the same right row gives the row merging once gives. */
  lemma OverlayIdempotent(left: Row, right: Row, entries: seq<Entry>)
    requires InRange(entries, |left|, |right|)
    ensures Overlay(Overlay(left, right, entries), right, entries) == Overlay(left, right, entries)
  {
    var once := Overlay(left, right, entries);
    var twice := Overlay(once, right, entries);
    forall j | 0 <= j < |left| ensures twice[j] == once[j] {
      OverlayAt(left, right, entries, j);
      OverlayAt(once, right, entries, j);
    }
  }

  /** When the right structure has no duplicate component (a name-unique
      structure), each matched left slot receives the value of its own
      right counterpart. */
  lemma OverlayMatched<C>(leftStructure: seq<C>, rightStructure: seq<C>, entries: seq<Entry>,
                          left: Row, right: Row, k: int)
    requires IsIndexMap(leftStructure, rightStructure, entries) && Distinct(rightStructure)
    requires |left| == |leftStructure| && |right| == |rightStructure|
    requires 0 <= k < |entries|
    ensures Overlay(left, right, entries)[entries[k].1] == right[entries[k].0]
  {
    var j := entries[k].1;
    OverlayAt(left, right, entries, j);
    var w := LastWriter(entries, j);
    assert rightStructure[entries[w].0] == leftStructure[j] == rightStructure[entries[k].0];
  }

  /** Entries that copy each slot onto itself leave a self-merged row as it was. */
  lemma {:induction false} SelfOverlayDiagonal(row: Row, entries: seq<Entry>)
    requires InRange(entries, |row|, |row|)
    requires forall k :: 0 <= k < |entries| ==> entries[k].0 == entries[k].1
    ensures SelfOverlay(row, entries) == row
    decreases |entries|
  {
    if entries != [] {
      assert row[entries[0].1 := row[entries[0].0]] == row;
      SelfOverlayDiagonal(row, entries[1..]);
    }
  }

  /** Merging a row into itself through the index map of a structure with
      itself changes nothing, when the structure has no duplicate component. */
  lemma SelfMergeUnchanged<C>(structure: seq<C>, entries: seq<Entry>, row: Row)
    requires IsIndexMap(structure, structure, entries) && Distinct(structure)
    requires |row| == |structure|
    ensures SelfOverlay(row, entries) == row
  {
    SelfOverlayDiagonal(row, entries);
  }

  lemma FirstIsMember(b: seq<Entry>)
    ensures b == [] || b[0] in b
  {
  }

  /** Two strictly sorted entry lists with the same members are equal. */
  lemma {:induction false} SortedUnique(a: seq<Entry>, b: seq<Entry>)
    requires StrictlySorted(a) && StrictlySorted(b)
    requires forall e :: e in a <==> e in b
    ensures a == b
    decreases |a|
  {
    if a == [] {
      FirstIsMember(b);
    } else {
      assert a[0] in b;
      var x :| 0 <= x < |b| && b[x] == a[0];
      assert b[0] in a;
      var y :| 0 <= y < |a| && a[y] == b[0];
      assert a[0] == b[0];
      forall e ensures e in a[1..] <==> e in b[1..] {
        if e in a[1..] {
          var x :| 1 <= x < |a| && a[x] == e;
          assert EntryLess(a[0], e);
          assert e in a;
          assert e in b;
          var y :| 0 <= y < |b| && b[y] == e;
          assert y != 0;
          assert b[1..][y - 1] == e;
        }
        if e in b[1..] {
          var x :| 1 <= x < |b| && b[x] == e;
          assert EntryLess(b[0], e);
          assert e in b;
          assert e in a;
          var y :| 0 <= y < |a| && a[y] == e;
          assert y != 0;
          assert a[1..][y - 1] == e;
        }
      }
      SortedUnique(a[1..], b[1..]);
    }
  }

  /** The index map is determined by the two structures: any list of entries
      meeting the characterization is the one `buildIndices` builds. */
  lemma IndexMapUnique<C>(left: seq<C>, right: seq<C>, a: seq<Entry>, b: seq<Entry>)
    requires IsIndexMap(left, right, a) && IsIndexMap(left, right, b)
    ensures a == b
  {
    forall e ensures e in a <==> e in b {
      if e in a {
        var k :| 0 <= k < |a| && a[k] == e;
      }
      if e in b {
        var k :| 0 <= k < |b| && b[k] == e;
      }
    }
    SortedUnique(a, b);
  }

  class InnerJoinMerger<C(==)> {
    const leftStructure: seq<C>
    const rightStructure: seq<C>
    const indexMap: seq<Entry>

    ghost predicate Valid() {
      IsIndexMap(leftStructure, rightStructure, indexMap)
    }

    constructor (leftStructure: seq<C>, rightStructure: seq<C>)
      ensures Valid()
      ensures this.leftStructure == leftStructure && this.rightStructure == rightStructure
    {
      this.leftStructure := leftStructure;
      this.rightStructure := rightStructure;
      var entries := BuildIndices(leftStructure, rightStructure);
      indexMap := entries;
    }

    /** Copies the matched right values into `left` and returns `left` itself.
        When `left` and `right` are the same row, each copy reads the row as
        the earlier copies left it. */
    method Apply(left: array<Value>, right: array<Value>) returns (merged: array<Value>)
      requires Valid()
      requires left.Length == |leftStructure| && right.Length == |rightStructure|
      modifies left
      ensures merged == left
      ensures left != right ==> left[..] == Overlay(old(left[..]), right[..], indexMap)
      ensures left == right ==> left[..] == SelfOverlay(old(left[..]), indexMap)
    {
      for k := 0 to |indexMap|
        invariant left != right ==>
                    Overlay(old(left[..]), right[..], indexMap) == Overlay(left[..], right[..], indexMap[k..])
        invariant left == right ==>
                    SelfOverlay(old(left[..]), indexMap) == SelfOverlay(left[..], indexMap[k..])
      {
        var entry := indexMap[k];
        assert indexMap[k..][1..] == indexMap[k + 1..];
        left[entry.1] := right[entry.0];
      }
      assert indexMap[|indexMap|..] == [];
      merged := left;
    }
  }

  /** `checkNotNull` on both structures, then the constructor. */
  method NewInnerJoinMerger<C(==)>(leftStructure: Option<seq<C>>, rightStructure: Option<seq<C>>)
    returns (r: Result<InnerJoinMerger<C>, Exception>)
    ensures r.Failure? <==> leftStructure.None? || rightStructure.None?
    ensures r.Failure? ==> r.error == NullPointer(None)
    ensures r.Success? ==> fresh(r.value) && r.value.Valid() &&
                           r.value.leftStructure == leftStructure.value &&
                           r.value.rightStructure == rightStructure.value
  {
    if leftStructure.None? || rightStructure.None? {
      return Failure(NullPointer(None));
    }
    var m := new InnerJoinMerger(leftStructure.value, rightStructure.value);
    r := Success(m);
  }
}
