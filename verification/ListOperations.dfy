/**
 * What the operations of dplist.h mean on plain sequences: positions are
 * clamped into range, references are compared by identity, NULL stands for
 * the end of the list.
 */
module ListOperations {
  import opened Sequences

  function Clamp(i: int, max: nat): (p: nat)
    ensures p <= max
    ensures 0 <= i <= max ==> p == i
  {
    if i <= 0 then 0 else if i >= max then max else i
  }

  function Inserted<T>(s: seq<T>, e: T, index: int): seq<T> {
    var p := Clamp(index, |s|);
    s[..p] + [e] + s[p..]
  }

  function Removed<T>(s: seq<T>, index: int): seq<T> {
    if s == [] then s
    else var p := Clamp(index, |s| - 1); s[..p] + s[p + 1..]
  }

  function ElementAt<T>(s: seq<T>, index: int): Option<T> {
    if s == [] then None else Some(s[Clamp(index, |s| - 1)])
  }

  /** What `Removed` takes out. */
  function Taken<T>(s: seq<T>, index: int): seq<T> {
    if s == [] then [] else [s[Clamp(index, |s| - 1)]]
  }

  /** The same when -1 means that nothing was found. */
  function InsertedIf<T>(s: seq<T>, e: T, index: int): seq<T> {
    if index == -1 then s else Inserted(s, e, index)
  }

  function RemovedIf<T>(s: seq<T>, index: int): seq<T> {
    if index == -1 then s else Removed(s, index)
  }

  function TakenIf<T>(s: seq<T>, index: int): seq<T> {
    if index == -1 then [] else Taken(s, index)
  }

  /** First position whose element satisfies `p`, or -1. */
  function IndexWhere<T>(s: seq<T>, p: T -> bool): (i: int)
    ensures -1 <= i < |s|
    ensures i >= 0 ==> p(s[i]) && forall j :: 0 <= j < i ==> !p(s[j])
    ensures i == -1 ==> forall j :: 0 <= j < |s| ==> !p(s[j])
  {
    if s == [] then -1
    else if p(s[0]) then 0
    else var i := IndexWhere(s[1..], p); if i == -1 then -1 else i + 1
  }

  lemma IndexWhereUnique<T>(s: seq<T>, p: T -> bool, i: int)
    requires -1 <= i < |s|
    requires i >= 0 ==> p(s[i]) && forall j :: 0 <= j < i ==> !p(s[j])
    requires i == -1 ==> forall j :: 0 <= j < |s| ==> !p(s[j])
    ensures IndexWhere(s, p) == i
  {
  }

  ghost predicate NoDuplicates<T>(s: seq<T>) {
    forall i, j :: 0 <= i < j < |s| ==> s[i] != s[j]
  }

  ghost predicate Disjoint<T>(s: seq<T>, t: seq<T>) {
    forall i, j :: 0 <= i < |s| && 0 <= j < |t| ==> s[i] != t[j]
  }

  // --- references: `None` is NULL

  function Last<N>(nodes: seq<N>): Option<N> {
    if nodes == [] then None else Some(nodes[|nodes| - 1])
  }

  function IndexOf<N(==)>(nodes: seq<N>, r: N): int {
    IndexWhere(nodes, n => n == r)
  }

  function IndexOfReference<N(==)>(nodes: seq<N>, r: Option<N>): int {
    if r.None? then |nodes| - 1 else IndexOf(nodes, r.value)
  }

  function NextReference<N(==)>(nodes: seq<N>, r: Option<N>): Option<N> {
    if r.None? then None
    else var i := IndexOf(nodes, r.value);
      if i == -1 || i + 1 == |nodes| then None else Some(nodes[i + 1])
  }

  function PreviousReference<N(==)>(nodes: seq<N>, r: Option<N>): Option<N> {
    if r.None? then Last(nodes)
    else var i := IndexOf(nodes, r.value);
      if i <= 0 then None else Some(nodes[i - 1])
  }

  /** Where an insertion by reference goes: NULL is behind the last node. */
  function PlaceOfReference<N(==)>(nodes: seq<N>, r: Option<N>): int {
    if r.None? then |nodes| else IndexOf(nodes, r.value)
  }

  // ------------------------------------------------------------------- lemmas

  lemma InsertedDisjoint<T>(s: seq<T>, e: T, index: int, t: seq<T>)
    requires Disjoint(s, t) && e !in t
    ensures Disjoint(Inserted(s, e, index), t)
  {
  }

  lemma RemovedCases<T>(s: seq<T>, index: int)
    requires s != []
    ensures |s| == 1 ==> Removed(s, index) == []
    ensures |s| > 1 && index <= 0 ==> Removed(s, index) == s[1..]
    ensures 1 <= index < |s| - 1 ==> Removed(s, index) == s[..index] + s[index + 1..]
    ensures |s| > 1 && index >= |s| - 1 ==> Removed(s, index) == s[..|s| - 1]
  {
  }

  lemma InsertedCases<T>(s: seq<T>, e: T, index: int)
    ensures s == [] || index <= 0 ==> Inserted(s, e, index) == [e] + s
    ensures 1 <= index < |s| ==> Inserted(s, e, index) == s[..index] + [e] + s[index..]
    ensures index >= |s| ==> Inserted(s, e, index) == s + [e]
  {
  }

  lemma RemovedDisjoint<T>(s: seq<T>, index: int, t: seq<T>)
    requires s != [] && NoDuplicates(s) && Disjoint(s, t)
    ensures Disjoint(Removed(s, index), t)
    ensures Disjoint(Removed(s, index), Taken(s, index)) && Disjoint(t, Taken(s, index))
  {
    var r, p := Removed(s, index), Clamp(index, |s| - 1);
    assert forall j :: 0 <= j < |r| ==> r[j] == s[if j < p then j else j + 1];
  }

  lemma PrefixGrows<T>(t: seq<T>, s: seq<T>, k: nat)
    requires k < |s|
    ensures t + s[..k + 1] == t + s[..k] + [s[k]]
  {
  }

  /** A node not yet reached has not been freed yet. */
  lemma PrefixDisjoint<T>(t: seq<T>, s: seq<T>, k: nat)
    requires NoDuplicates(s) && Disjoint(s, t) && k < |s|
    ensures Disjoint(t + s[..k], [s[k]])
  {
  }

  /** For every index, in range or not: a removal undoes an insertion, a lookup sees it. */
  lemma InsertRemoveRoundTrip<T>(s: seq<T>, e: T, index: int)
    ensures Removed(Inserted(s, e, index), index) == s
    ensures ElementAt(Inserted(s, e, index), index) == Some(e)
  {
    var p, t := Clamp(index, |s|), Inserted(s, e, index);
    assert Clamp(index, |t| - 1) == p;
    assert t[..p] + t[p + 1..] == s;
  }

  /** Re-inserting what a removal took out at the same index restores the list. */
  lemma RemoveInsertRoundTrip<T>(s: seq<T>, index: int)
    requires s != []
    ensures Inserted(Removed(s, index), ElementAt(s, index).value, index) == s
  {
  }

  lemma IndexOfMember<N>(nodes: seq<N>, i: nat)
    requires NoDuplicates(nodes) && i < |nodes|
    ensures IndexOf(nodes, nodes[i]) == i
  {
    IndexWhereUnique(nodes, n => n == nodes[i], i);
  }

  /** Index-of-reference and reference-at-index undo each other. */
  lemma ReferenceIndexInverse<N>(nodes: seq<N>, r: N, i: nat)
    requires NoDuplicates(nodes) && r in nodes && i < |nodes|
    ensures ElementAt(nodes, IndexOfReference(nodes, Some(r))) == Some(r)
    ensures IndexOfReference(nodes, ElementAt(nodes, i)) == i
  {
    IndexOfMember(nodes, i);
    var k :| 0 <= k < |nodes| && nodes[k] == r;
    IndexOfMember(nodes, k);
  }

  /** Stepping forward and back returns to the start, even from the last node through NULL. */
  lemma PreviousOfNext<N>(nodes: seq<N>, r: N)
    requires NoDuplicates(nodes) && r in nodes
    ensures PreviousReference(nodes, NextReference(nodes, Some(r))) == Some(r)
    ensures NextReference(nodes, PreviousReference(nodes, Some(r))) == (if r == nodes[0] then None else Some(r))
  {
    var k :| 0 <= k < |nodes| && nodes[k] == r;
    IndexOfMember(nodes, k);
    if k + 1 < |nodes| {
      IndexOfMember(nodes, k + 1);
    }
    if k > 0 {
      IndexOfMember(nodes, k - 1);
    }
  }

  /** NULL stands for the end: an insertion there appends, a removal there takes the last node. */
  lemma NullIsTheEnd<N>(nodes: seq<N>, n: N)
    ensures InsertedIf(nodes, n, PlaceOfReference(nodes, None)) == nodes + [n]
    ensures nodes != [] ==>
              && RemovedIf(nodes, IndexOfReference(nodes, None)) == nodes[..|nodes| - 1]
              && TakenIf(nodes, IndexOfReference(nodes, None)) == [nodes[|nodes| - 1]]
    ensures RemovedIf(InsertedIf(nodes, n, PlaceOfReference(nodes, None)), |nodes|) == nodes
  {
  }

  /** A reference that is not in the list is nowhere, and nothing happens there. */
  lemma StrangersAreNowhere<N>(nodes: seq<N>, r: N, n: N)
    requires r !in nodes
    ensures IndexOfReference(nodes, Some(r)) == -1
    ensures NextReference(nodes, Some(r)) == None == PreviousReference(nodes, Some(r))
    ensures InsertedIf(nodes, n, PlaceOfReference(nodes, Some(r))) == nodes
    ensures RemovedIf(nodes, IndexOfReference(nodes, Some(r))) == nodes
    ensures TakenIf(nodes, IndexOfReference(nodes, Some(r))) == []
  {
    IndexWhereUnique(nodes, m => m == r, -1);
  }

  /** Walking `n` steps from the first reference visits the nodes in list order, then ends. */
  lemma {:induction false} WalkVisitsAll<N>(nodes: seq<N>, k: nat)
    requires NoDuplicates(nodes) && nodes != []
    ensures Walk(nodes, Some(nodes[0]), k) == if k < |nodes| then Some(nodes[k]) else None
    decreases k
  {
    if k > 0 {
      WalkVisitsAll(nodes, k - 1);
      if k - 1 < |nodes| {
        IndexOfMember(nodes, k - 1);
      }
    }
  }

  function Walk<N(==)>(nodes: seq<N>, r: Option<N>, k: nat): Option<N> {
    if k == 0 then r else NextReference(nodes, Walk(nodes, r, k - 1))
  }
}
