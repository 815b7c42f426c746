/**
 * lib/dplist.c on the heap: a list of `prev`/`next` nodes reached from `head`.
 *
 * The ghost field `nodes` is the chain in order. `freed` lists the nodes given
 * to free and `released` the elements given to the `element_free` callback.
 */
module LinkedLists {
  import opened Sequences
  import opened ListOperations
  import opened StableSorting

  class Node<T> {
    var prev: Node?<T>
    var next: Node?<T>
    var element: T

    constructor (element: T)
      ensures this.element == element && prev == null && next == null
    {
      this.element := element;
      prev, next := null, null;
    }
  }

  /** A reference as the pure operations see it. */
  function Ref<T>(r: Node?<T>): Option<Node<T>> {
    if r == null then None else Some(r)
  }

  ghost function ElementsOf<T>(nodes: seq<Node<T>>): (s: seq<T>)
    reads nodes`element
    ensures |s| == |nodes| && forall i :: 0 <= i < |nodes| ==> s[i] == nodes[i].element
  {
    if nodes == [] then [] else [nodes[0].element] + ElementsOf(nodes[1..])
  }

  lemma ElementsOfInserted<T>(nodes: seq<Node<T>>, n: Node<T>, index: int)
    ensures ElementsOf(Inserted(nodes, n, index)) == Inserted(ElementsOf(nodes), n.element, index)
  {
  }

  lemma ElementsOfRemoved<T>(nodes: seq<Node<T>>, index: int)
    ensures ElementsOf(Removed(nodes, index)) == Removed(ElementsOf(nodes), index)
  {
  }

  lemma ElementsOfTaken<T>(nodes: seq<Node<T>>, index: int)
    ensures ElementsOf(Taken(nodes, index)) == Taken(ElementsOf(nodes), index)
  {
  }

  class List<T> {
    const compare: Compare<T>
    const elementCopy: T -> T
    var head: Node?<T>

    ghost var nodes: seq<Node<T>>
    ghost var freed: seq<Node<T>>
    ghost var released: seq<T>
    ghost var disposed: bool

    /** What an insertion stores: the element handed in or the callback's copy of it. */
    function Stored(element: T, insertCopy: bool): T {
      if insertCopy then elementCopy(element) else element
    }

    ghost function Elements(): (s: seq<T>)
      reads `nodes, nodes`element
      ensures |s| == |nodes|
    {
      ElementsOf(nodes)
    }

    /** The chain from `head` is `nodes`, forwards and backwards, without a cycle. */
    ghost predicate Linked()
      reads `head, `nodes, nodes`next, nodes`prev
    {
      && head == (if nodes == [] then null else nodes[0])
      && (forall i {:trigger nodes[i].next} :: 0 <= i < |nodes| - 1 ==> nodes[i].next == nodes[i + 1])
      && (forall i {:trigger nodes[i].prev} :: 1 <= i < |nodes| ==> nodes[i].prev == nodes[i - 1])
      && (nodes != [] ==> nodes[0].prev == null && nodes[|nodes| - 1].next == null)
      && NoDuplicates(nodes)
    }

    ghost predicate NoneFreed()
      reads `nodes, `freed
    {
      Disjoint(nodes, freed)
    }

    ghost predicate Valid()
      reads `head, `nodes, `freed, `disposed, nodes`next, nodes`prev
    {
      Linked() && NoneFreed() && !disposed
    }

    /** dpl_create */
    constructor (compare: Compare<T>, elementCopy: T -> T)
      ensures Valid() && nodes == [] && freed == [] && released == []
      ensures this.compare == compare && this.elementCopy == elementCopy
    {
      this.compare, this.elementCopy := compare, elementCopy;
      head := null;
      nodes, freed, released, disposed := [], [], [], false;
    }

    /** free() of a node: only of one that has not been freed before. */
    ghost method Release(n: Node<T>)
      requires Disjoint(freed, [n])
      modifies `freed
      ensures freed == old(freed) + [n]
    {
      freed := freed + [n];
    }

    // ------------------------------------------------------------ size and lookup

    method Size() returns (count: nat)
      requires Linked()
      ensures count == |nodes|
    {
      count := 0;
      if head == null {
        return;
      }
      var dummy := head;
      count := 1;
      while dummy.next != null
        invariant 1 <= count <= |nodes| && dummy == nodes[count - 1]
        decreases |nodes| - count
      {
        dummy := dummy.next;
        count := count + 1;
      }
    }

    method GetReferenceAtIndex(index: int) returns (r: Node?<T>)
      requires Linked()
      ensures Ref(r) == ElementAt(nodes, index)
    {
      if head == null {
        return null;
      }
      var dummy, count := head, 0;
      while dummy.next != null
        invariant 0 <= count < |nodes| && dummy == nodes[count]
        invariant count == 0 || count - 1 < index
        decreases |nodes| - count
      {
        if count >= index {
          return dummy;
        }
        dummy, count := dummy.next, count + 1;
      }
      return dummy;
    }

    method GetElementAtIndex(index: int) returns (element: Option<T>)
      requires Linked()
      ensures element == ElementAt(Elements(), index)
    {
      if head == null {
        return None;
      }
      var dummy, count := head, 0;
      while dummy.next != null
        invariant 0 <= count < |nodes| && dummy == nodes[count]
        invariant count == 0 || count - 1 < index
        decreases |nodes| - count
      {
        if count >= index {
          return Some(dummy.element);
        }
        dummy, count := dummy.next, count + 1;
      }
      return Some(dummy.element);
    }

    method GetIndexOfElement(element: T) returns (index: int)
      requires Linked()
      ensures index == IndexWhere(Elements(), x => compare(x, element) == 0)
    {
      ghost var p := x => compare(x, element) == 0;
      index := 0;
      if head == null {
        return -1;
      }
      var dummy := head;
      while dummy.next != null
        invariant 0 <= index < |nodes| && dummy == nodes[index]
        invariant forall j :: 0 <= j < index ==> !p(Elements()[j])
        decreases |nodes| - index
      {
        if compare(dummy.element, element) == 0 {
          IndexWhereUnique(Elements(), p, index);
          return;
        }
        dummy := dummy.next;
        index := index + 1;
      }
      if compare(dummy.element, element) == 0 {
        IndexWhereUnique(Elements(), p, index);
        return;
      }
      IndexWhereUnique(Elements(), p, -1);
      return -1;
    }

    // ----------------------------------------------------------- insertion

    method LinkFirst(n: Node<T>)
      requires Linked() && n !in nodes && n.prev == null
      modifies `head, `nodes, n`next, nodes`prev
      ensures Linked() && nodes == [n] + old(nodes)
    {
      n.next := head;
      if head != null {
        head.prev := n;
      }
      head := n;
      nodes := [n] + nodes;
    }

    method LinkBefore(n: Node<T>, next: Node<T>, ghost k: nat)
      requires Linked() && n !in nodes && 1 <= k < |nodes| && next == nodes[k]
      modifies `nodes, n`next, n`prev, nodes`next, nodes`prev
      ensures Linked() && nodes == old(nodes)[..k] + [n] + old(nodes)[k..]
    {
      assert next.prev == nodes[k - 1];
      n.prev := next.prev;
      n.next := next;
      next.prev.next := n;
      next.prev := n;
      nodes := nodes[..k] + [n] + nodes[k..];
    }

    method LinkLast(n: Node<T>, last: Node<T>)
      requires Linked() && n !in nodes && nodes != [] && last == nodes[|nodes| - 1]
      modifies `nodes, n`next, n`prev, last`next
      ensures Linked() && nodes == old(nodes) + [n]
    {
      n.next := null;
      n.prev := last;
      last.next := n;
      nodes := nodes + [n];
    }

    /** The three linking cases of `dpl_insert_at_index`. */
    method LinkAt(listNode: Node<T>, index: int)
      requires Linked() && listNode !in nodes && listNode.prev == null
      modifies `head, `nodes, listNode`next, listNode`prev, nodes`next, nodes`prev
      ensures Linked() && nodes == Inserted(old(nodes), listNode, index)
    {
      ghost var before := nodes;
      if head == null {
        LinkFirst(listNode);
      } else if index <= 0 {
        LinkFirst(listNode);
      } else {
        var refAtIndex := GetReferenceAtIndex(index);
        assert refAtIndex != null;
        var size := Size();
        if index < size {
          LinkBefore(listNode, refAtIndex, index);
        } else {
          assert refAtIndex.next == null;
          LinkLast(listNode, refAtIndex);
        }
      }
      assert nodes == Inserted(before, listNode, index) by {
        InsertedCases(before, listNode, index);
      }
    }

    /** Linking in a node moves no element. */
    method InsertNode(listNode: Node<T>, index: int)
      requires Valid() && listNode !in nodes && listNode !in freed && listNode.prev == null
      modifies `head, `nodes, listNode`next, listNode`prev, nodes`next, nodes`prev
      ensures Valid() && nodes == Inserted(old(nodes), listNode, index)
      ensures Elements() == Inserted(old(Elements()), listNode.element, index)
    {
      ghost var before, elements := nodes, Elements();
      InsertedDisjoint(before, listNode, index, freed);
      LinkAt(listNode, index);
      assert ElementsOf(before) == elements;
      assert Elements() == Inserted(elements, listNode.element, index) by {
        ElementsOfInserted(before, listNode, index);
      }
    }

    method InsertAtIndex(element: T, index: int, insertCopy: bool) returns (ghost added: Node<T>)
      requires Valid()
      modifies `head, `nodes, nodes`next, nodes`prev
      ensures Valid()
      ensures fresh(added) && nodes == Inserted(old(nodes), added, index)
      ensures Elements() == Inserted(old(Elements()), Stored(element, insertCopy), index)
      ensures insertCopy ==> added.element == elementCopy(element)
      ensures !insertCopy ==> added.element == element
    {
      ghost var elements := Elements();
      var listNode := new Node(if insertCopy then elementCopy(element) else element);
      added := listNode;
      assert Elements() == elements;
      InsertNode(listNode, index);
    }

    // ------------------------------------------------------------- removal

    method UnlinkFirst()
      requires Linked() && |nodes| > 1
      modifies `head, `nodes, nodes`prev
      ensures Linked() && nodes == old(nodes)[1..]
    {
      head := head.next;
      head.prev := null;
      nodes := nodes[1..];
    }

    method UnlinkBetween(dummy: Node<T>, ghost k: nat)
      requires Linked() && 1 <= k < |nodes| - 1 && dummy == nodes[k]
      modifies `nodes, nodes`next, nodes`prev
      ensures Linked() && nodes == old(nodes)[..k] + old(nodes)[k + 1..]
    {
      assert dummy.prev == nodes[k - 1] && dummy.next == nodes[k + 1];
      dummy.next.prev := dummy.prev;
      dummy.prev.next := dummy.next;
      nodes := nodes[..k] + nodes[k + 1..];
    }

    method UnlinkLast(dummy: Node<T>)
      requires Linked() && |nodes| > 1 && dummy == nodes[|nodes| - 1]
      modifies `nodes, nodes`next
      ensures Linked() && nodes == old(nodes)[..|old(nodes)| - 1]
    {
      assert dummy.prev == nodes[|nodes| - 2];
      dummy.prev.next := null;
      nodes := nodes[..|nodes| - 1];
    }

    /**
     * The unlinking cases of `dpl_remove_at_index` on a list that is not empty.
     * With more than one node the first has a successor, so the code's branch
     * for a first node without one is never taken.
     */
    method UnlinkAt(index: int) returns (dummy: Node<T>)
      requires Linked() && head != null
      modifies `head, `nodes, nodes`next, nodes`prev
      ensures Linked() && nodes == Removed(old(nodes), index)
      ensures [dummy] == Taken(old(nodes), index)
    {
      ghost var before := nodes;
      var size := Size();
      if size > 1 {
        if index <= 0 {
          dummy := GetReferenceAtIndex(0);
          UnlinkFirst();
        } else {
          dummy := GetReferenceAtIndex(index);
          if dummy.next != null {
            UnlinkBetween(dummy, index);
          } else {
            UnlinkLast(dummy);
          }
        }
      } else {
        dummy := GetReferenceAtIndex(0);
        head := null;
        nodes := [];
      }
      assert nodes == Removed(before, index) by {
        RemovedCases(before, index);
      }
    }

    /** Unlinking moves no element. */
    method RemoveNode(index: int) returns (dummy: Node<T>)
      requires Linked() && head != null
      modifies `head, `nodes, nodes`next, nodes`prev
      ensures Linked() && nodes == Removed(old(nodes), index)
      ensures [dummy] == Taken(old(nodes), index)
      ensures Elements() == Removed(old(Elements()), index)
      ensures [dummy.element] == Taken(old(Elements()), index)
    {
      ghost var before, elements := nodes, Elements();
      dummy := UnlinkAt(index);
      assert ElementsOf(before) == elements;
      assert Elements() == Removed(elements, index) by {
        ElementsOfRemoved(before, index);
      }
      assert [dummy.element] == Taken(elements, index) by {
        ElementsOfTaken(before, index);
        assert ElementsOf([dummy]) == [dummy.element];
      }
    }

    /** The node taken out is neither linked nor freed yet. */
    method Detach(index: int) returns (dummy: Node<T>)
      requires Valid() && head != null
      modifies `head, `nodes, nodes`next, nodes`prev
      ensures Valid() && nodes == Removed(old(nodes), index)
      ensures [dummy] == Taken(old(nodes), index)
      ensures Disjoint(nodes, [dummy]) && Disjoint(freed, [dummy])
      ensures Elements() == Removed(old(Elements()), index)
      ensures [dummy.element] == Taken(old(Elements()), index)
    {
      RemovedDisjoint(nodes, index, freed);
      dummy := RemoveNode(index);
    }

    /** Frees a node that is no longer linked, its element too when asked. */
    method Dispose(dummy: Node<T>, freeElement: bool)
      requires Valid() && Disjoint(nodes, [dummy]) && Disjoint(freed, [dummy])
      modifies `freed, `released
      ensures Valid() && Elements() == old(Elements()) && freed == old(freed) + [dummy]
      ensures released == old(released) + (if freeElement then [dummy.element] else [])
    {
      if freeElement {
        released := released + [dummy.element];
      }
      Release(dummy);
    }

    method RemoveAtIndex(index: int, freeElement: bool)
      requires Valid()
      modifies `head, `nodes, `freed, `released, nodes`next, nodes`prev
      ensures Valid() && nodes == Removed(old(nodes), index)
      ensures Elements() == Removed(old(Elements()), index)
      ensures freed == old(freed) + Taken(old(nodes), index)
      ensures released == old(released) + (if freeElement then Taken(old(Elements()), index) else [])
    {
      if head == null {
        return;
      }
      var dummy := Detach(index);
      Dispose(dummy, freeElement);
    }

    /** The loop body of `dpl_free` at position `k`; it answers the next node. */
    method FreeNode(thisNode: Node<T>, freeElement: bool, ghost k: nat) returns (nextNode: Node?<T>)
      requires Linked() && k < |nodes| && thisNode == nodes[k] && Disjoint(freed, [thisNode])
      modifies `freed, `released
      ensures Linked() && Elements() == old(Elements())
      ensures nextNode == if k + 1 < |nodes| then nodes[k + 1] else null
      ensures freed == old(freed) + [thisNode]
      ensures released == old(released) + (if freeElement then [Elements()[k]] else [])
    {
      if freeElement {
        released := released + [thisNode.element];
      }
      nextNode := thisNode.next;
      Release(thisNode);
    }

    /** dpl_free: every node is freed exactly once, front to back, then the list; `list` is `*list`. */
    method Free(freeElement: bool) returns (list: List?<T>)
      requires Valid()
      modifies `freed, `released, `disposed
      ensures list == null && disposed
      ensures freed == old(freed) + nodes
      ensures released == old(released) + (if freeElement then Elements() else [])
    {
      var thisNode := head;
      ghost var k, before, given, elements := 0, freed, released, Elements();
      while thisNode != null
        invariant 0 <= k <= |nodes| && thisNode == if k < |nodes| then nodes[k] else null
        invariant Linked() && Elements() == elements
        invariant freed == before + nodes[..k]
        invariant released == given + (if freeElement then elements[..k] else [])
        decreases |nodes| - k
      {
        PrefixDisjoint(before, nodes, k);
        PrefixGrows(before, nodes, k);
        PrefixGrows(given, elements, k);
        thisNode := FreeNode(thisNode, freeElement, k);
        k := k + 1;
      }
      assert nodes[..k] == nodes && elements[..k] == elements;
      disposed := true;
      list := null;
    }

    // ----------------------------------------------------- reference navigation

    method GetFirstReference() returns (r: Node?<T>)
      requires Linked()
      ensures Ref(r) == ElementAt(nodes, 0)
    {
      if head == null {
        return null;
      }
      return head;
    }

    method GetLastReference() returns (r: Node?<T>)
      requires Linked()
      ensures Ref(r) == Last(nodes)
    {
      if head == null {
        return null;
      }
      var size := Size();
      r := GetReferenceAtIndex(size - 1);
    }

    method GetNextReference(reference: Node?<T>) returns (r: Node?<T>)
      requires Linked()
      ensures Ref(r) == NextReference(nodes, Ref(reference))
    {
      if head == null || reference == null {
        return null;
      }
      var dummy := head;
      ghost var k := 0;
      while dummy.next != null
        invariant 0 <= k < |nodes| && dummy == nodes[k]
        invariant forall j :: 0 <= j < k ==> nodes[j] != reference
        decreases |nodes| - k
      {
        if dummy == reference {
          IndexOfMember(nodes, k);
          return dummy.next;
        }
        dummy := dummy.next;
        k := k + 1;
      }
      if dummy == reference {
        IndexOfMember(nodes, k);
      }
      return null;
    }

    /** The search loop that the operations below repeat; -1 when it fails. */
    method FindReference(reference: Node<T>) returns (index: int)
      requires Linked() && head != null
      ensures index == IndexOf(nodes, reference)
    {
      var dummy := head;
      index := 0;
      while dummy.next != null
        invariant 0 <= index < |nodes| && dummy == nodes[index]
        invariant forall j :: 0 <= j < index ==> nodes[j] != reference
        decreases |nodes| - index
      {
        if dummy == reference {
          IndexOfMember(nodes, index);
          return;
        }
        dummy := dummy.next;
        index := index + 1;
      }
      if dummy == reference {
        IndexOfMember(nodes, index);
        return;
      }
      IndexWhereUnique(nodes, n => n == reference, -1);
      return -1;
    }

    method GetPreviousReference(reference: Node?<T>) returns (r: Node?<T>)
      requires Linked()
      ensures Ref(r) == PreviousReference(nodes, Ref(reference))
    {
      if head == null {
        return null;
      }
      if reference == null {
        var size := Size();
        r := GetReferenceAtIndex(size - 1);
        return;
      }
      var index := FindReference(reference);
      return if index == -1 then null else reference.prev;
    }

    method GetElementAtReference(reference: Node?<T>) returns (element: Option<T>)
      requires Linked()
      ensures element ==
              var i := IndexOfReference(nodes, Ref(reference));
              if i == -1 then None else Some(Elements()[i])
    {
      if head == null {
        return None;
      }
      if reference == null {
        var size := Size();
        element := GetElementAtIndex(size - 1);
        return;
      }
      var index := FindReference(reference);
      return if index == -1 then None else Some(reference.element);
    }

    method GetReferenceOfElement(element: T) returns (r: Node?<T>)
      requires Linked()
      ensures Ref(r) ==
              var i := IndexWhere(Elements(), x => compare(x, element) == 0);
              if i == -1 then None else Some(nodes[i])
    {
      if head == null {
        return null;
      }
      var index := GetIndexOfElement(element);
      if index == -1 {
        return null;
      }
      r := GetReferenceAtIndex(index);
    }

    method GetIndexOfReference(reference: Node?<T>) returns (index: int)
      requires Linked()
      ensures index == IndexOfReference(nodes, Ref(reference))
    {
      if head == null {
        return -1;
      }
      if reference == null {
        var size := Size();
        return size - 1;
      }
      index := FindReference(reference);
    }

    // ------------------------------------------- insertion and removal by reference

    /** How an insertion by reference ends: -1 leaves the list as it is. */
    method InsertIfFound(element: T, index: int, insertCopy: bool) returns (ghost added: Node?<T>)
      requires Valid()
      modifies `head, `nodes, nodes`next, nodes`prev
      ensures Valid()
      ensures if index == -1 then added == null && nodes == old(nodes)
              else added != null && fresh(added) && nodes == Inserted(old(nodes), added, index)
      ensures Elements() == InsertedIf(old(Elements()), Stored(element, insertCopy), index)
      ensures added != null ==> added.element == if insertCopy then elementCopy(element) else element
    {
      added := null;
      if index != -1 {
        added := InsertAtIndex(element, index, insertCopy);
      }
    }

    /** Where `dpl_insert_at_reference` inserts: the end for NULL, -1 for a stranger. */
    method IndexToInsert(reference: Node?<T>) returns (index: int)
      requires Linked()
      ensures index == PlaceOfReference(nodes, Ref(reference))
    {
      if reference == null {
        index := Size();
      } else {
        index := GetIndexOfReference(reference);
      }
    }

    method InsertAtReference(element: T, reference: Node?<T>, insertCopy: bool)
      returns (ghost place: int, ghost added: Node?<T>)
      requires Valid()
      modifies `head, `nodes, nodes`next, nodes`prev
      ensures Valid()
      ensures place == PlaceOfReference(old(nodes), Ref(reference))
      ensures if place == -1 then added == null && nodes == old(nodes)
              else added != null && fresh(added) && nodes == Inserted(old(nodes), added, place)
      ensures Elements() == InsertedIf(old(Elements()), Stored(element, insertCopy), place)
      ensures added != null && insertCopy ==> added.element == elementCopy(element)
      ensures added != null && !insertCopy ==> added.element == element
    {
      var index := IndexToInsert(reference);
      place := index;
      added := InsertIfFound(element, index, insertCopy);
    }

    /** How a removal by reference or by element ends: -1 leaves the list as it is. */
    method RemoveIfFound(index: int, freeElement: bool)
      requires Valid()
      modifies `head, `nodes, `freed, `released, nodes`next, nodes`prev
      ensures Valid() && nodes == RemovedIf(old(nodes), index)
      ensures Elements() == RemovedIf(old(Elements()), index)
      ensures freed == old(freed) + TakenIf(old(nodes), index)
      ensures released == old(released) + (if freeElement then TakenIf(old(Elements()), index) else [])
    {
      if index != -1 {
        RemoveAtIndex(index, freeElement);
      }
    }

    /** Where `dpl_remove_at_reference` removes: -1 on an empty list and for a stranger. */
    method IndexToRemove(reference: Node?<T>) returns (index: int)
      requires Linked()
      ensures index == IndexOfReference(nodes, Ref(reference))
      ensures reference != null && reference !in nodes ==> index == -1
    {
      index := -1;
      if head != null {
        if reference == null {
          var size := Size();
          index := size - 1;
        } else {
          index := GetIndexOfReference(reference);
        }
      }
    }

    method RemoveAtReference(reference: Node?<T>, freeElement: bool) returns (ghost place: int)
      requires Valid()
      modifies `head, `nodes, `freed, `released, nodes`next, nodes`prev
      ensures Valid()
      ensures place == IndexOfReference(old(nodes), Ref(reference))
      ensures nodes == RemovedIf(old(nodes), place)
      ensures Elements() == RemovedIf(old(Elements()), place)
      ensures freed == old(freed) + TakenIf(old(nodes), place)
      ensures released == old(released) + (if freeElement then TakenIf(old(Elements()), place) else [])
      ensures reference != null && reference !in old(nodes) ==>
                && nodes == old(nodes) && Elements() == old(Elements())
                && freed == old(freed) && released == old(released)
    {
      var index := IndexToRemove(reference);
      place := index;
      RemoveIfFound(index, freeElement);
    }

    method RemoveElement(element: T, freeElement: bool) returns (ghost place: int)
      requires Valid()
      modifies `head, `nodes, `freed, `released, nodes`next, nodes`prev
      ensures Valid()
      ensures place == IndexWhere(old(Elements()), x => compare(x, element) == 0)
      ensures nodes == RemovedIf(old(nodes), place)
      ensures Elements() == RemovedIf(old(Elements()), place)
      ensures freed == old(freed) + TakenIf(old(nodes), place)
      ensures released == old(released) + (if freeElement then TakenIf(old(Elements()), place) else [])
      ensures (forall k :: 0 <= k < |old(Elements())| ==> compare(old(Elements())[k], element) != 0) ==>
                && nodes == old(nodes) && Elements() == old(Elements())
                && freed == old(freed) && released == old(released)
    {
      var index := -1;
      if head != null {
        index := GetIndexOfElement(element);
      }
      place := index;
      RemoveIfFound(index, freeElement);
    }

    // --------------------------------------------------------- dpl_insert_sorted

    /** Exchanges the payloads of two neighbours; no node moves. */
    method SwapElements(dummy: Node<T>, next: Node<T>, ghost i: nat)
      requires Linked() && i + 1 < |nodes| && dummy == nodes[i] && next == nodes[i + 1]
      modifies dummy`element, next`element
      ensures Linked()
      ensures Elements() == Swapped(old(Elements()), i)
    {
      var tempElement := dummy.element;
      dummy.element := next.element;
      next.element := tempElement;
    }

    /** The body of the inner loop at position `i`. */
    method CompareAndSwap(dummy: Node<T>, swapped: bool, ghost i: nat, ghost end: nat) returns (swapped': bool)
      requires Linked() && i + 1 < end <= |nodes| && dummy == nodes[i]
      modifies nodes`element
      ensures Linked()
      ensures Pass(compare, Elements(), i + 1, end, swapped') == Pass(compare, old(Elements()), i, end, swapped)
    {
      var next := dummy.next;
      assert next == nodes[i + 1];
      swapped' := swapped;
      if compare(dummy.element, next.element) == 1 {
        SwapElements(dummy, next, i);
        swapped' := true;
      }
    }

    method PassStep(dummy: Node<T>, swapped: bool, ghost i: nat, ghost end: nat, ghost pass: (seq<T>, bool))
      returns (next: Node<T>, swapped': bool)
      requires Linked() && i + 1 < end <= |nodes| && dummy == nodes[i]
      modifies nodes`element
      requires pass == Pass(compare, Elements(), i, end, swapped)
      ensures Linked() && next == nodes[i + 1]
      ensures pass == Pass(compare, Elements(), i + 1, end, swapped')
    {
      swapped' := CompareAndSwap(dummy, swapped, i, end);
      next := dummy.next;
    }

    /**
     * One pass of the inner loop, up to but not including `ldummy` (NULL the
     * first time). The node it stops at is the next `ldummy`, one to the left.
     */
    method BubblePass(ldummy: Node?<T>, ghost end: nat) returns (last: Node<T>, swapped: bool)
      requires Linked() && 1 <= end <= |nodes|
      requires ldummy == if end < |nodes| then nodes[end] else null
      modifies nodes`element
      ensures Linked()
      ensures (Elements(), swapped) == Pass(compare, old(Elements()), 0, end, false)
      ensures last == nodes[end - 1]
    {
      ghost var pass, i := Pass(compare, Elements(), 0, end, false), 0;
      swapped := false;
      last := head;
      while last.next != ldummy
        invariant 0 <= i < end <= |nodes| && last == nodes[i]
        invariant Linked()
        invariant pass == Pass(compare, Elements(), i, end, swapped)
        decreases end - i
      {
        assert i + 1 < end by {
          PassEndsAt(ldummy, i, end);
        }
        last, swapped := PassStep(last, swapped, i, end, pass);
        i := i + 1;
      }
      assert i + 1 == end by {
        PassEndsAt(ldummy, i, end);
      }
    }

    /** `ldummy` is met exactly at the last position of the pass. */
    lemma PassEndsAt(ldummy: Node?<T>, i: nat, end: nat)
      requires Linked() && i < end <= |nodes|
      requires ldummy == if end < |nodes| then nodes[end] else null
      ensures nodes[i].next == ldummy <==> i + 1 == end
    {
    }

    /** One turn of the outer loop, with its end at `end`. */
    method BubbleTurn(ldummy: Node?<T>, ghost end: nat) returns (last: Node<T>, swapped: bool)
      requires Linked() && 1 <= end <= |nodes|
      requires ldummy == if end < |nodes| then nodes[end] else null
      modifies nodes`element
      ensures Linked() && nodes == old(nodes) && last == nodes[end - 1]
      ensures swapped ==> end > 1
      ensures Bubble(compare, old(Elements()), end) ==
              if swapped then Bubble(compare, Elements(), end - 1) else Elements()
    {
      last, swapped := BubblePass(ldummy, end);
    }

    /** The outer loop: at most one pass per node; payloads move and nodes stay. */
    method BubbleSort() returns (ghost passes: nat)
      requires Linked() && nodes != []
      modifies nodes`element
      ensures Linked()
      ensures Elements() == Bubble(compare, old(Elements()), |nodes|)
      ensures 1 <= passes <= |nodes|
    {
      ghost var end, sorted, chain := |nodes|, Bubble(compare, Elements(), |nodes|), nodes;
      var ldummy, swapped := BubbleTurn(null, end);
      passes := 1;
      while swapped
        invariant Linked() && nodes == chain
        invariant 1 <= end <= |nodes| && passes + end == |nodes| + 1
        invariant swapped ==> end > 1
        invariant ldummy == nodes[end - 1]
        invariant sorted == if swapped then Bubble(compare, Elements(), end - 1) else Elements()
        decreases end
      {
        end := end - 1;
        ldummy, swapped := BubbleTurn(ldummy, end);
        passes := passes + 1;
      }
    }

    /** The second loop: the first position whose element is greater, or the end. */
    method FindPlace(element: T) returns (index: nat)
      requires Linked() && head != null
      ensures index <= |nodes|
      ensures StableInsert(compare, Elements(), element) == Inserted(Elements(), element, index)
    {
      index := 0;
      var dummy := head;
      while true
        invariant 0 <= index < |nodes| && dummy == nodes[index]
        invariant forall j :: 0 <= j < index ==> !Greater(compare, Elements()[j], element)
        decreases |nodes| - index
      {
        if compare(dummy.element, element) == 1 {
          StableInsertAt(compare, Elements(), element, index);
          return;
        }
        index := index + 1;
        if dummy.next != null {
          dummy := dummy.next;
        } else {
          StableInsertAt(compare, Elements(), element, index);
          return;
        }
      }
    }

    /**
     * Payloads are sorted and a new node is linked in; the old nodes keep their
     * order. The place is that of `element`, also when a copy of it is stored.
     */
    method InsertSorted(element: T, insertCopy: bool) returns (ghost place: nat, ghost added: Node<T>)
      requires Valid()
      modifies `head, `nodes, nodes
      ensures Valid()
      ensures var sorted := Bubbled(compare, old(Elements()));
        && SortedInsertion(compare, old(Elements()), element) == Inserted(sorted, element, place)
        && Elements() == Inserted(sorted, Stored(element, insertCopy), place)
      ensures place <= |old(nodes)| && fresh(added) && nodes == Inserted(old(nodes), added, place)
      ensures insertCopy ==> added.element == elementCopy(element)
      ensures !insertCopy ==> added.element == element
    {
      if head == null {
        place := 0;
        added := InsertAtIndex(element, 0, insertCopy);
      } else {
        ghost var passes := BubbleSort();
        var index := FindPlace(element);
        place := index;
        added := InsertAtIndex(element, index, insertCopy);
      }
    }
  }

  /** An insertion behind the last position: one fresh node with the copy at the end. */
  method AppendCopy<T>(list: List<T>, record: T, index: int) returns (ghost added: Node<T>)
    requires list.Valid() && index > |list.nodes|
    modifies list`head, list`nodes, list.nodes`next, list.nodes`prev
    ensures list.Valid() && fresh(added) && list.nodes == old(list.nodes) + [added]
    ensures list.Elements() == old(list.Elements()) + [list.elementCopy(record)]
  {
    ghost var before, elements := list.nodes, list.Elements();
    added := list.InsertAtIndex(record, index, true);
    InsertedCases(before, added, index);
    InsertedCases(elements, added.element, index);
  }

  ghost predicate HoldsCopies<T>(list: List<T>, records: seq<T>)
    reads list`nodes, list.nodes`element
  {
    list.Elements() == Map(list.elementCopy, records)
  }

  /**
   * The list as datamgr.c fills it from the room map, with indices that count
   * from 1 and a copy of each record: afterwards it holds exactly the copies,
   * in the order of the lines, and none of the records that the caller frees.
   */
  method LoadCopies<T>(list: List<T>, records: seq<T>)
    requires list.Valid() && list.nodes == []
    modifies list`head, list`nodes
    ensures list.Valid() && HoldsCopies(list, records)
  {
    var nrOfLines := 0;
    while nrOfLines < |records|
      invariant 0 <= nrOfLines <= |records| && |list.nodes| == nrOfLines
      invariant list.Valid()
      invariant forall i :: 0 <= i < nrOfLines ==> fresh(list.nodes[i])
      invariant HoldsCopies(list, records[..nrOfLines])
    {
      var record := records[nrOfLines];
      assert Map(list.elementCopy, records[..nrOfLines + 1]) ==
             Map(list.elementCopy, records[..nrOfLines]) + [list.elementCopy(record)];
      nrOfLines := nrOfLines + 1;
      ghost var added := AppendCopy(list, record, nrOfLines);
    }
    assert records[..|records|] == records;
  }
}
