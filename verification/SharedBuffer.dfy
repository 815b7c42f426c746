/**
 * sbuffer.c on the heap: a singly linked list with two read flags per node.
 *
 * The ghost field `log` is the meaning of the buffer (SharedQueue.Log): the
 * whole insertion history and the two cursors. `created` and `freed` list
 * every node that malloc returned and every node given to free, in order.
 */
module SharedBuffer {
  import opened Measurements
  import opened SharedQueue

  // Who calls: `pthread_self()` compared with the two reader threads.
  datatype Thread = ReaderThread(reader: Reader) | OtherThread

  class Node {
    var next: Node?
    const data: Measurement
    var datamgrReadStatus: bool
    var storagemgrReadStatus: bool

    constructor (data: Measurement)
      ensures this.data == data && next == null
      ensures !datamgrReadStatus && !storagemgrReadStatus
    {
      this.data := data;
      next := null;
      datamgrReadStatus, storagemgrReadStatus := false, false;
    }

    predicate ReadStatus(r: Reader)
      reads this
    {
      if r.DataMgr? then datamgrReadStatus else storagemgrReadStatus
    }

    function ToCell(): Cell
      reads this
    {
      Cell(data, datamgrReadStatus, storagemgrReadStatus)
    }
  }

  /** Chain and freed nodes when the slower cursor moves by `moved`: the first node goes, or none. */
  ghost function Dropped(nodes: seq<Node>, freed: seq<Node>, moved: int): (seq<Node>, seq<Node>) {
    if moved == 1 && nodes != [] then (nodes[1..], freed + [nodes[0]]) else (nodes, freed)
  }

  class Buffer {
    var head: Node?
    var tail: Node?

    ghost var nodes: seq<Node>
    ghost var log: Log
    ghost var created: seq<Node>
    ghost var freed: seq<Node>
    ghost var disposed: bool

    /** What the linked nodes hold, first to last. */
    ghost function Cells(): (cells: seq<Cell>)
      reads this, nodes
      ensures |cells| == |nodes|
      ensures forall i :: 0 <= i < |nodes| ==> cells[i] == nodes[i].ToCell()
    {
      seq(|nodes|, i requires 0 <= i < |nodes| reads this, nodes => nodes[i].ToCell())
    }

    /** The linked nodes hold exactly the part of the history behind neither cursor. */
    ghost predicate Represents()
      reads `nodes, `log, nodes
    {
      && log.Valid()
      && |nodes| == |log.history| - log.Low()
      && forall i :: 0 <= i < |nodes| ==> nodes[i].ToCell() == CellAt(log, log.Low() + i)
    }

    /** `nodes` is the chain that starts at `head`. */
    ghost predicate Chained()
      reads `head, `nodes, nodes`next
    {
      && head == (if nodes == [] then null else nodes[0])
      && (forall i {:trigger nodes[i].next} :: 0 <= i < |nodes| - 1 ==> nodes[i].next == nodes[i + 1])
      && (nodes != [] ==> nodes[|nodes| - 1].next == null)
      && (forall i, j :: 0 <= i < j < |nodes| ==> nodes[i] != nodes[j])
    }

    ghost predicate Linked()
      reads `head, `tail, `nodes, nodes`next
    {
      Chained() && tail == if nodes == [] then null else nodes[|nodes| - 1]
    }

    /** Every node ever created is freed or linked, never both, and freed once. */
    ghost predicate Accounted()
      reads `nodes, `created, `freed
    {
      created == freed + nodes && NoneTwice()
    }

    ghost predicate NoneTwice()
      reads `created
    {
      forall i, j :: 0 <= i < j < |created| ==> created[i] != created[j]
    }

    ghost predicate Valid()
      reads this, nodes
    {
      && Linked()
      && Accounted()
      && Represents()
      && !disposed
    }

    lemma CellsAreView()
      requires Valid()
      ensures Cells() == View(log)
    {
    }

    /** sbuffer_init */
    constructor ()
      ensures Valid() && nodes == [] && log == Log([], 0, 0)
      ensures created == [] && freed == []
    {
      head, tail := null, null;
      nodes, log := [], Log([], 0, 0);
      created, freed, disposed := [], [], false;
    }

    /** free(): its argument must be a node that malloc returned and free has not seen. */
    ghost method Release(n: Node)
      requires n in created && n !in freed
      modifies `freed
      ensures freed == old(freed) + [n]
    {
      freed := freed + [n];
    }

    /** Moves `tail`: the linking half of `sbuffer_insert`. */
    method LinkLast(dummy: Node)
      requires Linked() && dummy !in nodes && dummy.next == null
      modifies `head, `tail, `nodes, nodes`next
      ensures Linked() && nodes == old(nodes) + [dummy]
    {
      if tail == null {
        head, tail := dummy, dummy;
      } else {
        tail.next := dummy;
        tail := tail.next;
      }
      nodes := nodes + [dummy];
    }

    /**
     * Moves `head` on and frees `dummy`: the reclaiming half of `sbuffer_remove`.
     * It is sound only when the node found is the first one.
     */
    method Reclaim(dummy: Node)
      requires Linked() && Accounted()
      requires nodes != [] && dummy == nodes[0]
      modifies `head, `tail, `nodes, `freed
      ensures Linked() && Accounted()
      ensures nodes == old(nodes)[1..] && freed == old(freed) + [dummy]
    {
      if head == tail {
        head, tail := null, null;
      } else {
        head := head.next;
      }
      nodes := nodes[1..];
      assert forall k :: 0 <= k < |freed| ==> freed[k] == created[k];
      assert dummy == created[|freed|];
      Release(dummy);
    }

    /** The new last node is accounted for and becomes the end of the history. */
    ghost method AddToHistory(dummy: Node)
      requires nodes != [] && nodes[|nodes| - 1] == dummy && dummy !in created
      requires dummy.ToCell() == Cell(dummy.data, false, false)
      requires created == freed + nodes[..|nodes| - 1] && NoneTwice()
      requires log.Valid() && |nodes| - 1 == |log.history| - log.Low()
      requires forall i :: 0 <= i < |nodes| - 1 ==> nodes[i].ToCell() == CellAt(log, log.Low() + i)
      modifies `created, `log
      ensures Accounted() && Represents()
      ensures log == old(log).Insert(dummy.data)
    {
      created := created + [dummy];
      log := log.Insert(dummy.data);
    }

    /** sbuffer_insert on an existing buffer */
    method Append(data: Measurement)
      requires Valid()
      modifies this, nodes
      ensures Valid()
      ensures log == old(log).Insert(data)
      ensures |nodes| == |old(nodes)| + 1 && nodes[..|old(nodes)|] == old(nodes)
      ensures fresh(nodes[|old(nodes)|])
      ensures freed == old(freed)
    {
      var dummy := new Node(data);
      LinkLast(dummy);
      AddToHistory(dummy);
    }

    /**
     * The search loop of `sbuffer_remove`, the same for either reader: the
     * first node whose flag is clear is the one under the reader's cursor.
     */
    method FindUnread(r: Reader) returns (found: Node?)
      requires Linked() && Represents()
      ensures found == if log.Cursor(r) == |log.history| then null else nodes[log.Cursor(r) - log.Low()]
    {
      if head == null {
        return null;
      }

      ghost var k := 0;
      found := head;
      while found.ReadStatus(r)
        invariant 0 <= k < |nodes| && found == nodes[k]
        invariant log.Low() + k <= log.Cursor(r)
        decreases |nodes| - k
      {
        assert nodes[k].ToCell() == CellAt(log, log.Low() + k);
        if found.next == null {
          return null;
        }
        found := found.next;
        k := k + 1;
      }
      assert nodes[k].ToCell() == CellAt(log, log.Low() + k);
    }

    /** Sets `r`'s flag in the node under its cursor; every cell then agrees with the moved cursor. */
    method Flag(r: Reader, dummy: Node)
      requires Linked() && Represents() && log.Cursor(r) < |log.history|
      requires dummy == nodes[log.Cursor(r) - log.Low()]
      modifies dummy`datamgrReadStatus, dummy`storagemgrReadStatus
      ensures forall j :: 0 <= j < |nodes| ==>
                nodes[j].ToCell() == CellAt(log.Advance(r), log.Low() + j)
    {
      if r.DataMgr? {
        dummy.datamgrReadStatus := true;
      } else {
        dummy.storagemgrReadStatus := true;
      }
    }

    /** The end of `sbuffer_remove`: frees the node just flagged if both have now read it. */
    method Settle(r: Reader, dummy: Node)
      requires Linked() && Accounted()
      requires log.Valid() && |nodes| == |log.history| - log.Low()
      requires log.Cursor(r) < |log.history| && dummy == nodes[log.Cursor(r) - log.Low()]
      requires forall j :: 0 <= j < |nodes| ==>
                 nodes[j].ToCell() == CellAt(log.Advance(r), log.Low() + j)
      modifies `head, `tail, `nodes, `freed, `log
      ensures Linked() && Accounted()
      ensures Represents() && log == old(log).Advance(r)
      ensures (nodes, freed) == Dropped(old(nodes), old(freed), log.Low() - old(log).Low())
    {
      ghost var i := log.Cursor(r) - log.Low();
      assert nodes[i].ToCell() == CellAt(log.Advance(r), log.Low() + i);
      if dummy.datamgrReadStatus && dummy.storagemgrReadStatus {
        Reclaim(dummy);
        assert forall j :: 0 <= j < |nodes| ==> nodes[j] == old(nodes)[j + 1];
      } else {
        assert log.Advance(r).Low() == log.Low();
      }
      AdvanceLog(r);
    }

    /** The history variable catches up with the nodes. */
    ghost method AdvanceLog(r: Reader)
      requires log.Valid() && |nodes| == |log.history| - log.Advance(r).Low()
      requires forall j :: 0 <= j < |nodes| ==>
                 nodes[j].ToCell() == CellAt(log.Advance(r), log.Advance(r).Low() + j)
      modifies `log
      ensures Represents() && log == old(log).Advance(r)
    {
      log := log.Advance(r);
    }

    /** sbuffer_remove for reader `r`: one cursor moves, nothing else does. */
    method RemoveFor(r: Reader, data: Measurement) returns (status: Status, out: Measurement)
      requires Valid()
      modifies this, nodes
      ensures Valid()
      ensures status == if old(log.Cursor(r)) == |old(log.history)| then NoData else Success
      ensures out == if status.Success? then old(log.history[log.Cursor(r)]) else data
      ensures log == old(log).Advance(r)
      ensures created == old(created)
      ensures (nodes, freed) == Dropped(old(nodes), old(freed), log.Low() - old(log).Low())
    {
      var dummy := FindUnread(r);
      if dummy == null {
        return NoData, data;
      }
      assert dummy.ToCell().data == log.history[log.Cursor(r)];
      out := dummy.data;
      status := Success;
      Flag(r, dummy);
      Settle(r, dummy);
    }

    /** The loop of `sbuffer_free`: afterwards every node ever created has been freed, once. */
    method FreeNodes()
      requires Valid()
      modifies `head, `nodes, `freed
      ensures head == null && nodes == []
      ensures freed == created
      ensures forall i, j :: 0 <= i < j < |freed| ==> freed[i] != freed[j]
    {
      while head != null
        invariant Chained() && Accounted()
        decreases |nodes|
      {
        var dummy := head;
        head := head.next;
        nodes := nodes[1..];
        assert forall k :: 0 <= k < |freed| ==> freed[k] == created[k];
        assert dummy == created[|freed|];
        Release(dummy);
      }
    }

    // ------------------------------------------------ the functions of sbuffer.h

    static method Insert(buffer: Buffer?, data: Measurement) returns (status: Status)
      requires buffer != null ==> buffer.Valid()
      modifies buffer, if buffer == null then [] else buffer.nodes
      ensures status == if buffer == null then Failure else Success
      ensures buffer != null ==>
        && buffer.Valid()
        && buffer.log == old(buffer.log).Insert(data)
        && buffer.Cells() == InsertCell(old(buffer.Cells()), data)
    {
      if buffer == null {
        return Failure;
      }
      buffer.CellsAreView();
      InsertRefines(buffer.log, data);
      buffer.Append(data);
      buffer.CellsAreView();
      return Success;
    }

    /** `out` stands for `*data` after the call. */
    static method Remove(buffer: Buffer?, caller: Thread, data: Measurement)
      returns (status: Status, out: Measurement)
      requires buffer != null ==> buffer.Valid()
      modifies buffer, if buffer == null then [] else buffer.nodes
      ensures buffer == null ==> status == Failure
      ensures !status.Success? ==> out == data
      ensures buffer != null ==> buffer.Valid()
      ensures buffer != null && caller.OtherThread? ==>
        status == (if old(buffer.Cells()) == [] then NoData else Failure) && buffer.log == old(buffer.log)
      ensures buffer != null && caller.ReaderThread? ==>
        && buffer.log == old(buffer.log).Advance(caller.reader)
        && Outcome(status, out, buffer.Cells()) == RemoveCells(old(buffer.Cells()), caller.reader, data)
    {
      if buffer == null {
        return Failure, data;
      }
      match caller
      case ReaderThread(r) =>
        ghost var g := buffer.log;
        buffer.CellsAreView();
        status, out := buffer.RemoveFor(r, data);
        buffer.CellsAreView();
        assert Outcome(status, out, View(g.Advance(r))) == RemoveCells(View(g), r, data) by {
          RemoveRefines(g, r, data);
        }
      case OtherThread =>
        return (if buffer.head == null then NoData else Failure), data;
    }

    /** sbuffer_free; `rest` stands for `*buffer` after the call. */
    static method Destroy(buffer: Buffer?) returns (status: Status, rest: Buffer?)
      requires buffer != null ==> buffer.Valid()
      modifies buffer
      ensures status == if buffer == null then Failure else Success
      ensures rest == null
      ensures buffer != null ==>
        && buffer.head == null && buffer.disposed
        && buffer.freed == buffer.created == old(buffer.created)
    {
      if buffer == null {
        return Failure, buffer;
      }
      buffer.FreeNodes();
      buffer.disposed := true;
      return Success, null;
    }

    /** sbuffer_get_first_node: the peek, NULL exactly when both readers are up to date. */
    method GetFirstNode() returns (first: Node?)
      requires Valid()
      ensures first == null <==> log.a == log.b == |log.history|
      ensures first != null ==> first.data == log.history[log.Low()]
    {
      if head == null {
        return null;
      }
      assert nodes[0].ToCell() == Cells()[0];
      return head;
    }
  }
}
