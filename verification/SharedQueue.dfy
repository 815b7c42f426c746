/**
 * The two-reader queue of sbuffer.c on values.
 *
 * `RemoveCells` says what one call does to the list of cells, exactly as the
 * code does it: search for the first cell this reader has not flagged, flag it,
 * and if both flags are now set drop the *first* cell. `View` is the meaning of
 * such a list: one insertion history with a cursor for each reader.
 */
module SharedQueue {
  import opened Sequences
  import opened Measurements

  datatype Reader = DataMgr | StorageMgr

  datatype Status = Success | NoData | Failure

  datatype Cell = Cell(data: Measurement, byDataMgr: bool, byStorageMgr: bool) {
    predicate ReadBy(r: Reader) {
      if r.DataMgr? then byDataMgr else byStorageMgr
    }

    function Mark(r: Reader): Cell {
      if r.DataMgr? then this.(byDataMgr := true) else this.(byStorageMgr := true)
    }

    predicate ReadByBoth() {
      byDataMgr && byStorageMgr
    }
  }

  datatype Outcome = Outcome(status: Status, data: Measurement, cells: seq<Cell>)

  /** Index of the first cell that `r` has not read, or |cells|. */
  function FirstUnread(cells: seq<Cell>, r: Reader): (i: nat)
    ensures i <= |cells|
    ensures forall j :: 0 <= j < i ==> cells[j].ReadBy(r)
    ensures i < |cells| ==> !cells[i].ReadBy(r)
  {
    if cells == [] || !cells[0].ReadBy(r) then 0 else 1 + FirstUnread(cells[1..], r)
  }

  function InsertCell(cells: seq<Cell>, m: Measurement): seq<Cell> {
    cells + [Cell(m, false, false)]
  }

  /** `data` is the caller's record: it is overwritten on success only. */
  function RemoveCells(cells: seq<Cell>, r: Reader, data: Measurement): Outcome {
    var i := FirstUnread(cells, r);
    if i == |cells| then
      Outcome(NoData, data, cells)
    else
      var marked := cells[i := cells[i].Mark(r)];
      Outcome(Success, cells[i].data, if marked[i].ReadByBoth() then marked[1..] else marked)
  }

  // ------------------------------------------------------------ specification

  /** A history of insertions and how far each reader has got in it. */
  datatype Log = Log(history: seq<Measurement>, a: nat, b: nat) {
    ghost predicate Valid() {
      a <= |history| && b <= |history|
    }

    function Cursor(r: Reader): nat {
      if r.DataMgr? then a else b
    }

    function Low(): nat {
      if a <= b then a else b
    }

    function Insert(m: Measurement): Log {
      this.(history := history + [m])
    }

    function Advance(r: Reader): Log {
      if Cursor(r) == |history| then this
      else if r.DataMgr? then this.(a := a + 1) else this.(b := b + 1)
    }

    /** Deliveries still owed to the two readers together. */
    function Owed(): int {
      2 * |history| - a - b
    }
  }

  /** The cell of the k-th reading ever inserted. */
  function CellAt(g: Log, k: nat): Cell
    requires k < |g.history|
  {
    Cell(g.history[k], k < g.a, k < g.b)
  }

  /** The cells that represent `g`: those not yet behind both cursors. */
  ghost function View(g: Log): (cells: seq<Cell>)
    requires g.Valid()
    ensures |cells| == |g.history| - g.Low()
    ensures forall i :: 0 <= i < |cells| ==> cells[i] == CellAt(g, g.Low() + i)
  {
    seq(|g.history| - g.Low(), i requires 0 <= i < |g.history| - g.Low() => CellAt(g, g.Low() + i))
  }

  /** The shape a cell list must have, stated without any history. */
  ghost predicate Shape(cells: seq<Cell>) {
    && (forall r, i, j :: 0 <= i < j < |cells| && cells[j].ReadBy(r) ==> cells[i].ReadBy(r))
    && (forall i :: 0 <= i < |cells| ==> !cells[i].ReadByBoth())
  }

  // ------------------------------------------------------------------- lemmas

  lemma ShapeOfView(g: Log)
    requires g.Valid()
    ensures Shape(View(g))
  {
  }

  lemma FirstUnreadUnique(cells: seq<Cell>, r: Reader, i: nat)
    requires i <= |cells|
    requires forall j :: 0 <= j < i ==> cells[j].ReadBy(r)
    requires i < |cells| ==> !cells[i].ReadBy(r)
    ensures FirstUnread(cells, r) == i
  {
  }

  /** The history and cursors that a list of that shape stands for. */
  ghost function LogOf(cells: seq<Cell>): Log {
    Log(Map((c: Cell) => c.data, cells), FirstUnread(cells, DataMgr), FirstUnread(cells, StorageMgr))
  }

  lemma ViewOfShape(cells: seq<Cell>)
    requires Shape(cells)
    ensures LogOf(cells).Valid() && View(LogOf(cells)) == cells
  {
    var g := LogOf(cells);
    assert g.Low() == 0 by {
      assert g.a > 0 ==> cells[0].ReadBy(DataMgr);
      assert g.b > 0 ==> cells[0].ReadBy(StorageMgr);
    }
    forall i | 0 <= i < |cells| ensures CellAt(g, i) == cells[i] {
      assert i < g.a ==> cells[i].ReadBy(DataMgr);
      assert i < g.b ==> cells[i].ReadBy(StorageMgr);
      assert i >= g.a ==> !cells[i].ReadBy(DataMgr);
      assert i >= g.b ==> !cells[i].ReadBy(StorageMgr);
    }
  }

  /** Every list of that shape represents some history, and only such lists do. */
  lemma ShapeIffView(cells: seq<Cell>)
    ensures Shape(cells) <==> exists g: Log :: g.Valid() && View(g) == cells
  {
    if Shape(cells) {
      ViewOfShape(cells);
    }
    if exists g: Log :: g.Valid() && View(g) == cells {
      var g: Log :| g.Valid() && View(g) == cells;
      ShapeOfView(g);
    }
  }

  lemma InsertRefines(g: Log, m: Measurement)
    requires g.Valid()
    ensures g.Insert(m).Valid()
    ensures InsertCell(View(g), m) == View(g.Insert(m))
  {
    assert |InsertCell(View(g), m)| == |View(g.Insert(m))|;
  }

  /** Where the search of `sbuffer_remove` stops. */
  lemma UnreadIsCursor(g: Log, r: Reader)
    requires g.Valid()
    ensures FirstUnread(View(g), r) == g.Cursor(r) - g.Low()
  {
    FirstUnreadUnique(View(g), r, g.Cursor(r) - g.Low());
  }

  /**
   * When the cell just flagged carries both flags it is the first cell, so
   * moving `head` past one node unlinks exactly the node that is freed.
   */
  lemma ReclaimedIsHead(cells: seq<Cell>, r: Reader)
    requires Shape(cells)
    ensures var i := FirstUnread(cells, r);
      i < |cells| && cells[i].Mark(r).ReadByBoth() ==> i == 0
  {
    var i := FirstUnread(cells, r);
    var other := if r.DataMgr? then StorageMgr else DataMgr;
    if i < |cells| && cells[i].Mark(r).ReadByBoth() {
      assert cells[i].ReadBy(other);
      assert i > 0 ==> cells[0].ReadBy(other) && cells[0].ReadBy(r);
    }
  }

  /** Flagging the cell under the cursor, and dropping the first cell when it has both flags. */
  lemma MarkAdvances(g: Log, r: Reader)
    requires g.Valid() && g.Cursor(r) < |g.history|
    ensures var i := g.Cursor(r) - g.Low(); var marked := View(g)[i := View(g)[i].Mark(r)];
      && g.Advance(r).Valid()
      && (if marked[i].ReadByBoth() then marked[1..] else marked) == View(g.Advance(r))
  {
  }

  lemma RemoveAt(cells: seq<Cell>, r: Reader, data: Measurement, i: nat)
    requires i == FirstUnread(cells, r) < |cells|
    ensures var marked := cells[i := cells[i].Mark(r)];
      RemoveCells(cells, r, data) ==
        Outcome(Success, cells[i].data, if marked[i].ReadByBoth() then marked[1..] else marked)
  {
  }

  /** A reader that is up to date is told that there is no data. */
  lemma RemoveStarves(g: Log, r: Reader, data: Measurement)
    requires g.Valid() && g.Cursor(r) == |g.history|
    ensures RemoveCells(View(g), r, data) == Outcome(NoData, data, View(g))
  {
    UnreadIsCursor(g, r);
  }

  /** A reader that is behind gets the reading under its cursor. */
  lemma RemoveServes(g: Log, r: Reader, data: Measurement)
    requires g.Valid() && g.Cursor(r) < |g.history|
    ensures g.Advance(r).Valid()
    ensures RemoveCells(View(g), r, data) == Outcome(Success, g.history[g.Cursor(r)], View(g.Advance(r)))
  {
    var i := g.Cursor(r) - g.Low();
    UnreadIsCursor(g, r);
    RemoveAt(View(g), r, data, i);
    MarkAdvances(g, r);
    assert View(g)[i] == CellAt(g, g.Cursor(r));
  }

  /** One removal advances one cursor and hands out the reading under it. */
  lemma RemoveRefines(g: Log, r: Reader, data: Measurement)
    requires g.Valid()
    ensures g.Advance(r).Valid()
    ensures RemoveCells(View(g), r, data) ==
            if g.Cursor(r) == |g.history|
            then Outcome(NoData, data, View(g))
            else Outcome(Success, g.history[g.Cursor(r)], View(g.Advance(r)))
  {
    if g.Cursor(r) == |g.history| {
      RemoveStarves(g, r, data);
    } else {
      RemoveServes(g, r, data);
    }
  }

  /** Neither the reader nor its speed can make a cell vanish that the other still needs. */
  lemma NothingLeavesEarly(g: Log, r: Reader, data: Measurement, k: nat)
    requires g.Valid() && k < |g.history|
    ensures var g' := g.Advance(r);
      (g'.a <= k || g'.b <= k) ==>
        k >= g'.Low() && k - g'.Low() < |RemoveCells(View(g), r, data).cells|
        && RemoveCells(View(g), r, data).cells[k - g'.Low()].data == g.history[k]
  {
    RemoveRefines(g, r, data);
  }

  /** Every successful removal pays off one delivery; a failed one changes nothing. */
  lemma RemovePaysOneDelivery(g: Log, r: Reader, data: Measurement)
    requires g.Valid()
    ensures g.Owed() >= 0
    ensures RemoveCells(View(g), r, data).status.Success? ==> g.Advance(r).Owed() == g.Owed() - 1
    ensures !RemoveCells(View(g), r, data).status.Success? ==> g.Advance(r) == g
  {
    RemoveRefines(g, r, data);
  }

  /** The list is empty exactly when both readers are told there is no data. */
  lemma EmptyIffBothStarved(g: Log, data: Measurement)
    requires g.Valid()
    ensures View(g) == [] <==> forall r: Reader :: RemoveCells(View(g), r, data).status == NoData
  {
    RemoveRefines(g, DataMgr, data);
    RemoveRefines(g, StorageMgr, data);
    if forall r: Reader :: RemoveCells(View(g), r, data).status == NoData {
      assert RemoveCells(View(g), DataMgr, data).status == NoData;
      assert RemoveCells(View(g), StorageMgr, data).status == NoData;
    }
  }
}
