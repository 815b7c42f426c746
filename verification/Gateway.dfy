/**
 * The three threads and main at the granularity of the buffer mutex.
 *
 * One step is one critical section or one private action of one thread; every
 * interleaving is a run. The shared state is the cell list itself; `log` is a
 * history variable that no step looks at.
 */
module Gateway {
  import opened Sequences
  import opened Measurements
  import opened SharedQueue
  import opened SensorTable

  /** Where a reader thread is in its loop. */
  datatype Phase =
    | Connecting(attempt: nat)  // storage manager only: about to try the database, 1 to 3
    | Top                       // about to peek
    | Peeked                    // saw a first node, about to remove
    | Holding(m: Measurement)   // has its record, blank if there was nothing to read
    | Check                     // about to test its run flag
    | Exited

  datatype MainPhase =
    | JoinConnmgr | ClearDatamgr | ClearStoragemgr | JoinDatamgr | JoinStoragemgr | FreeBuffer | Finished

  datatype Config = Config(rooms: seq<(SensorId, SensorId)>, limits: Limits)

  datatype State = State(
    cells: seq<Cell>,
    connmgrDone: bool,
    runDatamgr: bool,
    runStoragemgr: bool,
    datamgr: Phase,
    storagemgr: Phase,
    main: MainPhase,
    table: Table,                  // the data manager's sensors and log events
    handled: seq<Measurement>,     // readings that the data manager has processed
    attempts: seq<Measurement>,    // calls of insert_sensor
    log: Log)
  {
    function PhaseOf(r: Reader): Phase {
      if r.DataMgr? then datamgr else storagemgr
    }

    function RunFlag(r: Reader): bool {
      if r.DataMgr? then runDatamgr else runStoragemgr
    }

    /** What the reader has finished with. */
    function Done(r: Reader): seq<Measurement> {
      if r.DataMgr? then handled else attempts
    }

    function Go(r: Reader, p: Phase): State {
      if r.DataMgr? then this.(datamgr := p) else this.(storagemgr := p)
    }
  }

  datatype Step =
    | Insert(m: Measurement)
    | ConnmgrExit
    | Connect(ok: bool)
    | Peek(r: Reader)
    | Remove(r: Reader)
    | Work(r: Reader)
    | Test(r: Reader)
    | MainStep

  function Initial(config: Config): State {
    State([], false, true, true, Top, Connecting(1), JoinConnmgr,
          Loaded(config.rooms), [], [], Log([], 0, 0))
  }

  predicate Enabled(st: State, step: Step) {
    match step
    case Insert(_) => !st.connmgrDone
    case ConnmgrExit => !st.connmgrDone
    case Connect(_) => st.storagemgr.Connecting?
    case Peek(r) => st.PhaseOf(r).Top?
    case Remove(r) => st.PhaseOf(r).Peeked?
    case Work(r) => st.PhaseOf(r).Holding?
    case Test(r) => st.PhaseOf(r).Check?
    case MainStep =>
      match st.main
      case JoinConnmgr => st.connmgrDone
      case JoinDatamgr => st.datamgr.Exited?
      case JoinStoragemgr => st.storagemgr.Exited?
      case Finished => false
      case _ => true
  }

  function Apply(st: State, step: Step, limits: Limits): State
    requires limits.Valid()
  {
    match step
    case Insert(m) => st.(cells := InsertCell(st.cells, m), log := st.log.Insert(m))
    case ConnmgrExit => st.(connmgrDone := true)
    case Connect(ok) =>
      st.(storagemgr :=
        if ok then Top
        else if st.storagemgr.Connecting? && st.storagemgr.attempt < 3 then Connecting(st.storagemgr.attempt + 1)
        else Exited)
    case Peek(r) => st.Go(r, if st.cells == [] then Check else Peeked)
    case Remove(r) =>
      var out := RemoveCells(st.cells, r, BLANK);
      st.Go(r, Holding(out.data)).(cells := out.cells, log := st.log.Advance(r))
    case Work(r) => ApplyWork(st, r, limits)
    case Test(r) => st.Go(r, if st.RunFlag(r) then Top else Exited)
    case MainStep =>
      match st.main
      case JoinConnmgr => st.(main := ClearDatamgr)
      case ClearDatamgr => st.(main := ClearStoragemgr, runDatamgr := false)
      case ClearStoragemgr => st.(main := JoinDatamgr, runStoragemgr := false)
      case JoinDatamgr => st.(main := JoinStoragemgr)
      case JoinStoragemgr => st.(main := FreeBuffer)
      case FreeBuffer => st.(main := Finished, cells := [])
      case Finished => st
  }

  /** A reader works on its record unless the id is 0. */
  function ApplyWork(st: State, r: Reader, limits: Limits): State
    requires limits.Valid()
  {
    match st.PhaseOf(r)
    case Holding(m) =>
      var st' := st.Go(r, Check);
      if !Identified(m) then st'
      else if r.DataMgr? then st'.(table := Process(st.table, m, limits), handled := st.handled + [m])
      else st'.(attempts := st.attempts + [m])
    case _ => st
  }

  ghost predicate IsRun(st: State, steps: seq<Step>, limits: Limits)
    requires limits.Valid()
  {
    steps == [] ||
    (IsRun(st, steps[..|steps| - 1], limits)
     && Enabled(Exec(st, steps[..|steps| - 1], limits), steps[|steps| - 1]))
  }

  function Exec(st: State, steps: seq<Step>, limits: Limits): State
    requires limits.Valid()
  {
    if steps == [] then st
    else Apply(Exec(st, steps[..|steps| - 1], limits), steps[|steps| - 1], limits)
  }

  // ---------------------------------------------------------- the global invariant

  /** The reading that a reader has taken and not yet worked on. */
  function InHand(p: Phase): seq<Measurement> {
    if p.Holding? && Identified(p.m) then [p.m] else []
  }

  /** What a reader has done, plus what it holds, is what was inserted up to its cursor. */
  ghost predicate Delivered(st: State, r: Reader)
    requires st.log.Valid()
  {
    st.Done(r) + InHand(st.PhaseOf(r)) == Filter(st.log.history[..st.log.Cursor(r)], Identified)
  }

  /** The cells are those of the history, until main frees the buffer. */
  ghost predicate Represents(st: State) {
    st.log.Valid() && st.cells == if st.main.Finished? then [] else View(st.log)
  }

  /** The order in which main stops the threads. */
  ghost predicate Controlled(st: State) {
    && (st.storagemgr.Connecting? ==> st.log.b == 0)
    && !st.datamgr.Connecting?
    && (!st.main.JoinConnmgr? ==> st.connmgrDone)
    && (st.runDatamgr <==> st.main.JoinConnmgr? || st.main.ClearDatamgr?)
    && (st.runStoragemgr <==> st.main.JoinConnmgr? || st.main.ClearDatamgr? || st.main.ClearStoragemgr?)
    && (st.main.JoinStoragemgr? || st.main.FreeBuffer? || st.main.Finished? ==> st.datamgr.Exited?)
    && (st.main.FreeBuffer? || st.main.Finished? ==> st.storagemgr.Exited?)
  }

  ghost predicate Tabled(st: State, config: Config)
    requires config.limits.Valid()
  {
    st.table == Run(Loaded(config.rooms), st.handled, config.limits)
  }

  ghost predicate Good(st: State, config: Config)
    requires config.limits.Valid()
  {
    && Controlled(st)
    && Represents(st)
    && Tabled(st, config)
    && forall r: Reader :: Delivered(st, r)
  }

  lemma StepKeepsControlled(st: State, step: Step, limits: Limits)
    requires limits.Valid() && Controlled(st) && Enabled(st, step)
    ensures Controlled(Apply(st, step, limits))
  {
  }

  /** Only insertions and removals touch the cells, until main frees them. */
  lemma OtherStepsKeepCells(st: State, step: Step, limits: Limits)
    requires limits.Valid() && Enabled(st, step) && !step.Insert? && !step.Remove?
    ensures var st' := Apply(st, step, limits);
      && st'.log == st.log
      && (st'.main.Finished? <==> st.main.Finished? || (step.MainStep? && st.main.FreeBuffer?))
      && st'.cells == if st'.main.Finished? && !st.main.Finished? then [] else st.cells
  {
  }

  lemma StepKeepsRepresents(st: State, step: Step, limits: Limits)
    requires limits.Valid() && Controlled(st) && Represents(st) && Enabled(st, step)
    ensures Represents(Apply(st, step, limits))
  {
    match step
    case Insert(m) => InsertRefines(st.log, m);
    case Remove(r) => RemoveRefines(st.log, r, BLANK);
    case _ => OtherStepsKeepCells(st, step, limits);
  }

  lemma StepKeepsTabled(st: State, step: Step, config: Config)
    requires config.limits.Valid() && Tabled(st, config) && Enabled(st, step)
    ensures Tabled(Apply(st, step, config.limits), config)
  {
    if step.Work? && step.r.DataMgr? {
      var m := st.datamgr.m;
      assert (st.handled + [m])[..|st.handled|] == st.handled;
    }
  }

  lemma RemoveKeepsOthers(st: State, r: Reader, limits: Limits)
    requires limits.Valid()
    ensures var st' := Apply(st, Remove(r), limits);
      forall o: Reader :: st'.Done(o) == st.Done(o) && (o != r ==> st'.PhaseOf(o) == st.PhaseOf(o))
  {
  }

  /** A removal hands its reader the reading under its cursor, or a blank record. */
  lemma RemoveTakes(st: State, r: Reader, limits: Limits)
    requires limits.Valid() && Represents(st) && !st.main.Finished?
    ensures var st', k := Apply(st, Remove(r), limits), st.log.Cursor(r);
      && st'.log == st.log.Advance(r) && st'.log.Valid()
      && st'.PhaseOf(r) == Holding(if k < |st.log.history| then st.log.history[k] else BLANK)
      && (forall o: Reader :: st'.Done(o) == st.Done(o) && (o != r ==> st'.PhaseOf(o) == st.PhaseOf(o)))
  {
    var k := st.log.Cursor(r);
    assert RemoveCells(st.cells, r, BLANK).data == (if k < |st.log.history| then st.log.history[k] else BLANK) by {
      RemoveRefines(st.log, r, BLANK);
    }
    RemoveKeepsOthers(st, r, limits);
  }

  lemma RemoveDelivers(st: State, st': State, r: Reader)
    requires st.log.Valid() && Delivered(st, r) && !st.PhaseOf(r).Holding?
    requires var k := st.log.Cursor(r);
      && st'.log == st.log.Advance(r)
      && st'.PhaseOf(r) == Holding(if k < |st.log.history| then st.log.history[k] else BLANK)
      && st'.Done(r) == st.Done(r)
    ensures Delivered(st', r)
  {
    var h, k := st.log.history, st.log.Cursor(r);
    assert st.Done(r) + [] == st.Done(r);
    if k < |h| {
      assert h[..k + 1] == h[..k] + [h[k]];
      FilterAppend(h[..k], h[k], Identified);
    }
  }

  lemma WorkDelivers(st: State, r: Reader, limits: Limits)
    requires limits.Valid() && st.log.Valid() && Enabled(st, Work(r)) && Delivered(st, r)
    ensures Delivered(Apply(st, Work(r), limits), r)
  {
    var done, m := st.Done(r), st.PhaseOf(r).m;
    assert (done + [m]) + [] == done + [m];
  }

  /** A step that is not a removal or work of `r` and keeps what `r` has in hand. */
  lemma OthersDoNotDisturb(st: State, st': State, r: Reader)
    requires st.log.Valid() && st'.log.Valid() && Delivered(st, r)
    requires st'.Done(r) == st.Done(r) && InHand(st'.PhaseOf(r)) == InHand(st.PhaseOf(r))
    requires st.log.history <= st'.log.history && st'.log.Cursor(r) == st.log.Cursor(r)
    ensures Delivered(st', r)
  {
    var k := st.log.Cursor(r);
    assert st'.log.history[..k] == st.log.history[..k];
  }

  lemma OtherStepsDeliver(st: State, step: Step, r: Reader, limits: Limits)
    requires limits.Valid() && st.log.Valid() && Delivered(st, r) && Enabled(st, step)
    requires !step.Remove? && !step.Work?
    ensures var st' := Apply(st, step, limits); st'.log.Valid() && Delivered(st', r)
  {
    OthersDoNotDisturb(st, Apply(st, step, limits), r);
  }

  lemma AnyWorkDelivers(st: State, o: Reader, r: Reader, limits: Limits)
    requires limits.Valid() && st.log.Valid() && Delivered(st, r) && Enabled(st, Work(o))
    ensures var st' := Apply(st, Work(o), limits); st'.log.Valid() && Delivered(st', r)
  {
    if o == r {
      WorkDelivers(st, r, limits);
    } else {
      OthersDoNotDisturb(st, Apply(st, Work(o), limits), r);
    }
  }

  lemma AnyRemoveDelivers(st: State, o: Reader, r: Reader, limits: Limits)
    requires limits.Valid() && Represents(st) && Delivered(st, r) && !st.main.Finished? && Enabled(st, Remove(o))
    ensures var st' := Apply(st, Remove(o), limits); st'.log.Valid() && Delivered(st', r)
  {
    var st' := Apply(st, Remove(o), limits);
    RemoveTakes(st, o, limits);
    if o == r {
      RemoveDelivers(st, st', r);
    } else {
      OthersDoNotDisturb(st, st', r);
    }
  }

  lemma StepKeepsDelivered(st: State, step: Step, r: Reader, limits: Limits)
    requires limits.Valid() && Controlled(st) && Represents(st) && Delivered(st, r) && Enabled(st, step)
    ensures var st' := Apply(st, step, limits); st'.log.Valid() && Delivered(st', r)
  {
    match step
    case Remove(o) => AnyRemoveDelivers(st, o, r, limits);
    case Work(o) => AnyWorkDelivers(st, o, r, limits);
    case _ => OtherStepsDeliver(st, step, r, limits);
  }

  lemma StepKeepsGood(st: State, step: Step, config: Config)
    requires config.limits.Valid() && Good(st, config) && Enabled(st, step)
    ensures Good(Apply(st, step, config.limits), config)
  {
    StepKeepsControlled(st, step, config.limits);
    StepKeepsRepresents(st, step, config.limits);
    StepKeepsTabled(st, step, config);
    forall r: Reader ensures Delivered(Apply(st, step, config.limits), r) {
      StepKeepsDelivered(st, step, r, config.limits);
    }
  }

  /** Whatever the interleaving: nothing is lost, repeated, reordered or invented on the way. */
  lemma {:induction false} EveryRunIsGood(config: Config, steps: seq<Step>)
    requires config.limits.Valid() && IsRun(Initial(config), steps, config.limits)
    ensures Good(Exec(Initial(config), steps, config.limits), config)
  {
    if steps != [] {
      EveryRunIsGood(config, steps[..|steps| - 1]);
      StepKeepsGood(Exec(Initial(config), steps[..|steps| - 1], config.limits), steps[|steps| - 1], config);
    } else {
      assert View(Log([], 0, 0)) == [];
      assert forall r: Reader :: Delivered(Initial(config), r);
    }
  }
}
