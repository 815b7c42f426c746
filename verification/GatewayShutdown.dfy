/** What shutdown delivers, what it can lose, and that it ends. */
module GatewayShutdown {
  import opened Sequences
  import opened Measurements
  import opened SharedQueue
  import opened SensorTable
  import opened Gateway
  import opened GatewayProperties

  /** Removals a reader still performs once its run flag is down. */
  function Remaining(p: Phase): nat {
    if p.Connecting? || p.Top? || p.Peeked? then 1 else 0
  }

  /** Where its cursor will stop. */
  function FinalCursor(st: State, r: Reader): int {
    Min(|st.log.history|, st.log.Cursor(r) + Remaining(st.PhaseOf(r)))
  }

  ghost predicate Stopping(st: State, r: Reader) {
    st.connmgrDone && !st.RunFlag(r)
  }

  lemma PeekFinds(st: State, r: Reader, config: Config)
    requires config.limits.Valid() && Good(st, config) && st.PhaseOf(r).Top?
    ensures st.log.Cursor(r) < |st.log.history| ==> st.cells != []
  {
    assert !st.main.Finished?;
  }

  /** How a step changes the number of removals a stopping reader has left. */
  lemma RemainingAfter(st: State, step: Step, r: Reader, limits: Limits)
    requires limits.Valid() && Enabled(st, step) && !st.RunFlag(r)
    ensures var p, p' := st.PhaseOf(r), Apply(st, step, limits).PhaseOf(r);
      && (step == Peek(r) ==> Remaining(p) == 1 && !p.Connecting? && !p'.Connecting?
                              && Remaining(p') == if st.cells == [] then 0 else 1)
      && (step == Remove(r) ==> Remaining(p) == 1 && !p.Connecting? && !p'.Connecting? && Remaining(p') == 0)
      && (step == Work(r) || step == Test(r) ==> !p'.Connecting? && Remaining(p) == Remaining(p') == 0)
      && (step.Connect? && r.StorageMgr? ==> p.Connecting? && Remaining(p') <= 1)
      && (step.Connect? && r.DataMgr? ==> p' == p)
      && ((step.Insert? || step.ConnmgrExit? || step.MainStep?) ==> p' == p)
      && (forall o: Reader :: o != r && (step == Peek(o) || step == Remove(o) || step == Work(o) || step == Test(o))
                              ==> p' == p)
  {
  }

  lemma StillStopping(st: State, step: Step, r: Reader, limits: Limits)
    requires limits.Valid() && Enabled(st, step) && Stopping(st, r)
    ensures Stopping(Apply(st, step, limits), r) && !step.Insert?
  {
  }

  lemma StepWhileStopping(st: State, step: Step, r: Reader, config: Config)
    requires config.limits.Valid() && Good(st, config) && Enabled(st, step) && Stopping(st, r)
    ensures var st' := Apply(st, step, config.limits);
      && Stopping(st', r)
      && FinalCursor(st', r) <= FinalCursor(st, r)
      && (!st.PhaseOf(r).Connecting? ==>
            !st'.PhaseOf(r).Connecting? && FinalCursor(st', r) == FinalCursor(st, r))
  {
    LogOfStep(st, step, config.limits);
    RemainingAfter(st, step, r, config.limits);
    StillStopping(st, step, r, config.limits);
    if step == Peek(r) {
      PeekFinds(st, r, config);
    }
  }

  /**
   * Once the connection manager has ended and a reader's flag is down, the place
   * where the reader stops is already decided by its phase: one more reading if
   * it is at the top of its loop or has peeked, none otherwise.
   */
  lemma {:induction false} ShutdownCursor(st: State, steps: seq<Step>, r: Reader, config: Config)
    requires config.limits.Valid() && Good(st, config) && Stopping(st, r)
    requires IsRun(st, steps, config.limits)
    ensures var st' := Exec(st, steps, config.limits);
      && Stopping(st', r) && Good(st', config) && st'.log.history == st.log.history
      && FinalCursor(st', r) <= FinalCursor(st, r)
      && (!st.PhaseOf(r).Connecting? ==>
            !st'.PhaseOf(r).Connecting? && FinalCursor(st', r) == FinalCursor(st, r))
      && (st'.PhaseOf(r).Exited? ==> FinalCursor(st', r) == st'.log.Cursor(r))
  {
    GoodFrom(st, steps, config);
    NoInsertAfterJoin(st, steps, config.limits);
    RemovalsDrain(st, steps, r, config.limits);
    if steps != [] {
      var front := steps[..|steps| - 1];
      ShutdownCursor(st, front, r, config);
      StepWhileStopping(Exec(st, front, config.limits), steps[|steps| - 1], r, config);
    }
  }

  /** The database has been reached in these steps. */
  predicate Connects(steps: seq<Step>) {
    steps != [] && (Connects(steps[..|steps| - 1]) || steps[|steps| - 1] == Connect(true))
  }

  /** A storage manager that is still connecting takes one reading if it gets through, none if not. */
  lemma {:induction false} ConnectingShutdown(st: State, steps: seq<Step>, config: Config)
    requires config.limits.Valid() && Good(st, config) && Stopping(st, StorageMgr)
    requires IsRun(st, steps, config.limits) && st.storagemgr.Connecting?
    ensures var st' := Exec(st, steps, config.limits);
      if Connects(steps) then !st'.storagemgr.Connecting? && FinalCursor(st', StorageMgr) == FinalCursor(st, StorageMgr)
      else (st'.storagemgr.Connecting? || st'.storagemgr.Exited?) && st'.log.b == st.log.b
  {
    if steps != [] {
      var front, last := steps[..|steps| - 1], steps[|steps| - 1];
      var mid := Exec(st, front, config.limits);
      ConnectingShutdown(st, front, config);
      ShutdownCursor(st, front, StorageMgr, config);
      if Connects(front) {
        StepWhileStopping(mid, last, StorageMgr, config);
      } else if last == Connect(true) {
        LogOfStep(mid, last, config.limits);
      } else {
        OfflineStep(mid, last, config.limits);
      }
    }
  }

  /** Removals that a stopping reader performs, given whether a connection attempt succeeds. */
  function Allowance(p: Phase, steps: seq<Step>): nat {
    if p.Connecting? && !Connects(steps) then 0 else Remaining(p)
  }

  /**
   * From any phase, once a reader's flag is down: it gets everything before it
   * exits if and only if at most one reading was still waiting for it and it was
   * not past its last look at the buffer, which a storage manager that is still
   * connecting never takes unless it gets through.
   */
  lemma ShutdownDeliversIff(st: State, steps: seq<Step>, r: Reader, config: Config)
    requires config.limits.Valid() && Good(st, config) && Stopping(st, r)
    requires IsRun(st, steps, config.limits)
    requires Exec(st, steps, config.limits).PhaseOf(r).Exited?
    ensures var st', allowed := Exec(st, steps, config.limits), Allowance(st.PhaseOf(r), steps);
      && st'.log.history == st.log.history && st'.log.Valid()
      && st'.log.Cursor(r) == Min(|st.log.history|, st.log.Cursor(r) + allowed)
      && (st'.log.Cursor(r) == |st'.log.history| <==> |st.log.history| - st.log.Cursor(r) <= allowed)
      && st'.Done(r) == Filter(st.log.history[..st'.log.Cursor(r)], Identified)
  {
    var st' := Exec(st, steps, config.limits);
    ShutdownCursor(st, steps, r, config);
    assert Delivered(st', r);
    assert st'.Done(r) + [] == st'.Done(r);
    if st.PhaseOf(r).Connecting? {
      ConnectingShutdown(st, steps, config);
    }
  }

  /**
   * When main prints and frees the buffer all three threads have ended, no
   * reader holds a reading, and what is printed is the history from the slower
   * cursor on: each reader has finished exactly the part before its own cursor.
   */
  lemma ResidueAtShutdown(config: Config, steps: seq<Step>)
    requires config.limits.Valid() && IsRun(Initial(config), steps, config.limits)
    requires Exec(Initial(config), steps, config.limits).main.FreeBuffer?
    ensures var st := Exec(Initial(config), steps, config.limits); var h := st.log.history;
      && st.connmgrDone && st.datamgr.Exited? && st.storagemgr.Exited? && st.log.Valid()
      && RecordsOf(st.cells) == h[st.log.Low()..]
      && st.handled == Filter(h[..st.log.a], Identified)
      && st.attempts == Filter(h[..st.log.b], Identified)
  {
    var st := Exec(Initial(config), steps, config.limits);
    EveryRunIsGood(config, steps);
    EndToEnd(config, steps);
    assert st.handled + [] == st.handled && st.attempts + [] == st.attempts;
  }

  // ------------------------------------------------------------ a run that loses

  /** Two readings inserted, the connection manager gone, both flags down, no reader has moved. */
  lemma TwoWaiting(config: Config, m: Measurement, n: Measurement) returns (steps: seq<Step>)
    requires config.limits.Valid()
    ensures IsRun(Initial(config), steps, config.limits)
    ensures var st := Exec(Initial(config), steps, config.limits);
      && st.log == Log([m, n], 0, 0)
      && st.datamgr == Top && st.storagemgr == Connecting(1) && st.main == JoinDatamgr
      && Stopping(st, DataMgr) && Stopping(st, StorageMgr)
  {
    var s0, limits := Initial(config), config.limits;
    var t1 := [] + [Insert(m)];
    ExecAppend(s0, [], Insert(m), limits);
    var t2 := t1 + [Insert(n)];
    ExecAppend(s0, t1, Insert(n), limits);
    var t3 := t2 + [ConnmgrExit];
    ExecAppend(s0, t2, ConnmgrExit, limits);
    var t4 := t3 + [MainStep];
    ExecAppend(s0, t3, MainStep, limits);
    var t5 := t4 + [MainStep];
    ExecAppend(s0, t4, MainStep, limits);
    steps := t5 + [MainStep];
    ExecAppend(s0, t5, MainStep, limits);
    assert Exec(s0, t2, limits).log.history == ([] + [m]) + [n] == [m, n];
  }

  /** What a reader's turn leaves alone. */
  ghost predicate TurnKeeps(st: State, st': State, r: Reader) {
    && (r.DataMgr? ==> st'.storagemgr == st.storagemgr)
    && (r.StorageMgr? ==> st'.datamgr == st.datamgr)
    && st'.main == st.main && st'.connmgrDone == st.connmgrDone
    && st'.runDatamgr == st.runDatamgr && st'.runStoragemgr == st.runStoragemgr
  }

  lemma TakesOne(st: State, r: Reader, config: Config)
    requires config.limits.Valid() && Good(st, config)
    requires st.PhaseOf(r) == Top && st.log.Cursor(r) < |st.log.history|
    ensures var s1 := Apply(st, Peek(r), config.limits); var s2 := Apply(s1, Remove(r), config.limits);
      && Enabled(st, Peek(r)) && Enabled(s1, Remove(r))
      && s2.log == st.log.Advance(r) && s2.PhaseOf(r).Holding? && TurnKeeps(st, s2, r)
  {
    PeekFinds(st, r, config);
  }

  lemma WorksAndStops(st: State, r: Reader, limits: Limits)
    requires limits.Valid() && st.PhaseOf(r).Holding? && !st.RunFlag(r)
    ensures var s1 := Apply(st, Work(r), limits); var s2 := Apply(s1, Test(r), limits);
      && Enabled(st, Work(r)) && Enabled(s1, Test(r))
      && s2.log == st.log && s2.PhaseOf(r) == Exited && TurnKeeps(st, s2, r)
  {
  }

  /** The last turn of a stopping reader for which a reading is waiting: it takes that one and exits. */
  lemma LastTurn(config: Config, before: seq<Step>, r: Reader) returns (steps: seq<Step>)
    requires config.limits.Valid() && IsRun(Initial(config), before, config.limits)
    requires var st := Exec(Initial(config), before, config.limits);
      st.PhaseOf(r) == Top && !st.RunFlag(r) && st.log.Valid() && st.log.Cursor(r) < |st.log.history|
    ensures IsRun(Initial(config), steps, config.limits)
    ensures var st, st' := Exec(Initial(config), before, config.limits), Exec(Initial(config), steps, config.limits);
      st'.log == st.log.Advance(r) && st'.PhaseOf(r) == Exited && TurnKeeps(st, st', r)
  {
    var s0, limits := Initial(config), config.limits;
    EveryRunIsGood(config, before);
    var t1, t2 := before + [Peek(r)], before + [Peek(r)] + [Remove(r)];
    var t3 := t2 + [Work(r)];
    steps := t3 + [Test(r)];
    assert Exec(s0, t1, limits) == Apply(Exec(s0, before, limits), Peek(r), limits)
        && (IsRun(s0, t1, limits) <==> Enabled(Exec(s0, before, limits), Peek(r))) by {
      ExecAppend(s0, before, Peek(r), limits);
    }
    ExecAppend(s0, t1, Remove(r), limits);
    ExecAppend(s0, t2, Work(r), limits);
    ExecAppend(s0, t3, Test(r), limits);
    TakesOne(Exec(s0, before, limits), r, config);
    WorksAndStops(Exec(s0, t2, limits), r, limits);
  }

  /**
   * A completed run that loses a reading: the gateway takes two, both readers
   * finish the first one only, and main prints and frees the second.
   */
  lemma ShutdownLoses(config: Config, m: Measurement, n: Measurement) returns (steps: seq<Step>)
    requires config.limits.Valid()
    ensures IsRun(Initial(config), steps, config.limits)
    ensures var st := Exec(Initial(config), steps, config.limits);
      && st.main.FreeBuffer? && st.datamgr.Exited? && st.storagemgr.Exited?
      && st.log == Log([m, n], 1, 1) && RecordsOf(st.cells) == [n]
      && st.handled == st.attempts == Filter([m], Identified)
  {
    var s0, limits := Initial(config), config.limits;
    var t1 := TwoWaiting(config, m, n);
    var t2 := LastTurn(config, t1, DataMgr);
    var t3 := t2 + [Connect(true)];
    ExecAppend(s0, t2, Connect(true), limits);
    var t4 := LastTurn(config, t3, StorageMgr);
    var t5 := t4 + [MainStep];
    ExecAppend(s0, t4, MainStep, limits);
    steps := t5 + [MainStep];
    ExecAppend(s0, t5, MainStep, limits);
    ResidueAtShutdown(config, steps);
    assert [m, n][..1] == [m] && [m, n][1..] == [n];
  }

  // ----------------------------------------------------------------- termination

  /** The most steps a reader can still take once its flag is down. */
  function Left(p: Phase): nat {
    match p
    case Connecting(attempt) => 5 + (if attempt < 3 then 3 - attempt else 0)
    case Top => 4
    case Peeked => 3
    case Holding(_) => 2
    case Check => 1
    case Exited => 0
  }

  lemma StepLeaves(st: State, step: Step, r: Reader, limits: Limits)
    requires limits.Valid() && Enabled(st, step) && !st.RunFlag(r)
    ensures var st' := Apply(st, step, limits);
      && !st'.RunFlag(r)
      && Left(st'.PhaseOf(r)) + (if OwnStep(step, r) then 1 else 0) <= Left(st.PhaseOf(r))
  {
  }

  /** Once its flag is down a reader takes at most as many steps as its phase leaves it. */
  lemma {:induction false} StoppingReaderEnds(st: State, steps: seq<Step>, r: Reader, limits: Limits)
    requires limits.Valid() && IsRun(st, steps, limits) && !st.RunFlag(r)
    ensures var st' := Exec(st, steps, limits);
      !st'.RunFlag(r) && OwnSteps(steps, r) + Left(st'.PhaseOf(r)) <= Left(st.PhaseOf(r))
  {
    if steps != [] {
      var front, last := steps[..|steps| - 1], steps[|steps| - 1];
      StoppingReaderEnds(st, front, r, limits);
      StepLeaves(Exec(st, front, limits), last, r, limits);
    }
  }

  function MainLeft(p: MainPhase): nat {
    match p
    case JoinConnmgr => 6
    case ClearDatamgr => 5
    case ClearStoragemgr => 4
    case JoinDatamgr => 3
    case JoinStoragemgr => 2
    case FreeBuffer => 1
    case Finished => 0
  }

  /** A bound on the steps that the whole gateway still takes. */
  function TotalLeft(st: State): nat {
    Left(st.datamgr) + Left(st.storagemgr) + MainLeft(st.main)
  }

  ghost predicate ShuttingDown(st: State) {
    Stopping(st, DataMgr) && Stopping(st, StorageMgr)
  }

  lemma ShutdownStep(st: State, step: Step, limits: Limits)
    requires limits.Valid() && Enabled(st, step) && ShuttingDown(st)
    ensures var st' := Apply(st, step, limits);
      ShuttingDown(st') && TotalLeft(st') < TotalLeft(st)
  {
    StepLeaves(st, step, DataMgr, limits);
    StepLeaves(st, step, StorageMgr, limits);
    StillStopping(st, step, DataMgr, limits);
    StillStopping(st, step, StorageMgr, limits);
  }

  /** When both flags are down every run is short, whatever the scheduler does. */
  lemma {:induction false} ShutdownTerminates(st: State, steps: seq<Step>, limits: Limits)
    requires limits.Valid() && IsRun(st, steps, limits) && ShuttingDown(st)
    ensures var st' := Exec(st, steps, limits);
      ShuttingDown(st') && |steps| + TotalLeft(st') <= TotalLeft(st)
  {
    if steps != [] {
      var front, last := steps[..|steps| - 1], steps[|steps| - 1];
      ShutdownTerminates(st, front, limits);
      ShutdownStep(Exec(st, front, limits), last, limits);
    }
  }

  /** A step that can be taken. */
  function ReaderStep(p: Phase, r: Reader): Step {
    match p
    case Connecting(_) => Connect(true)
    case Top => Peek(r)
    case Peeked => Remove(r)
    case Holding(_) => Work(r)
    case Check => Test(r)
    case Exited => MainStep
  }

  /** A step towards the end: of main, or of the reader that main waits for. */
  function ClosingStep(st: State): Step {
    if st.main.JoinDatamgr? then ReaderStep(st.datamgr, DataMgr)
    else if st.main.JoinStoragemgr? then ReaderStep(st.storagemgr, StorageMgr)
    else MainStep
  }

  /** The gateway never deadlocks: until main has finished some thread can take a step. */
  lemma NeverStuck(config: Config, steps: seq<Step>) returns (next: Step)
    requires config.limits.Valid() && IsRun(Initial(config), steps, config.limits)
    ensures var st := Exec(Initial(config), steps, config.limits);
      !st.main.Finished? ==> Enabled(st, next)
  {
    var st := Exec(Initial(config), steps, config.limits);
    EveryRunIsGood(config, steps);
    next := if st.connmgrDone then ClosingStep(st) else ConnmgrExit;
  }

  lemma ClosingStepCloses(st: State, limits: Limits)
    requires limits.Valid() && Controlled(st) && st.connmgrDone && !st.main.Finished?
    ensures Enabled(st, ClosingStep(st))
    ensures var st' := Apply(st, ClosingStep(st), limits); st'.connmgrDone && TotalLeft(st') < TotalLeft(st)
  {
  }

  /** After the connection manager has ended the gateway can always close, however it got there. */
  lemma {:induction false} CanAlwaysClose(config: Config, steps: seq<Step>) returns (longer: seq<Step>)
    requires config.limits.Valid() && IsRun(Initial(config), steps, config.limits)
    requires Exec(Initial(config), steps, config.limits).connmgrDone
    ensures steps <= longer && IsRun(Initial(config), longer, config.limits)
    ensures Exec(Initial(config), longer, config.limits).main.Finished?
    decreases TotalLeft(Exec(Initial(config), steps, config.limits))
  {
    var st := Exec(Initial(config), steps, config.limits);
    longer := steps;
    if !st.main.Finished? {
      EveryRunIsGood(config, steps);
      ClosingStepCloses(st, config.limits);
      ExecAppend(Initial(config), steps, ClosingStep(st), config.limits);
      longer := CanAlwaysClose(config, steps + [ClosingStep(st)]);
    }
  }
}
