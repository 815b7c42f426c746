/** What every interleaving of the gateway's threads guarantees, and what shutdown costs. */
module GatewayProperties {
  import opened Sequences
  import opened Measurements
  import opened SharedQueue
  import opened SensorTable
  import opened Gateway

  function RecordsOf(cells: seq<Cell>): seq<Measurement> {
    Map((c: Cell) => c.data, cells)
  }

  // ---------------------------------------------------------------- end to end

  lemma ViewHoldsTheRest(g: Log)
    requires g.Valid()
    ensures RecordsOf(View(g)) == g.history[g.Low()..]
  {
  }

  /** Working on the reading in hand, if any, brings the table up to the cursor. */
  lemma TableOfPrefix(st: State, config: Config)
    requires config.limits.Valid() && st.log.Valid() && Tabled(st, config) && Delivered(st, DataMgr)
    ensures Run(st.table, InHand(st.datamgr), config.limits) ==
            Run(Loaded(config.rooms), st.log.history[..st.log.a], config.limits)
  {
    RunConcat(Loaded(config.rooms), st.handled, InHand(st.datamgr), config.limits);
    RunIgnoresBlanks(Loaded(config.rooms), st.log.history[..st.log.a], config.limits);
  }

  /**
   * In every reachable state the database insert attempts, the sensor table and
   * the alerts are functions of prefixes of the one insertion history, up to the
   * reading in hand, and the buffer holds the rest of it.
   */
  lemma EndToEnd(config: Config, steps: seq<Step>)
    requires config.limits.Valid() && IsRun(Initial(config), steps, config.limits)
    ensures var st := Exec(Initial(config), steps, config.limits); var h := st.log.history;
      && st.log.Valid()
      && st.attempts + InHand(st.storagemgr) == Filter(h[..st.log.b], Identified)
      && st.handled + InHand(st.datamgr) == Filter(h[..st.log.a], Identified)
      && Run(st.table, InHand(st.datamgr), config.limits) == Run(Loaded(config.rooms), h[..st.log.a], config.limits)
      && (!st.main.Finished? ==> RecordsOf(st.cells) == h[st.log.Low()..])
  {
    var st := Exec(Initial(config), steps, config.limits);
    EveryRunIsGood(config, steps);
    ViewHoldsTheRest(st.log);
    assert Delivered(st, StorageMgr) && Delivered(st, DataMgr);
    TableOfPrefix(st, config);
  }

  /** What a reader has worked on under one id, with the reading in hand, is what it has read. */
  lemma ReaderValues(config: Config, steps: seq<Step>, r: Reader, id: SensorId)
    requires config.limits.Valid() && IsRun(Initial(config), steps, config.limits) && id != 0
    ensures var st := Exec(Initial(config), steps, config.limits);
      && st.log.Valid()
      && ValuesOf(st.Done(r), id) + ValuesOf(InHand(st.PhaseOf(r)), id) ==
         ValuesOf(st.log.history[..st.log.Cursor(r)], id)
  {
    var st := Exec(Initial(config), steps, config.limits);
    EndToEnd(config, steps);
    ValuesOfConcat(st.Done(r), InHand(st.PhaseOf(r)), id);
    IdentifiedValues(st.log.history[..st.log.Cursor(r)], id);
  }

  /** In every reachable state the table is that of the readings worked on. */
  lemma TableOfHandled(config: Config, steps: seq<Step>, i: nat)
    requires config.limits.Valid() && IsRun(Initial(config), steps, config.limits)
    requires i < |config.rooms|
    ensures var st := Exec(Initial(config), steps, config.limits); var id := config.rooms[i].1;
      && |st.table.sensors| == |config.rooms|
      && st.table.sensors[i].readings ==
           (if id != 0 && FirstLine(config.rooms, i) then ValuesOf(st.handled, id) else [])
      && AlertsAbout(st.table.log, id) ==
           ExpectedAlerts(config.rooms, id, ValuesOf(st.handled, id), config.limits)
  {
    var st := Exec(Initial(config), steps, config.limits);
    EveryRunIsGood(config, steps);
    ReadingsAreProjection(config.rooms, st.handled, config.limits, i);
    AlertsAreProjection(config.rooms, st.handled, config.limits, config.rooms[i].1);
  }

  /**
   * In every reachable state: the first sensor node with an id holds, but for the
   * reading in hand, exactly its share of the history read so far, other nodes
   * hold nothing, and the alerts about the id are those of the readings worked on.
   */
  lemma SensorHoldsItsHistory(config: Config, steps: seq<Step>, i: nat)
    requires config.limits.Valid() && IsRun(Initial(config), steps, config.limits)
    requires i < |config.rooms|
    ensures var st := Exec(Initial(config), steps, config.limits); var id := config.rooms[i].1;
      && st.log.Valid() && |st.table.sensors| == |config.rooms|
      && var readings, seen := st.table.sensors[i].readings, ValuesOf(st.log.history[..st.log.a], id);
         && (if id != 0 && FirstLine(config.rooms, i)
             then readings + ValuesOf(InHand(st.datamgr), id) == seen
                  && AlertsAbout(st.table.log, id) == AlertHistory(id, readings, config.limits)
             else readings == [])
         && (id == 0 ==> AlertsAbout(st.table.log, id) == [])
  {
    EveryRunIsGood(config, steps);
    TableOfHandled(config, steps, i);
    var id := config.rooms[i].1;
    if id != 0 {
      ReaderValues(config, steps, DataMgr, id);
    }
  }

  ghost predicate Drained(st: State) {
    && st.log.a == st.log.b == |st.log.history|
    && InHand(st.datamgr) == [] && InHand(st.storagemgr) == []
  }

  /** How the threads were interleaved cannot be seen in the result. */
  lemma InterleavingIndependence(config: Config, s: seq<Step>, t: seq<Step>)
    requires config.limits.Valid()
    requires IsRun(Initial(config), s, config.limits) && IsRun(Initial(config), t, config.limits)
    requires var (u, v) := (Exec(Initial(config), s, config.limits), Exec(Initial(config), t, config.limits));
      u.log.history == v.log.history && Drained(u) && Drained(v)
    ensures var (u, v) := (Exec(Initial(config), s, config.limits), Exec(Initial(config), t, config.limits));
      u.table == v.table && u.attempts == v.attempts && u.handled == v.handled
  {
    EndToEnd(config, s);
    EndToEnd(config, t);
    var (u, v) := (Exec(Initial(config), s, config.limits), Exec(Initial(config), t, config.limits));
    assert u.attempts + [] == u.attempts && v.attempts + [] == v.attempts;
    assert u.handled + [] == u.handled && v.handled + [] == v.handled;
  }

  // ----------------------------------------------------------------- draining

  function Removals(steps: seq<Step>, r: Reader): nat {
    if steps == [] then 0
    else Removals(steps[..|steps| - 1], r) + (if steps[|steps| - 1] == Remove(r) then 1 else 0)
  }

  lemma {:induction false} GoodFrom(st: State, steps: seq<Step>, config: Config)
    requires config.limits.Valid() && Good(st, config) && IsRun(st, steps, config.limits)
    ensures Good(Exec(st, steps, config.limits), config)
  {
    if steps != [] {
      GoodFrom(st, steps[..|steps| - 1], config);
      StepKeepsGood(Exec(st, steps[..|steps| - 1], config.limits), steps[|steps| - 1], config);
    }
  }

  /** What a run does to the history and the cursors. */
  function LogAfter(g: Log, steps: seq<Step>): Log {
    if steps == [] then g
    else
      var g', last := LogAfter(g, steps[..|steps| - 1]), steps[|steps| - 1];
      NextLog(g', last)
  }

  function NextLog(g: Log, step: Step): Log {
    match step
    case Insert(m) => g.Insert(m)
    case Remove(r) => g.Advance(r)
    case _ => g
  }

  lemma {:induction false} LogOfRun(st: State, steps: seq<Step>, limits: Limits)
    requires limits.Valid()
    ensures Exec(st, steps, limits).log == LogAfter(st.log, steps)
  {
    if steps != [] {
      var front, last := steps[..|steps| - 1], steps[|steps| - 1];
      LogOfRun(st, front, limits);
      LogOfStep(Exec(st, front, limits), last, limits);
    }
  }

  lemma LogOfStep(st: State, step: Step, limits: Limits)
    requires limits.Valid()
    ensures Apply(st, step, limits).log == NextLog(st.log, step)
  {
  }

  predicate NoInserts(steps: seq<Step>) {
    steps == [] || (NoInserts(steps[..|steps| - 1]) && !steps[|steps| - 1].Insert?)
  }

  lemma {:induction false} LogDrains(g: Log, steps: seq<Step>, r: Reader)
    requires g.Valid() && NoInserts(steps)
    ensures var g' := LogAfter(g, steps);
      && g'.Valid() && g'.history == g.history
      && g'.Cursor(r) == Min(|g.history|, g.Cursor(r) + Removals(steps, r))
  {
    if steps != [] {
      LogDrains(g, steps[..|steps| - 1], r);
    }
  }

  /**
   * While nothing is inserted each reader moves by its own removals alone,
   * whatever the other does: after k of them its cursor is k further or at the end.
   */
  lemma RemovalsDrain(st: State, steps: seq<Step>, r: Reader, limits: Limits)
    requires limits.Valid() && st.log.Valid() && NoInserts(steps)
    ensures var st' := Exec(st, steps, limits);
      && st'.log.history == st.log.history
      && st'.log.Cursor(r) == Min(|st.log.history|, st.log.Cursor(r) + Removals(steps, r))
  {
    var g := LogAfter(st.log, steps);
    assert g.history == st.log.history
        && g.Cursor(r) == Min(|st.log.history|, st.log.Cursor(r) + Removals(steps, r)) by {
      LogDrains(st.log, steps, r);
    }
    assert Exec(st, steps, limits).log == g by {
      LogOfRun(st, steps, limits);
    }
  }

  // ------------------------------------------- delivery while readings keep coming

  predicate OwnStep(step: Step, r: Reader) {
    step == Peek(r) || step == Remove(r) || step == Work(r) || step == Test(r) || (step.Connect? && r.StorageMgr?)
  }

  function OwnSteps(steps: seq<Step>, r: Reader): nat {
    if steps == [] then 0
    else OwnSteps(steps[..|steps| - 1], r) + (if OwnStep(steps[|steps| - 1], r) then 1 else 0)
  }

  predicate Looping(p: Phase) {
    !p.Connecting? && !p.Exited?
  }

  /** How far a looping reader has come: four steps for each reading. */
  function Progress(st: State, r: Reader): int {
    var p := st.PhaseOf(r);
    4 * st.log.Cursor(r) + (if p.Peeked? then 1 else if p.Check? then -1 else if p.Holding? then -2 else 0)
  }

  /** The reader has finished with everything in `h`. */
  ghost predicate Covered(st: State, r: Reader, h: seq<Measurement>) {
    |h| <= st.log.Cursor(r) && Filter(h, Identified) <= st.Done(r)
  }

  /** Run flags go down only, and a reader leaves its loop only when its flag is down. */
  lemma StaysLooping(st: State, step: Step, r: Reader, limits: Limits)
    requires limits.Valid() && Enabled(st, step) && Apply(st, step, limits).RunFlag(r)
    ensures st.RunFlag(r)
    ensures Looping(st.PhaseOf(r)) ==> Looping(Apply(st, step, limits).PhaseOf(r))
  {
  }

  lemma OthersKeepProgress(st: State, step: Step, r: Reader, limits: Limits)
    requires limits.Valid() && Enabled(st, step) && !OwnStep(step, r)
    ensures Progress(Apply(st, step, limits), r) == Progress(st, r)
  {
    LogOfStep(st, step, limits);
  }

  lemma WaitingIsVisible(st: State, r: Reader)
    requires Controlled(st) && Represents(st) && st.RunFlag(r) && st.log.Cursor(r) < |st.log.history|
    ensures st.cells != []
  {
  }

  /** A reading waits for the reader, or it holds the last one: its own steps advance it, others do not matter. */
  lemma StepAdvances(st: State, step: Step, r: Reader, limits: Limits)
    requires limits.Valid() && Controlled(st) && Represents(st) && Enabled(st, step)
    requires Looping(st.PhaseOf(r)) && st.RunFlag(r)
    requires st.log.Cursor(r) < |st.log.history| || st.PhaseOf(r).Holding?
    ensures Progress(Apply(st, step, limits), r) == Progress(st, r) + (if OwnStep(step, r) then 1 else 0)
  {
    if !OwnStep(step, r) {
      OthersKeepProgress(st, step, r, limits);
    } else {
      LogOfStep(st, step, limits);
      if step.Peek? {
        WaitingIsVisible(st, r);
      }
    }
  }

  lemma DoneGrows(st: State, step: Step, r: Reader, limits: Limits)
    requires limits.Valid()
    ensures st.Done(r) <= Apply(st, step, limits).Done(r)
  {
  }

  lemma StaysCovered(st: State, step: Step, r: Reader, h: seq<Measurement>, limits: Limits)
    requires limits.Valid() && Enabled(st, step) && Covered(st, r, h)
    ensures Covered(Apply(st, step, limits), r, h)
  {
    assert st.log.Cursor(r) <= Apply(st, step, limits).log.Cursor(r) by {
      LogOfStep(st, step, limits);
    }
    DoneGrows(st, step, r, limits);
  }

  lemma EmptyHandCovers(st: State, r: Reader, h: seq<Measurement>, config: Config)
    requires config.limits.Valid() && Good(st, config) && h <= st.log.history
    requires |h| <= st.log.Cursor(r) && InHand(st.PhaseOf(r)) == []
    ensures Covered(st, r, h)
  {
    var read := st.log.history[..st.log.Cursor(r)];
    assert st.Done(r) == Filter(read, Identified) by {
      assert Delivered(st, r);
      assert st.Done(r) + [] == st.Done(r);
    }
    FilterPrefix(h, read, Identified);
  }

  /** The reader has finished with `h`, or has made exactly this progress towards it. */
  ghost predicate CoveredOrAt(st: State, r: Reader, h: seq<Measurement>, progress: int) {
    && Looping(st.PhaseOf(r)) && h <= st.log.history
    && (Covered(st, r, h) || progress == Progress(st, r) < 4 * |h| - 1)
  }

  lemma StartCoveredOrAt(st: State, r: Reader, config: Config)
    requires config.limits.Valid() && Good(st, config) && Looping(st.PhaseOf(r))
    ensures CoveredOrAt(st, r, st.log.history, Progress(st, r))
  {
    if Progress(st, r) >= 4 * |st.log.history| - 1 {
      EmptyHandCovers(st, r, st.log.history, config);
    }
  }

  lemma StepCoversOrAdvances(st: State, step: Step, r: Reader, h: seq<Measurement>, progress: int, config: Config)
    requires config.limits.Valid() && Good(st, config) && Enabled(st, step)
    requires CoveredOrAt(st, r, h, progress) && Apply(st, step, config.limits).RunFlag(r)
    ensures CoveredOrAt(Apply(st, step, config.limits), r, h, progress + (if OwnStep(step, r) then 1 else 0))
  {
    var st' := Apply(st, step, config.limits);
    StaysLooping(st, step, r, config.limits);
    LogOfStep(st, step, config.limits);
    if Covered(st, r, h) {
      StaysCovered(st, step, r, h, config.limits);
    } else {
      StepAdvances(st, step, r, config.limits);
      if Progress(st', r) == 4 * |h| - 1 {
        StepKeepsGood(st, step, config);
        EmptyHandCovers(st', r, h, config);
      }
    }
  }

  lemma {:induction false} CoveredOrAdvanced(st: State, steps: seq<Step>, r: Reader, config: Config)
    requires config.limits.Valid() && Good(st, config) && IsRun(st, steps, config.limits)
    requires Looping(st.PhaseOf(r)) && Exec(st, steps, config.limits).RunFlag(r)
    ensures CoveredOrAt(Exec(st, steps, config.limits), r, st.log.history, Progress(st, r) + OwnSteps(steps, r))
  {
    if steps == [] {
      StartCoveredOrAt(st, r, config);
    } else {
      var front, last := steps[..|steps| - 1], steps[|steps| - 1];
      var mid, progress := Exec(st, front, config.limits), Progress(st, r) + OwnSteps(front, r);
      assert mid.RunFlag(r) by {
        StaysLooping(mid, last, r, config.limits);
      }
      assert Good(mid, config) by {
        GoodFrom(st, front, config);
      }
      CoveredOrAdvanced(st, front, r, config);
      StepCoversOrAdvances(mid, last, r, st.log.history, progress, config);
    }
  }

  /**
   * However fast readings keep coming and whatever the other reader does: a reader
   * that is in its loop has finished with all that was in the history after four of
   * its own steps for each reading that was waiting, and one for the one in hand,
   * as long as its run flag is up.
   */
  lemma BoundedDelivery(st: State, steps: seq<Step>, r: Reader, config: Config)
    requires config.limits.Valid() && Good(st, config) && IsRun(st, steps, config.limits)
    requires Looping(st.PhaseOf(r)) && Exec(st, steps, config.limits).RunFlag(r)
    requires OwnSteps(steps, r) >= 4 * (|st.log.history| - st.log.Cursor(r)) + 1
    ensures Covered(Exec(st, steps, config.limits), r, st.log.history)
  {
    CoveredOrAdvanced(st, steps, r, config);
  }

  /** After the connection manager has ended nothing is inserted any more. */
  lemma {:induction false} NoInsertAfterJoin(st: State, steps: seq<Step>, limits: Limits)
    requires limits.Valid() && IsRun(st, steps, limits) && st.connmgrDone
    ensures Exec(st, steps, limits).connmgrDone && NoInserts(steps)
  {
    if steps != [] {
      var front, step := steps[..|steps| - 1], steps[|steps| - 1];
      NoInsertAfterJoin(st, front, limits);
      assert Enabled(Exec(st, front, limits), step);
    }
  }

  lemma ExecAppend(st: State, steps: seq<Step>, step: Step, limits: Limits)
    requires limits.Valid()
    ensures Exec(st, steps + [step], limits) == Apply(Exec(st, steps, limits), step, limits)
    ensures IsRun(st, steps + [step], limits) <==>
            IsRun(st, steps, limits) && Enabled(Exec(st, steps, limits), step)
  {
    assert (steps + [step])[..|steps|] == steps;
  }

  // ----------------------------------------------------------- without a database

  function ConnectAttempts(steps: seq<Step>): nat {
    if steps == [] then 0
    else ConnectAttempts(steps[..|steps| - 1]) + (if steps[|steps| - 1].Connect? then 1 else 0)
  }

  lemma AttemptsAppend(steps: seq<Step>, step: Step)
    ensures ConnectAttempts(steps + [step]) == ConnectAttempts(steps) + (if step.Connect? then 1 else 0)
  {
    assert (steps + [step])[..|steps|] == steps;
  }

  /** The database is tried at most three times, in every run. */
  lemma {:induction false} ThreeAttemptsAtMost(config: Config, steps: seq<Step>)
    requires config.limits.Valid() && IsRun(Initial(config), steps, config.limits)
    ensures var st := Exec(Initial(config), steps, config.limits);
      && ConnectAttempts(steps) <= 3
      && (st.storagemgr.Connecting? ==>
            st.storagemgr.attempt == ConnectAttempts(steps) + 1 && st.storagemgr.attempt <= 3)
  {
    if steps != [] {
      var front, last := steps[..|steps| - 1], steps[|steps| - 1];
      ThreeAttemptsAtMost(config, front);
      ConnectStep(Exec(Initial(config), front, config.limits), last, config.limits);
    }
  }

  lemma ConnectStep(st: State, step: Step, limits: Limits)
    requires limits.Valid() && Enabled(st, step)
    ensures var p, p' := st.storagemgr, Apply(st, step, limits).storagemgr;
      && (step.Connect? ==> p.Connecting? && (p'.Connecting? ==> p.attempt < 3 && p'.attempt == p.attempt + 1))
      && (!step.Connect? && p'.Connecting? ==> p' == p)
  {
  }

  lemma {:induction false} NothingStored(config: Config, steps: seq<Step>)
    requires config.limits.Valid() && IsRun(Initial(config), steps, config.limits)
    requires forall k :: 0 <= k < |steps| ==> steps[k] != Connect(true)
    ensures var st := Exec(Initial(config), steps, config.limits);
      && (st.storagemgr.Connecting? || st.storagemgr.Exited?)
      && st.attempts == [] && st.log.b == 0
  {
    if steps != [] {
      var front, last := steps[..|steps| - 1], steps[|steps| - 1];
      NothingStored(config, front);
      OfflineStep(Exec(Initial(config), front, config.limits), last, config.limits);
    }
  }

  lemma OfflineStep(st: State, step: Step, limits: Limits)
    requires limits.Valid() && Enabled(st, step) && step != Connect(true)
    requires st.storagemgr.Connecting? || st.storagemgr.Exited?
    ensures var st' := Apply(st, step, limits);
      && (st'.storagemgr.Connecting? || st'.storagemgr.Exited?)
      && st'.attempts == st.attempts && st'.log.b == st.log.b
  {
  }

  /**
   * As long as no attempt has succeeded nothing is stored and nothing leaves the
   * buffer, even after the storage manager has given up.
   */
  lemma NothingLeavesWithoutDatabase(config: Config, steps: seq<Step>)
    requires config.limits.Valid() && IsRun(Initial(config), steps, config.limits)
    requires forall k :: 0 <= k < |steps| ==> steps[k] != Connect(true)
    ensures var st := Exec(Initial(config), steps, config.limits);
      && (st.storagemgr.Connecting? || st.storagemgr.Exited?)
      && st.attempts == []
      && (!st.main.Finished? ==> RecordsOf(st.cells) == st.log.history)
  {
    NothingStored(config, steps);
    EndToEnd(config, steps);
  }

  /** A run in which all three attempts fail and the gateway goes on taking readings. */
  lemma GivingUpStopsNothing(config: Config, m: Measurement) returns (steps: seq<Step>)
    requires config.limits.Valid()
    ensures IsRun(Initial(config), steps, config.limits) && ConnectAttempts(steps) == 3
    ensures var st := Exec(Initial(config), steps, config.limits);
      && st.storagemgr.Exited? && st.main.JoinConnmgr? && st.runDatamgr && !st.connmgrDone
      && Enabled(st, Insert(m))
  {
    var s0, limits := Initial(config), config.limits;
    var t1 := [] + [Connect(false)];
    ExecAppend(s0, [], Connect(false), limits);
    var t2 := t1 + [Connect(false)];
    ExecAppend(s0, t1, Connect(false), limits);
    steps := t2 + [Connect(false)];
    ExecAppend(s0, t2, Connect(false), limits);
    AttemptsAppend([], Connect(false));
    AttemptsAppend(t1, Connect(false));
    AttemptsAppend(t2, Connect(false));
  }

  /** When the gateway closes: in every run only after the connection manager has ended. */
  lemma {:induction false} ClosesWithConnmgrOnly(config: Config, steps: seq<Step>)
    requires config.limits.Valid() && IsRun(Initial(config), steps, config.limits)
    ensures var st := Exec(Initial(config), steps, config.limits);
      && (st.connmgrDone <==> ConnmgrExit in steps)
      && (!st.connmgrDone ==> st.main.JoinConnmgr? && st.runDatamgr && st.runStoragemgr)
  {
    if steps != [] {
      var front, last := steps[..|steps| - 1], steps[|steps| - 1];
      ClosesWithConnmgrOnly(config, front);
      assert steps == front + [last];
      ConnmgrStep(Exec(Initial(config), front, config.limits), last, config.limits);
    }
  }

  lemma ConnmgrStep(st: State, step: Step, limits: Limits)
    requires limits.Valid() && Enabled(st, step)
    ensures var st' := Apply(st, step, limits);
      && (st'.connmgrDone <==> st.connmgrDone || step.ConnmgrExit?)
      && (!st.connmgrDone && st.main.JoinConnmgr? ==>
            (st'.main, st'.runDatamgr, st'.runStoragemgr) == (st.main, st.runDatamgr, st.runStoragemgr))
  {
  }
}
