/**
 * That readings arrive: what the connection manager has put into the history when
 * it ends, and that whatever a peer has sent can still reach both readers, from
 * every state in which the connection manager is at work.
 */
module PipelineDelivery {
  import opened Sequences
  import opened Measurements
  import opened ListOperations
  import opened SharedQueue
  import opened SensorTable
  import opened Pipeline
  import Scan = ClientScan
  import Net = ConnectionRuns
  import NetProperties = ConnectionProperties
  import Threads = Gateway
  import ThreadProperties = GatewayProperties

  lemma ExecAppend(st: State, steps: seq<Step>, step: Step, limits: Limits)
    requires limits.Valid()
    ensures Exec(st, steps + [step], limits) == Apply(Exec(st, steps, limits), step, limits)
    ensures IsRun(st, steps + [step], limits) <==>
            IsRun(st, steps, limits) && Enabled(Exec(st, steps, limits), step)
  {
    assert (steps + [step])[..|steps|] == steps;
  }

  // ------------------------------------------------------- nothing is left behind

  lemma StepLeavesNothing(st: State, step: Step, limits: Limits)
    requires limits.Valid() && Enabled(st, step) && (st.threads.connmgrDone ==> st.pending == [])
    ensures var st' := Apply(st, step, limits); st'.threads.connmgrDone ==> st'.pending == []
  {
    if step.NetStep? && step.net.Arrive? {
      assert NewEvents(st.net.log, Net.Apply(st.net, step.net).log) == [];
    }
  }

  lemma {:induction false} NothingPendingAtEnd(config: Threads.Config, steps: seq<Step>)
    requires config.limits.Valid() && IsRun(Initial(config), steps, config.limits)
    ensures var st := Exec(Initial(config), steps, config.limits);
      st.threads.connmgrDone ==> st.pending == []
  {
    if steps != [] {
      NothingPendingAtEnd(config, steps[..|steps| - 1]);
      StepLeavesNothing(Exec(Initial(config), steps[..|steps| - 1], config.limits), steps[|steps| - 1], config.limits);
    }
  }

  /**
   * When the connection manager has ended, and whenever it can begin a round or
   * end, every reading that it has forwarded is in the history.
   */
  lemma AllInBeforeTheEnd(config: Threads.Config, steps: seq<Step>)
    requires config.limits.Valid() && IsRun(Initial(config), steps, config.limits)
    ensures var st := Exec(Initial(config), steps, config.limits);
      var complete := st.threads.log.history == Net.Readings(st.net.log);
      && (st.threads.connmgrDone ==> complete)
      && (Enabled(st, ThreadStep(Threads.ConnmgrExit)) ==> complete)
      && forall n: Net.Step :: n.Select? && Enabled(st, NetStep(n)) ==> complete && !st.threads.connmgrDone
  {
    var st := Exec(Initial(config), steps, config.limits);
    NothingPendingAtEnd(config, steps);
    EveryRunConserves(config, steps);
    assert st.pending == [] ==> st.threads.log.history + st.pending == st.threads.log.history;
  }

  // ------------------------------------------------- what is forwarded can go in

  /** The threads are where they were; only the buffer has gained something. */
  ghost predicate OnlyGains(st: Threads.State, st': Threads.State) {
    && st' == st.(cells := st'.cells, log := st'.log)
    && st.log.history <= st'.log.history
  }

  /** A longer run, with nothing else taken from the sockets. */
  ghost predicate Continues(config: Threads.Config, steps: seq<Step>, longer: seq<Step>)
    requires config.limits.Valid()
  {
    && steps <= longer && IsRun(Initial(config), longer, config.limits)
    && Exec(Initial(config), longer, config.limits).net.arrivals == Exec(Initial(config), steps, config.limits).net.arrivals
  }

  /**
   * From every reachable state all that has been forwarded can go into the history
   * without any other thread moving; then the next round can begin and the
   * connection manager, if it has not ended, can end.
   */
  lemma {:induction false} ForwardedGoesIn(config: Threads.Config, steps: seq<Step>) returns (longer: seq<Step>)
    requires config.limits.Valid() && IsRun(Initial(config), steps, config.limits)
    ensures Continues(config, steps, longer)
    ensures var st, st' := Exec(Initial(config), steps, config.limits), Exec(Initial(config), longer, config.limits);
      && st'.net == st.net && OnlyGains(st.threads, st'.threads)
      && st'.pending == [] && st'.threads.log.history == Net.Readings(st.net.log)
      && (!st.threads.connmgrDone ==>
            && Enabled(st', ThreadStep(Threads.ConnmgrExit))
            && forall n: Net.Step :: Net.Enabled(st.net, n) ==> Enabled(st', NetStep(n)))
    decreases |Exec(Initial(config), steps, config.limits).pending|
  {
    var st := Exec(Initial(config), steps, config.limits);
    NothingPendingAtEnd(config, steps);
    EveryRunConserves(config, steps);
    longer := steps;
    if st.pending == [] {
      assert st.threads.log.history + [] == st.threads.log.history;
    } else {
      var insertion := ThreadStep(Threads.Insert(st.pending[0]));
      ExecAppend(Initial(config), steps, insertion, config.limits);
      longer := ForwardedGoesIn(config, steps + [insertion]);
    }
  }

  // ------------------------------------------------------ a reader that catches up

  lemma ThreadsAreGood(config: Threads.Config, steps: seq<Step>)
    requires config.limits.Valid() && IsRun(Initial(config), steps, config.limits)
    ensures Threads.Good(Exec(Initial(config), steps, config.limits).threads, config)
  {
    RunProjects(config, steps);
    Threads.EveryRunIsGood(config, ThreadSide(steps));
  }

  /** A reader in its loop whose flag is up. */
  ghost predicate AtWork(st: Threads.State, r: Reader) {
    ThreadProperties.Looping(st.PhaseOf(r)) && st.RunFlag(r)
  }

  /** The step that a looping reader takes next. */
  function OwnNext(p: Threads.Phase, r: Reader): Threads.Step {
    match p
    case Top => Threads.Peek(r)
    case Peeked => Threads.Remove(r)
    case Holding(_) => Threads.Work(r)
    case _ => Threads.Test(r)
  }

  /** Only the reader `r` has moved. */
  ghost predicate OnlyMoves(st: State, st': State, r: Reader) {
    && st'.net == st.net && st'.pending == st.pending
    && st'.threads.log.history == st.threads.log.history
    && st'.threads.connmgrDone == st.threads.connmgrDone && st'.threads.main == st.threads.main
    && st'.threads.runDatamgr == st.threads.runDatamgr && st'.threads.runStoragemgr == st.threads.runStoragemgr
    && forall o: Reader :: o != r ==>
         st'.threads.PhaseOf(o) == st.threads.PhaseOf(o) && st'.threads.Done(o) == st.threads.Done(o)
  }

  lemma WorkMoves(st: State, r: Reader, limits: Limits)
    requires limits.Valid() && st.threads.PhaseOf(r).Holding?
    ensures OnlyMoves(st, Apply(st, ThreadStep(Threads.Work(r)), limits), r)
  {
  }

  lemma LoopMoves(st: State, r: Reader, limits: Limits)
    requires limits.Valid() && AtWork(st.threads, r) && !st.threads.PhaseOf(r).Holding?
    ensures OnlyMoves(st, Apply(st, ThreadStep(OwnNext(st.threads.PhaseOf(r), r)), limits), r)
  {
    ThreadProperties.LogOfStep(st.threads, OwnNext(st.threads.PhaseOf(r), r), limits);
  }

  lemma OwnStepMoves(st: State, r: Reader, limits: Limits)
    requires limits.Valid() && AtWork(st.threads, r)
    ensures var step := ThreadStep(OwnNext(st.threads.PhaseOf(r), r)); var st' := Apply(st, step, limits);
      Enabled(st, step) && OnlyMoves(st, st', r) && AtWork(st'.threads, r)
  {
    var step := OwnNext(st.threads.PhaseOf(r), r);
    if st.threads.PhaseOf(r).Holding? {
      WorkMoves(st, r, limits);
    } else {
      LoopMoves(st, r, limits);
    }
    assert Threads.Enabled(st.threads, step);
    ThreadProperties.StaysLooping(st.threads, step, r, limits);
  }

  lemma OwnStepAdvances(st: Threads.State, r: Reader, config: Threads.Config)
    requires config.limits.Valid() && Threads.Good(st, config) && AtWork(st, r)
    requires st.log.Cursor(r) < |st.log.history| || st.PhaseOf(r).Holding?
    ensures var st' := Threads.Apply(st, OwnNext(st.PhaseOf(r), r), config.limits);
      ThreadProperties.Progress(st', r) == ThreadProperties.Progress(st, r) + 1
  {
    ThreadProperties.StepAdvances(st, OwnNext(st.PhaseOf(r), r), r, config.limits);
  }

  lemma UpToDate(st: Threads.State, r: Reader, config: Threads.Config)
    requires config.limits.Valid() && Threads.Good(st, config)
    requires st.log.Cursor(r) == |st.log.history| && !st.PhaseOf(r).Holding?
    ensures st.Done(r) == Filter(st.log.history, Identified)
  {
    assert Threads.Delivered(st, r);
    assert st.Done(r) + [] == st.Done(r) && st.log.history[..|st.log.history|] == st.log.history;
  }

  /** By its own steps alone a reader at work can finish with the whole history. */
  lemma {:induction false} ReaderCatchesUp(config: Threads.Config, steps: seq<Step>, r: Reader)
    returns (longer: seq<Step>)
    requires config.limits.Valid() && IsRun(Initial(config), steps, config.limits)
    requires AtWork(Exec(Initial(config), steps, config.limits).threads, r)
    ensures Continues(config, steps, longer)
    ensures var st, st' := Exec(Initial(config), steps, config.limits), Exec(Initial(config), longer, config.limits);
      OnlyMoves(st, st', r) && st'.threads.Done(r) == Filter(st.threads.log.history, Identified)
    decreases var st := Exec(Initial(config), steps, config.limits).threads;
      4 * |st.log.history| + 2 - ThreadProperties.Progress(st, r)
  {
    var st := Exec(Initial(config), steps, config.limits);
    ThreadsAreGood(config, steps);
    longer := steps;
    if st.threads.log.Cursor(r) == |st.threads.log.history| && !st.threads.PhaseOf(r).Holding? {
      UpToDate(st.threads, r, config);
    } else {
      var next := ThreadStep(OwnNext(st.threads.PhaseOf(r), r));
      OwnStepMoves(st, r, config.limits);
      OwnStepAdvances(st.threads, r, config);
      ExecAppend(Initial(config), steps, next, config.limits);
      longer := ReaderCatchesUp(config, steps + [next], r);
    }
  }

  lemma {:induction false} ThreadRunFrom(st: Threads.State, before: seq<Threads.Step>, after: seq<Threads.Step>,
                                         limits: Limits)
    requires limits.Valid() && Threads.IsRun(st, before + after, limits)
    ensures Threads.IsRun(Threads.Exec(st, before, limits), after, limits)
    ensures Threads.Exec(st, before + after, limits) == Threads.Exec(Threads.Exec(st, before, limits), after, limits)
  {
    if after == [] {
      assert before + after == before;
    } else {
      assert (before + after)[..|before + after| - 1] == before + after[..|after| - 1];
      ThreadRunFrom(st, before, after[..|after| - 1], limits);
    }
  }

  lemma {:induction false} ThreadSideConcat(before: seq<Step>, after: seq<Step>)
    ensures ThreadSide(before + after) == ThreadSide(before) + ThreadSide(after)
  {
    if after == [] {
      assert before + after == before;
    } else {
      assert (before + after)[..|before + after| - 1] == before + after[..|after| - 1];
      ThreadSideConcat(before, after[..|after| - 1]);
    }
  }

  /**
   * And under every schedule, with any further traffic: once a reader at work has
   * had its four steps for each waiting reading and one more, it has finished with
   * all that was in the history, provided its flag is still up.
   */
  lemma EveryScheduleDelivers(config: Threads.Config, before: seq<Step>, after: seq<Step>, r: Reader)
    requires config.limits.Valid()
    requires IsRun(Initial(config), before, config.limits) && IsRun(Initial(config), before + after, config.limits)
    requires AtWork(Exec(Initial(config), before, config.limits).threads, r)
    requires Exec(Initial(config), before + after, config.limits).threads.RunFlag(r)
    requires var g := Exec(Initial(config), before, config.limits).threads.log;
      ThreadProperties.OwnSteps(ThreadSide(after), r) >= 4 * (|g.history| - g.Cursor(r)) + 1
    ensures ThreadProperties.Covered(Exec(Initial(config), before + after, config.limits).threads, r,
                                     Exec(Initial(config), before, config.limits).threads.log.history)
  {
    RunProjects(config, before);
    RunProjects(config, before + after);
    ThreadSideConcat(before, after);
    ThreadRunFrom(Threads.Initial(config), ThreadSide(before), ThreadSide(after), config.limits);
    ThreadsAreGood(config, before);
    ThreadProperties.BoundedDelivery(Exec(Initial(config), before, config.limits).threads, ThreadSide(after), r, config);
  }

  // ------------------------------------------------------- a peer that is served

  /** The packets up to and including the first Fin. */
  function UpToFin(packets: seq<Scan.Packet>): seq<Scan.Packet> {
    if packets == [] then []
    else if packets[0] == Scan.Fin then [Scan.Fin]
    else [packets[0]] + UpToFin(packets[1..])
  }

  lemma {:induction false} UpToFinAt(taken: seq<Scan.Packet>, sent: seq<Scan.Packet>)
    requires taken <= sent && Scan.Fin !in taken
    ensures taken == sent ==> UpToFin(sent) == taken
    ensures |taken| < |sent| && sent[|taken|] == Scan.Fin ==> UpToFin(sent) == taken + [Scan.Fin]
    decreases |taken|
  {
    if taken != [] {
      assert Scan.Fin !in taken[1..];
      UpToFinAt(taken[1..], sent[1..]);
    }
  }

  /** A clock by which no client of the list has been silent at all. */
  function ClockOf(cs: seq<Scan.Client>): nat -> int {
    (conn: nat) => var p := Scan.PositionOf(cs, conn); if p == -1 then 0 else cs[p].ts
  }

  lemma {:induction false} NoneLeavesBefore(cs: seq<Scan.Client>, readable: map<nat, Scan.Packet>, p: nat)
    requires Scan.DistinctClients(cs) && p < |cs|
    requires forall j :: 0 <= j < p ==> cs[j].conn !in readable
    ensures Scan.Visited(cs, Scan.Round(readable, ClockOf(cs), 1), p)
  {
    if p > 0 {
      NoneLeavesBefore(cs, readable, p - 1);
      Scan.PositionUnique(cs, p - 1);
    }
  }

  /** The round in which only this connection is readable, and nobody has been silent. */
  function ServingRound(st: Net.State, conn: nat): Scan.Round
    requires |Net.TakenFrom(st, conn)| < |Net.SentOn(st, conn)|
  {
    Scan.Round(map[conn := Net.SentOn(st, conn)[|Net.TakenFrom(st, conn)|]], ClockOf(st.clients), 1)
  }

  lemma RoundServes(st: Net.State, conn: nat)
    requires Net.Good(st) && Scan.PositionOf(st.clients, conn) != -1
    requires |Net.TakenFrom(st, conn)| < |Net.SentOn(st, conn)|
    ensures var step := Net.Select(None, ServingRound(st, conn)); var st' := Net.Apply(st, step);
      var packet := Net.SentOn(st, conn)[|Net.TakenFrom(st, conn)|];
      && Net.Enabled(st, step) && st'.arrivals == st.arrivals
      && Net.TakenFrom(st', conn) == Net.TakenFrom(st, conn) + [packet]
      && (Scan.PositionOf(st'.clients, conn) == -1 <==> packet == Scan.Fin)
  {
    var round, p := ServingRound(st, conn), Scan.PositionOf(st.clients, conn);
    var c := st.clients[p];
    NoneLeavesBefore(st.clients, round.readable, p);
    Net.ListedRound(st, None, round, p);
    assert Scan.EventsAt(st.clients, round, p) == Scan.ReceiveOn(c, round.readable[conn]).events;
    Net.PacketsConcat(Scan.EventsOf(st.log, conn), Scan.ReceiveOn(c, round.readable[conn]).events);
    Net.PacketsOfVisit(c, round.readable[conn]);
  }

  /** The connection is waiting to be accepted, or is connected. */
  ghost predicate Reachable(st: Net.State, conn: nat) {
    Scan.EventsOf(st.log, conn) == [] || Scan.PositionOf(st.clients, conn) != -1
  }

  lemma NetIsGood(config: Threads.Config, steps: seq<Step>)
    requires config.limits.Valid() && IsRun(Initial(config), steps, config.limits)
    ensures Net.Good(Exec(Initial(config), steps, config.limits).net)
  {
    RunProjects(config, steps);
    Net.EveryRunIsGood(NetSide(steps));
  }

  /** After what is pending has gone in, one more round that `step` describes. */
  lemma RoundGoesOn(config: Threads.Config, steps: seq<Step>, step: Net.Step) returns (longer: seq<Step>)
    requires config.limits.Valid() && IsRun(Initial(config), steps, config.limits)
    requires var st := Exec(Initial(config), steps, config.limits);
      !st.threads.connmgrDone && step.Select? && Net.Enabled(st.net, step)
    ensures Continues(config, steps, longer)
    ensures var st, st' := Exec(Initial(config), steps, config.limits), Exec(Initial(config), longer, config.limits);
      st'.net == Net.Apply(st.net, step) && OnlyGains(st.threads, st'.threads)
  {
    var before := ForwardedGoesIn(config, steps);
    ExecAppend(Initial(config), before, NetStep(step), config.limits);
    longer := before + [NetStep(step)];
  }

  lemma ConnectionAccepted(config: Threads.Config, steps: seq<Step>, conn: nat) returns (longer: seq<Step>)
    requires config.limits.Valid() && IsRun(Initial(config), steps, config.limits)
    requires var st := Exec(Initial(config), steps, config.limits);
      !st.threads.connmgrDone && Reachable(st.net, conn)
    ensures Continues(config, steps, longer)
    ensures var st, st' := Exec(Initial(config), steps, config.limits), Exec(Initial(config), longer, config.limits);
      Scan.PositionOf(st'.net.clients, conn) != -1 && OnlyGains(st.threads, st'.threads)
  {
    var st := Exec(Initial(config), steps, config.limits);
    longer := steps;
    if Scan.PositionOf(st.net.clients, conn) == -1 {
      var quiet := Scan.Round(map[], ClockOf(st.net.clients), 1);
      NetIsGood(config, steps);
      longer := RoundGoesOn(config, steps, Net.Select(Some(conn), quiet));
      NewcomerStays(st.net, conn, quiet);
    }
  }

  lemma NewcomerStays(st: Net.State, conn: nat, round: Scan.Round)
    requires Net.Good(st) && Net.Enabled(st, Net.Select(Some(conn), round)) && round.readable == map[]
    ensures Scan.PositionOf(Net.Apply(st, Net.Select(Some(conn), round)).clients, conn) != -1
  {
    Net.AcceptIsNew(st, Some(conn), round);
    Net.ListedDistinct(st, Some(conn));
    Net.NewcomerIsQuiet(Net.Listed(st, Some(conn)), round, |st.clients|);
  }

  /** A connected peer is served round by round until all it has sent, up to its closing, has been taken. */
  lemma {:induction false} PeerIsServed(config: Threads.Config, steps: seq<Step>, conn: nat) returns (longer: seq<Step>)
    requires config.limits.Valid() && IsRun(Initial(config), steps, config.limits)
    requires var st := Exec(Initial(config), steps, config.limits);
      !st.threads.connmgrDone && Scan.PositionOf(st.net.clients, conn) != -1
    ensures Continues(config, steps, longer)
    ensures var st, st' := Exec(Initial(config), steps, config.limits), Exec(Initial(config), longer, config.limits);
      && OnlyGains(st.threads, st'.threads)
      && Net.TakenFrom(st'.net, conn) == UpToFin(Net.SentOn(st.net, conn))
    decreases var st := Exec(Initial(config), steps, config.limits).net;
      |Net.SentOn(st, conn)| - |Net.TakenFrom(st, conn)|
  {
    var st := Exec(Initial(config), steps, config.limits);
    var taken, sent := Net.TakenFrom(st.net, conn), Net.SentOn(st.net, conn);
    NetIsGood(config, steps);
    assert Net.LifeCycle(st.net, conn) && taken <= sent;
    UpToFinAt(taken, sent);
    longer := steps;
    if |taken| < |sent| {
      RoundServes(st.net, conn);
      longer := RoundGoesOn(config, steps, Net.Select(None, ServingRound(st.net, conn)));
      if sent[|taken|] != Scan.Fin {
        longer := PeerIsServed(config, longer, conn);
      }
    }
  }

  // ---------------------------------------------------------------- the theorem

  /** As long as its flag is up the data manager is in its loop, in every run. */
  lemma {:induction false} DatamgrLoops(config: Threads.Config, steps: seq<Threads.Step>)
    requires config.limits.Valid() && Threads.IsRun(Threads.Initial(config), steps, config.limits)
    requires Threads.Exec(Threads.Initial(config), steps, config.limits).runDatamgr
    ensures ThreadProperties.Looping(Threads.Exec(Threads.Initial(config), steps, config.limits).datamgr)
  {
    if steps != [] {
      var front, last := steps[..|steps| - 1], steps[|steps| - 1];
      ThreadProperties.StaysLooping(Threads.Exec(Threads.Initial(config), front, config.limits), last, DataMgr, config.limits);
      DatamgrLoops(config, front);
    }
  }

  lemma DatamgrAtWork(config: Threads.Config, steps: seq<Step>)
    requires config.limits.Valid() && IsRun(Initial(config), steps, config.limits)
    requires !Exec(Initial(config), steps, config.limits).threads.connmgrDone
    ensures var st := Exec(Initial(config), steps, config.limits).threads;
      AtWork(st, DataMgr) && st.runStoragemgr
  {
    RunProjects(config, steps);
    ThreadProperties.ClosesWithConnmgrOnly(config, ThreadSide(steps));
    DatamgrLoops(config, ThreadSide(steps));
  }

  /** A storage manager that has not given up gets into its loop, if it is not there already. */
  lemma StoragemgrStarts(config: Threads.Config, steps: seq<Step>) returns (longer: seq<Step>)
    requires config.limits.Valid() && IsRun(Initial(config), steps, config.limits)
    requires var st := Exec(Initial(config), steps, config.limits).threads;
      !st.storagemgr.Exited? && st.runStoragemgr
    ensures Continues(config, steps, longer)
    ensures var st, st' := Exec(Initial(config), steps, config.limits), Exec(Initial(config), longer, config.limits);
      OnlyMoves(st, st', StorageMgr) && AtWork(st'.threads, StorageMgr)
  {
    longer := steps;
    if Exec(Initial(config), steps, config.limits).threads.storagemgr.Connecting? {
      longer := steps + [ThreadStep(Threads.Connect(true))];
      ExecAppend(Initial(config), steps, ThreadStep(Threads.Connect(true)), config.limits);
    }
  }

  /** Both readers, the storage manager unless it has given up, finish with the whole history. */
  lemma ReadersCatchUp(config: Threads.Config, steps: seq<Step>) returns (longer: seq<Step>)
    requires config.limits.Valid() && IsRun(Initial(config), steps, config.limits)
    requires !Exec(Initial(config), steps, config.limits).threads.connmgrDone
    ensures Continues(config, steps, longer)
    ensures var st, st' := Exec(Initial(config), steps, config.limits), Exec(Initial(config), longer, config.limits);
      var all := Filter(st.threads.log.history, Identified);
      && st'.net == st.net && st'.pending == st.pending && st'.threads.log.history == st.threads.log.history
      && !st'.threads.connmgrDone
      && st'.threads.handled == all
      && (!st.threads.storagemgr.Exited? ==> st'.threads.attempts == all)
  {
    DatamgrAtWork(config, steps);
    longer := ReaderCatchesUp(config, steps, DataMgr);
    var mid := Exec(Initial(config), longer, config.limits);
    assert mid.threads.handled == mid.threads.Done(DataMgr);
    assert mid.threads.storagemgr == mid.threads.PhaseOf(StorageMgr) == Exec(Initial(config), steps, config.limits).threads.PhaseOf(StorageMgr);
    if !mid.threads.storagemgr.Exited? {
      longer := StoragemgrStarts(config, longer);
      longer := ReaderCatchesUp(config, longer, StorageMgr);
      var st' := Exec(Initial(config), longer, config.limits);
      assert st'.threads.attempts == st'.threads.Done(StorageMgr) && st'.threads.handled == st'.threads.Done(DataMgr);
    }
  }

  /**
   * From every reachable state in which the connection manager is at work, and for
   * every connection that waits to be accepted or is connected: without another
   * packet from anyone the run can go on until the history holds, of this
   * connection, all the data that its peer has sent before closing, the data
   * manager has handled the whole history, and the storage manager, unless it has
   * given up on the database, has tried to insert all of it.
   */
  lemma SentCanBeDelivered(config: Threads.Config, steps: seq<Step>, conn: nat) returns (longer: seq<Step>)
    requires config.limits.Valid() && IsRun(Initial(config), steps, config.limits)
    requires var st := Exec(Initial(config), steps, config.limits);
      !st.threads.connmgrDone && Reachable(st.net, conn)
    ensures Continues(config, steps, longer)
    ensures var st, st' := Exec(Initial(config), steps, config.limits), Exec(Initial(config), longer, config.limits);
      var h, src := st'.threads.log.history, Sources(st'.net.log);
      && st'.pending == [] && |src| == |h|
      && From(h, src, conn) == NetProperties.DataOf(UpToFin(Net.SentOn(st.net, conn)))
      && st'.threads.handled == Filter(h, Identified)
      && st'.threads.table == Run(Loaded(config.rooms), h, config.limits)
      && (!st.threads.storagemgr.Exited? ==> st'.threads.attempts == Filter(h, Identified))
  {
    longer := ConnectionAccepted(config, steps, conn);
    longer := PeerIsServed(config, longer, conn);
    longer := ForwardedGoesIn(config, longer);
    longer := ReadersCatchUp(config, longer);
    var st' := Exec(Initial(config), longer, config.limits);
    HistoryIsMerge(config, longer, conn);
    assert st'.threads.log.history + [] == st'.threads.log.history;
    ThreadsAreGood(config, longer);
    RunIgnoresBlanks(Loaded(config.rooms), st'.threads.log.history, config.limits);
  }
}
