/**
 * From the sockets to the sensor table and the database: the product of the
 * connection manager's steps and those of the threads behind the shared buffer.
 *
 * A select round decides what it forwards; the readings then go into the buffer
 * one by one, in that order, interleaved with the steps of every other thread
 * and with new arrivals. The next round, and the end of the connection manager,
 * wait until all of them are in.
 */
module Pipeline {
  import opened Sequences
  import opened Measurements
  import opened SharedQueue
  import opened SensorTable
  import Scan = ClientScan
  import Net = ConnectionRuns
  import NetProperties = ConnectionProperties
  import Threads = Gateway
  import ThreadProperties = GatewayProperties

  /** `pending` are the readings of the current round not yet inserted. */
  datatype State = State(net: Net.State, threads: Threads.State, pending: seq<Measurement>)

  datatype Step = NetStep(net: Net.Step) | ThreadStep(thread: Threads.Step)

  function Initial(config: Threads.Config): State {
    State(Net.INIT, Threads.Initial(config), [])
  }

  ghost predicate Enabled(st: State, step: Step) {
    match step
    case NetStep(n) =>
      Net.Enabled(st.net, n) && (n.Select? ==> st.pending == [] && !st.threads.connmgrDone)
    case ThreadStep(t) =>
      && Threads.Enabled(st.threads, t)
      && (t.Insert? ==> st.pending != [] && t.m == st.pending[0])
      && (t.ConnmgrExit? ==> st.pending == [])
  }

  function Apply(st: State, step: Step, limits: Limits): State
    requires limits.Valid()
  {
    match step
    case NetStep(n) =>
      var net := Net.Apply(st.net, n);
      st.(net := net, pending := st.pending + Net.Readings(NewEvents(st.net.log, net.log)))
    case ThreadStep(t) =>
      st.(threads := Threads.Apply(st.threads, t, limits),
          pending := if t.Insert? && st.pending != [] then st.pending[1..] else st.pending)
  }

  function NewEvents(before: seq<Scan.Event>, after: seq<Scan.Event>): seq<Scan.Event> {
    if |before| <= |after| then after[|before|..] else []
  }

  ghost predicate IsRun(st: State, steps: seq<Step>, limits: Limits)
    requires limits.Valid()
  {
    steps == [] ||
    (IsRun(st, steps[..|steps| - 1], limits)
     && Enabled(Exec(st, steps[..|steps| - 1], limits), steps[|steps| - 1]))
  }

  function Exec(st: State, steps: seq<Step>, limits: Limits): State
    requires limits.Valid()
  {
    if steps == [] then st
    else Apply(Exec(st, steps[..|steps| - 1], limits), steps[|steps| - 1], limits)
  }

  // ------------------------------------------------------------- the two sides

  function NetSide(steps: seq<Step>): seq<Net.Step> {
    if steps == [] then []
    else
      var last := steps[|steps| - 1];
      NetSide(steps[..|steps| - 1]) + (if last.NetStep? then [last.net] else [])
  }

  function ThreadSide(steps: seq<Step>): seq<Threads.Step> {
    if steps == [] then []
    else
      var last := steps[|steps| - 1];
      ThreadSide(steps[..|steps| - 1]) + (if last.ThreadStep? then [last.thread] else [])
  }

  /** Each side of a run is a run of that side. */
  ghost predicate Projects(config: Threads.Config, steps: seq<Step>, st: State)
    requires config.limits.Valid()
  {
    && Net.IsRun(Net.INIT, NetSide(steps)) && st.net == Net.Exec(Net.INIT, NetSide(steps))
    && Threads.IsRun(Threads.Initial(config), ThreadSide(steps), config.limits)
    && st.threads == Threads.Exec(Threads.Initial(config), ThreadSide(steps), config.limits)
  }

  lemma {:induction false} RunProjects(config: Threads.Config, steps: seq<Step>)
    requires config.limits.Valid() && IsRun(Initial(config), steps, config.limits)
    ensures Projects(config, steps, Exec(Initial(config), steps, config.limits))
  {
    if steps != [] {
      var front, last := steps[..|steps| - 1], steps[|steps| - 1];
      RunProjects(config, front);
      match last
      case NetStep(n) =>
        assert ThreadSide(steps) == ThreadSide(front);
        NetProperties.RunAppend(NetSide(front), n);
      case ThreadStep(t) =>
        assert NetSide(steps) == NetSide(front);
        ThreadProperties.ExecAppend(Threads.Initial(config), ThreadSide(front), t, config.limits);
    }
  }

  /** Everything forwarded is in the insertion history or still to be inserted, in order. */
  ghost predicate Conserved(st: State) {
    st.threads.log.history + st.pending == Net.Readings(st.net.log)
  }

  lemma NetLogGrows(net: Net.State, step: Net.Step)
    ensures var log' := Net.Apply(net, step).log;
      Net.Readings(log') == Net.Readings(net.log) + Net.Readings(NewEvents(net.log, log'))
  {
    LogExtends(net, step);
    Net.ReadingsConcat(net.log, NewEvents(net.log, Net.Apply(net, step).log));
  }

  lemma LogExtends(net: Net.State, step: Net.Step)
    ensures Net.Apply(net, step).log == net.log + NewEvents(net.log, Net.Apply(net, step).log)
  {
  }

  lemma NetConserves(st: State, n: Net.Step, limits: Limits)
    requires limits.Valid() && Conserved(st)
    ensures Conserved(Apply(st, NetStep(n), limits))
  {
    var log' := Net.Apply(st.net, n).log;
    var h, more := st.threads.log.history, Net.Readings(NewEvents(st.net.log, log'));
    assert Net.Readings(log') == (h + st.pending) + more by {
      NetLogGrows(st.net, n);
    }
    assert (h + st.pending) + more == h + (st.pending + more);
  }

  lemma ThreadConserves(st: State, t: Threads.Step, limits: Limits)
    requires limits.Valid() && Conserved(st)
    requires t.Insert? ==> st.pending != [] && t.m == st.pending[0]
    ensures Conserved(Apply(st, ThreadStep(t), limits))
  {
    var h := st.threads.log.history;
    assert Apply(st, ThreadStep(t), limits).threads.log.history == (if t.Insert? then h + [t.m] else h) by {
      ThreadProperties.LogOfStep(st.threads, t, limits);
    }
    assert t.Insert? ==> (h + [t.m]) + st.pending[1..] == h + st.pending;
  }

  lemma StepConserves(st: State, step: Step, limits: Limits)
    requires limits.Valid() && Enabled(st, step) && Conserved(st)
    ensures Conserved(Apply(st, step, limits))
  {
    match step
    case NetStep(n) => NetConserves(st, n, limits);
    case ThreadStep(t) => ThreadConserves(st, t, limits);
  }

  /** In every reachable state no forwarded reading is lost between the two sides. */
  lemma {:induction false} EveryRunConserves(config: Threads.Config, steps: seq<Step>)
    requires config.limits.Valid() && IsRun(Initial(config), steps, config.limits)
    ensures Conserved(Exec(Initial(config), steps, config.limits))
  {
    if steps != [] {
      EveryRunConserves(config, steps[..|steps| - 1]);
      StepConserves(Exec(Initial(config), steps[..|steps| - 1], config.limits), steps[|steps| - 1], config.limits);
    }
  }

  // --------------------------------------------------------- values under one id

  lemma ValuesOfPrefix(p: seq<Measurement>, q: seq<Measurement>, id: SensorId)
    requires p <= q
    ensures ValuesOf(p, id) <= ValuesOf(q, id)
  {
    assert q == p + q[|p|..];
    ValuesOfConcat(p, q[|p|..], id);
  }

  lemma {:induction false} DataOfPrefix(p: seq<Scan.Packet>, q: seq<Scan.Packet>)
    requires p <= q
    ensures NetProperties.DataOf(p) <= NetProperties.DataOf(q)
    decreases |q|
  {
    if |p| < |q| {
      DataOfPrefix(p, q[..|q| - 1]);
    } else {
      assert p == q;
    }
  }

  // --------------------------------------------------------- where readings come from

  /** The connection on which each forwarded reading has come in. */
  function Sources(log: seq<Scan.Event>): seq<nat> {
    if log == [] then []
    else (if log[0].Forwarded? then [log[0].conn] else []) + Sources(log[1..])
  }

  /** The readings whose source is `conn`. */
  function From(ms: seq<Measurement>, src: seq<nat>, conn: nat): seq<Measurement>
    requires |ms| == |src|
  {
    if ms == [] then []
    else (if src[0] == conn then [ms[0]] else []) + From(ms[1..], src[1..], conn)
  }

  lemma {:induction false} FromConcat(p: seq<Measurement>, q: seq<Measurement>, s: seq<nat>, t: seq<nat>, conn: nat)
    requires |p| == |s| && |q| == |t|
    ensures From(p + q, s + t, conn) == From(p, s, conn) + From(q, t, conn)
  {
    if p == [] {
      assert p + q == q && s + t == t;
    } else {
      var first := if s[0] == conn then [p[0]] else [];
      calc {
        From(p + q, s + t, conn);
        first + From((p + q)[1..], (s + t)[1..], conn);
        { assert (p + q)[1..] == p[1..] + q && (s + t)[1..] == s[1..] + t; }
        first + From(p[1..] + q, s[1..] + t, conn);
        { FromConcat(p[1..], q, s[1..], t, conn); }
        first + (From(p[1..], s[1..], conn) + From(q, t, conn));
        (first + From(p[1..], s[1..], conn)) + From(q, t, conn);
      }
    }
  }

  lemma FromPrefix(ms: seq<Measurement>, src: seq<nat>, n: nat, conn: nat)
    requires |ms| == |src| && n <= |ms|
    ensures From(ms[..n], src[..n], conn) <= From(ms, src, conn)
  {
    assert ms == ms[..n] + ms[n..] && src == src[..n] + src[n..];
    FromConcat(ms[..n], ms[n..], src[..n], src[n..], conn);
  }

  lemma {:induction false} OneSourceEach(log: seq<Scan.Event>)
    ensures |Sources(log)| == |Net.Readings(log)|
  {
    if log != [] {
      OneSourceEach(log[1..]);
    }
  }

  lemma {:induction false} FromIsForwarded(log: seq<Scan.Event>, conn: nat)
    ensures |Sources(log)| == |Net.Readings(log)|
    ensures From(Net.Readings(log), Sources(log), conn) == Net.Readings(Scan.EventsOf(log, conn))
  {
    OneSourceEach(log);
    if log != [] {
      var e, rest := log[0], log[1..];
      var first, mine := if e.Forwarded? then [e.m] else [], Scan.EventsOf(rest, conn);
      FromIsForwarded(rest, conn);
      FromConcat(first, Net.Readings(rest), if e.Forwarded? then [e.conn] else [], Sources(rest), conn);
      if e.conn == conn {
        assert Scan.EventsOf(log, conn) == [e] + mine && ([e] + mine)[1..] == mine;
        assert From(first, if e.Forwarded? then [e.conn] else [], conn) == first;
      } else {
        assert Scan.EventsOf(log, conn) == mine;
        assert From(first, if e.Forwarded? then [e.conn] else [], conn) == [];
      }
    }
  }

  /**
   * In every reachable state of the whole gateway, with any number of connections
   * and whatever ids they report: the insertion history followed by what is still
   * to be inserted is a merge that takes from each connection exactly the data of
   * the packets received on it, in order, and those are a prefix of what its peer
   * sent. So any part of the history that a reader has got through holds, of each
   * connection, the first of its peer's readings.
   */
  lemma HistoryIsMerge(config: Threads.Config, steps: seq<Step>, conn: nat)
    requires config.limits.Valid() && IsRun(Initial(config), steps, config.limits)
    ensures var st := Exec(Initial(config), steps, config.limits);
      var h, src := st.threads.log.history, Sources(st.net.log);
      && |src| == |h + st.pending|
      && From(h + st.pending, src, conn) == NetProperties.DataOf(Net.TakenFrom(st.net, conn))
      && Net.TakenFrom(st.net, conn) <= Net.SentOn(st.net, conn)
      && forall n :: 0 <= n <= |h| ==>
           From(h[..n], src[..n], conn) <= NetProperties.DataOf(Net.SentOn(st.net, conn))
  {
    var st := Exec(Initial(config), steps, config.limits);
    var h, src, all := st.threads.log.history, Sources(st.net.log), st.threads.log.history + st.pending;
    RunProjects(config, steps);
    EveryRunConserves(config, steps);
    FromIsForwarded(st.net.log, conn);
    NetProperties.ForwardedIsSentPrefix(NetSide(steps), conn);
    DataOfPrefix(Net.TakenFrom(st.net, conn), Net.SentOn(st.net, conn));
    forall n | 0 <= n <= |h|
      ensures From(h[..n], src[..n], conn) <= NetProperties.DataOf(Net.SentOn(st.net, conn))
    {
      assert all[..n] == h[..n];
      FromPrefix(all, src, n, conn);
    }
  }

  // --------------------------------------------------------- one source for an id

  /** All readings with this id have come in on `conn`. */
  ghost predicate OnlySource(ms: seq<Measurement>, src: seq<nat>, conn: nat, id: SensorId) {
    |ms| <= |src| && forall k :: 0 <= k < |ms| && ms[k].id == id ==> src[k] == conn
  }

  lemma {:induction false} OnlySourceValues(ms: seq<Measurement>, src: seq<nat>, conn: nat, id: SensorId)
    requires |ms| == |src| && OnlySource(ms, src, conn, id)
    ensures ValuesOf(ms, id) == ValuesOf(From(ms, src, conn), id)
  {
    if ms != [] {
      var m, kept := ms[0], if src[0] == conn then [ms[0]] else [];
      OnlySourceValues(ms[1..], src[1..], conn, id);
      assert ms == [m] + ms[1..];
      ValuesOfConcat([m], ms[1..], id);
      ValuesOfConcat(kept, From(ms[1..], src[1..], conn), id);
    }
  }

  /** Under an id that one connection alone reports, the history is a prefix of what that peer sent. */
  lemma HistoryIsSent(config: Threads.Config, steps: seq<Step>, conn: nat, id: SensorId)
    requires config.limits.Valid() && IsRun(Initial(config), steps, config.limits)
    requires var st := Exec(Initial(config), steps, config.limits);
      OnlySource(st.threads.log.history, Sources(st.net.log), conn, id)
    ensures var st := Exec(Initial(config), steps, config.limits);
      ValuesOf(st.threads.log.history, id) <= ValuesOf(NetProperties.DataOf(Net.SentOn(st.net, conn)), id)
  {
    var st := Exec(Initial(config), steps, config.limits);
    var h, src := st.threads.log.history, Sources(st.net.log);
    HistoryIsMerge(config, steps, conn);
    assert h[..|h|] == h;
    OnlySourceValues(h, src[..|h|], conn, id);
    ValuesOfPrefix(From(h, src[..|h|], conn), NetProperties.DataOf(Net.SentOn(st.net, conn)), id);
  }

  lemma DonePrefix(done: seq<Measurement>, hand: seq<Measurement>, h: seq<Measurement>, cursor: nat, id: SensorId)
    requires cursor <= |h| && done + hand == Filter(h[..cursor], Identified)
    ensures ValuesOf(done, id) <= ValuesOf(h, id)
  {
    ValuesOfPrefix(done, done + hand, id);
    IdentifiedValues(h[..cursor], id);
    ValuesOfPrefix(h[..cursor], h, id);
  }

  /** What either reader has worked on under an id is a prefix of what was inserted under it. */
  lemma DoneValues(config: Threads.Config, steps: seq<Threads.Step>, id: SensorId)
    requires config.limits.Valid() && Threads.IsRun(Threads.Initial(config), steps, config.limits)
    ensures var st := Threads.Exec(Threads.Initial(config), steps, config.limits);
      && ValuesOf(st.attempts, id) <= ValuesOf(st.log.history, id)
      && ValuesOf(st.handled, id) <= ValuesOf(st.log.history, id)
  {
    var st := Threads.Exec(Threads.Initial(config), steps, config.limits);
    ThreadProperties.EndToEnd(config, steps);
    DonePrefix(st.attempts, Threads.InHand(st.storagemgr), st.log.history, st.log.b, id);
    DonePrefix(st.handled, Threads.InHand(st.datamgr), st.log.history, st.log.a, id);
  }

  // ------------------------------------------------------------------ the theorem

  /**
   * What a reader has worked on under an id, with the reading in hand, is what it
   * has read of the history under it, and what that holds of a connection is a
   * prefix of what the peer has sent under it.
   */
  ghost predicate GetsMerge(st: State, conn: nat, id: SensorId, r: Reader) {
    var h, c, src := st.threads.log.history, st.threads.log.Cursor(r), Sources(st.net.log);
    && c <= |h| <= |src|
    && (id != 0 ==> ValuesOf(st.threads.Done(r), id) + ValuesOf(Threads.InHand(st.threads.PhaseOf(r)), id) ==
                    ValuesOf(h[..c], id))
    && ValuesOf(From(h[..c], src[..c], conn), id) <= ValuesOf(NetProperties.DataOf(Net.SentOn(st.net, conn)), id)
  }

  lemma ReaderGetsMerge(config: Threads.Config, steps: seq<Step>, conn: nat, id: SensorId, r: Reader)
    requires config.limits.Valid() && IsRun(Initial(config), steps, config.limits)
    ensures GetsMerge(Exec(Initial(config), steps, config.limits), conn, id, r)
  {
    var st := Exec(Initial(config), steps, config.limits);
    var h, c, src := st.threads.log.history, st.threads.log.Cursor(r), Sources(st.net.log);
    RunProjects(config, steps);
    ThreadProperties.EndToEnd(config, ThreadSide(steps));
    HistoryIsMerge(config, steps, conn);
    ValuesOfPrefix(From(h[..c], src[..c], conn), NetProperties.DataOf(Net.SentOn(st.net, conn)), id);
    if id != 0 {
      ThreadProperties.ReaderValues(config, ThreadSide(steps), r, id);
    }
  }

  /**
   * In every reachable state of the whole gateway, for the sensor in line i of
   * the room map and any connection: both readers have got from it the first of
   * its readings, merged in the one order of the history with those of the others;
   * if the id has come in on this connection alone they are prefixes of what the
   * peer has sent; the sensor node and the alerts are those of what the data
   * manager has worked on.
   */
  lemma SocketToSensor(config: Threads.Config, steps: seq<Step>, conn: nat, i: nat)
    requires config.limits.Valid() && IsRun(Initial(config), steps, config.limits)
    requires i < |config.rooms|
    ensures var st := Exec(Initial(config), steps, config.limits); var id := config.rooms[i].1;
      var sent := ValuesOf(NetProperties.DataOf(Net.SentOn(st.net, conn)), id);
      var worked := ValuesOf(st.threads.handled, id);
      && GetsMerge(st, conn, id, DataMgr) && GetsMerge(st, conn, id, StorageMgr)
      && (OnlySource(st.threads.log.history, Sources(st.net.log), conn, id) ==>
            worked <= sent && ValuesOf(st.threads.attempts, id) <= sent)
      && |st.threads.table.sensors| == |config.rooms|
      && st.threads.table.sensors[i].readings == (if id != 0 && FirstLine(config.rooms, i) then worked else [])
      && AlertsAbout(st.threads.table.log, id) == ExpectedAlerts(config.rooms, id, worked, config.limits)
  {
    var id := config.rooms[i].1;
    RunProjects(config, steps);
    ThreadProperties.TableOfHandled(config, ThreadSide(steps), i);
    ReaderGetsMerge(config, steps, conn, id, DataMgr);
    ReaderGetsMerge(config, steps, conn, id, StorageMgr);
    OneSourceSent(config, steps, conn, id);
  }

  lemma OneSourceSent(config: Threads.Config, steps: seq<Step>, conn: nat, id: SensorId)
    requires config.limits.Valid() && IsRun(Initial(config), steps, config.limits)
    ensures var st := Exec(Initial(config), steps, config.limits);
      var sent := ValuesOf(NetProperties.DataOf(Net.SentOn(st.net, conn)), id);
      OnlySource(st.threads.log.history, Sources(st.net.log), conn, id) ==>
        ValuesOf(st.threads.handled, id) <= sent && ValuesOf(st.threads.attempts, id) <= sent
  {
    var st := Exec(Initial(config), steps, config.limits);
    if OnlySource(st.threads.log.history, Sources(st.net.log), conn, id) {
      RunProjects(config, steps);
      HistoryIsSent(config, steps, conn, id);
      DoneValues(config, ThreadSide(steps), id);
    }
  }
}
