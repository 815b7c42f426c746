/** What every run of the connection manager guarantees to each connection. */
module ConnectionProperties {
  import opened Sequences
  import opened Measurements
  import opened ListOperations
  import opened ClientScan
  import opened ConnectionRuns

  // ---------------------------------------------- forwarding: complete, in order

  function DataOf(packets: seq<Packet>): seq<Measurement> {
    if packets == [] then []
    else DataOf(packets[..|packets| - 1])
         + (if packets[|packets| - 1].Data? then [packets[|packets| - 1].m] else [])
  }

  lemma ReadingsOfVisit(c: Client, packet: Packet)
    ensures Readings(ReceiveOn(c, packet).events) == DataOf([packet])
  {
    assert DataOf([]) == [];
    match packet
    case Data(m) =>
      var opening := if c.ts == 0 then [Opened(c.conn, m.id)] else [];
      ReadingsConcat([Received(c.conn, packet)] + opening, [Forwarded(c.conn, m)]);
      ReadingsConcat([Received(c.conn, packet)], opening);
    case Fin =>
      ReadingsConcat([Received(c.conn, packet)], [Closed(c.conn, c.id)]);
    case Fault =>
  }

  lemma {:induction false} ConversationForwards(conn: nat, packets: seq<Packet>)
    ensures Readings(Conversation(conn, packets).1) == DataOf(packets)
  {
    if packets != [] {
      var front, last := packets[..|packets| - 1], packets[|packets| - 1];
      var (c, talk) := Conversation(conn, front);
      ConversationForwards(conn, front);
      ReadingsOfVisit(c, last);
      ReadingsConcat(talk, ReceiveOn(c, last).events);
      assert DataOf([last]) == DataOf([]) + DataOf([last]);
    }
  }

  /**
   * In every reachable state, what a connection has forwarded is exactly the
   * data in a prefix of what its peer sent: nothing lost, repeated, reordered.
   */
  lemma ForwardedIsSentPrefix(steps: seq<Step>, conn: nat)
    requires IsRun(INIT, steps)
    ensures var st := Exec(INIT, steps); var taken := TakenFrom(st, conn);
      && taken <= SentOn(st, conn)
      && Readings(EventsOf(st.log, conn)) == DataOf(taken)
  {
    var st := Exec(INIT, steps);
    EveryRunIsGood(steps);
    assert LifeCycle(st, conn);
    var (client, talk) := Conversation(conn, TakenFrom(st, conn));
    ConversationForwards(conn, TakenFrom(st, conn));
    ReadingsConcat([Accepted(conn)], talk);
    ReadingsConcat([Accepted(conn)] + talk, [TimedOut(conn)]);
    assert Readings([Accepted(conn)]) == [] && Readings([TimedOut(conn)]) == [];
  }

  // --------------------------------------------------- "opened" and "closed" once

  function Openings(events: seq<Event>): nat {
    if events == [] then 0 else (if events[0].Opened? then 1 else 0) + Openings(events[1..])
  }

  function Closings(events: seq<Event>): nat {
    if events == [] then 0 else (if events[0].Closed? then 1 else 0) + Closings(events[1..])
  }

  lemma {:induction false} CountsConcat(a: seq<Event>, b: seq<Event>)
    ensures Openings(a + b) == Openings(a) + Openings(b)
    ensures Closings(a + b) == Closings(a) + Closings(b)
  {
    if a == [] {
      assert a + b == b;
    } else {
      assert (a + b)[0] == a[0] && (a + b)[1..] == a[1..] + b;
      CountsConcat(a[1..], b);
    }
  }

  /** How often a client with these readings is announced: the timestamp 0 reads as "new". */
  function Announcements(d: seq<Measurement>): nat {
    if d == [] then 0
    else Announcements(d[..|d| - 1]) + (if |d| == 1 || d[|d| - 2].ts == 0 then 1 else 0)
  }

  lemma CountsOfVisit(c: Client, packet: Packet)
    ensures var events := ReceiveOn(c, packet).events;
      && Openings(events) == (if packet.Data? && c.ts == 0 then 1 else 0)
      && Closings(events) == (if packet == Fin then 1 else 0)
  {
    match packet
    case Data(m) =>
      var opening := if c.ts == 0 then [Opened(c.conn, m.id)] else [];
      CountsConcat([Received(c.conn, packet)] + opening, [Forwarded(c.conn, m)]);
      CountsConcat([Received(c.conn, packet)], opening);
    case Fin =>
      CountsConcat([Received(c.conn, packet)], [Closed(c.conn, c.id)]);
    case Fault =>
  }

  lemma {:induction false} ConversationCounts(conn: nat, packets: seq<Packet>)
    requires packets != [] ==> Fin !in packets[..|packets| - 1]
    ensures var (c, talk) := Conversation(conn, packets); var d := DataOf(packets);
      && c.ts == (if d == [] then 0 else d[|d| - 1].ts)
      && Openings(talk) == Announcements(d)
      && Closings(talk) == (if Fin in packets then 1 else 0)
  {
    if packets != [] {
      var front, last := packets[..|packets| - 1], packets[|packets| - 1];
      assert packets == front + [last];
      var (c, talk) := Conversation(conn, front);
      ConversationCounts(conn, front);
      CountsOfVisit(c, last);
      CountsConcat(talk, ReceiveOn(c, last).events);
      if last.Data? {
        assert DataOf(packets)[..|DataOf(front)|] == DataOf(front);
      } else {
        assert DataOf(packets) == DataOf(front);
      }
    }
  }

  lemma {:induction false} AnnouncedOnceIff(d: seq<Measurement>)
    ensures d != [] ==> Announcements(d) >= 1
    ensures Announcements(d) == 1 <==> d != [] && forall i :: 0 <= i < |d| - 1 ==> d[i].ts != 0
  {
    if |d| > 1 {
      var front := d[..|d| - 1];
      AnnouncedOnceIff(front);
      if forall i :: 0 <= i < |d| - 1 ==> d[i].ts != 0 {
        assert d[|d| - 2].ts != 0;
      }
    }
  }

  lemma LifeCounts(st: State, conn: nat)
    requires LifeCycle(st, conn)
    ensures var events := EventsOf(st.log, conn);
      && Closings(events) <= 1
      && Openings(events) == Announcements(DataOf(TakenFrom(st, conn)))
  {
    var packets := TakenFrom(st, conn);
    var talk := Conversation(conn, packets).1;
    if EventsOf(st.log, conn) == [] {
      assert packets == [] && DataOf(packets) == [];
    } else {
      ConversationCounts(conn, packets);
      CountsConcat([Accepted(conn)], talk);
      CountsConcat([Accepted(conn)] + talk, [TimedOut(conn)]);
      assert Openings([Accepted(conn)]) == 0 && Closings([Accepted(conn)]) == 0;
      assert Openings([TimedOut(conn)]) == 0 && Closings([TimedOut(conn)]) == 0;
    }
  }

  /**
   * In every reachable state a connection has been closed at most once and, once
   * it has forwarded something, announced exactly once if and only if none of its
   * readings before the latest carried the timestamp 0.
   */
  lemma OpenedOnceIffTimestampsNonZero(steps: seq<Step>, conn: nat)
    requires IsRun(INIT, steps)
    ensures var events := EventsOf(Exec(INIT, steps).log, conn); var d := Readings(events);
      && Closings(events) <= 1
      && Openings(events) == Announcements(d)
      && (Openings(events) == 1 <==> d != [] && forall i :: 0 <= i < |d| - 1 ==> d[i].ts != 0)
      && (d != [] ==> Openings(events) >= 1)
  {
    EveryRunIsGood(steps);
    ForwardedIsSentPrefix(steps, conn);
    LifeCounts(Exec(INIT, steps), conn);
    AnnouncedOnceIff(Readings(EventsOf(Exec(INIT, steps).log, conn)));
  }

  lemma RunAppend(steps: seq<Step>, step: Step)
    ensures Exec(INIT, steps + [step]) == Apply(Exec(INIT, steps), step)
    ensures IsRun(INIT, steps + [step]) <==> IsRun(INIT, steps) && Enabled(Exec(INIT, steps), step)
  {
    assert (steps + [step])[..|steps|] == steps;
  }

  lemma OneClientScan(c: Client, env: Round)
    ensures var v := VisitOf(c, env);
      ScanLoop([c], 0, env) == (if v.leaves then [] else [v.client], v.events)
  {
    var v := VisitOf(c, env);
    assert Removed([c], 0) == [] && [c][0 := v.client] == [v.client];
    assert v.events + [] == v.events;
  }

  /** A round in which the only client's packet is read and acted on. */
  lemma OneClientRound(st: State, c: Client, packet: Packet)
    requires st.clients == [c] && packet != Fin
    ensures var round := Round(map[c.conn := packet], _ => 0, 1); var v := ReceiveOn(c, packet);
      Apply(st, Select(None, round)) == State([v.client], st.arrivals, st.log + v.events)
  {
    OneClientScan(c, Round(map[c.conn := packet], _ => 0, 1));
    assert st.log + [] + ReceiveOn(c, packet).events == st.log + ReceiveOn(c, packet).events;
  }

  lemma VisitExtendsLog(log: seq<Event>, c: Client, packet: Packet)
    ensures var mine, events := EventsOf(log, c.conn), ReceiveOn(c, packet).events;
      && EventsOf(log + events, c.conn) == mine + events
      && Packets(mine + events) == Packets(mine) + [packet]
  {
    var events := ReceiveOn(c, packet).events;
    FilterConcat(log, events, (e: Event) => e.conn == c.conn);
    FilterAll(events, (e: Event) => e.conn == c.conn);
    PacketsConcat(EventsOf(log, c.conn), events);
    PacketsOfVisit(c, packet);
  }

  /** One more packet of the only client's is read and acted on. */
  lemma ServeOnly(steps: seq<Step>, c: Client, packet: Packet) returns (longer: seq<Step>)
    requires IsRun(INIT, steps) && packet != Fin
    requires var st := Exec(INIT, steps);
      && st.clients == [c] && |TakenFrom(st, c.conn)| < |SentOn(st, c.conn)|
      && packet == SentOn(st, c.conn)[|TakenFrom(st, c.conn)|]
    ensures IsRun(INIT, longer)
    ensures var st, st', v := Exec(INIT, steps), Exec(INIT, longer), ReceiveOn(c, packet);
      && st'.clients == [v.client] && st'.arrivals == st.arrivals && st'.log == st.log + v.events
      && EventsOf(st'.log, c.conn) == EventsOf(st.log, c.conn) + v.events
      && TakenFrom(st', c.conn) == TakenFrom(st, c.conn) + [packet]
  {
    var st, step := Exec(INIT, steps), Select(None, Round(map[c.conn := packet], _ => 0, 1));
    longer := steps + [step];
    assert Enabled(st, step) by {
      PositionUnique(st.clients, 0);
    }
    RunAppend(steps, step);
    OneClientRound(st, c, packet);
    VisitExtendsLog(st.log, c, packet);
  }

  /** A connection that has sent two packets and has just been accepted. */
  lemma AcceptAfterTwo(conn: nat, first: Packet, second: Packet) returns (steps: seq<Step>)
    ensures IsRun(INIT, steps)
    ensures var st := Exec(INIT, steps);
      st.clients == [Client(conn, 0, 0)] && SentOn(st, conn) == [first, second] && st.log == [Accepted(conn)]
  {
    var quiet := Round(map[], _ => 0, 1);
    var t1 := [] + [Arrive(conn, first)];
    RunAppend([], Arrive(conn, first));
    var t2 := t1 + [Arrive(conn, second)];
    RunAppend(t1, Arrive(conn, second));
    steps := t2 + [Select(Some(conn), quiet)];
    RunAppend(t2, Select(Some(conn), quiet));
    OneClientScan(Client(conn, 0, 0), quiet);
    assert Exec(INIT, t2) == State([], [(conn, first), (conn, second)], []);
    assert Listed(Exec(INIT, t2), Some(conn)) == [Client(conn, 0, 0)];
    assert [] + [Accepted(conn)] + [] == [Accepted(conn)];
    FilterAll([(conn, first), (conn, second)], (a: (nat, Packet)) => a.0 == conn);
  }

  /** A run in which one connection is announced twice: its first reading carries the timestamp 0. */
  lemma AnnouncedTwice(conn: nat) returns (steps: seq<Step>)
    ensures IsRun(INIT, steps)
    ensures var events := EventsOf(Exec(INIT, steps).log, conn);
      && Openings(events) == 2
      && Readings(events) == [Measurement(1, 20.0, 0), Measurement(1, 21.0, 5)]
  {
    var m, n := Measurement(1, 20.0, 0), Measurement(1, 21.0, 5);
    var t1 := AcceptAfterTwo(conn, Data(m), Data(n));
    assert EventsOf([Accepted(conn)], conn) == [Accepted(conn)];
    NoPackets([Accepted(conn)]);
    assert TakenFrom(Exec(INIT, t1), conn) == [];
    var t2 := ServeOnly(t1, Client(conn, 0, 0), Data(m));
    steps := ServeOnly(t2, Client(conn, 1, 0), Data(n));
    assert TakenFrom(Exec(INIT, steps), conn) == [Data(m), Data(n)];
    ForwardedIsSentPrefix(steps, conn);
    OpenedOnceIffTimestampsNonZero(steps, conn);
    TwoAnnouncements(m, n);
  }

  lemma TwoAnnouncements(m: Measurement, n: Measurement)
    requires m.ts == 0
    ensures DataOf([Data(m), Data(n)]) == [m, n] && Announcements([m, n]) == 2
  {
    assert [Data(m), Data(n)][..1] == [Data(m)] && [Data(m)][..0] == [];
    assert DataOf([Data(m)]) == [] + [m];
    assert [m, n][..1] == [m] && Announcements([m]) == 1;
  }

  lemma {:induction false} OpeningExists(events: seq<Event>)
    requires Openings(events) >= 1
    ensures exists j :: 0 <= j < |events| && events[j].Opened?
  {
    if !events[0].Opened? {
      OpeningExists(events[1..]);
      var j :| 0 <= j < |events[1..]| && events[1..][j].Opened?;
      assert events[j + 1].Opened?;
    }
  }

  /** Within a conversation no reading is forwarded before the announcement. */
  lemma {:induction false} TalkOpensFirst(conn: nat, packets: seq<Packet>, k: nat)
    requires packets != [] ==> Fin !in packets[..|packets| - 1]
    requires var talk := Conversation(conn, packets).1; k < |talk| && talk[k].Forwarded?
    ensures var talk := Conversation(conn, packets).1; exists j :: 0 <= j < k && talk[j].Opened?
  {
    var front, last := packets[..|packets| - 1], packets[|packets| - 1];
    var (c, talk) := Conversation(conn, front);
    var v := ReceiveOn(c, last);
    if k < |talk| {
      TalkOpensFirst(conn, front, k);
      var j :| 0 <= j < k && talk[j].Opened?;
      assert (talk + v.events)[j] == talk[j];
    } else {
      ConversationCounts(conn, front);
      if c.ts == 0 {
        assert (talk + v.events)[|talk| + 1] == v.events[1];
      } else {
        AnnouncedOnceIff(DataOf(front));
        OpeningExists(talk);
        var j :| 0 <= j < |talk| && talk[j].Opened?;
        assert (talk + v.events)[j] == talk[j];
      }
    }
  }

  /** A log that is an acceptance, a conversation and perhaps a time-out: readings are in the conversation. */
  lemma ForwardedInside(events: seq<Event>, conn: nat, talk: seq<Event>, ending: seq<Event>, k: nat)
    requires events == [Accepted(conn)] + talk + ending && ending in {[], [TimedOut(conn)]}
    requires k < |events| && events[k].Forwarded?
    ensures 1 <= k <= |talk| < |events| && talk[k - 1].Forwarded?
    ensures forall j :: 0 <= j < |talk| ==> events[j + 1] == talk[j]
  {
  }

  lemma ForwardedInTalk(st: State, conn: nat, k: nat)
    requires LifeCycle(st, conn)
    requires var events := EventsOf(st.log, conn); k < |events| && events[k].Forwarded?
    ensures var events, talk := EventsOf(st.log, conn), Conversation(conn, TakenFrom(st, conn)).1;
      && 1 <= k <= |talk| < |events| && talk[k - 1].Forwarded?
      && forall j :: 0 <= j < |talk| ==> events[j + 1] == talk[j]
    ensures var packets := TakenFrom(st, conn); packets != [] ==> Fin !in packets[..|packets| - 1]
  {
    var events, talk := EventsOf(st.log, conn), Conversation(conn, TakenFrom(st, conn)).1;
    if events == [Accepted(conn)] + talk {
      assert [Accepted(conn)] + talk + [] == [Accepted(conn)] + talk;
      ForwardedInside(events, conn, talk, [], k);
    } else {
      ForwardedInside(events, conn, talk, [TimedOut(conn)], k);
    }
  }

  /** A log that repeats a conversation behind its first event. */
  lemma ShiftedTalkOpensFirst(events: seq<Event>, conn: nat, packets: seq<Packet>, k: nat)
    requires packets != [] ==> Fin !in packets[..|packets| - 1]
    requires var talk := Conversation(conn, packets).1;
      && 1 <= k <= |talk| < |events| && talk[k - 1].Forwarded?
      && forall j :: 0 <= j < |talk| ==> events[j + 1] == talk[j]
    ensures exists j :: 0 <= j < k && events[j].Opened?
  {
    var talk := Conversation(conn, packets).1;
    TalkOpensFirst(conn, packets, k - 1);
    var j :| 0 <= j < k - 1 && talk[j].Opened?;
    assert events[j + 1] == talk[j];
  }

  lemma LifeOpensFirst(st: State, conn: nat, k: nat)
    requires LifeCycle(st, conn)
    requires var events := EventsOf(st.log, conn); k < |events| && events[k].Forwarded?
    ensures var events := EventsOf(st.log, conn); exists j :: 0 <= j < k && events[j].Opened?
  {
    ForwardedInTalk(st, conn, k);
    ShiftedTalkOpensFirst(EventsOf(st.log, conn), conn, TakenFrom(st, conn), k);
  }

  /** In every run no reading is forwarded before its connection has been announced. */
  lemma OpenedBeforeForwarded(steps: seq<Step>, conn: nat, k: nat)
    requires IsRun(INIT, steps)
    requires var events := EventsOf(Exec(INIT, steps).log, conn); k < |events| && events[k].Forwarded?
    ensures var events := EventsOf(Exec(INIT, steps).log, conn);
      exists j :: 0 <= j < k && events[j].Opened?
  {
    EveryRunIsGood(steps);
    LifeOpensFirst(Exec(INIT, steps), conn, k);
  }

  /** Once a connection has left the list, no later step adds anything to its log. */
  lemma {:induction false} SilentAfterRemoval(before: seq<Step>, after: seq<Step>, conn: nat)
    requires IsRun(INIT, before + after)
    requires var st := Exec(INIT, before);
      IsRun(INIT, before) && EventsOf(st.log, conn) != [] && PositionOf(st.clients, conn) == -1
    ensures var st, st' := Exec(INIT, before), Exec(INIT, before + after);
      PositionOf(st'.clients, conn) == -1 && EventsOf(st'.log, conn) == EventsOf(st.log, conn)
  {
    if after == [] {
      assert before + after == before;
    } else {
      var front, step := after[..|after| - 1], after[|after| - 1];
      assert (before + after)[..|before + after| - 1] == before + front;
      SilentAfterRemoval(before, front, conn);
      EveryRunIsGood(before + front);
      var st := Exec(INIT, before + front);
      match step
      case Arrive(_, _) =>
      case Select(accept, round) =>
        AcceptIsNew(st, accept, round);
        ListedDistinct(st, accept);
        AbsentStaysAbsent(st, accept, round, conn);
    }
  }

  // ------------------------------------------------------------- bounded bypass

  /** The step is a select round whose scan passes over `conn`. */
  predicate PassesOver(st: State, step: Step, conn: nat) {
    step.Select? &&
    var cs := Listed(st, step.accept);
    var p := PositionOf(cs, conn);
    p != -1 && !Visited(cs, step.round, p)
  }

  function TimesPassedOver(st: State, steps: seq<Step>, conn: nat): nat {
    if steps == [] then 0
    else
      var front, last := steps[..|steps| - 1], steps[|steps| - 1];
      TimesPassedOver(st, front, conn) + (if PassesOver(Exec(st, front), last, conn) then 1 else 0)
  }

  lemma {:induction false} RunFrom(before: seq<Step>, steps: seq<Step>)
    requires IsRun(INIT, before)
    ensures IsRun(INIT, before + steps) <==> IsRun(Exec(INIT, before), steps)
    ensures Exec(INIT, before + steps) == Exec(Exec(INIT, before), steps)
  {
    if steps == [] {
      assert before + steps == before;
    } else {
      assert (before + steps)[..|before + steps| - 1] == before + steps[..|steps| - 1];
      RunFrom(before, steps[..|steps| - 1]);
    }
  }

  /** A round that passes over a client moves it at least one place forward; no round moves it back. */
  lemma StepMovesForward(st: State, step: Step, p: nat)
    requires Good(st) && Enabled(st, step) && p < |st.clients|
    ensures var conn := st.clients[p].conn; var q := PositionOf(Apply(st, step).clients, conn);
      && PositionOf(st.clients, conn) == p
      && (q == -1 || q <= p)
      && (PassesOver(st, step, conn) ==> 0 <= q < p)
  {
    PositionUnique(st.clients, p);
    match step
    case Arrive(_, _) =>
    case Select(accept, round) =>
      AcceptIsNew(st, accept, round);
      ListedDistinct(st, accept);
      ListedRound(st, accept, round, p);
  }

  /**
   * From any reachable state, however long the run: a client at position p is
   * passed over at most p times.
   */
  lemma {:induction false} BoundedBypass(before: seq<Step>, steps: seq<Step>, p: nat)
    requires IsRun(INIT, before) && IsRun(Exec(INIT, before), steps)
    requires p < |Exec(INIT, before).clients|
    ensures var st := Exec(INIT, before); var conn := st.clients[p].conn;
      var q := PositionOf(Exec(st, steps).clients, conn);
      && TimesPassedOver(st, steps, conn) <= p
      && (q != -1 ==> q + TimesPassedOver(st, steps, conn) <= p)
  {
    var st := Exec(INIT, before);
    var conn := st.clients[p].conn;
    EveryRunIsGood(before);
    if steps == [] {
      PositionUnique(st.clients, p);
    } else {
      var front, step := steps[..|steps| - 1], steps[|steps| - 1];
      BoundedBypass(before, front, p);
      RunFrom(before, front);
      EveryRunIsGood(before + front);
      var mid := Exec(st, front);
      var q := PositionOf(mid.clients, conn);
      if q != -1 {
        StepMovesForward(mid, step, q);
      } else {
        GoneStaysGone(before, front, mid, step, conn);
      }
    }
  }

  lemma GoneStaysGone(before: seq<Step>, front: seq<Step>, mid: State, step: Step, conn: nat)
    requires IsRun(INIT, before) && IsRun(Exec(INIT, before), front) && mid == Exec(Exec(INIT, before), front)
    requires Enabled(mid, step) && PositionOf(mid.clients, conn) == -1
    requires PositionOf(Exec(INIT, before).clients, conn) != -1
    ensures !PassesOver(mid, step, conn) && PositionOf(Apply(mid, step).clients, conn) == -1
  {
    RunFrom(before, front);
    EveryRunIsGood(before + front);
    EveryRunIsGood(before);
    LogGrows(before, front, conn);
    assert LifeCycle(Exec(INIT, before), conn);
    match step
    case Arrive(_, _) =>
    case Select(accept, round) =>
      AcceptIsNew(mid, accept, round);
      ListedDistinct(mid, accept);
      AbsentStaysAbsent(mid, accept, round, conn);
  }

  lemma {:induction false} LogGrows(before: seq<Step>, front: seq<Step>, conn: nat)
    ensures EventsOf(Exec(INIT, before).log, conn) <= EventsOf(Exec(Exec(INIT, before), front).log, conn)
  {
    if front != [] {
      LogGrows(before, front[..|front| - 1], conn);
      var mid, step := Exec(Exec(INIT, before), front[..|front| - 1]), front[|front| - 1];
      if step.Select? {
        SelectLog(mid, step.accept, step.round, conn);
      }
    }
  }
}
