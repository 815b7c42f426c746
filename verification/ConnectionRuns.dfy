/**
 * Runs of the connection manager: packets arrive, and select rounds accept,
 * scan, forward and remove. Everything is stated per connection, over all runs.
 */
module ConnectionRuns {
  import opened Sequences
  import opened Measurements
  import opened ListOperations
  import opened ClientScan

  /** `arrivals` is everything any peer has sent so far, in order. */
  datatype State = State(clients: seq<Client>, arrivals: seq<(nat, Packet)>, log: seq<Event>)

  const INIT := State([], [], [])

  datatype Step =
    | Arrive(conn: nat, packet: Packet)
    | Select(accept: Option<nat>, round: Round)

  // ------------------------------------------------------ one connection's view

  function SentOn(st: State, conn: nat): seq<Packet> {
    Map((a: (nat, Packet)) => a.1, Filter(st.arrivals, (a: (nat, Packet)) => a.0 == conn))
  }

  function Packets(events: seq<Event>): seq<Packet> {
    if events == [] then []
    else (if events[0].Received? then [events[0].packet] else []) + Packets(events[1..])
  }

  function Readings(events: seq<Event>): seq<Measurement> {
    if events == [] then []
    else (if events[0].Forwarded? then [events[0].m] else []) + Readings(events[1..])
  }

  function TakenFrom(st: State, conn: nat): seq<Packet> {
    Packets(EventsOf(st.log, conn))
  }

  // ------------------------------------------------------------------- the steps

  ghost predicate Enabled(st: State, step: Step) {
    match step
    case Arrive(_, _) => true
    case Select(accept, round) =>
      // a new socket is a new connection
      && (accept.Some? ==> EventsOf(st.log, accept.value) == [])
      // select() reports only listed sockets with something to read: the next packet sent
      && forall c :: c in round.readable ==>
           && PositionOf(st.clients, c) != -1
           && |TakenFrom(st, c)| < |SentOn(st, c)|
           && round.readable[c] == SentOn(st, c)[|TakenFrom(st, c)|]
  }

  /** The client list when the scan starts: a new connection is appended first. */
  function Listed(st: State, accept: Option<nat>): seq<Client> {
    if accept.Some? then Inserted(st.clients, Client(accept.value, 0, 0), |st.clients|) else st.clients
  }

  function Apply(st: State, step: Step): State {
    match step
    case Arrive(conn, packet) => st.(arrivals := st.arrivals + [(conn, packet)])
    case Select(accept, round) =>
      var (clients, events) := ScanLoop(Listed(st, accept), 0, round);
      State(clients, st.arrivals, st.log + (if accept.Some? then [Accepted(accept.value)] else []) + events)
  }

  ghost predicate IsRun(st: State, steps: seq<Step>) {
    steps == [] ||
    (IsRun(st, steps[..|steps| - 1]) && Enabled(Exec(st, steps[..|steps| - 1]), steps[|steps| - 1]))
  }

  function Exec(st: State, steps: seq<Step>): State {
    if steps == [] then st else Apply(Exec(st, steps[..|steps| - 1]), steps[|steps| - 1])
  }

  // ------------------------------------------------- a conversation on its own

  /** What the gateway would do with these packets if this were its only connection. */
  function Conversation(conn: nat, packets: seq<Packet>): (Client, seq<Event>) {
    if packets == [] then (Client(conn, 0, 0), [])
    else
      var (c, events) := Conversation(conn, packets[..|packets| - 1]);
      var v := ReceiveOn(c, packets[|packets| - 1]);
      (v.client, events + v.events)
  }

  /** The life of a connection as the log shows it. */
  ghost predicate LifeCycle(st: State, conn: nat) {
    var events, packets, p := EventsOf(st.log, conn), TakenFrom(st, conn), PositionOf(st.clients, conn);
    var (client, talk) := Conversation(conn, packets);
    if p != -1 then
      // connected: accepted once, then the conversation so far, which has not ended
      && st.clients[p] == client
      && events == [Accepted(conn)] + talk
      && Fin !in packets
    else
      || events == []
      // closed by the peer: the conversation ended with Fin
      || (events == [Accepted(conn)] + talk && packets != [] && packets[|packets| - 1] == Fin
          && Fin !in packets[..|packets| - 1])
      // removed for silence, after at least one reading
      || (events == [Accepted(conn)] + talk + [TimedOut(conn)] && Fin !in packets && client.ts != 0)
  }

  ghost predicate Good(st: State) {
    && DistinctClients(st.clients)
    && forall conn: nat :: LifeCycle(st, conn) && TakenFrom(st, conn) <= SentOn(st, conn)
  }

  // ------------------------------------------------------------- log splitting

  lemma {:induction false} PacketsConcat(a: seq<Event>, b: seq<Event>)
    ensures Packets(a + b) == Packets(a) + Packets(b)
  {
    if a == [] {
      assert a + b == b;
    } else {
      assert (a + b)[0] == a[0] && (a + b)[1..] == a[1..] + b;
      PacketsConcat(a[1..], b);
    }
  }

  lemma {:induction false} ReadingsConcat(a: seq<Event>, b: seq<Event>)
    ensures Readings(a + b) == Readings(a) + Readings(b)
  {
    if a == [] {
      assert a + b == b;
    } else {
      assert (a + b)[0] == a[0] && (a + b)[1..] == a[1..] + b;
      ReadingsConcat(a[1..], b);
    }
  }

  /** What a select round adds to the log of one connection. */
  function RoundEvents(st: State, accept: Option<nat>, round: Round, conn: nat): seq<Event> {
    (if accept == Some(conn) then [Accepted(conn)] else [])
    + EventsOf(EventsFrom(Listed(st, accept), round, 0), conn)
  }

  lemma SelectLog(st: State, accept: Option<nat>, round: Round, conn: nat)
    ensures EventsOf(Apply(st, Select(accept, round)).log, conn) ==
            EventsOf(st.log, conn) + RoundEvents(st, accept, round, conn)
  {
    var events := EventsFrom(Listed(st, accept), round, 0);
    var opening := if accept.Some? then [Accepted(accept.value)] else [];
    ScanEffect(Listed(st, accept), round);
    EventsOfThree(st.log, opening, events, conn);
    assert EventsOf(opening, conn) == if accept == Some(conn) then [Accepted(conn)] else [];
  }

  lemma EventsOfThree(log: seq<Event>, opening: seq<Event>, events: seq<Event>, conn: nat)
    ensures EventsOf(log + opening + events, conn) ==
            EventsOf(log, conn) + (EventsOf(opening, conn) + EventsOf(events, conn))
  {
    FilterConcat(log + opening, events, (e: Event) => e.conn == conn);
    FilterConcat(log, opening, (e: Event) => e.conn == conn);
  }

  /** Appending to a distinct list a connection that is not in it. */
  lemma ListedDistinct(st: State, accept: Option<nat>)
    requires DistinctClients(st.clients)
    requires accept.Some? ==> PositionOf(st.clients, accept.value) == -1
    ensures var cs := Listed(st, accept);
      && DistinctClients(cs)
      && |st.clients| <= |cs| && cs[..|st.clients|] == st.clients
      && (accept.Some? ==> cs == st.clients + [Client(accept.value, 0, 0)])
      && (forall conn: nat :: PositionOf(cs, conn) ==
            if accept == Some(conn) then |st.clients| else PositionOf(st.clients, conn))
  {
    var cs := Listed(st, accept);
    assert cs == st.clients + (if accept.Some? then [Client(accept.value, 0, 0)] else []);
    assert DistinctClients(cs) by {
      assert accept.Some? ==> forall j :: 0 <= j < |st.clients| ==> st.clients[j].conn != accept.value;
    }
    forall conn: nat ensures PositionOf(cs, conn) ==
                        if accept == Some(conn) then |st.clients| else PositionOf(st.clients, conn) {
      var p := PositionOf(st.clients, conn);
      if accept == Some(conn) {
        PositionUnique(cs, |st.clients|);
      } else if p != -1 {
        PositionUnique(cs, p);
      } else {
        PositionAbsent(cs, conn);
      }
    }
  }

  // -------------------------------------------------- one round, one connection

  lemma AcceptIsNew(st: State, accept: Option<nat>, round: Round)
    requires Good(st) && Enabled(st, Select(accept, round))
    ensures accept.Some? ==> PositionOf(st.clients, accept.value) == -1
  {
    if accept.Some? {
      assert LifeCycle(st, accept.value);
    }
  }

  /** A round that says nothing about a connection and leaves its entry as it is. */
  lemma QuietRound(st: State, st': State, conn: nat)
    requires LifeCycle(st, conn) && EventsOf(st'.log, conn) == EventsOf(st.log, conn)
    requires var p, q := PositionOf(st.clients, conn), PositionOf(st'.clients, conn);
      (p == -1 <==> q == -1) && (p != -1 ==> st'.clients[q] == st.clients[p])
    ensures LifeCycle(st', conn) && TakenFrom(st', conn) == TakenFrom(st, conn)
  {
  }

  lemma AbsentStaysAbsent(st: State, accept: Option<nat>, round: Round, conn: nat)
    requires Good(st) && Enabled(st, Select(accept, round))
    requires PositionOf(Listed(st, accept), conn) == -1
    ensures var st' := Apply(st, Select(accept, round));
      PositionOf(st'.clients, conn) == -1 && EventsOf(st'.log, conn) == EventsOf(st.log, conn)
  {
    var cs := Listed(st, accept);
    AcceptIsNew(st, accept, round);
    ListedDistinct(st, accept);
    SelectLog(st, accept, round, conn);
    SuffixSilent(cs, round, 0, conn);
    ScanEffect(cs, round);
    KeptInOrder(cs, round, 0);
    PositionAbsent(KeptFrom(cs, round, 0), conn);
  }

  /** A connection just accepted is listed and nothing else happens to it in that round. */
  lemma AcceptRound(st: State, accept: Option<nat>, round: Round)
    requires Good(st) && Enabled(st, Select(accept, round)) && accept.Some?
    ensures var st', conn := Apply(st, Select(accept, round)), accept.value;
      LifeCycle(st', conn) && TakenFrom(st', conn) == []
  {
    var conn, cs := accept.value, Listed(st, accept);
    AcceptIsNew(st, accept, round);
    ListedDistinct(st, accept);
    assert conn !in round.readable;
    NewcomerIsQuiet(cs, round, |st.clients|);
    SelectLog(st, accept, round, conn);
    assert RoundEvents(st, accept, round, conn) == [Accepted(conn)] + [] == [Accepted(conn)];
    assert EventsOf(Apply(st, Select(accept, round)).log, conn) == [] + [Accepted(conn)] == [Accepted(conn)];
    assert [Accepted(conn)] + [] == [Accepted(conn)] && Packets([Accepted(conn)]) == [];
  }

  lemma NewcomerIsQuiet(cs: seq<Client>, round: Round, p: nat)
    requires DistinctClients(cs) && p < |cs| && cs[p].ts == 0 && cs[p].conn !in round.readable
    ensures EventsOf(EventsFrom(cs, round, 0), cs[p].conn) == []
    ensures var cs' := ScanLoop(cs, 0, round).0; var q := PositionOf(cs', cs[p].conn);
      q != -1 && cs'[q] == cs[p]
  {
    assert VisitOf(cs[p], round) == Visit(false, cs[p], []);
    ScanMoves(cs, round, p);
    ScanReports(cs, round, 0, p);
  }

  /** The log and entry of a listed connection after a round: those of its own visit, if any. */
  lemma ListedRound(st: State, accept: Option<nat>, round: Round, p: nat)
    requires Good(st) && Enabled(st, Select(accept, round)) && p < |st.clients|
    ensures var st', c, cs := Apply(st, Select(accept, round)), st.clients[p], Listed(st, accept);
      var q := PositionOf(st'.clients, c.conn);
      && p < |cs| && cs[p] == c && accept != Some(c.conn) && PositionOf(st.clients, c.conn) == p
      && EventsOf(st'.log, c.conn) == EventsOf(st.log, c.conn) + EventsAt(cs, round, p)
      && if Visited(cs, round, p) && VisitOf(c, round).leaves then q == -1
         else 0 <= q <= p && (!Visited(cs, round, p) ==> q < p)
              && st'.clients[q] == if Visited(cs, round, p) then VisitOf(c, round).client else c
  {
    var cs, conn := Listed(st, accept), st.clients[p].conn;
    AcceptIsNew(st, accept, round);
    ListedDistinct(st, accept);
    PositionUnique(st.clients, p);
    assert cs[p] == cs[..|st.clients|][p] == st.clients[p];
    SelectLog(st, accept, round, conn);
    ScanReports(cs, round, 0, p);
    ScanMoves(cs, round, p);
    assert RoundEvents(st, accept, round, conn) == [] + EventsAt(cs, round, p) == EventsAt(cs, round, p);
  }

  lemma ConversationStep(conn: nat, packets: seq<Packet>, packet: Packet)
    ensures var (c, talk) := Conversation(conn, packets); var v := ReceiveOn(c, packet);
      Conversation(conn, packets + [packet]) == (v.client, talk + v.events)
  {
    assert (packets + [packet])[..|packets|] == packets;
  }

  /** Every round keeps the life of every connection in step with its own conversation. */
  lemma SelectKeepsLife(st: State, accept: Option<nat>, round: Round, conn: nat)
    requires Good(st) && Enabled(st, Select(accept, round))
    ensures var st' := Apply(st, Select(accept, round));
      LifeCycle(st', conn) && TakenFrom(st', conn) <= SentOn(st', conn)
  {
    var p := PositionOf(st.clients, conn);
    AcceptIsNew(st, accept, round);
    ListedDistinct(st, accept);
    if accept == Some(conn) {
      AcceptRound(st, accept, round);
    } else if p == -1 {
      AbsentStaysAbsent(st, accept, round, conn);
      QuietRound(st, Apply(st, Select(accept, round)), conn);
    } else {
      VisitKeepsLife(st, accept, round, p);
    }
  }

  lemma VisitKeepsLife(st: State, accept: Option<nat>, round: Round, p: nat)
    requires Good(st) && Enabled(st, Select(accept, round)) && p < |st.clients|
    ensures var st', conn := Apply(st, Select(accept, round)), st.clients[p].conn;
      LifeCycle(st', conn) && TakenFrom(st', conn) <= SentOn(st', conn)
  {
    var st', c, cs := Apply(st, Select(accept, round)), st.clients[p], Listed(st, accept);
    ListedRound(st, accept, round, p);
    assert LifeCycle(st, c.conn);
    if !Visited(cs, round, p) || VisitOf(c, round) == Visit(false, c, []) {
      assert EventsOf(st.log, c.conn) + [] == EventsOf(st.log, c.conn);
      QuietRound(st, st', c.conn);
    } else {
      var v, taken := VisitOf(c, round), TakenFrom(st, c.conn);
      PacketsConcat(EventsOf(st.log, c.conn), v.events);
      if c.conn in round.readable {
        PacketLife(st, st', c, round.readable[c.conn]);
      } else {
        assert v.events == [TimedOut(c.conn)];
        assert Packets(v.events) == [] + Packets([]);
        assert TakenFrom(st', c.conn) == taken;
      }
    }
  }

  /** One packet received: the life goes on, or ends with Fin. */
  lemma PacketLife(st: State, st': State, c: Client, packet: Packet)
    requires LifeCycle(st, c.conn) && st'.arrivals == st.arrivals
    requires var p := PositionOf(st.clients, c.conn); p != -1 && st.clients[p] == c
    requires TakenFrom(st, c.conn) <= SentOn(st, c.conn) && |TakenFrom(st, c.conn)| < |SentOn(st, c.conn)|
    requires packet == SentOn(st, c.conn)[|TakenFrom(st, c.conn)|]
    requires var v := ReceiveOn(c, packet); var q := PositionOf(st'.clients, c.conn);
      && EventsOf(st'.log, c.conn) == EventsOf(st.log, c.conn) + v.events
      && if v.leaves then q == -1 else q != -1 && st'.clients[q] == v.client
    ensures LifeCycle(st', c.conn) && TakenFrom(st', c.conn) <= SentOn(st', c.conn)
  {
    var v, taken := ReceiveOn(c, packet), TakenFrom(st, c.conn);
    assert TakenFrom(st', c.conn) == taken + [packet] by {
      PacketsConcat(EventsOf(st.log, c.conn), v.events);
      PacketsOfVisit(c, packet);
    }
    assert taken + [packet] <= SentOn(st, c.conn) == SentOn(st', c.conn);
    LifeGoesOn(st, st', c, packet, taken);
  }

  lemma LifeGoesOn(st: State, st': State, c: Client, packet: Packet, taken: seq<Packet>)
    requires LifeCycle(st, c.conn) && taken == TakenFrom(st, c.conn)
    requires var p := PositionOf(st.clients, c.conn); p != -1 && st.clients[p] == c
    requires var v := ReceiveOn(c, packet); var q := PositionOf(st'.clients, c.conn);
      && EventsOf(st'.log, c.conn) == EventsOf(st.log, c.conn) + v.events
      && if v.leaves then q == -1 else q != -1 && st'.clients[q] == v.client
    requires TakenFrom(st', c.conn) == taken + [packet]
    ensures LifeCycle(st', c.conn)
  {
    var v, talk := ReceiveOn(c, packet), Conversation(c.conn, taken).1;
    ConversationStep(c.conn, taken, packet);
    assert ([Accepted(c.conn)] + talk) + v.events == [Accepted(c.conn)] + (talk + v.events);
    assert (taken + [packet])[..|taken|] == taken;
  }

  lemma PacketsOfVisit(c: Client, packet: Packet)
    ensures Packets(ReceiveOn(c, packet).events) == [packet]
  {
    var events := ReceiveOn(c, packet).events;
    assert forall k :: 1 <= k < |events| ==> !events[k].Received?;
    NoPackets(events[1..]);
  }

  lemma {:induction false} NoPackets(events: seq<Event>)
    requires forall k :: 0 <= k < |events| ==> !events[k].Received?
    ensures Packets(events) == []
  {
    if events != [] {
      NoPackets(events[1..]);
    }
  }

  // -------------------------------------------------------------- over all runs

  /** In every reachable state every connection lives its own conversation. */
  lemma {:induction false} EveryRunIsGood(steps: seq<Step>)
    requires IsRun(INIT, steps)
    ensures Good(Exec(INIT, steps))
  {
    if steps != [] {
      var st, step := Exec(INIT, steps[..|steps| - 1]), steps[|steps| - 1];
      EveryRunIsGood(steps[..|steps| - 1]);
      StepKeepsGood(st, step);
    }
  }

  lemma StepKeepsGood(st: State, step: Step)
    requires Good(st) && Enabled(st, step)
    ensures Good(Apply(st, step))
  {
    var st' := Apply(st, step);
    match step
    case Arrive(conn, packet) =>
      forall c: nat ensures LifeCycle(st', c) && TakenFrom(st', c) <= SentOn(st', c) {
        assert LifeCycle(st, c);
        FilterAppend(st.arrivals, (conn, packet), (a: (nat, Packet)) => a.0 == c);
        assert SentOn(st, c) <= SentOn(st', c);
      }
    case Select(accept, round) =>
      AcceptIsNew(st, accept, round);
      ListedDistinct(st, accept);
      ScanEffect(Listed(st, accept), round);
      KeptInOrder(Listed(st, accept), round, 0);
      forall c: nat ensures LifeCycle(st', c) && TakenFrom(st', c) <= SentOn(st', c) {
        SelectKeepsLife(st, accept, round, c);
      }
  }
}
