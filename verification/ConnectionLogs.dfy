/**
 * What the log of a connection tells, over all runs: the ids in its messages,
 * when it is announced, and exactly when a round removes it. The latest reading
 * and the latest announcement are read off the log, not off the client record.
 */
module ConnectionLogs {
  import opened Sequences
  import opened Measurements
  import opened ListOperations
  import opened ClientScan
  import opened ConnectionRuns
  import opened ConnectionProperties

  /** The id of the latest announcement, 0 if there is none. */
  function AnnouncedId(events: seq<Event>): SensorId {
    if events == [] then 0
    else
      var last := events[|events| - 1];
      if last.Opened? then last.id else AnnouncedId(events[..|events| - 1])
  }

  /** The timestamp of the latest forwarded reading, 0 if there is none. */
  function LatestTs(events: seq<Event>): int {
    if events == [] then 0
    else
      var last := events[|events| - 1];
      if last.Forwarded? then last.m.ts else LatestTs(events[..|events| - 1])
  }

  /** The message at k is the right one at its place. */
  ghost predicate TellsAt(events: seq<Event>, k: nat)
    requires k < |events|
  {
    var before := events[..k];
    match events[k]
    case Opened(_, id) => k + 1 < |events| && events[k + 1].Forwarded? && events[k + 1].m.id == id
    case Forwarded(_, m) =>
      k > 0 && if LatestTs(before) == 0 then events[k - 1].Opened?
               else events[k - 1].Received? && events[k - 1].packet == Data(m)
    case Closed(_, id) => id == AnnouncedId(before)
    case _ => true
  }

  ghost predicate Tells(events: seq<Event>) {
    forall k :: 0 <= k < |events| ==> TellsAt(events, k)
  }

  /** The log tells the truth, and the client record is what it tells. */
  ghost predicate Agrees(events: seq<Event>, c: Client) {
    Tells(events) && c.id == AnnouncedId(events) && c.ts == LatestTs(events)
  }

  lemma AppendEvent(events: seq<Event>, e: Event)
    ensures AnnouncedId(events + [e]) == if e.Opened? then e.id else AnnouncedId(events)
    ensures LatestTs(events + [e]) == if e.Forwarded? then e.m.ts else LatestTs(events)
  {
    assert (events + [e])[..|events|] == events;
  }

  /** What is told stays told when the log grows. */
  lemma StaysTold(events: seq<Event>, more: seq<Event>)
    requires Tells(events)
    ensures forall k :: 0 <= k < |events| ==> TellsAt(events + more, k)
  {
    forall k | 0 <= k < |events| ensures TellsAt(events + more, k) {
      assert TellsAt(events, k);
      assert (events + more)[..k] == events[..k];
      assert k + 1 < |events| ==> (events + more)[k + 1] == events[k + 1];
      assert k > 0 ==> (events + more)[k - 1] == events[k - 1];
    }
  }

  /** One more message that needs no other behind it. */
  lemma TellOne(events: seq<Event>, e: Event)
    requires Tells(events) && !e.Opened?
    requires e.Closed? ==> e.id == AnnouncedId(events)
    requires e.Forwarded? ==>
               && events != [] && LatestTs(events) != 0
               && events[|events| - 1].Received? && events[|events| - 1].packet == Data(e.m)
    ensures Tells(events + [e])
  {
    StaysTold(events, [e]);
    assert (events + [e])[..|events|] == events;
    forall k | 0 <= k < |events + [e]| ensures TellsAt(events + [e], k) {
      if k == |events| {
        assert k > 0 ==> (events + [e])[k - 1] == events[k - 1];
      }
    }
  }

  /** An announcement with the reading that it announces. */
  lemma TellOpening(events: seq<Event>, conn: nat, m: Measurement)
    requires Tells(events) && LatestTs(events) == 0
    ensures Tells(events + [Opened(conn, m.id)] + [Forwarded(conn, m)])
  {
    var announced := events + [Opened(conn, m.id)];
    var both := announced + [Forwarded(conn, m)];
    AppendEvent(events, Opened(conn, m.id));
    StaysTold(events, [Opened(conn, m.id)] + [Forwarded(conn, m)]);
    assert both == events + ([Opened(conn, m.id)] + [Forwarded(conn, m)]);
    assert both[..|announced|] == announced;
    forall k | 0 <= k < |both| ensures TellsAt(both, k) {
    }
  }

  lemma DataAgrees(events: seq<Event>, c: Client, m: Measurement)
    requires Agrees(events, c)
    ensures var v := ReceiveOn(c, Data(m)); Agrees(events + v.events, v.client)
  {
    var v := ReceiveOn(c, Data(m));
    var received := events + [Received(c.conn, Data(m))];
    TellOne(events, Received(c.conn, Data(m)));
    AppendEvent(events, Received(c.conn, Data(m)));
    if c.ts == 0 {
      var announced := received + [Opened(c.conn, m.id)];
      TellOpening(received, c.conn, m);
      AppendEvent(received, Opened(c.conn, m.id));
      AppendEvent(announced, Forwarded(c.conn, m));
      assert events + v.events == announced + [Forwarded(c.conn, m)];
    } else {
      TellOne(received, Forwarded(c.conn, m));
      AppendEvent(received, Forwarded(c.conn, m));
      assert events + v.events == received + [Forwarded(c.conn, m)];
    }
  }

  lemma VisitAgrees(events: seq<Event>, c: Client, packet: Packet)
    requires Agrees(events, c)
    ensures var v := ReceiveOn(c, packet); Agrees(events + v.events, v.client)
  {
    if packet.Data? {
      DataAgrees(events, c, packet.m);
    } else {
      var received := events + [Received(c.conn, packet)];
      TellOne(events, Received(c.conn, packet));
      AppendEvent(events, Received(c.conn, packet));
      if packet.Fin? {
        TellOne(received, Closed(c.conn, c.id));
        AppendEvent(received, Closed(c.conn, c.id));
        assert events + ReceiveOn(c, packet).events == received + [Closed(c.conn, c.id)];
      }
    }
  }

  lemma {:induction false} TalkAgrees(conn: nat, packets: seq<Packet>)
    ensures var (c, talk) := Conversation(conn, packets); Agrees([Accepted(conn)] + talk, c)
  {
    if packets == [] {
      TellOne([], Accepted(conn));
      AppendEvent([], Accepted(conn));
      assert [] + [Accepted(conn)] == [Accepted(conn)] + [];
    } else {
      var front, last := packets[..|packets| - 1], packets[|packets| - 1];
      var (c, talk) := Conversation(conn, front);
      TalkAgrees(conn, front);
      VisitAgrees([Accepted(conn)] + talk, c, last);
      assert [Accepted(conn)] + (talk + ReceiveOn(c, last).events) ==
             ([Accepted(conn)] + talk) + ReceiveOn(c, last).events;
    }
  }

  /** A listed client's record is what its own log tells. */
  lemma ListedAgrees(st: State, p: nat)
    requires Good(st) && p < |st.clients|
    ensures Agrees(EventsOf(st.log, st.clients[p].conn), st.clients[p])
  {
    var conn := st.clients[p].conn;
    PositionUnique(st.clients, p);
    assert LifeCycle(st, conn);
    TalkAgrees(conn, TakenFrom(st, conn));
  }

  /**
   * In every reachable state the log of every connection tells the truth: an
   * announcement is followed at once by the reading that it announces, with the
   * same id; a reading is announced exactly when the one before it had the
   * timestamp 0 or there was none; a closing message carries the id of the latest
   * announcement, 0 if there was none.
   */
  lemma LogTells(steps: seq<Step>, conn: nat)
    requires IsRun(INIT, steps)
    ensures Tells(EventsOf(Exec(INIT, steps).log, conn))
  {
    var st := Exec(INIT, steps);
    EveryRunIsGood(steps);
    assert LifeCycle(st, conn);
    var talk := Conversation(conn, TakenFrom(st, conn)).1;
    TalkAgrees(conn, TakenFrom(st, conn));
    if EventsOf(st.log, conn) == [Accepted(conn)] + talk + [TimedOut(conn)] {
      TellOne([Accepted(conn)] + talk, TimedOut(conn));
    }
  }

  /** The latest reading of a connection is too old at this clock; there must have been one. */
  predicate Expired(events: seq<Event>, now: int, timeout: int) {
    LatestTs(events) != 0 && now - LatestTs(events) >= timeout
  }

  /** Why a client that is looked at leaves, and what is logged then. */
  lemma VisitLeaves(c: Client, events: seq<Event>, round: Round)
    requires c.ts == LatestTs(events)
    ensures var v, silent := VisitOf(c, round), c.conn !in round.readable;
      var expired := Expired(events, round.clock(c.conn), round.timeout);
      && (v.leaves <==> if silent then expired else round.readable[c.conn] == Fin)
      && (TimedOut(c.conn) in v.events <==> silent && expired)
      && (silent ==> v.events == if expired then [TimedOut(c.conn)] else [])
  {
  }

  lemma RoundAdds(st: State, accept: Option<nat>, round: Round, p: nat)
    requires Good(st) && Enabled(st, Select(accept, round)) && p < |st.clients|
    ensures var st', cs, c := Apply(st, Select(accept, round)), Listed(st, accept), st.clients[p];
      && p < |cs| && cs[p] == c
      && EventsOf(st'.log, c.conn) == EventsOf(st.log, c.conn) + EventsAt(cs, round, p)
      && (PositionOf(st'.clients, c.conn) == -1 <==> Visited(cs, round, p) && VisitOf(c, round).leaves)
  {
    ListedRound(st, accept, round, p);
  }

  lemma SuffixIsAdded(events: seq<Event>, more: seq<Event>)
    ensures events <= events + more && (events + more)[|events|..] == more && events + [] == events
  {
  }

  /**
   * In every reachable state, for every round and every client listed before it:
   * a client that is looked at leaves if its peer has closed or, when it has
   * nothing to read, if its latest reading has expired, and for no other reason;
   * the time-out is logged exactly in the second case, and nothing at all when
   * there is nothing to read and no expiry. A client passed over stays.
   */
  lemma LeavesIff(steps: seq<Step>, accept: Option<nat>, round: Round, p: nat)
    requires IsRun(INIT, steps) && Enabled(Exec(INIT, steps), Select(accept, round))
    requires p < |Exec(INIT, steps).clients|
    ensures var st := Exec(INIT, steps); var st' := Apply(st, Select(accept, round));
      var conn := st.clients[p].conn;
      var events, events' := EventsOf(st.log, conn), EventsOf(st'.log, conn);
      var visited := Visited(Listed(st, accept), round, p);
      var expired := Expired(events, round.clock(conn), round.timeout);
      var silent := conn !in round.readable;
      && (PositionOf(st'.clients, conn) == -1 <==>
            visited && if silent then expired else round.readable[conn] == Fin)
      && events <= events'
      && (TimedOut(conn) in events'[|events|..] <==> visited && silent && expired)
      && (!visited || silent ==> events' == events + (if visited && expired then [TimedOut(conn)] else []))
  {
    var st := Exec(INIT, steps);
    EveryRunIsGood(steps);
    ListedAgrees(st, p);
    RoundAdds(st, accept, round, p);
    VisitLeaves(st.clients[p], EventsOf(st.log, st.clients[p].conn), round);
    SuffixIsAdded(EventsOf(st.log, st.clients[p].conn), EventsAt(Listed(st, accept), round, p));
  }
}
