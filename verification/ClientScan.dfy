/**
 * The scan over the client list in connmgr.c, on values: an index walks over
 * the list while clients are removed from it. `ScanLoop` is that loop;
 * `Visited` and `Kept` say position by position what it does.
 */
module ClientScan {
  import opened Sequences
  import opened Measurements
  import opened ListOperations

  // What one tcp_receive on a readable connection yields; a measurement arrives whole.
  datatype Packet = Data(m: Measurement) | Fin | Fault

  // sensor_info; `conn` stands for the socket and is never reused.
  datatype Client = Client(conn: nat, id: SensorId, ts: int)

  // Log messages, and the calls that leave the component: tcp_receive, sbuffer_insert, tcp_close.
  datatype Event =
    | Accepted(conn: nat)
    | Received(conn: nat, packet: Packet)
    | Opened(conn: nat, id: SensorId)
    | Forwarded(conn: nat, m: Measurement)
    | Closed(conn: nat, id: SensorId)
    | TimedOut(conn: nat)

  /**
   * What one select round offers: the readable connections with the packet
   * waiting on each, and the clock as read when a client is looked at.
   */
  datatype Round = Round(readable: map<nat, Packet>, clock: nat -> int, timeout: int)

  /** What happens to a client that the scan looks at. */
  datatype Visit = Visit(leaves: bool, client: Client, events: seq<Event>)

  /** A readable client: one packet is taken and acted on. */
  function ReceiveOn(c: Client, packet: Packet): (v: Visit)
    ensures v.client.conn == c.conn
    ensures forall k :: 0 <= k < |v.events| ==> v.events[k].conn == c.conn
  {
    match packet
    case Fin => Visit(true, c, [Received(c.conn, packet), Closed(c.conn, c.id)])
    case Data(m) =>
      Visit(false, Client(c.conn, if c.ts == 0 then m.id else c.id, m.ts),
            [Received(c.conn, packet)] + (if c.ts == 0 then [Opened(c.conn, m.id)] else []) + [Forwarded(c.conn, m)])
    case Fault => Visit(false, c, [Received(c.conn, packet)])
  }

  function VisitOf(c: Client, env: Round): (v: Visit)
    ensures v.client.conn == c.conn
    ensures forall k :: 0 <= k < |v.events| ==> v.events[k].conn == c.conn
  {
    if c.conn in env.readable then ReceiveOn(c, env.readable[c.conn])
    else if env.clock(c.conn) - c.ts >= env.timeout && c.ts != 0 then Visit(true, c, [TimedOut(c.conn)])
    else Visit(false, c, [])
  }

  /** The loop: after a removal at `i` the index still moves on. */
  function ScanLoop(list: seq<Client>, i: nat, env: Round): (r: (seq<Client>, seq<Event>))
    decreases |list| - i
  {
    if i >= |list| then (list, [])
    else
      var v := VisitOf(list[i], env);
      var (list', events) :=
        ScanLoop(if v.leaves then Removed(list, i) else list[i := v.client], i + 1, env);
      (list', v.events + events)
  }

  // ------------------------------------------------------ position by position

  /** A client is passed over exactly when its predecessor was looked at and left. */
  predicate Visited(cs: seq<Client>, env: Round, p: nat)
    requires p < |cs|
  {
    p == 0 || !(Visited(cs, env, p - 1) && VisitOf(cs[p - 1], env).leaves)
  }

  /** What remains of the client at position p. */
  function Kept(cs: seq<Client>, env: Round, p: nat): (r: seq<Client>)
    requires p < |cs|
    ensures |r| <= 1 && forall k :: 0 <= k < |r| ==> r[k].conn == cs[p].conn
  {
    var v := VisitOf(cs[p], env);
    if !Visited(cs, env, p) then [cs[p]] else if v.leaves then [] else [v.client]
  }

  function EventsAt(cs: seq<Client>, env: Round, p: nat): (r: seq<Event>)
    requires p < |cs|
    ensures forall k :: 0 <= k < |r| ==> r[k].conn == cs[p].conn
  {
    if Visited(cs, env, p) then VisitOf(cs[p], env).events else []
  }

  function KeptFrom(cs: seq<Client>, env: Round, p: nat): seq<Client>
    requires p <= |cs|
    decreases |cs| - p
  {
    if p == |cs| then [] else Kept(cs, env, p) + KeptFrom(cs, env, p + 1)
  }

  function EventsFrom(cs: seq<Client>, env: Round, p: nat): seq<Event>
    requires p <= |cs|
    decreases |cs| - p
  {
    if p == |cs| then [] else EventsAt(cs, env, p) + EventsFrom(cs, env, p + 1)
  }

  /** The loop without the index: it drops a leaver and skips the client behind it. */
  function Sweep(cs: seq<Client>, env: Round): (seq<Client>, seq<Event>) {
    if cs == [] then ([], [])
    else
      var v := VisitOf(cs[0], env);
      if v.leaves && |cs| == 1 then ([], v.events)
      else if v.leaves then
        var (kept, events) := Sweep(cs[2..], env);
        ([cs[1]] + kept, v.events + events)
      else
        var (kept, events) := Sweep(cs[1..], env);
        ([v.client] + kept, v.events + events)
  }

  lemma {:induction false} LoopIsSweep(done: seq<Client>, rest: seq<Client>, env: Round)
    ensures ScanLoop(done + rest, |done|, env) == (done + Sweep(rest, env).0, Sweep(rest, env).1)
    decreases |rest|
  {
    if rest == [] {
      assert done + rest == done == done + Sweep(rest, env).0;
    } else if !VisitOf(rest[0], env).leaves {
      LoopKeeps(done, VisitOf(rest[0], env).client, rest, env);
    } else if |rest| == 1 {
      assert Removed(done + rest, |done|) == done;
      assert ScanLoop(done, |done| + 1, env) == (done, []);
      assert VisitOf(rest[0], env).events + [] == VisitOf(rest[0], env).events;
      assert done + [] == done;
    } else {
      LoopSkips(done, rest, env);
      assert Removed(done + rest, |done|) == done + rest[1..];
    }
  }

  lemma LoopKeeps(done: seq<Client>, client: Client, rest: seq<Client>, env: Round)
    requires rest != []
    ensures ScanLoop((done + rest)[|done| := client], |done| + 1, env) ==
            (done + ([client] + Sweep(rest[1..], env).0), Sweep(rest[1..], env).1)
    decreases |rest|, 0
  {
    var kept := Sweep(rest[1..], env).0;
    assert (done + rest)[|done| := client] == (done + [client]) + rest[1..];
    assert (done + [client]) + kept == done + ([client] + kept);
    LoopIsSweep(done + [client], rest[1..], env);
  }

  /** After a removal the next client has moved under the index, which moves on. */
  lemma LoopSkips(done: seq<Client>, rest: seq<Client>, env: Round)
    requires |rest| > 1
    ensures ScanLoop(done + rest[1..], |done| + 1, env) ==
            (done + ([rest[1]] + Sweep(rest[2..], env).0), Sweep(rest[2..], env).1)
    decreases |rest|, 0
  {
    var next := [rest[1]];
    LoopIsSweep(done + next, rest[2..], env);
    assert done + rest[1..] == (done + next) + rest[2..];
    assert (done + next) + Sweep(rest[2..], env).0 == done + (next + Sweep(rest[2..], env).0);
  }

  /** The suffix from p on, if the client there is looked at and stays. */
  lemma SweepStays(cs: seq<Client>, env: Round, p: nat)
    requires p < |cs| && !VisitOf(cs[p], env).leaves
    ensures var v, r := VisitOf(cs[p], env), Sweep(cs[p + 1..], env);
      Sweep(cs[p..], env) == ([v.client] + r.0, v.events + r.1)
  {
    assert cs[p..][0] == cs[p] && cs[p..][1..] == cs[p + 1..];
  }

  lemma SweepLeaves(cs: seq<Client>, env: Round, p: nat)
    requires p + 1 < |cs| && VisitOf(cs[p], env).leaves
    ensures var v, r := VisitOf(cs[p], env), Sweep(cs[p + 2..], env);
      Sweep(cs[p..], env) == ([cs[p + 1]] + r.0, v.events + r.1)
  {
    assert cs[p..][0] == cs[p] && cs[p..][1] == cs[p + 1] && cs[p..][2..] == cs[p + 2..];
  }

  lemma PassedOverKept(cs: seq<Client>, env: Round, p: nat)
    requires p + 1 < |cs| && Visited(cs, env, p) && VisitOf(cs[p], env).leaves
    ensures KeptFrom(cs, env, p) == [cs[p + 1]] + KeptFrom(cs, env, p + 2)
  {
    assert Kept(cs, env, p) == [] && Kept(cs, env, p + 1) == [cs[p + 1]];
    assert [] + KeptFrom(cs, env, p + 1) == KeptFrom(cs, env, p + 1);
  }

  lemma PassedOverEvents(cs: seq<Client>, env: Round, p: nat)
    requires p + 1 < |cs| && Visited(cs, env, p) && VisitOf(cs[p], env).leaves
    ensures EventsFrom(cs, env, p) == VisitOf(cs[p], env).events + EventsFrom(cs, env, p + 2)
    ensures p + 2 < |cs| ==> Visited(cs, env, p + 2)
  {
    assert !Visited(cs, env, p + 1) && EventsAt(cs, env, p + 1) == [];
    assert [] + EventsFrom(cs, env, p + 2) == EventsFrom(cs, env, p + 2);
  }

  lemma {:induction false} SweepByPosition(cs: seq<Client>, env: Round, p: nat)
    requires p <= |cs| && (p < |cs| ==> Visited(cs, env, p))
    ensures Sweep(cs[p..], env) == (KeptFrom(cs, env, p), EventsFrom(cs, env, p))
    decreases |cs| - p
  {
    if p < |cs| {
      if !VisitOf(cs[p], env).leaves {
        SweepStays(cs, env, p);
        SweepByPosition(cs, env, p + 1);
      } else if p + 1 < |cs| {
        SweepLeaves(cs, env, p);
        PassedOverKept(cs, env, p);
        PassedOverEvents(cs, env, p);
        SweepByPosition(cs, env, p + 2);
      } else {
        LastLeaves(cs, env, p);
      }
    }
  }

  lemma LastLeaves(cs: seq<Client>, env: Round, p: nat)
    requires p + 1 == |cs| && Visited(cs, env, p) && VisitOf(cs[p], env).leaves
    ensures Sweep(cs[p..], env) == (KeptFrom(cs, env, p), EventsFrom(cs, env, p))
  {
    assert cs[p..] == [cs[p]];
    assert KeptFrom(cs, env, p) == [] + [] == [];
    assert EventsFrom(cs, env, p) == EventsAt(cs, env, p) + [] == EventsAt(cs, env, p);
  }

  /**
   * The whole scan: the original order without the clients that were looked at
   * and left; those passed over are untouched.
   */
  lemma ScanEffect(cs: seq<Client>, env: Round)
    ensures ScanLoop(cs, 0, env) == (KeptFrom(cs, env, 0), EventsFrom(cs, env, 0))
  {
    LoopIsSweep([], cs, env);
    SweepByPosition(cs, env, 0);
    assert [] + cs == cs == cs[0..] && [] + Sweep(cs, env).0 == Sweep(cs, env).0;
  }

  /** In an unbroken run of leavers behind a client that stays, every second one is passed over. */
  lemma {:induction false} LeaversAlternate(cs: seq<Client>, env: Round, p: nat, k: nat)
    requires p + k < |cs| && Visited(cs, env, p)
    requires forall j :: p <= j < p + k ==> VisitOf(cs[j], env).leaves
    ensures Visited(cs, env, p + k) <==> k % 2 == 0
  {
    if k > 0 {
      LeaversAlternate(cs, env, p, k - 1);
    }
  }

  // ------------------------------------------------- what the scan does to one client

  function KeptTo(cs: seq<Client>, env: Round, p: nat): (r: seq<Client>)
    requires p <= |cs|
    ensures |r| <= p
    ensures p < |cs| && !Visited(cs, env, p) ==> |r| < p
  {
    if p == 0 then [] else KeptTo(cs, env, p - 1) + Kept(cs, env, p - 1)
  }

  lemma {:induction false} KeptSplit(cs: seq<Client>, env: Round, p: nat)
    requires p <= |cs|
    ensures KeptFrom(cs, env, 0) == KeptTo(cs, env, p) + KeptFrom(cs, env, p)
  {
    if p > 0 {
      KeptSplit(cs, env, p - 1);
    }
  }

  ghost predicate DistinctClients(cs: seq<Client>) {
    forall i, j :: 0 <= i < j < |cs| ==> cs[i].conn != cs[j].conn
  }

  function EventsOf(log: seq<Event>, conn: nat): seq<Event> {
    Filter(log, (e: Event) => e.conn == conn)
  }

  lemma EventsOfSplit(cs: seq<Client>, env: Round, p: nat, conn: nat)
    requires p < |cs|
    ensures EventsOf(EventsFrom(cs, env, p), conn) ==
            (if cs[p].conn == conn then EventsAt(cs, env, p) else []) + EventsOf(EventsFrom(cs, env, p + 1), conn)
  {
    var mine := (e: Event) => e.conn == conn;
    FilterConcat(EventsAt(cs, env, p), EventsFrom(cs, env, p + 1), mine);
    if cs[p].conn == conn {
      FilterAll(EventsAt(cs, env, p), mine);
    } else {
      FilterNone(EventsAt(cs, env, p), mine);
    }
  }

  lemma OthersReport(cs: seq<Client>, env: Round, p: nat, conn: nat)
    requires p < |cs| && cs[p].conn != conn
    ensures EventsOf(EventsFrom(cs, env, p), conn) == EventsOf(EventsFrom(cs, env, p + 1), conn)
  {
    EventsOfSplit(cs, env, p, conn);
  }

  /** Nothing is reported from position p on about a client that is not there. */
  lemma {:induction false} SuffixSilent(cs: seq<Client>, env: Round, p: nat, conn: nat)
    requires p <= |cs| && forall j :: p <= j < |cs| ==> cs[j].conn != conn
    ensures EventsOf(EventsFrom(cs, env, p), conn) == []
    decreases |cs| - p
  {
    if p < |cs| {
      OthersReport(cs, env, p, conn);
      SuffixSilent(cs, env, p + 1, conn);
    }
  }

  lemma OwnReport(cs: seq<Client>, env: Round, p: nat)
    requires DistinctClients(cs) && p < |cs|
    ensures EventsOf(EventsFrom(cs, env, p), cs[p].conn) == EventsAt(cs, env, p)
  {
    SuffixSilent(cs, env, p + 1, cs[p].conn);
    EventsOfSplit(cs, env, p, cs[p].conn);
  }

  /** The events of one client in a scan are exactly those of its own visit. */
  lemma {:induction false} ScanReports(cs: seq<Client>, env: Round, p: nat, q: nat)
    requires DistinctClients(cs) && p <= q < |cs|
    ensures EventsOf(EventsFrom(cs, env, p), cs[q].conn) == EventsAt(cs, env, q)
    decreases q - p
  {
    if p < q {
      OthersReport(cs, env, p, cs[q].conn);
      ScanReports(cs, env, p + 1, q);
    } else {
      OwnReport(cs, env, p);
    }
  }

  /** The scan keeps the order of the list: what is left from p on comes from p on. */
  lemma {:induction false} KeptInOrder(cs: seq<Client>, env: Round, p: nat)
    requires p <= |cs| && DistinctClients(cs)
    ensures DistinctClients(KeptFrom(cs, env, p))
    ensures forall k :: 0 <= k < |KeptFrom(cs, env, p)| ==>
              exists j :: p <= j < |cs| && cs[j].conn == KeptFrom(cs, env, p)[k].conn
    decreases |cs| - p
  {
    if p < |cs| {
      KeptInOrder(cs, env, p + 1);
    }
  }

  function PositionOf(cs: seq<Client>, conn: nat): int {
    IndexWhere(cs, (c: Client) => c.conn == conn)
  }

  lemma PositionUnique(cs: seq<Client>, p: nat)
    requires DistinctClients(cs) && p < |cs|
    ensures PositionOf(cs, cs[p].conn) == p
  {
    IndexWhereUnique(cs, (c: Client) => c.conn == cs[p].conn, p);
  }

  lemma PositionAbsent(cs: seq<Client>, conn: nat)
    requires forall j :: 0 <= j < |cs| ==> cs[j].conn != conn
    ensures PositionOf(cs, conn) == -1
  {
    IndexWhereUnique(cs, (c: Client) => c.conn == conn, -1);
  }

  /** Where the scan leaves the client at p, and in what condition. */
  lemma ScanMoves(cs: seq<Client>, env: Round, p: nat)
    requires DistinctClients(cs) && p < |cs|
    ensures var cs', v := ScanLoop(cs, 0, env).0, VisitOf(cs[p], env);
      && DistinctClients(cs')
      && var q := PositionOf(cs', cs[p].conn);
         if Visited(cs, env, p) && v.leaves then q == -1
         else 0 <= q <= p && cs'[q] == (if Visited(cs, env, p) then v.client else cs[p])
              && (!Visited(cs, env, p) ==> q < p)
  {
    var cs' := ScanLoop(cs, 0, env).0;
    var before := KeptTo(cs, env, p);
    ScanEffect(cs, env);
    KeptSplit(cs, env, p);
    KeptInOrder(cs, env, 0);
    if Kept(cs, env, p) == [] {
      KeptGone(cs, env, p);
      PositionAbsent(cs', cs[p].conn);
    } else {
      assert cs'[|before|] == Kept(cs, env, p)[0];
      PositionUnique(cs', |before|);
    }
  }

  lemma {:induction false} PrefixConns(cs: seq<Client>, env: Round, p: nat)
    requires p <= |cs|
    ensures forall k :: 0 <= k < |KeptTo(cs, env, p)| ==>
              exists j :: 0 <= j < p && cs[j].conn == KeptTo(cs, env, p)[k].conn
  {
    if p == 0 {
      assert KeptTo(cs, env, p) == [];
    } else {
      PrefixConns(cs, env, p - 1);
      var front := KeptTo(cs, env, p - 1);
      forall k | 0 <= k < |KeptTo(cs, env, p)|
        ensures exists j :: 0 <= j < p && cs[j].conn == KeptTo(cs, env, p)[k].conn
      {
        if k < |front| {
          assert KeptTo(cs, env, p)[k] == front[k];
        } else {
          assert cs[p - 1].conn == KeptTo(cs, env, p)[k].conn;
        }
      }
    }
  }

  lemma KeptGone(cs: seq<Client>, env: Round, p: nat)
    requires DistinctClients(cs) && p < |cs| && Kept(cs, env, p) == []
    ensures forall k :: 0 <= k < |KeptFrom(cs, env, 0)| ==> KeptFrom(cs, env, 0)[k].conn != cs[p].conn
  {
    KeptSplit(cs, env, p);
    PrefixConns(cs, env, p);
    KeptInOrder(cs, env, p + 1);
    assert KeptFrom(cs, env, p) == KeptFrom(cs, env, p + 1);
  }
}
