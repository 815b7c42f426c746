/**
 * connmgr.c on the heap: client records updated in place and a list that the
 * scan shrinks while an index walks over it. The list is a sequence, used
 * through what LinkedLists proves of the dplist operations.
 */
module ConnectionManager {
  import opened Sequences
  import opened Measurements
  import opened ListOperations
  import opened ClientScan
  import Runs = ConnectionRuns

  class SensorInfo {
    const conn: nat
    var ts: int
    var id: SensorId

    // A new client: nothing is known of it until its first reading.
    constructor (conn: nat)
      ensures this.conn == conn && ts == 0 && id == 0
    {
      this.conn := conn;
      ts, id := 0, 0;
    }

    ghost function ToClient(): Client
      reads this
    {
      Client(conn, id, ts)
    }
  }

  ghost function ClientsOf(list: seq<SensorInfo>): (cs: seq<Client>)
    reads list
    ensures |cs| == |list| && forall i :: 0 <= i < |list| ==> cs[i] == list[i].ToClient()
  {
    seq(|list|, i requires 0 <= i < |list| reads list => list[i].ToClient())
  }

  lemma ClientsOfRemoved(list: seq<SensorInfo>, i: nat)
    requires i < |list|
    ensures ClientsOf(Removed(list, i)) == Removed(ClientsOf(list), i)
  {
  }

  lemma RemovedElements<T>(s: seq<T>, i: nat)
    requires i < |s|
    ensures var r := Removed(s, i);
      |r| == |s| - 1 && forall k :: 0 <= k < |r| ==> r[k] == s[if k < i then k else k + 1]
  {
  }

  lemma RemovedOverwritten(cs: seq<Client>, i: nat, c: Client)
    requires i < |cs|
    ensures Removed(cs[i := c], i) == Removed(cs, i)
  {
  }

  lemma AppendAssoc<T>(a: seq<T>, b: seq<T>, c: seq<T>)
    ensures (a + b) + c == a + (b + c)
  {
  }

  class Manager {
    var clientList: seq<SensorInfo>
    var log: seq<Event>

    ghost predicate Valid()
      reads `clientList
    {
      NoDuplicates(clientList)
    }

    constructor ()
      ensures Valid() && clientList == [] && log == []
    {
      clientList, log := [], [];
    }

    /** The listener is ready: the new client goes to the end of the list. */
    method Accept(conn: nat) returns (ghost added: SensorInfo)
      requires Valid()
      modifies this
      ensures Valid() && fresh(added) && clientList == old(clientList) + [added]
      ensures ClientsOf(clientList) == Inserted(old(ClientsOf(clientList)), Client(conn, 0, 0), |old(clientList)|)
      ensures log == old(log) + [Accepted(conn)]
    {
      var newSensor := new SensorInfo(conn);
      ghost var before := ClientsOf(clientList);
      assert Inserted(clientList, newSensor, |clientList|) == clientList + [newSensor];
      added := newSensor;
      clientList := Inserted(clientList, newSensor, |clientList|);
      log := log + [Accepted(conn)];
      assert ClientsOf(clientList) == before + [Client(conn, 0, 0)];
      assert before + [Client(conn, 0, 0)] == Inserted(before, Client(conn, 0, 0), |before|);
    }

    /** What the scan does with one client; it answers whether the client has been closed. */
    method Visit(thisClient: SensorInfo, env: Round) returns (leaves: bool)
      modifies `log, thisClient
      ensures var v := VisitOf(old(thisClient.ToClient()), env);
        leaves == v.leaves && log == old(log) + v.events && thisClient.ToClient() == v.client
    {
      leaves := false;
      if thisClient.conn in env.readable {
        var packet := env.readable[thisClient.conn];
        log := log + [Received(thisClient.conn, packet)];
        match packet
        case Fin =>
          log := log + [Closed(thisClient.conn, thisClient.id)];
          leaves := true;
        case Data(m) =>
          if thisClient.ts == 0 {
            thisClient.id := m.id;
            log := log + [Opened(thisClient.conn, m.id)];
          }
          thisClient.ts := m.ts;
          log := log + [Forwarded(thisClient.conn, m)];
        case Fault =>
      } else if env.clock(thisClient.conn) - thisClient.ts >= env.timeout && thisClient.ts != 0 {
        log := log + [TimedOut(thisClient.conn)];
        leaves := true;
      }
    }

    /** The visit to the client at `i` changes that client's entry and no other. */
    method VisitAt(i: nat, env: Round, ghost owned: set<SensorInfo>) returns (leaves: bool)
      requires Valid() && i < |clientList| && Owned(owned)
      modifies `log, owned
      ensures var cs := old(ClientsOf(clientList)); var v := VisitOf(cs[i], env);
        && leaves == v.leaves && log == old(log) + v.events
        && ClientsOf(clientList) == cs[i := v.client]
    {
      var thisClient := ElementAt(clientList, i).value;
      assert thisClient == clientList[i];
      leaves := Visit(thisClient, env);
    }

    /** The client at `i` leaves the list; all entries stay as they are. */
    method Drop(i: nat, ghost owned: set<SensorInfo>)
      requires Valid() && i < |clientList| && Owned(owned)
      modifies `clientList
      ensures Valid() && Owned(owned)
      ensures ClientsOf(clientList) == Removed(old(ClientsOf(clientList)), i)
    {
      RemovedElements(clientList, i);
      ClientsOfRemoved(clientList, i);
      clientList := Removed(clientList, i);
    }

    /** The loop body for the client at `i`. */
    method ScanStep(i: nat, env: Round, ghost owned: set<SensorInfo>)
      requires Valid() && i < |clientList| && Owned(owned)
      modifies this, owned
      ensures Valid() && Owned(owned)
      ensures var cs := old(ClientsOf(clientList)); var v := VisitOf(cs[i], env);
        && ClientsOf(clientList) == (if v.leaves then Removed(cs, i) else cs[i := v.client])
        && log == old(log) + v.events
    {
      ghost var cs := ClientsOf(clientList);
      var leaves := VisitAt(i, env, owned);
      if leaves {
        RemovedOverwritten(cs, i, VisitOf(cs[i], env).client);
        Drop(i, owned);
      }
    }

    ghost predicate Owned(owned: set<SensorInfo>)
      reads `clientList
    {
      forall k :: 0 <= k < |clientList| ==> clientList[k] in owned
    }

    /** The scan of one select round. The index moves on even after a removal. */
    method Scan(env: Round, ghost owned: set<SensorInfo>)
      requires Valid() && Owned(owned)
      modifies this, owned
      ensures Valid()
      ensures (ClientsOf(clientList), log) ==
              var r := ScanLoop(old(ClientsOf(clientList)), 0, env); (r.0, old(log) + r.1)
    {
      ghost var before, start, done: seq<Event> := ClientsOf(clientList), log, [];
      assert [] + ScanLoop(before, 0, env).1 == ScanLoop(before, 0, env).1;
      assert start + [] == start;
      var i := 0;
      while i < |clientList|
        invariant Valid() && Owned(owned) && 0 <= i
        invariant log == start + done
        invariant ScanLoop(before, 0, env) ==
                  var r := ScanLoop(ClientsOf(clientList), i, env); (r.0, done + r.1)
        decreases |clientList| - i
      {
        ghost var v := VisitOf(ClientsOf(clientList)[i], env);
        ScanStep(i, env, owned);
        AppendAssoc(done, v.events, ScanLoop(ClientsOf(clientList), i + 1, env).1);
        AppendAssoc(start, done, v.events);
        done := done + v.events;
        i := i + 1;
      }
      assert done + [] == done;
    }

    /** One select round: accept if the listener is ready, then scan. */
    method SelectRound(accept: Option<nat>, env: Round)
      requires Valid()
      modifies this, clientList
      ensures Valid()
      ensures var st' := Runs.Apply(Runs.State(old(ClientsOf(clientList)), [], old(log)), Runs.Select(accept, env));
        ClientsOf(clientList) == st'.clients && log == st'.log
    {
      ghost var cs, start := ClientsOf(clientList), log;
      ghost var owned := set c | c in clientList;
      if accept.Some? {
        ghost var added := Accept(accept.value);
        owned := owned + {added};
        assert Owned(owned);
        assert ClientsOf(clientList) == Inserted(cs, Client(accept.value, 0, 0), |cs|);
      } else {
        assert Owned(owned);
        assert start + [] == start;
      }
      Scan(env, owned);
    }
  }
}
