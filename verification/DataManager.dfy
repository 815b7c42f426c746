/**
 * datamgr.c on the heap: sensor nodes with a ring of temperatures. The list
 * that holds them is a sequence, used only through what LinkedLists proves of
 * `dpl_insert_at_index`, `dpl_size` and `dpl_get_element_at_index`.
 */
module DataManager {
  import opened Sequences
  import opened Measurements
  import opened ListOperations
  import opened SensorTable
  import opened RingBuffers

  class SensorNode {
    const sensorId: SensorId
    const roomId: SensorId
    const temperatures: array<real>
    var runningAvg: real
    var nrOfMeass: nat
    ghost var readings: seq<real>

    // The temperatures of a new node are whatever malloc left there.
    constructor (sensorId: SensorId, roomId: SensorId, length: nat)
      ensures this.sensorId == sensorId && this.roomId == roomId
      ensures runningAvg == 0.0 && nrOfMeass == 0 && readings == []
      ensures temperatures.Length == length && fresh(temperatures)
    {
      this.sensorId, this.roomId := sensorId, roomId;
      runningAvg, nrOfMeass, readings := 0.0, 0, [];
      temperatures := new real[length];
    }

    /** Count and array agree with the readings so far. */
    ghost predicate Recorded(length: nat)
      reads this, temperatures
    {
      nrOfMeass == |readings| && RingHolds(temperatures[..], readings, length)
    }

    ghost predicate Valid(length: nat)
      reads this, temperatures
    {
      length >= 1 && Recorded(length) && runningAvg == Average(readings, length)
    }

    ghost function ToSensor(): Sensor
      reads `readings
    {
      Sensor(sensorId, roomId, readings)
    }

    /** The ring update of the reader loop. */
    method Record(value: real, length: nat)
      requires Valid(length)
      modifies this`nrOfMeass, this`readings, temperatures
      ensures Recorded(length) && readings == old(readings) + [value]
    {
      var arrayPosition := ArrayPosition(nrOfMeass, length);
      RingStores(temperatures[..], readings, value, length);
      temperatures[arrayPosition] := value;
      nrOfMeass := nrOfMeass + 1;
      readings := readings + [value];
      assert temperatures[..] == old(temperatures[..])[arrayPosition := value];
    }

    /** The summation loop of `datamgr_get_avg`. */
    method Total(length: nat) returns (total: real)
      requires Recorded(length) && length <= |readings|
      ensures total == Sum(Window(readings, length))
    {
      total := 0.0;
      for i := 0 to length
        invariant total == Sum(temperatures[..i])
      {
        SumConcat(temperatures[..i], [temperatures[i]]);
        assert temperatures[..i + 1] == temperatures[..i] + [temperatures[i]];
        assert Sum([temperatures[i]]) == temperatures[i] + Sum([]);
        total := total + temperatures[i];
      }
      assert temperatures[..length] == temperatures[..];
      RingSum(temperatures[..], readings, length);
    }
  }

  function CompareIds(x: SensorId, y: SensorId): int {
    if x > y then 1 else if x == y then 0 else -1
  }

  ghost function TableOf(sensors: seq<SensorNode>): (t: seq<Sensor>)
    reads sensors`readings
    ensures |t| == |sensors| && forall i :: 0 <= i < |sensors| ==> t[i] == sensors[i].ToSensor()
  {
    if sensors == [] then [] else [sensors[0].ToSensor()] + TableOf(sensors[1..])
  }

  /** The table with one more reading for sensor i. */
  function Extended(t: seq<Sensor>, i: nat, value: real): seq<Sensor>
    requires i < |t|
  {
    t[i := t[i].(readings := t[i].readings + [value])]
  }

  lemma HandleFound(t: Table, m: Measurement, limits: Limits, i: nat)
    requires limits.Valid() && i < |t.sensors| && i == FirstWithId(t.sensors, m.id)
    ensures var s := Extended(t.sensors, i, m.value);
      Handle(t, m, limits) == Table(s, t.log + AlertsFor(m.id, s[i].readings, limits))
  {
  }

  class Manager {
    const limits: Limits
    var sensorList: seq<SensorNode>
    var log: seq<Alert>
    ghost var rings: seq<array<real>>

    /** No two entries of the list share storage. */
    ghost predicate Separate()
      reads `sensorList, `rings
    {
      && |rings| == |sensorList|
      && (forall i :: 0 <= i < |rings| ==> sensorList[i].temperatures == rings[i])
      && NoDuplicates(sensorList)
      && NoDuplicates(rings)
    }

    ghost predicate Valid()
      reads this, sensorList, rings
    {
      && limits.Valid()
      && Separate()
      && forall i :: 0 <= i < |sensorList| ==> sensorList[i].Valid(limits.length)
    }

    ghost function Contents(): Table
      reads `sensorList, `log, sensorList`readings
    {
      Table(TableOf(sensorList), log)
    }

    constructor (limits: Limits)
      requires limits.Valid()
      ensures Valid() && sensorList == [] && log == [] && this.limits == limits
    {
      this.limits := limits;
      log, sensorList, rings := [], [], [];
    }

    /** get_sensor_node_with_id: the first match, or NULL after the whole list. */
    method GetSensorNodeWithId(id: SensorId) returns (node: SensorNode?)
      ensures node == null <==> forall k :: 0 <= k < |sensorList| ==> sensorList[k].sensorId != id
      ensures node != null ==> exists k :: 0 <= k < |sensorList| && sensorList[k] == node && node.sensorId == id
                                           && forall j :: 0 <= j < k ==> sensorList[j].sensorId != id
      ensures var i := FirstWithId(TableOf(sensorList), id);
        node == if i == -1 then null else sensorList[i]
    {
      ghost var p := (s: Sensor) => s.id == id;
      var index := 0;
      while index < |sensorList|
        invariant 0 <= index <= |sensorList|
        invariant forall j :: 0 <= j < index ==> sensorList[j].sensorId != id
      {
        var dummy := ElementAt(sensorList, index).value;
        if CompareIds(id, dummy.sensorId) == 0 {
          IndexWhereUnique(TableOf(sensorList), p, index);
          return dummy;
        }
        index := index + 1;
      }
      IndexWhereUnique(TableOf(sensorList), p, -1);
      return null;
    }

    /** The two limit tests of `datamgr_get_avg`. */
    method RaiseAlerts(id: SensorId, average: real)
      modifies `log
      ensures log == old(log) + AlertsAt(id, average, limits)
    {
      if average < limits.min {
        log := log + [TooCold(id, average)];
      }
      if average > limits.max {
        log := log + [TooHot(id, average)];
      }
    }

    /** The average of a full window, and the alerts it raises. */
    method FullAvg(node: SensorNode) returns (average: real)
      requires limits.Valid() && node.Recorded(limits.length) && limits.length <= |node.readings|
      modifies `log
      ensures average == Average(node.readings, limits.length)
      ensures log == old(log) + AlertsFor(node.sensorId, node.readings, limits)
    {
      var total := node.Total(limits.length);
      average := total / limits.length as real;
      RaiseAlerts(node.sensorId, average);
    }

    /**
     * datamgr_get_avg: looks the sensor up again, raises the alerts, returns the
     * average. `Averaged` says what that means without the functions of the table.
     */
    method GetAvg(id: SensorId, ghost i: nat, ghost node: SensorNode) returns (average: real)
      requires limits.Valid()
      requires i < |sensorList| && i == FirstWithId(TableOf(sensorList), id)
      requires node == sensorList[i] && node.Recorded(limits.length)
      modifies `log, node`runningAvg
      ensures average == Average(node.readings, limits.length)
      ensures node.runningAvg == if |node.readings| < limits.length then old(node.runningAvg) else average
      ensures log == old(log) + AlertsFor(id, node.readings, limits)
      ensures Averaged(old(log), log, average, id, node.readings, limits)
    {
      AverageReported(log, id, node.readings, limits);
      var thisSensorNode := GetSensorNodeWithId(id);
      assert thisSensorNode == node && node.sensorId == id;
      if thisSensorNode.nrOfMeass >= limits.length {
        average := FullAvg(thisSensorNode);
        thisSensorNode.runningAvg := average;
      } else {
        average := 0.0;
      }
    }

    /** Stores the average that the second lookup finds. */
    method Refresh(node: SensorNode, id: SensorId, ghost i: nat)
      requires limits.Valid() && node.Recorded(limits.length)
      requires i < |sensorList| && node == sensorList[i] && i == FirstWithId(TableOf(sensorList), id)
      modifies `log, node`runningAvg
      ensures node.Valid(limits.length)
      ensures log == old(log) + AlertsFor(id, node.readings, limits)
    {
      var average := GetAvg(id, i, node);
      node.runningAvg := average;
    }

    /** Ring update and average of the sensor found; the second lookup finds it again. */
    method UpdateSensor(node: SensorNode, m: Measurement, ghost i: nat)
      requires limits.Valid() && node.Valid(limits.length)
      requires i < |sensorList| && node == sensorList[i] && i == FirstWithId(TableOf(sensorList), m.id)
      modifies `log, node, node.temperatures
      ensures node.Valid(limits.length)
      ensures node.readings == old(node.readings) + [m.value]
      ensures log == old(log) + AlertsFor(m.id, node.readings, limits)
    {
      ghost var before := TableOf(sensorList);
      node.Record(m.value, limits.length);
      SameIdsSameFirst(before, TableOf(sensorList), m.id);
      Refresh(node, m.id, i);
    }

    /** The update leaves every other entry of the list alone. */
    method UpdateAlone(node: SensorNode, m: Measurement, ghost i: nat)
      requires Valid()
      requires i < |sensorList| && node == sensorList[i] && i == FirstWithId(TableOf(sensorList), m.id)
      modifies `log, node, node.temperatures
      ensures node.Valid(limits.length) && node.readings == old(node.readings) + [m.value]
      ensures log == old(log) + AlertsFor(m.id, node.readings, limits)
      ensures forall j :: 0 <= j < |sensorList| && j != i ==>
                sensorList[j].Valid(limits.length) && sensorList[j].readings == old(sensorList[j].readings)
    {
      assert forall j :: 0 <= j < |sensorList| && j != i ==>
               sensorList[j] != node && sensorList[j].temperatures != node.temperatures;
      UpdateSensor(node, m, i);
    }

    method UpdateEntry(node: SensorNode, m: Measurement, ghost i: nat)
      requires Valid()
      requires i < |sensorList| && node == sensorList[i] && i == FirstWithId(TableOf(sensorList), m.id)
      modifies `log, node, node.temperatures
      ensures Valid()
      ensures TableOf(sensorList) == Extended(old(TableOf(sensorList)), i, m.value)
      ensures log == old(log) + AlertsFor(m.id, TableOf(sensorList)[i].readings, limits)
    {
      ghost var before := TableOf(sensorList);
      UpdateAlone(node, m, i);
      assert TableOf(sensorList) == Extended(before, i, m.value);
    }

    /** The reader loop's work on one reading whose id is not 0. */
    method HandleReading(m: Measurement)
      requires Valid()
      modifies `log, sensorList, rings
      ensures Valid()
      ensures Contents() == Handle(old(Contents()), m, limits)
    {
      ghost var i := FirstWithId(TableOf(sensorList), m.id);
      var dummySensorNode := GetSensorNodeWithId(m.id);
      if dummySensorNode == null {
        log := log + [InvalidSensor(m.id)];
      } else {
        HandleFound(Contents(), m, limits, i);
        UpdateEntry(dummySensorNode, m, i);
      }
    }

    /** What one turn of the reader loop does with its record; the id 0 is passed over. */
    method ProcessRecord(m: Measurement)
      requires Valid()
      modifies `log, sensorList, rings
      ensures Valid()
      ensures Contents() == Process(old(Contents()), m, limits)
    {
      if m.id != 0 {
        HandleReading(m);
      }
    }

    /** The map-reading loop: indices count from 1, so every insertion is clamped to the end. */
    method LoadSensors(rooms: seq<(SensorId, SensorId)>)
      requires Valid() && sensorList == [] && log == []
      modifies `sensorList, `rings
      ensures Valid()
      ensures Contents() == Loaded(rooms)
    {
      var nrOfLines := 0;
      while nrOfLines < |rooms|
        invariant 0 <= nrOfLines <= |rooms| && nrOfLines == |sensorList|
        invariant Valid()
        invariant forall i :: 0 <= i < nrOfLines ==>
                    sensorList[i].ToSensor() == Sensor(rooms[i].1, rooms[i].0, [])
      {
        var (room, id) := rooms[nrOfLines];
        nrOfLines := nrOfLines + 1;
        AddSensor(room, id, nrOfLines);
      }
    }

    method AddSensor(room: SensorId, id: SensorId, nrOfLines: int)
      requires Valid() && nrOfLines == |sensorList| + 1
      modifies `sensorList, `rings
      ensures Valid()
      ensures |sensorList| == |old(sensorList)| + 1 && sensorList[..|old(sensorList)|] == old(sensorList)
      ensures sensorList[|old(sensorList)|].ToSensor() == Sensor(id, room, [])
    {
      var thisSensorNode := new SensorNode(id, room, limits.length);
      assert Inserted(sensorList, thisSensorNode, nrOfLines) == sensorList + [thisSensorNode];
      sensorList := Inserted(sensorList, thisSensorNode, nrOfLines);
      rings := rings + [thisSensorNode.temperatures];
    }
  }
}
