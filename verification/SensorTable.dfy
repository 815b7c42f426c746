/**
 * The data manager's decisions on values (datamgr.c): which sensor a reading
 * belongs to, the running average over the last `length` readings, the alerts.
 */
module SensorTable {
  import opened Sequences
  import opened Measurements
  import opened ListOperations

  // RUN_AVG_LENGTH, SET_MIN_TEMP and SET_MAX_TEMP
  datatype Limits = Limits(length: nat, min: real, max: real) {
    predicate Valid() {
      length >= 1
    }
  }

  // The log events of the data manager.
  datatype Alert =
    | InvalidSensor(id: SensorId)
    | TooCold(id: SensorId, average: real)
    | TooHot(id: SensorId, average: real)

  /** A sensor node with every reading it has been given. */
  datatype Sensor = Sensor(id: SensorId, room: SensorId, readings: seq<real>)

  datatype Table = Table(sensors: seq<Sensor>, log: seq<Alert>)

  function Window(w: seq<real>, length: nat): seq<real> {
    if |w| < length then w else w[|w| - length..]
  }

  /** 0 until the window is full, then the mean of the last `length` readings. */
  function Average(w: seq<real>, length: nat): real
    requires length >= 1
  {
    if |w| < length then 0.0 else Sum(Window(w, length)) / length as real
  }

  /** The alerts raised when `w` has just received its last reading. */
  function AlertsFor(id: SensorId, w: seq<real>, limits: Limits): seq<Alert>
    requires limits.Valid()
  {
    if |w| < limits.length then [] else AlertsAt(id, Average(w, limits.length), limits)
  }

  /** First the lower limit is tested, then the upper one. */
  function AlertsAt(id: SensorId, average: real, limits: Limits): seq<Alert> {
    (if average < limits.min then [TooCold(id, average)] else [])
    + (if average > limits.max then [TooHot(id, average)] else [])
  }

  /** The least index of a sensor with this id, -1 if there is none. */
  function FirstWithId(sensors: seq<Sensor>, id: SensorId): (i: int)
    ensures -1 <= i < |sensors|
    ensures i == -1 <==> forall k :: 0 <= k < |sensors| ==> sensors[k].id != id
    ensures i >= 0 ==> sensors[i].id == id && forall k :: 0 <= k < i ==> sensors[k].id != id
  {
    IndexWhere(sensors, (s: Sensor) => s.id == id)
  }

  function Handle(t: Table, m: Measurement, limits: Limits): Table
    requires limits.Valid()
  {
    var i := FirstWithId(t.sensors, m.id);
    if i == -1 then
      t.(log := t.log + [InvalidSensor(m.id)])
    else
      var s := t.sensors[i].(readings := t.sensors[i].readings + [m.value]);
      Table(t.sensors[i := s], t.log + AlertsFor(m.id, s.readings, limits))
  }

  /** A reader ignores the id 0 that its blank record carries. */
  function Process(t: Table, m: Measurement, limits: Limits): Table
    requires limits.Valid()
  {
    if Identified(m) then Handle(t, m, limits) else t
  }

  function Run(t: Table, ms: seq<Measurement>, limits: Limits): Table
    requires limits.Valid()
  {
    if ms == [] then t else Process(Run(t, ms[..|ms| - 1], limits), ms[|ms| - 1], limits)
  }

  /** The table that the room map describes: (room, sensor) pairs, nothing read yet. */
  function Loaded(rooms: seq<(SensorId, SensorId)>): Table {
    Table(Map((p: (SensorId, SensorId)) => Sensor(p.1, p.0, []), rooms), [])
  }

  // ------------------------------------------------------- per-sensor projection

  /** The temperatures reported under `id`, in order. */
  function ValuesOf(ms: seq<Measurement>, id: SensorId): seq<real> {
    Map((m: Measurement) => m.value, Filter(ms, (m: Measurement) => m.id == id))
  }

  function AlertsAbout(log: seq<Alert>, id: SensorId): seq<Alert> {
    Filter(log, (a: Alert) => a.id == id)
  }

  /** All alerts of a mapped sensor after it has been given `w` reading by reading. */
  function AlertHistory(id: SensorId, w: seq<real>, limits: Limits): seq<Alert>
    requires limits.Valid()
  {
    if w == [] then [] else AlertHistory(id, w[..|w| - 1], limits) + AlertsFor(id, w, limits)
  }

  lemma ValuesOfConcat(p: seq<Measurement>, q: seq<Measurement>, id: SensorId)
    ensures ValuesOf(p + q, id) == ValuesOf(p, id) + ValuesOf(q, id)
  {
    FilterConcat(p, q, (m: Measurement) => m.id == id);
  }

  lemma {:induction false} IdentifiedValues(h: seq<Measurement>, id: SensorId)
    ensures ValuesOf(Filter(h, Identified), id) == if id == 0 then [] else ValuesOf(h, id)
  {
    if h != [] {
      var m, rest := h[0], h[1..];
      var kept := if Identified(m) then [m] else [];
      IdentifiedValues(rest, id);
      assert h == [m] + rest;
      ValuesOfConcat([m], rest, id);
      ValuesOfConcat(kept, Filter(rest, Identified), id);
    }
  }

  lemma ValuesOfAppend(ms: seq<Measurement>, m: Measurement, id: SensorId)
    ensures ValuesOf(ms + [m], id) == ValuesOf(ms, id) + (if m.id == id then [m.value] else [])
  {
    FilterAppend(ms, m, (m: Measurement) => m.id == id);
  }

  lemma AlertsAboutAppend(log: seq<Alert>, more: seq<Alert>, of: SensorId, id: SensorId)
    requires forall k :: 0 <= k < |more| ==> more[k].id == of
    ensures AlertsAbout(log + more, id) == AlertsAbout(log, id) + (if of == id then more else [])
  {
    var p := (a: Alert) => a.id == id;
    FilterConcat(log, more, p);
    if of == id {
      FilterAll(more, p);
    } else {
      FilterNone(more, p);
    }
  }

  lemma SameIdsSameFirst(s: seq<Sensor>, t: seq<Sensor>, id: SensorId)
    requires |s| == |t| && forall k :: 0 <= k < |s| ==> s[k].id == t[k].id
    ensures FirstWithId(s, id) == FirstWithId(t, id)
  {
    IndexWhereUnique(t, (x: Sensor) => x.id == id, FirstWithId(s, id));
  }

  lemma {:induction false} RunKeepsIds(rooms: seq<(SensorId, SensorId)>, ms: seq<Measurement>, limits: Limits)
    requires limits.Valid()
    ensures var s := Run(Loaded(rooms), ms, limits).sensors;
      |s| == |rooms| && forall k :: 0 <= k < |rooms| ==> s[k].id == rooms[k].1 && s[k].room == rooms[k].0
  {
    if ms != [] {
      RunKeepsIds(rooms, ms[..|ms| - 1], limits);
    }
  }

  /** Some line of the map names this sensor. */
  predicate Mapped(rooms: seq<(SensorId, SensorId)>, id: SensorId) {
    exists k :: 0 <= k < |rooms| && rooms[k].1 == id
  }

  /** Line i is the first that names its sensor. */
  predicate FirstLine(rooms: seq<(SensorId, SensorId)>, i: nat)
    requires i < |rooms|
  {
    forall k :: 0 <= k < i ==> rooms[k].1 != rooms[i].1
  }

  lemma ProcessUpdates(t: Table, m: Measurement, limits: Limits, i: nat)
    requires limits.Valid() && i < |t.sensors|
    ensures var u := Process(t, m, limits);
      && |u.sensors| == |t.sensors|
      && u.sensors[i] == if Identified(m) && FirstWithId(t.sensors, m.id) == i
                         then t.sensors[i].(readings := t.sensors[i].readings + [m.value])
                         else t.sensors[i]
  {
  }

  /**
   * After any stream of measurements the sensor node of the first line with an id
   * holds exactly the readings reported under it, in order; a node whose id is 0,
   * or that an earlier line shadows, holds none.
   */
  lemma {:induction false} ReadingsAreProjection(rooms: seq<(SensorId, SensorId)>, ms: seq<Measurement>,
                                                 limits: Limits, i: nat)
    requires limits.Valid() && i < |rooms|
    ensures var s := Run(Loaded(rooms), ms, limits).sensors; var id := rooms[i].1;
      |s| == |rooms| &&
      s[i] == Sensor(id, rooms[i].0, if id != 0 && FirstLine(rooms, i) then ValuesOf(ms, id) else [])
  {
    if ms != [] {
      var front, m := ms[..|ms| - 1], ms[|ms| - 1];
      assert ms == front + [m];
      ReadingsAreProjection(rooms, front, limits, i);
      RunKeepsIds(rooms, front, limits);
      ProcessUpdates(Run(Loaded(rooms), front, limits), m, limits, i);
      ValuesOfAppend(front, m, rooms[i].1);
      assert m.id != rooms[i].1 ==> ValuesOf(ms, rooms[i].1) == ValuesOf(front, rooms[i].1);
    }
  }

  /**
   * All alerts about `id` once `w` has been reported under it: none for id 0,
   * one "invalid" per reading when no sensor has the id, else the alerts of
   * its windows.
   */
  function ExpectedAlerts(rooms: seq<(SensorId, SensorId)>, id: SensorId, w: seq<real>, limits: Limits): seq<Alert>
    requires limits.Valid()
  {
    if id == 0 then []
    else if !Mapped(rooms, id) then seq(|w|, _ => InvalidSensor(id))
    else AlertHistory(id, w, limits)
  }

  lemma ExpectedAlertsAppend(rooms: seq<(SensorId, SensorId)>, id: SensorId, w: seq<real>, x: real, limits: Limits)
    requires limits.Valid()
    ensures ExpectedAlerts(rooms, id, w + [x], limits) ==
            ExpectedAlerts(rooms, id, w, limits) + NextAlerts(rooms, id, w + [x], limits)
  {
    assert (w + [x])[..|w|] == w;
  }

  /** What the last reading of `w` adds. */
  function NextAlerts(rooms: seq<(SensorId, SensorId)>, id: SensorId, w: seq<real>, limits: Limits): (r: seq<Alert>)
    requires limits.Valid()
    ensures forall k :: 0 <= k < |r| ==> r[k].id == id
  {
    if id == 0 then []
    else if !Mapped(rooms, id) then [InvalidSensor(id)]
    else AlertsFor(id, w, limits)
  }

  /** The alerts about an id are those of its own readings alone. */
  lemma {:induction false} AlertsAreProjection(rooms: seq<(SensorId, SensorId)>, ms: seq<Measurement>,
                                               limits: Limits, id: SensorId)
    requires limits.Valid()
    ensures AlertsAbout(Run(Loaded(rooms), ms, limits).log, id) ==
            ExpectedAlerts(rooms, id, ValuesOf(ms, id), limits)
  {
    if ms != [] {
      var front, m := ms[..|ms| - 1], ms[|ms| - 1];
      assert ms == front + [m];
      AlertsAreProjection(rooms, front, limits, id);
      ValuesOfAppend(front, m, id);
      AlertStep(rooms, front, m, limits, id);
      if m.id == id {
        ExpectedAlertsAppend(rooms, id, ValuesOf(front, id), m.value, limits);
      } else {
        assert ValuesOf(ms, id) == ValuesOf(front, id);
      }
    }
  }

  lemma AlertStep(rooms: seq<(SensorId, SensorId)>, front: seq<Measurement>, m: Measurement,
                  limits: Limits, id: SensorId)
    requires limits.Valid()
    ensures AlertsAbout(Run(Loaded(rooms), front + [m], limits).log, id) ==
            AlertsAbout(Run(Loaded(rooms), front, limits).log, id) +
            if m.id == id then NextAlerts(rooms, id, ValuesOf(front, id) + [m.value], limits) else []
  {
    var t := Run(Loaded(rooms), front, limits);
    assert (front + [m])[..|front|] == front;
    if Identified(m) {
      RunKeepsIds(rooms, front, limits);
      var i := FirstWithId(t.sensors, m.id);
      if i != -1 {
        ReadingsAreProjection(rooms, front, limits, i);
      }
      HandleLogs(t, m, limits);
      AlertsAboutAppend(t.log, NextAlerts(rooms, m.id, ValuesOf(front, m.id) + [m.value], limits), m.id, id);
    }
  }

  lemma HandleLogs(t: Table, m: Measurement, limits: Limits)
    requires limits.Valid()
    ensures var i := FirstWithId(t.sensors, m.id);
      Handle(t, m, limits).log == t.log +
        if i == -1 then [InvalidSensor(m.id)]
        else AlertsFor(m.id, t.sensors[i].readings + [m.value], limits)
  {
  }

  /** What a sensor shows depends on the readings with its own id and on nothing else. */
  lemma OnlyOwnReadingsMatter(rooms: seq<(SensorId, SensorId)>, ms: seq<Measurement>, ns: seq<Measurement>,
                              limits: Limits, i: nat)
    requires limits.Valid() && i < |rooms|
    requires ValuesOf(ms, rooms[i].1) == ValuesOf(ns, rooms[i].1)
    ensures var (t, u) := (Run(Loaded(rooms), ms, limits), Run(Loaded(rooms), ns, limits));
      && |t.sensors| == |u.sensors| == |rooms| && t.sensors[i] == u.sensors[i]
      && AlertsAbout(t.log, rooms[i].1) == AlertsAbout(u.log, rooms[i].1)
  {
    ReadingsAreProjection(rooms, ms, limits, i);
    ReadingsAreProjection(rooms, ns, limits, i);
    AlertsAreProjection(rooms, ms, limits, rooms[i].1);
    AlertsAreProjection(rooms, ns, limits, rooms[i].1);
  }

  lemma {:induction false} RunConcat(t: Table, ms: seq<Measurement>, ns: seq<Measurement>, limits: Limits)
    requires limits.Valid()
    ensures Run(t, ms + ns, limits) == Run(Run(t, ms, limits), ns, limits)
  {
    if ns == [] {
      assert ms + ns == ms;
    } else {
      assert (ms + ns)[..|ms + ns| - 1] == ms + ns[..|ns| - 1];
      RunConcat(t, ms, ns[..|ns| - 1], limits);
    }
  }

  /** Readings with id 0 might as well not have been inserted. */
  lemma {:induction false} RunIgnoresBlanks(t: Table, ms: seq<Measurement>, limits: Limits)
    requires limits.Valid()
    ensures Run(t, ms, limits) == Run(t, Filter(ms, Identified), limits)
  {
    if ms != [] {
      var front, m := ms[..|ms| - 1], ms[|ms| - 1];
      assert ms == front + [m];
      RunIgnoresBlanks(t, front, limits);
      FilterAppend(front, m, Identified);
      RunConcat(t, Filter(front, Identified), if Identified(m) then [m] else [], limits);
    }
  }

  // --------------------------------------------------------- average arithmetic

  lemma WindowSlides(w: seq<real>, x: real, length: nat)
    requires 1 <= length <= |w|
    ensures Window(w + [x], length) == Window(w, length)[1..] + [x]
    ensures Window(w, length)[0] == w[|w| - length]
  {
  }

  /** Consecutive averages of a full window differ by (newest - dropped) / length. */
  lemma AverageStep(w: seq<real>, x: real, length: nat)
    requires 1 <= length <= |w|
    ensures Average(w + [x], length) == Average(w, length) + (x - w[|w| - length]) / length as real
  {
    WindowSlides(w, x, length);
    var before := Window(w, length);
    assert before == [before[0]] + before[1..];
    SumConcat(before[1..], [x]);
    assert Sum([x]) == x + Sum([]);
    Distribute(Sum(before), x - before[0], length as real);
  }

  lemma Distribute(x: real, y: real, d: real)
    requires d > 0.0
    ensures (x + y) / d == x / d + y / d
  {
  }

  lemma {:induction false} SumBounds(s: seq<real>, lo: real, hi: real)
    requires forall k :: 0 <= k < |s| ==> lo <= s[k] <= hi
    ensures |s| as real * lo <= Sum(s) <= |s| as real * hi
  {
    if s != [] {
      SumBounds(s[1..], lo, hi);
      assert |s| as real == |s[1..]| as real + 1.0;
    }
  }

  /** A full-window average lies between any bounds of the readings in the window. */
  lemma AverageBetween(w: seq<real>, length: nat, lo: real, hi: real)
    requires 1 <= length <= |w|
    requires forall k :: |w| - length <= k < |w| ==> lo <= w[k] <= hi
    ensures lo <= Average(w, length) <= hi
  {
    SumBounds(Window(w, length), lo, hi);
    DivideBounds(Sum(Window(w, length)), length as real, lo, hi);
  }

  lemma DivideBounds(x: real, d: real, lo: real, hi: real)
    requires d > 0.0 && d * lo <= x <= d * hi
    ensures lo <= x / d <= hi
  {
    var q := x / d;
    assert q * d == x;
    assert q < lo ==> q * d < lo * d;
    assert q > hi ==> q * d > hi * d;
  }

  /** An alert has a cause: some reading in the window is itself beyond the limit. */
  lemma AlertHasCause(id: SensorId, w: seq<real>, limits: Limits, a: Alert)
    requires limits.Valid() && a in AlertsFor(id, w, limits)
    ensures limits.length <= |w| && a.id == id && !a.InvalidSensor? && a.average == Average(w, limits.length)
    ensures a.TooHot? ==> exists k :: |w| - limits.length <= k < |w| && w[k] > limits.max
    ensures a.TooCold? ==> exists k :: |w| - limits.length <= k < |w| && w[k] < limits.min
  {
    var from := |w| - limits.length;
    if a.TooHot? && forall k :: from <= k < |w| ==> w[k] <= limits.max {
      var lo := Least(w);
      AverageBetween(w, limits.length, lo, limits.max);
    }
    if a.TooCold? && forall k :: from <= k < |w| ==> w[k] >= limits.min {
      var hi := Greatest(w);
      AverageBetween(w, limits.length, limits.min, hi);
    }
  }

  lemma LastOrBefore(id: SensorId, w: seq<real>, m: nat, limits: Limits, a: Alert) returns (last: bool)
    requires limits.Valid() && m <= |w| && a in AlertHistory(id, w[..m], limits)
    ensures m > 0
    ensures if last then a in AlertsFor(id, w[..m], limits) else a in AlertHistory(id, w[..m - 1], limits)
  {
    last := a in AlertsFor(id, w[..m], limits);
    assert m > 0 ==> w[..m][..m - 1] == w[..m - 1];
  }

  /** An alert in the history of a sensor was raised by one of its readings. */
  lemma {:induction false} AlertWasRaised(id: SensorId, w: seq<real>, m: nat, limits: Limits, a: Alert)
    returns (n: nat)
    requires limits.Valid() && m <= |w| && a in AlertHistory(id, w[..m], limits)
    ensures 0 < n <= m && a in AlertsFor(id, w[..n], limits)
  {
    n := m;
    var last := LastOrBefore(id, w, m, limits, a);
    if !last {
      n := AlertWasRaised(id, w, m - 1, limits, a);
    }
  }

  /** The reading of the window that `AlertHasCause` speaks of. */
  lemma CauseOf(id: SensorId, w: seq<real>, limits: Limits, a: Alert) returns (k: nat)
    requires limits.Valid() && a in AlertsFor(id, w, limits)
    ensures 0 <= |w| - limits.length <= k < |w| && !a.InvalidSensor? && a.average == Average(w, limits.length)
    ensures a.TooHot? ==> w[k] > limits.max
    ensures a.TooCold? ==> w[k] < limits.min
  {
    AlertHasCause(id, w, limits, a);
    if a.TooHot? {
      k :| |w| - limits.length <= k < |w| && w[k] > limits.max;
    } else {
      k :| |w| - limits.length <= k < |w| && w[k] < limits.min;
    }
  }

  /**
   * After any stream every temperature alert in the log has a cause: the sensor's
   * own n-th reading filled a window, the alert reports that window's average,
   * and the window holds a reading beyond the limit.
   */
  lemma LoggedAlertHasCause(rooms: seq<(SensorId, SensorId)>, ms: seq<Measurement>, limits: Limits, a: Alert)
    returns (n: nat, k: nat)
    requires limits.Valid() && a in Run(Loaded(rooms), ms, limits).log && !a.InvalidSensor?
    ensures var w := ValuesOf(ms, a.id);
      && 0 <= n - limits.length <= k < n <= |w|
      && a.average == Average(w[..n], limits.length)
      && (a.TooHot? ==> w[k] > limits.max)
      && (a.TooCold? ==> w[k] < limits.min)
  {
    var w := ValuesOf(ms, a.id);
    FilterMember(Run(Loaded(rooms), ms, limits).log, (b: Alert) => b.id == a.id, a);
    AlertsAreProjection(rooms, ms, limits, a.id);
    assert w[..|w|] == w;
    n := AlertWasRaised(a.id, w, |w|, limits, a);
    k := CauseOf(a.id, w[..n], limits, a);
  }

  lemma {:induction false} Least(w: seq<real>) returns (lo: real)
    ensures forall k :: 0 <= k < |w| ==> lo <= w[k]
  {
    lo := 0.0;
    if w != [] {
      lo := Least(w[1..]);
      lo := if lo <= w[0] then lo else w[0];
    }
  }

  lemma {:induction false} Greatest(w: seq<real>) returns (hi: real)
    ensures forall k :: 0 <= k < |w| ==> w[k] <= hi
  {
    hi := 0.0;
    if w != [] {
      hi := Greatest(w[1..]);
      hi := if hi >= w[0] then hi else w[0];
    }
  }

  // ------------------------------------------------------------ when alerts are raised

  /**
   * What a full window with this sum must report: the average, too hot if and
   * only if it is above the upper limit, too cold if and only if it is below the
   * lower one, each at most once and the cold first.
   */
  ghost predicate Reports(alerts: seq<Alert>, id: SensorId, total: real, limits: Limits) {
    var length := limits.length as real;
    && (forall a :: a in alerts ==> !a.InvalidSensor? && a.id == id && a.average * length == total)
    && ((exists a :: a in alerts && a.TooHot?) <==> total > limits.max * length)
    && ((exists a :: a in alerts && a.TooCold?) <==> total < limits.min * length)
    && (forall j, k :: 0 <= j < k < |alerts| ==> alerts[j].TooCold? && alerts[k].TooHot?)
  }

  /** Dividing by the length turns a bound on the sum into a bound on the average. */
  lemma QuotientCompares(total: real, d: real, bound: real)
    requires d > 0.0
    ensures total / d * d == total
    ensures total / d > bound <==> total > bound * d
    ensures total / d < bound <==> total < bound * d
  {
    var q := total / d;
    assert q * d - bound * d == (q - bound) * d;
  }

  /** What the two tests raise at this average, part by part. */
  lemma AlertsAtAre(id: SensorId, average: real, limits: Limits, a: Alert)
    ensures a in AlertsAt(id, average, limits) <==>
            || (average < limits.min && a == TooCold(id, average))
            || (average > limits.max && a == TooHot(id, average))
    ensures var alerts := AlertsAt(id, average, limits);
      forall j, k :: 0 <= j < k < |alerts| ==> alerts[j].TooCold? && alerts[k].TooHot?
  {
  }

  lemma AlertsAtReport(id: SensorId, average: real, total: real, limits: Limits)
    requires limits.Valid() && average * limits.length as real == total
    requires average > limits.max <==> total > limits.max * limits.length as real
    requires average < limits.min <==> total < limits.min * limits.length as real
    ensures Reports(AlertsAt(id, average, limits), id, total, limits)
  {
    var alerts := AlertsAt(id, average, limits);
    AlertsAtAre(id, average, limits, TooHot(id, average));
    AlertsAtAre(id, average, limits, TooCold(id, average));
    forall a | a in alerts ensures a == TooHot(id, average) || a == TooCold(id, average) {
      AlertsAtAre(id, average, limits, a);
    }
  }

  /** A full window's average compares with a bound as its sum with the bound times the length. */
  lemma AverageCompares(w: seq<real>, length: nat, bound: real)
    requires 1 <= length <= |w|
    ensures var average, total := Average(w, length), Sum(w[|w| - length..]);
      && average * length as real == total
      && (average > bound <==> total > bound * length as real)
      && (average < bound <==> total < bound * length as real)
  {
    QuotientCompares(Sum(w[|w| - length..]), length as real, bound);
  }

  lemma FullWindowReports(id: SensorId, w: seq<real>, limits: Limits)
    requires limits.Valid() && limits.length <= |w|
    ensures Reports(AlertsFor(id, w, limits), id, Sum(w[|w| - limits.length..]), limits)
  {
    AverageCompares(w, limits.length, limits.max);
    AverageCompares(w, limits.length, limits.min);
    AlertsAtReport(id, Average(w, limits.length), Sum(w[|w| - limits.length..]), limits);
  }

  /** A window that is not full is silent with average 0; a full one reports its sum. */
  lemma AlertsReport(id: SensorId, w: seq<real>, limits: Limits)
    requires limits.Valid()
    ensures |w| < limits.length ==> AlertsFor(id, w, limits) == [] && Average(w, limits.length) == 0.0
    ensures limits.length <= |w| ==> var total := Sum(w[|w| - limits.length..]);
              && Average(w, limits.length) * limits.length as real == total
              && Reports(AlertsFor(id, w, limits), id, total, limits)
  {
    if limits.length <= |w| {
      AverageCompares(w, limits.length, 0.0);
      FullWindowReports(id, w, limits);
    }
  }

  /**
   * What asking for the average of `w` answers and adds to the log: 0 and nothing
   * before the window is full, then the mean of the last readings and its report.
   */
  ghost predicate Averaged(before: seq<Alert>, after: seq<Alert>, average: real,
                           id: SensorId, w: seq<real>, limits: Limits) {
    if |w| < limits.length then average == 0.0 && after == before
    else
      var total := Sum(w[|w| - limits.length..]);
      && average * limits.length as real == total
      && before <= after && Reports(after[|before|..], id, total, limits)
  }

  lemma AverageReported(log: seq<Alert>, id: SensorId, w: seq<real>, limits: Limits)
    requires limits.Valid()
    ensures Averaged(log, log + AlertsFor(id, w, limits), Average(w, limits.length), id, w, limits)
  {
    AlertsReport(id, w, limits);
    assert (log + AlertsFor(id, w, limits))[|log|..] == AlertsFor(id, w, limits);
  }

  /** The reading number n of a sensor has filled a window whose average is `a`. */
  ghost predicate WindowAverages(w: seq<real>, n: nat, a: real, length: nat) {
    length <= n <= |w| && Sum(w[n - length..n]) == a * length as real
  }

  lemma AverageOfWindow(w: seq<real>, n: nat, a: real, length: nat)
    requires 1 <= length <= n <= |w|
    ensures a == Average(w[..n], length) <==> WindowAverages(w, n, a, length)
  {
    var total, d := Sum(w[n - length..n]), length as real;
    assert w[..n][n - length..] == w[n - length..n];
    QuotientCompares(total, d, a);
  }

  lemma HistoryStep(id: SensorId, w: seq<real>, m: nat, limits: Limits)
    requires limits.Valid() && 0 < m <= |w|
    ensures AlertHistory(id, w[..m], limits) == AlertHistory(id, w[..m - 1], limits) + AlertsFor(id, w[..m], limits)
  {
    assert w[..m][..m - 1] == w[..m - 1];
  }

  /** Every alert once raised stays in the history of its sensor. */
  lemma {:induction false} RaisedAlertStays(id: SensorId, w: seq<real>, n: nat, m: nat, limits: Limits, a: Alert)
    requires limits.Valid() && 0 < n <= m <= |w| && a in AlertsFor(id, w[..n], limits)
    ensures a in AlertHistory(id, w[..m], limits)
    decreases m
  {
    HistoryStep(id, w, m, limits);
    if n < m {
      RaisedAlertStays(id, w, n, m - 1, limits, a);
    }
  }

  /** The history of a sensor holds exactly the alerts of its readings. */
  lemma InHistoryIff(id: SensorId, w: seq<real>, limits: Limits, a: Alert)
    requires limits.Valid()
    ensures a in AlertHistory(id, w, limits) <==> exists n :: 0 < n <= |w| && a in AlertsFor(id, w[..n], limits)
  {
    assert w[..|w|] == w;
    if a in AlertHistory(id, w, limits) {
      var n := AlertWasRaised(id, w, |w|, limits, a);
    }
    if n :| 0 < n <= |w| && a in AlertsFor(id, w[..n], limits) {
      RaisedAlertStays(id, w, n, |w|, limits, a);
    }
  }

  lemma InLogIff(log: seq<Alert>, a: Alert)
    ensures a in log <==> a in AlertsAbout(log, a.id)
  {
    var p := (b: Alert) => b.id == a.id;
    if a in log {
      FilterMember(log, p, a);
    } else if a in AlertsAbout(log, a.id) {
      FilterOrigin(log, p, a);
    }
  }

  /**
   * After any stream: an alert is in the log exactly when some reading of its
   * sensor, named in the map, has filled a window with the average it reports and
   * that average is beyond the limit.
   */
  lemma LoggedIff(rooms: seq<(SensorId, SensorId)>, ms: seq<Measurement>, limits: Limits, id: SensorId, a: real)
    requires limits.Valid()
    ensures var log, w := Run(Loaded(rooms), ms, limits).log, ValuesOf(ms, id);
      var averaged := id != 0 && Mapped(rooms, id) && exists n :: WindowAverages(w, n, a, limits.length);
      && (TooHot(id, a) in log <==> averaged && a > limits.max)
      && (TooCold(id, a) in log <==> averaged && a < limits.min)
  {
    LoggedIffRaised(rooms, ms, limits, TooHot(id, a));
    LoggedIffRaised(rooms, ms, limits, TooCold(id, a));
    var w := ValuesOf(ms, id);
    forall n | limits.length <= n <= |w|
      ensures WindowAverages(w, n, a, limits.length) ==>
                && (TooHot(id, a) in AlertsFor(id, w[..n], limits) <==> a > limits.max)
                && (TooCold(id, a) in AlertsFor(id, w[..n], limits) <==> a < limits.min)
      ensures !WindowAverages(w, n, a, limits.length) ==>
                TooHot(id, a) !in AlertsFor(id, w[..n], limits) && TooCold(id, a) !in AlertsFor(id, w[..n], limits)
    {
      AverageOfWindow(w, n, a, limits.length);
    }
  }

  lemma LoggedIffRaised(rooms: seq<(SensorId, SensorId)>, ms: seq<Measurement>, limits: Limits, a: Alert)
    requires limits.Valid() && !a.InvalidSensor?
    ensures var w := ValuesOf(ms, a.id);
      a in Run(Loaded(rooms), ms, limits).log <==>
      a.id != 0 && Mapped(rooms, a.id) && exists n :: 0 < n <= |w| && a in AlertsFor(a.id, w[..n], limits)
  {
    InLogIff(Run(Loaded(rooms), ms, limits).log, a);
    AlertsAreProjection(rooms, ms, limits, a.id);
    InHistoryIff(a.id, ValuesOf(ms, a.id), limits, a);
  }

  lemma {:induction false} SumAbove(s: seq<real>, bound: real)
    requires forall k :: 0 <= k < |s| ==> s[k] > bound
    ensures s != [] ==> Sum(s) > bound * |s| as real
  {
    if |s| == 1 {
      assert Sum(s) == s[0] + Sum(s[1..]) == s[0];
    } else if s != [] {
      SumAbove(s[1..], bound);
      assert |s| as real == |s[1..]| as real + 1.0;
    }
  }

  lemma HotWindowAverage(w: seq<real>, n: nat, length: nat, bound: real)
    requires 1 <= length <= n <= |w| && forall k :: n - length <= k < n ==> w[k] > bound
    ensures var a := Average(w[..n], length); WindowAverages(w, n, a, length) && a > bound
  {
    var window := w[n - length..n];
    assert w[..n][n - length..] == window;
    SumAbove(window, bound);
    QuotientCompares(Sum(window), length as real, bound);
  }

  /** A sensor whose last readings have all been too hot is reported, whatever else happens. */
  lemma HotWindowIsLogged(rooms: seq<(SensorId, SensorId)>, ms: seq<Measurement>, limits: Limits,
                          id: SensorId, n: nat)
    requires limits.Valid() && id != 0 && Mapped(rooms, id)
    requires limits.length <= n <= |ValuesOf(ms, id)|
    requires forall k :: n - limits.length <= k < n ==> ValuesOf(ms, id)[k] > limits.max
    ensures TooHot(id, Average(ValuesOf(ms, id)[..n], limits.length)) in Run(Loaded(rooms), ms, limits).log
  {
    HotWindowAverage(ValuesOf(ms, id), n, limits.length, limits.max);
    LoggedIff(rooms, ms, limits, id, Average(ValuesOf(ms, id)[..n], limits.length));
  }

  /** No reading of a mapped sensor is called invalid. */
  lemma MappedIsNotInvalid(id: SensorId, w: seq<real>, limits: Limits)
    requires limits.Valid()
    ensures InvalidSensor(id) !in AlertHistory(id, w, limits)
  {
    InHistoryIff(id, w, limits, InvalidSensor(id));
  }

  lemma ExpectedInvalid(rooms: seq<(SensorId, SensorId)>, id: SensorId, w: seq<real>, limits: Limits)
    requires limits.Valid()
    ensures InvalidSensor(id) in ExpectedAlerts(rooms, id, w, limits) <==> id != 0 && w != [] && !Mapped(rooms, id)
  {
    MappedIsNotInvalid(id, w, limits);
    if id != 0 && w != [] {
      assert InvalidSensor(id) == seq(|w|, _ => InvalidSensor(id))[0];
    }
  }

  /** "Invalid" is logged for exactly the ids that no line names, once for each reading. */
  lemma InvalidIffUnmapped(rooms: seq<(SensorId, SensorId)>, ms: seq<Measurement>, limits: Limits, id: SensorId)
    requires limits.Valid()
    ensures var log, w := Run(Loaded(rooms), ms, limits).log, ValuesOf(ms, id);
      && (InvalidSensor(id) in log <==> id != 0 && w != [] && forall k :: 0 <= k < |rooms| ==> rooms[k].1 != id)
      && (InvalidSensor(id) in log ==> AlertsAbout(log, id) == seq(|w|, _ => InvalidSensor(id)))
  {
    var log := Run(Loaded(rooms), ms, limits).log;
    assert InvalidSensor(id) in log <==> InvalidSensor(id) in AlertsAbout(log, id) by {
      InLogIff(log, InvalidSensor(id));
    }
    AlertsAreProjection(rooms, ms, limits, id);
    ExpectedInvalid(rooms, id, ValuesOf(ms, id), limits);
  }

  /** One reading raises both alerts exactly when the limits cross at its average. */
  lemma BothAlertsIff(id: SensorId, w: seq<real>, limits: Limits)
    requires limits.Valid()
    ensures |AlertsFor(id, w, limits)| == 2 <==>
            limits.length <= |w| && limits.max < Average(w, limits.length) < limits.min
    ensures limits.min <= limits.max ==> |AlertsFor(id, w, limits)| <= 1
  {
  }
}
