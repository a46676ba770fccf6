/**
 * Lap bookkeeping of the race dashboard (`RaceManager`, webapp/app.py): an 8-car table
 * updated from poll results, and the standings computed from it. The Control Unit client
 * it talks to is not part of this model; its poll result is an input.
 */
module Dashboard {
  import opened Base

  /** One row of the car table. */
  datatype Car = Car(address: int, position: int, laps: int, lastLapTime: int,
                     bestLapTime: int, fuel: int, inPit: bool, lastTimestamp: int)

  /** The row of controller `i` at the start of a race. */
  function FreshCar(i: int): Car
  {
    Car(i, i + 1, 0, 0, 0, 15, false, 0)
  }

  // ---------------------------------------------------------------------------------------
  // Laps

  /**
   * A finish-line crossing at `ts`: one more lap, the crossing remembered, and, when an
   * earlier crossing is known, the lap time since it recorded and the best lap kept as the
   * smallest lap time seen (0 standing for "none yet").
   */
  function CreditLap(car: Car, ts: int): (c: Car)
    ensures c.laps == car.laps + 1 && c.lastTimestamp == ts
    ensures c == car.(laps := c.laps, lastTimestamp := ts, lastLapTime := c.lastLapTime,
                      bestLapTime := c.bestLapTime)
    ensures car.lastTimestamp <= 0 ==>
      c.lastLapTime == car.lastLapTime && c.bestLapTime == car.bestLapTime
    ensures car.lastTimestamp > 0 ==>
      (c.lastLapTime == ts - car.lastTimestamp && c.bestLapTime <= c.lastLapTime &&
       (c.bestLapTime == c.lastLapTime || c.bestLapTime == car.bestLapTime) &&
       (car.bestLapTime == 0 ==> c.bestLapTime == c.lastLapTime) &&
       (car.bestLapTime != 0 ==> c.bestLapTime <= car.bestLapTime))
  {
    if car.lastTimestamp > 0 then
      var lap := ts - car.lastTimestamp;
      var best := if car.bestLapTime == 0 || lap < car.bestLapTime then lap else car.bestLapTime;
      car.(lastLapTime := lap, bestLapTime := best, laps := car.laps + 1, lastTimestamp := ts)
    else
      car.(laps := car.laps + 1, lastTimestamp := ts)
  }

  /** A row credited with crossings at each of `tss`, in order. */
  function CreditAll(car: Car, tss: seq<int>): Car
    decreases |tss|
  {
    if tss == [] then car else CreditAll(CreditLap(car, tss[0]), tss[1..])
  }

  lemma {:induction false} CreditAllSnoc(car: Car, tss: seq<int>, t: int)
    ensures CreditAll(car, tss + [t]) == CreditLap(CreditAll(car, tss), t)
    decreases |tss|
  {
    if tss == [] {
      assert [] + [t] == [t];
      assert [t][1..] == [];
    } else {
      assert (tss + [t])[0] == tss[0];
      assert (tss + [t])[1..] == tss[1..] + [t];
      CreditAllSnoc(CreditLap(car, tss[0]), tss[1..], t);
    }
  }

  predicate Increasing(tss: seq<int>)
  {
    forall j, k :: 0 <= j < k < |tss| ==> tss[j] < tss[k]
  }

  /**
   * From a start row, crossings at increasing positive instants count one lap each; the
   * last lap is the last gap between crossings, and the best lap is the shortest such gap.
   */
  lemma {:induction false} BestLapIsShortestGap(i: int, tss: seq<int>, n: nat)
    requires 2 <= n <= |tss| && tss[0] > 0 && Increasing(tss)
    ensures CreditAll(FreshCar(i), tss[..n]).laps == n
    ensures CreditAll(FreshCar(i), tss[..n]).lastTimestamp == tss[n - 1]
    ensures CreditAll(FreshCar(i), tss[..n]).lastLapTime == tss[n - 1] - tss[n - 2]
    ensures forall k :: 0 <= k < n - 1 ==> CreditAll(FreshCar(i), tss[..n]).bestLapTime <= tss[k + 1] - tss[k]
    ensures exists k :: 0 <= k < n - 1 && CreditAll(FreshCar(i), tss[..n]).bestLapTime == tss[k + 1] - tss[k]
    decreases n
  {
    var start := FreshCar(i);
    if n == 2 {
      var c1 := CreditLap(start, tss[0]);
      assert tss[..2] == [tss[0]] + [tss[1]];
      assert CreditAll(start, [tss[0]]) == c1 by {
        assert [tss[0]][1..] == [];
      }
      CreditAllSnoc(start, [tss[0]], tss[1]);
      assert tss[0] < tss[1];
    } else {
      BestLapIsShortestGap(i, tss, n - 1);
      var p := CreditAll(start, tss[..n - 1]);
      assert tss[..n] == tss[..n - 1] + [tss[n - 1]];
      CreditAllSnoc(start, tss[..n - 1], tss[n - 1]);
      var k0 :| 0 <= k0 < n - 2 && p.bestLapTime == tss[k0 + 1] - tss[k0];
      assert tss[k0] < tss[k0 + 1];
      assert tss[0] <= tss[n - 2] < tss[n - 1];
      var c := CreditLap(p, tss[n - 1]);
      if c.bestLapTime == c.lastLapTime {
        assert c.bestLapTime == tss[(n - 2) + 1] - tss[n - 2];
      } else {
        assert c.bestLapTime == tss[k0 + 1] - tss[k0];
      }
    }
  }

  // ---------------------------------------------------------------------------------------
  // Standings

  /** The sort key (-laps, last crossing) of the standings: `x` ranks strictly above `y`. */
  predicate Ahead(x: Car, y: Car)
  {
    x.laps > y.laps || (x.laps == y.laps && x.lastTimestamp < y.lastTimestamp)
  }

  /**
   * Car `i` is listed before car `j`: its key is smaller, or the keys tie and it comes
   * first in the table (the sort is stable and the table is in address order).
   */
  predicate Before(cars: seq<Car>, i: int, j: int)
    requires 0 <= i < |cars| && 0 <= j < |cars|
  {
    Ahead(cars[i], cars[j]) ||
    (cars[i].laps == cars[j].laps && cars[i].lastTimestamp == cars[j].lastTimestamp && i < j)
  }

  predicate InTable(cars: seq<Car>, s: seq<int>)
  {
    forall k :: 0 <= k < |s| ==> 0 <= s[k] < |cars|
  }

  predicate Ordered(cars: seq<Car>, s: seq<int>)
    requires InTable(cars, s)
  {
    forall a, b :: 0 <= a < b < |s| ==> Before(cars, s[a], s[b])
  }

  predicate Distinct(s: seq<int>)
  {
    forall a, b :: 0 <= a < b < |s| ==> s[a] != s[b]
  }

  /** One step of the stable sort: `x` placed after every entry it does not rank above. */
  function Insert(cars: seq<Car>, s: seq<int>, x: int): (r: seq<int>)
    requires InTable(cars, s) && 0 <= x < |cars|
    ensures |r| == |s| + 1 && InTable(cars, r)
    ensures forall y :: y in r <==> y == x || y in s
    decreases |s|
  {
    if s == [] then [x]
    else if Before(cars, x, s[0]) then [x] + s
    else [s[0]] + Insert(cars, s[1..], x)
  }

  /** The first `n` rows of the table, in race order. */
  function Rank(cars: seq<Car>, n: nat): (r: seq<int>)
    requires n <= |cars|
    ensures |r| == n && InTable(cars, r)
    ensures forall y :: y in r <==> 0 <= y < n
  {
    if n == 0 then [] else Insert(cars, Rank(cars, n - 1), n - 1)
  }

  lemma BeforeTotal(cars: seq<Car>, i: int, j: int)
    requires 0 <= i < |cars| && 0 <= j < |cars| && i != j
    ensures Before(cars, i, j) <==> !Before(cars, j, i)
  {
  }

  lemma {:induction false} InsertDistinct(cars: seq<Car>, s: seq<int>, x: int)
    requires InTable(cars, s) && 0 <= x < |cars| && Distinct(s) && x !in s
    ensures Distinct(Insert(cars, s, x))
    decreases |s|
  {
    if s != [] && !Before(cars, x, s[0]) {
      InsertDistinct(cars, s[1..], x);
      var r := Insert(cars, s, x);
      assert r == [s[0]] + Insert(cars, s[1..], x);
      assert s[0] !in s[1..];
    }
  }

  /** Inserting a later row into a sorted prefix keeps it sorted. */
  lemma {:induction false} InsertOrdered(cars: seq<Car>, s: seq<int>, x: int)
    requires InTable(cars, s) && 0 <= x < |cars| && Ordered(cars, s)
    requires forall k :: 0 <= k < |s| ==> s[k] < x
    ensures Ordered(cars, Insert(cars, s, x))
    decreases |s|
  {
    if s == [] {
    } else if Before(cars, x, s[0]) {
      var r := Insert(cars, s, x);
      forall a, b | 0 <= a < b < |r|
        ensures Before(cars, r[a], r[b])
      {
        if a == 0 && b > 1 {
          assert Before(cars, s[0], s[b - 1]);
        }
      }
    } else {
      InsertOrdered(cars, s[1..], x);
      BeforeTotal(cars, x, s[0]);
      var t := Insert(cars, s[1..], x);
      var r := Insert(cars, s, x);
      assert r == [s[0]] + t;
      forall a, b | 0 <= a < b < |r|
        ensures Before(cars, r[a], r[b])
      {
        if a == 0 {
          assert r[b] in t;
          assert r[b] == x || r[b] in s[1..];
        }
      }
    }
  }

  /** The standings list every row exactly once, in race order. */
  lemma {:induction false} RankSorted(cars: seq<Car>, n: nat)
    requires n <= |cars|
    ensures Distinct(Rank(cars, n)) && Ordered(cars, Rank(cars, n))
  {
    if n > 0 {
      var s := Rank(cars, n - 1);
      RankSorted(cars, n - 1);
      RankBelow(cars, n - 1);
      InsertDistinct(cars, s, n - 1);
      InsertOrdered(cars, s, n - 1);
    }
  }

  lemma RankBelow(cars: seq<Car>, n: nat)
    requires n <= |cars|
    ensures forall k :: 0 <= k < n ==> Rank(cars, n)[k] < n
  {
    var r := Rank(cars, n);
    forall k | 0 <= k < n
      ensures r[k] < n
    {
      assert r[k] in r;
    }
  }

  /** The standings read only laps and last crossings. */
  lemma {:induction false} RankReadsKeys(cars: seq<Car>, other: seq<Car>, n: nat)
    requires n <= |cars| == |other|
    requires forall i :: 0 <= i < |cars| ==>
      cars[i].laps == other[i].laps && cars[i].lastTimestamp == other[i].lastTimestamp
    ensures Rank(cars, n) == Rank(other, n)
  {
    if n > 0 {
      RankReadsKeys(cars, other, n - 1);
      InsertReadsKeys(cars, other, Rank(cars, n - 1), n - 1);
    }
  }

  lemma {:induction false} InsertReadsKeys(cars: seq<Car>, other: seq<Car>, s: seq<int>, x: int)
    requires |cars| == |other| && InTable(cars, s) && 0 <= x < |cars|
    requires forall i :: 0 <= i < |cars| ==>
      cars[i].laps == other[i].laps && cars[i].lastTimestamp == other[i].lastTimestamp
    ensures Insert(cars, s, x) == Insert(other, s, x)
    decreases |s|
  {
    if s != [] {
      InsertReadsKeys(cars, other, s[1..], x);
    }
  }

  function IndexOf(s: seq<int>, x: int): (k: nat)
    requires x in s
    ensures k < |s| && s[k] == x
  {
    if s[0] == x then 0 else 1 + IndexOf(s[1..], x)
  }

  /** The position shown for controller `i`: its place in the standings, counting from 1. */
  function Position(cars: seq<Car>, i: int): (p: int)
    requires |cars| == 8 && 0 <= i < 8
    ensures 1 <= p <= 8 && Rank(cars, 8)[p - 1] == i
  {
    IndexOf(Rank(cars, 8), i) + 1
  }

  /** The positions of the eight cars are 1..8, each taken by exactly one car. */
  lemma PositionsArePermutation(cars: seq<Car>)
    requires |cars| == 8
    ensures forall i, j :: 0 <= i < j < 8 ==> Position(cars, i) != Position(cars, j)
    ensures forall k :: 0 <= k < 8 ==> 0 <= Rank(cars, 8)[k] < 8 && Position(cars, Rank(cars, 8)[k]) == k + 1
  {
    var r := Rank(cars, 8);
    RankSorted(cars, 8);
    forall i, j | 0 <= i < j < 8
      ensures Position(cars, i) != Position(cars, j)
    {
      var p := Position(cars, i);
      assert r[p - 1] == i;
    }
    forall k | 0 <= k < 8
      ensures 0 <= r[k] < 8 && Position(cars, r[k]) == k + 1
    {
      assert r[k] in r;
    }
  }

  /**
   * Car `i` is placed above car `j` exactly when it has more laps, or as many laps and an
   * earlier last crossing, or the same laps and crossing and a smaller address.
   */
  lemma PositionOrder(cars: seq<Car>, i: int, j: int)
    requires |cars| == 8 && 0 <= i < 8 && 0 <= j < 8 && i != j
    ensures Position(cars, i) < Position(cars, j) <==>
      (cars[i].laps > cars[j].laps ||
       (cars[i].laps == cars[j].laps && cars[i].lastTimestamp < cars[j].lastTimestamp) ||
       (cars[i].laps == cars[j].laps && cars[i].lastTimestamp == cars[j].lastTimestamp && i < j))
  {
    var r := Rank(cars, 8);
    RankSorted(cars, 8);
    var a, b := Position(cars, i) - 1, Position(cars, j) - 1;
    BeforeTotal(cars, i, j);
    if a < b {
      assert Before(cars, r[a], r[b]);
    } else {
      assert a != b;
      assert Before(cars, r[b], r[a]);
    }
  }

  // ---------------------------------------------------------------------------------------
  // The race manager

  /** What `ControlUnit.poll` returned: a status snapshot, a timer event, or nothing. */
  datatype PollResult =
    | StatusResult(start: int, mode: int, fuel: seq<int>, pit: seq<bool>)
    | TimerResult(address: int, timestamp: int, sector: int)
    | NoResult

  /** The status record handed to the dashboard. */
  datatype StatusData = StatusData(connected: bool, startLight: int, mode: int,
                                   paceCarDeployed: bool, raceHasStarted: bool, cars: seq<Car>)

  /** Whether starting now resumes a paused race rather than beginning a new one. */
  predicate IsResume(raceHasStarted: bool, lastStartLight: int)
  {
    raceHasStarted && lastStartLight == 0
  }

  /** The simulator start the dashboard asks for: the cars to run and whether to resume. */
  datatype SimulatorStart = SimulatorStart(cars: seq<int>, resume: bool)

  /** The dashboard always runs the simulator with the first four controllers. */
  const SimulatedCars: seq<int> := [0, 1, 2, 3]

  class RaceManager {
    var connected: bool
    /** A Control Unit client is attached. */
    var hasClient: bool
    var useMock: bool
    var hasSimulator: bool
    /** The table, indexed by controller address 0..7. */
    var cars: seq<Car>
    var paceCarDeployed: bool
    var lastStartLight: int
    var raceHasStarted: bool

    predicate Valid()
      reads this
    {
      |cars| == 8
    }

    constructor()
      ensures Valid() && !connected && !hasClient && !useMock && !hasSimulator
      ensures cars == seq(8, i => FreshCar(i))
      ensures !paceCarDeployed && lastStartLight == 0 && !raceHasStarted
    {
      connected, hasClient, useMock, hasSimulator := false, false, false, false;
      paceCarDeployed, lastStartLight, raceHasStarted := false, 0, false;
      var table: seq<Car> := [];
      for i := 0 to 8
        invariant table == seq(i, k => FreshCar(k))
      {
        table := table + [FreshCar(i)];
      }
      cars := table;
    }

    /** Every car back to its starting row, and the race flags cleared. */
    method ResetRaceData()
      requires Valid()
      modifies this`cars, this`paceCarDeployed, this`lastStartLight, this`raceHasStarted
      ensures Valid() && cars == seq(8, i => FreshCar(i))
      ensures !paceCarDeployed && lastStartLight == 0 && !raceHasStarted
    {
      for i := 0 to 8
        invariant |cars| == 8
        invariant forall k :: 0 <= k < i ==> cars[k] == FreshCar(k)
      {
        cars := cars[i := FreshCar(i)];
      }
      paceCarDeployed := false;
      lastStartLight := 0;
      raceHasStarted := false;
    }

    /**
     * A timer event: a finish-line crossing (sector 1) of a car in the table credits that
     * car with a lap; anything else changes nothing.
     */
    method ProcessTimerEvent(address: int, timestamp: int, sector: int)
      requires Valid()
      modifies this`cars
      ensures Valid()
      ensures !(0 <= address < 8 && sector == 1) ==> cars == old(cars)
      ensures 0 <= address < 8 && sector == 1 ==>
        cars == old(cars)[address := CreditLap(old(cars)[address], timestamp)]
    {
      if 0 <= address < 8 && sector == 1 {
        cars := cars[address := CreditLap(cars[address], timestamp)];
      }
    }

    /**
     * Starting the race. `clientFails` says whether the client's start command raised.
     * Without a connection nothing happens; otherwise, when the command goes through, the
     * race counts as started and, under the simulator, cars 0 to 3 are started again,
     * resumed when the race had been started before and the lights were out.
     */
    method StartRace(clientFails: bool) returns (ok: bool, simulate: Option<SimulatorStart>)
      modifies this`raceHasStarted
      ensures !(connected && hasClient) ==> !ok && simulate == None && raceHasStarted == old(raceHasStarted)
      ensures connected && hasClient && clientFails ==>
        !ok && simulate == None && raceHasStarted == old(raceHasStarted)
      ensures connected && hasClient && !clientFails ==> ok && raceHasStarted
      ensures simulate != None <==> ok && useMock && hasSimulator
      ensures simulate != None ==>
        simulate.value == SimulatorStart(SimulatedCars, IsResume(old(raceHasStarted), lastStartLight))
    {
      if !connected || !hasClient {
        return false, None;
      }
      var isResume := IsResume(raceHasStarted, lastStartLight);
      if clientFails {
        return false, None;
      }
      raceHasStarted := true;
      simulate := if useMock && hasSimulator then Some(SimulatorStart(SimulatedCars, isResume)) else None;
      ok := true;
    }

    /**
     * Copies a status snapshot into the table: the fuel gauge of each listed car and its
     * pit flag. Entries past the eighth car, or a fuel gauge without a pit flag, end the copy
     * (the lookup raises and the status update is abandoned there).
     */
    method CopyStatus(fuel: seq<int>, pit: seq<bool>)
      requires Valid()
      modifies this`cars
      ensures Valid()
      ensures forall i :: 0 <= i < 8 ==>
        cars[i] == old(cars[i]).(fuel := cars[i].fuel, inPit := cars[i].inPit)
      ensures forall i :: 0 <= i < 8 ==>
        cars[i].fuel == (if i < |fuel| && i <= |pit| then fuel[i] else old(cars[i].fuel))
      ensures forall i :: 0 <= i < 8 ==>
        cars[i].inPit == (if i < |fuel| && i < |pit| then pit[i] else old(cars[i].inPit))
    {
      var i := 0;
      while i < |fuel| && i < 8
        invariant 0 <= i <= 8 && i <= |fuel| && i <= |pit| && |cars| == 8
        invariant forall k :: 0 <= k < 8 ==>
          cars[k] == old(cars[k]).(fuel := cars[k].fuel, inPit := cars[k].inPit)
        invariant forall k :: 0 <= k < 8 ==>
          cars[k].fuel == (if k < i then fuel[k] else old(cars[k].fuel))
        invariant forall k :: 0 <= k < 8 ==>
          cars[k].inPit == (if k < i then pit[k] else old(cars[k].inPit))
        decreases 8 - i
      {
        cars := cars[i := cars[i].(fuel := fuel[i])];
        if i >= |pit| {
          return;
        }
        cars := cars[i := cars[i].(inPit := pit[i])];
        i := i + 1;
      }
    }

    /** Numbers the cars 1..8 in race order. */
    method AssignPositions()
      requires Valid()
      modifies this`cars
      ensures Valid()
      ensures forall i :: 0 <= i < 8 ==> cars[i] == old(cars[i]).(position := cars[i].position)
      ensures forall i :: 0 <= i < 8 ==> cars[i].position == Position(cars, i)
    {
      var order := Rank(cars, 8);
      ghost var keys := cars;
      RankSorted(cars, 8);
      for pos := 0 to 8
        invariant |cars| == 8
        invariant forall i :: 0 <= i < 8 ==> cars[i] == keys[i].(position := cars[i].position)
        invariant forall k :: 0 <= k < pos ==> cars[order[k]].position == k + 1
      {
        cars := cars[order[pos] := cars[order[pos]].(position := pos + 1)];
      }
      RankReadsKeys(cars, keys, 8);
      forall i | 0 <= i < 8
        ensures cars[i].position == Position(cars, i)
      {
        var p := Position(cars, i);
        var k := IndexOf(order, i);
        assert order[k] == i && p == k + 1;
      }
    }

    /**
     * The status poll of the dashboard: the poll result, when connected, updates the table
     * (a status snapshot also the last known start light), then the cars are ranked and the
     * first six returned.
     */
    method GetStatus(result: PollResult) returns (status: StatusData)
      requires Valid()
      modifies this`cars, this`lastStartLight
      ensures Valid()
      ensures status.connected == connected && status.paceCarDeployed == paceCarDeployed
      ensures status.raceHasStarted == raceHasStarted
      ensures connected && hasClient && result.StatusResult? ==>
        lastStartLight == result.start && status.startLight == result.start &&
        status.mode == result.mode
      ensures !(connected && hasClient && result.StatusResult?) ==>
        lastStartLight == old(lastStartLight) && status.startLight == lastStartLight && status.mode == 0
      ensures connected && hasClient && result.StatusResult? ==>
        (forall i :: 0 <= i < 8 ==>
          cars[i].fuel == (if i < |result.fuel| && i <= |result.pit| then result.fuel[i] else old(cars[i].fuel)) &&
          cars[i].inPit == (if i < |result.fuel| && i < |result.pit| then result.pit[i] else old(cars[i].inPit)) &&
          cars[i] == old(cars[i]).(fuel := cars[i].fuel, inPit := cars[i].inPit, position := cars[i].position))
      ensures connected && hasClient && result.TimerResult? && 0 <= result.address < 8 && result.sector == 1 ==>
        (forall i :: 0 <= i < 8 ==>
          cars[i] == (if i == result.address then CreditLap(old(cars[i]), result.timestamp) else old(cars[i]))
                     .(position := cars[i].position))
      ensures !(connected && hasClient && (result.StatusResult? ||
                (result.TimerResult? && 0 <= result.address < 8 && result.sector == 1))) ==>
        (forall i :: 0 <= i < 8 ==> cars[i] == old(cars[i]).(position := cars[i].position))
      ensures forall i :: 0 <= i < 8 ==> cars[i].position == Position(cars, i)
      ensures |status.cars| == 6
      ensures forall k :: 0 <= k < 6 ==> status.cars[k] == cars[Rank(cars, 8)[k]]
    {
      var startLight := lastStartLight;
      var mode := 0;
      if connected && hasClient {
        match result
        case StatusResult(start, m, fuel, pit) =>
          lastStartLight := start;
          startLight := start;
          mode := m;
          CopyStatus(fuel, pit);
        case TimerResult(address, timestamp, sector) =>
          ProcessTimerEvent(address, timestamp, sector);
        case NoResult =>
      }
      AssignPositions();
      var table, order := cars, Rank(cars, 8);
      status := StatusData(connected, startLight, mode, paceCarDeployed, raceHasStarted,
                           seq(6, k requires 0 <= k < 6 => table[order[k]]));
    }
  }
}
