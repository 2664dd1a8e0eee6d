/** The max-stations allocation: for one machine model, how many stations
    can be equipped at once, each station being bottlenecked by its
    scarcest required fixture. */
module Allocation {
  import opened Tables

  /** Floor division as Python's `//` computes it: the quotient is rounded
      toward minus infinity, so the remainder takes the sign of the divisor. */
  function FloorDiv(a: int, b: int): (q: int)
    requires b != 0
    ensures b > 0 ==> b * q <= a < b * q + b
    ensures b < 0 ==> b * q + b < a <= b * q
  {
    if b > 0 then a / b else (-a) / (-b)
  }

  /** The requirement rows the store returns for `WHERE model_code = code`,
      in table order. */
  function RequirementsFor(table: seq<Requirement>, code: string): (reqs: seq<Requirement>)
    ensures forall r :: r in reqs <==> r in table && SqlEq(r.modelCode, code)
    ensures |reqs| <= |table|
  {
    if |table| == 0 then []
    else
      var rest := RequirementsFor(table[..|table| - 1], code);
      var last := table[|table| - 1];
      assert table == table[..|table| - 1] + [last];
      if SqlEq(last.modelCode, code) then rest + [last] else rest
  }

  function Names(fixtures: seq<Fixture>): set<string> {
    set f | f in fixtures :: f.name
  }

  /** The stock dictionary built from every fixture row: name to life_value,
      a later row overwriting an earlier one with the same name. */
  function StockMap(fixtures: seq<Fixture>): (stock: map<string, int>)
    ensures stock.Keys == Names(fixtures)
  {
    if |fixtures| == 0 then map[]
    else
      var last := fixtures[|fixtures| - 1];
      assert fixtures == fixtures[..|fixtures| - 1] + [last];
      StockMap(fixtures[..|fixtures| - 1])[last.name := last.lifeValue]
  }

  /** When several fixtures share a name, the last of them supplies the stock. */
  lemma {:induction false} StockLastWins(fixtures: seq<Fixture>, i: nat)
    requires i < |fixtures|
    requires forall j :: i < j < |fixtures| ==> fixtures[j].name != fixtures[i].name
    ensures fixtures[i].name in StockMap(fixtures)
    ensures StockMap(fixtures)[fixtures[i].name] == fixtures[i].lifeValue
  {
    if i < |fixtures| - 1 {
      StockLastWins(fixtures[..|fixtures| - 1], i);
    }
  }

  /** Stock on hand for a fixture code; a code with no fixture row has 0. */
  function StockOf(stock: map<string, int>, code: string): (have: int)
    ensures code !in stock ==> have == 0
    ensures code in stock ==> have == stock[code]
  {
    if code in stock then stock[code] else 0
  }

  /** The required quantity, a NULL quantity counting as 0. */
  function QtyOf(r: Requirement): (need: int)
    ensures r.requiredQty.None? ==> need == 0
    ensures r.requiredQty.Some? ==> need == r.requiredQty.value
  {
    r.requiredQty.GetOr(0)
  }

  /** How many stations one requirement row allows: `have // need`, or 0
      when the quantity is 0 or NULL. For a positive quantity it is the
      largest count whose total need the stock still covers. */
  function Possible(r: Requirement, stock: map<string, int>): (p: int)
    ensures QtyOf(r) == 0 ==> p == 0
    ensures r.fixtureCode !in stock ==> p == 0
    ensures QtyOf(r) > 0 ==> QtyOf(r) * p <= StockOf(stock, r.fixtureCode) < QtyOf(r) * p + QtyOf(r)
    ensures QtyOf(r) > 0 && StockOf(stock, r.fixtureCode) >= 0 ==> p >= 0
  {
    var need := QtyOf(r);
    var have := StockOf(stock, r.fixtureCode);
    if need == 0 then 0
    else
      var q := FloorDiv(have, need);
      assert r.fixtureCode !in stock ==> have == 0 && q == 0;
      q
  }

  function Stations(reqs: seq<Requirement>): set<string> {
    set r | r in reqs :: r.station
  }

  /** The `possible` values of one station's rows, in row order. */
  function PossibleValues(reqs: seq<Requirement>, stock: map<string, int>, s: string): (v: seq<int>)
    ensures |v| > 0 <==> s in Stations(reqs)
  {
    if |reqs| == 0 then []
    else
      var last := reqs[|reqs| - 1];
      assert reqs == reqs[..|reqs| - 1] + [last];
      PossibleValues(reqs[..|reqs| - 1], stock, s)
        + (if last.station == s then [Possible(last, stock)] else [])
  }

  /** A station's list holds exactly the values of that station's rows. */
  lemma {:induction false} PossibleValuesMembers(reqs: seq<Requirement>, stock: map<string, int>, s: string, x: int)
    ensures x in PossibleValues(reqs, stock, s)
        <==> exists r :: r in reqs && r.station == s && Possible(r, stock) == x
  {
    if |reqs| > 0 {
      var init := reqs[..|reqs| - 1];
      assert reqs == init + [reqs[|reqs| - 1]];
      PossibleValuesMembers(init, stock, s, x);
    }
  }

  /** Station name to the list of its rows' values, once every row has been
      grouped. */
  function StationTable(reqs: seq<Requirement>, stock: map<string, int>): map<string, seq<int>> {
    map s | s in Stations(reqs) :: PossibleValues(reqs, stock, s)
  }

  /** Python's `min` of a non-empty list. */
  function MinOf(v: seq<int>): (m: int)
    requires |v| > 0
    ensures m in v
    ensures forall x :: x in v ==> m <= x
  {
    if |v| == 1 then v[0]
    else
      var rest := MinOf(v[1..]);
      assert v == [v[0]] + v[1..];
      if v[0] <= rest then v[0] else rest
  }

  /** Each station's smallest value, or 0 for a station with an empty list. */
  function MinPerStation(avail: map<string, seq<int>>): (m: map<string, int>)
    ensures m.Keys == avail.Keys
  {
    map s | s in avail :: if |avail[s]| > 0 then MinOf(avail[s]) else 0
  }

  /** The response body: the model code and station name to achievable count. */
  datatype MaxStations = MaxStations(model: string, stations: map<string, int>)

  /** What get_max_stations answers for `code`, as a function of the two
      query results. */
  function MaxStationsSpec(code: string, table: seq<Requirement>, fixtures: seq<Fixture>)
    : Result<MaxStations, Error>
  {
    var reqs := RequirementsFor(table, code);
    if |reqs| == 0 then Failure(NoRequirements(code))
    else Success(MaxStations(code, MinPerStation(StationTable(reqs, StockMap(fixtures)))))
  }

  lemma {:induction false} PossibleValuesSnoc(reqs: seq<Requirement>, r: Requirement, stock: map<string, int>, s: string)
    ensures PossibleValues(reqs + [r], stock, s)
         == PossibleValues(reqs, stock, s) + (if r.station == s then [Possible(r, stock)] else [])
  {
    assert (reqs + [r])[..|reqs|] == reqs;
  }

  /** Grouping one more row appends its value to its own station's list and
      leaves every other station's list as it was. */
  lemma StationListSnoc(reqs: seq<Requirement>, r: Requirement, stock: map<string, int>, s: string)
    requires s in Stations(reqs + [r])
    ensures var t := StationTable(reqs, stock);
            PossibleValues(reqs + [r], stock, s)
              == (if s == r.station then (if s in t then t[s] else []) + [Possible(r, stock)] else t[s])
  {
    PossibleValuesSnoc(reqs, r, stock, s);
    var t := StationTable(reqs, stock);
    if s == r.station && s !in t {
      assert PossibleValues(reqs, stock, s) == [];
    }
    if s != r.station {
      assert s in Stations(reqs);
    }
  }

  /** The whole table after grouping one more row. */
  lemma StationTableSnoc(reqs: seq<Requirement>, r: Requirement, stock: map<string, int>)
    ensures var t := StationTable(reqs, stock);
            (StationTable(reqs + [r], stock)
               == t[r.station := (if r.station in t then t[r.station] else []) + [Possible(r, stock)]])
  {
    var t := StationTable(reqs, stock);
    var u := t[r.station := (if r.station in t then t[r.station] else []) + [Possible(r, stock)]];
    assert Stations(reqs + [r]) == Stations(reqs) + {r.station};
    forall s | s in Stations(reqs + [r]) ensures PossibleValues(reqs + [r], stock, s) == u[s] {
      StationListSnoc(reqs, r, stock, s);
    }
  }

  /** One pass of the grouping loop keeps `station_avail` equal to the table
      of the rows seen so far. */
  lemma GroupStep(reqs: seq<Requirement>, i: nat, stock: map<string, int>, avail: map<string, seq<int>>)
    requires i < |reqs| && avail == StationTable(reqs[..i], stock)
    ensures var r := reqs[i];
            avail[r.station := (if r.station in avail then avail[r.station] else []) + [Possible(r, stock)]]
              == StationTable(reqs[..i + 1], stock)
  {
    assert reqs[..i + 1] == reqs[..i] + [reqs[i]];
    StationTableSnoc(reqs[..i], reqs[i], stock);
  }

  /** get_max_stations: fail with 404 when the model has no requirement
      rows; otherwise group each row's `have // need` by station and take
      the minimum per station. */
  method ComputeMaxStations(code: string, table: seq<Requirement>, fixtures: seq<Fixture>)
    returns (res: Result<MaxStations, Error>)
    ensures res == MaxStationsSpec(code, table, fixtures)
    ensures res.Failure? <==> (forall r :: r in table ==> !SqlEq(r.modelCode, code))
    ensures res.Failure? ==> res.error == NoRequirements(code)
    ensures res.Success? ==>
              res.value.model == code && res.value.stations.Keys == Stations(RequirementsFor(table, code))
  {
    var reqs := RequirementsFor(table, code);
    if |reqs| == 0 {
      return Failure(NoRequirements(code));
    }
    assert reqs[0] in table;
    var stock := StockMap(fixtures);
    var avail: map<string, seq<int>> := map[];
    for i := 0 to |reqs|
      invariant avail == StationTable(reqs[..i], stock)
    {
      GroupStep(reqs, i, stock, avail);
      var r := reqs[i];
      var possible := Possible(r, stock);
      var list := if r.station in avail then avail[r.station] else [];
      avail := avail[r.station := list + [possible]];
    }
    assert reqs[..|reqs|] == reqs;
    res := Success(MaxStations(code, MinPerStation(avail)));
  }

  // ---- Properties of the specification ----

  /** No requirement rows for the model: a not-found error and no result. */
  lemma NotFoundWithoutRequirements(code: string, table: seq<Requirement>, fixtures: seq<Fixture>)
    ensures MaxStationsSpec(code, table, fixtures).Failure?
        <==> (forall r :: r in table ==> !SqlEq(r.modelCode, code))
    ensures MaxStationsSpec(code, table, fixtures).Failure?
        ==> Status(MaxStationsSpec(code, table, fixtures).error) == 404
  {
    var reqs := RequirementsFor(table, code);
    if |reqs| > 0 { assert reqs[0] in reqs; }
  }

  /** Each station's count is the `possible` value of one of its rows and no
      larger than that of any other of its rows: the minimum. The stations
      are exactly the distinct stations of the model's rows, so the `else 0`
      default never applies. */
  lemma StationIsBottleneck(code: string, table: seq<Requirement>, fixtures: seq<Fixture>, s: string)
    requires MaxStationsSpec(code, table, fixtures).Success?
    ensures var res := MaxStationsSpec(code, table, fixtures).value;
            var reqs := RequirementsFor(table, code);
            var stock := StockMap(fixtures);
            && (s in res.stations <==> exists r :: r in reqs && r.station == s)
            && (s in res.stations ==>
                  && (exists r :: r in reqs && r.station == s && Possible(r, stock) == res.stations[s])
                  && (forall r :: r in reqs && r.station == s ==> res.stations[s] <= Possible(r, stock)))
  {
    var reqs := RequirementsFor(table, code);
    var stock := StockMap(fixtures);
    var t := StationTable(reqs, stock);
    if s in t {
      var v := PossibleValues(reqs, stock, s);
      assert t[s] == v && |v| > 0;
      var m := MinOf(v);
      PossibleValuesMembers(reqs, stock, s, m);
      forall r | r in reqs && r.station == s ensures m <= Possible(r, stock) {
        PossibleValuesMembers(reqs, stock, s, Possible(r, stock));
      }
    }
  }

  /** A row whose quantity is 0 or NULL contributes 0 whatever the stock,
      so its station's count is at most 0. */
  lemma ZeroQuantityCapsStation(code: string, table: seq<Requirement>, fixtures: seq<Fixture>, r: Requirement)
    requires r in table && SqlEq(r.modelCode, code)
    requires QtyOf(r) == 0
    ensures MaxStationsSpec(code, table, fixtures).Success?
    ensures Possible(r, StockMap(fixtures)) == 0
    ensures var res := MaxStationsSpec(code, table, fixtures).value;
            r.station in res.stations && res.stations[r.station] <= 0
  {
    var reqs := RequirementsFor(table, code);
    assert r in reqs;
    StationIsBottleneck(code, table, fixtures, r.station);
  }

  /** A requirement naming no fixture row is computed against stock 0. */
  lemma MissingFixtureHasNoStock(code: string, table: seq<Requirement>, fixtures: seq<Fixture>, r: Requirement)
    requires r in table && SqlEq(r.modelCode, code)
    requires forall f :: f in fixtures ==> f.name != r.fixtureCode
    ensures StockOf(StockMap(fixtures), r.fixtureCode) == 0
    ensures Possible(r, StockMap(fixtures)) == 0
    ensures var res := MaxStationsSpec(code, table, fixtures).value;
            r.station in res.stations && res.stations[r.station] <= 0
  {
    assert r.fixtureCode !in Names(fixtures);
    var reqs := RequirementsFor(table, code);
    assert r in reqs;
    StationIsBottleneck(code, table, fixtures, r.station);
  }

  /** With no negative stock and no negative quantity, every count is a
      non-negative number of stations. */
  lemma CountsNonNegative(code: string, table: seq<Requirement>, fixtures: seq<Fixture>, s: string)
    requires forall f :: f in fixtures ==> f.lifeValue >= 0
    requires forall r :: r in table ==> QtyOf(r) >= 0
    ensures var res := MaxStationsSpec(code, table, fixtures);
            res.Success? && s in res.value.stations ==> res.value.stations[s] >= 0
  {
    var res := MaxStationsSpec(code, table, fixtures);
    if res.Success? && s in res.value.stations {
      var stock := StockMap(fixtures);
      StationIsBottleneck(code, table, fixtures, s);
      var r :| r in RequirementsFor(table, code) && r.station == s && Possible(r, stock) == res.value.stations[s];
      if r.fixtureCode in stock {
        assert r.fixtureCode in Names(fixtures);
        StockNonNegative(fixtures, r.fixtureCode);
      }
    }
  }

  lemma {:induction false} StockNonNegative(fixtures: seq<Fixture>, name: string)
    requires forall f :: f in fixtures ==> f.lifeValue >= 0
    requires name in StockMap(fixtures)
    ensures StockMap(fixtures)[name] >= 0
  {
    var last := fixtures[|fixtures| - 1];
    if name != last.name {
      var init := fixtures[..|fixtures| - 1];
      assert forall f :: f in init ==> f in fixtures;
      StockNonNegative(init, name);
    }
  }

  /** The worked example: station S1 of model M1 needs 2 of fixture A and
      5 of fixture B; 10 A and 12 B are in stock. */
  const ExampleTable: seq<Requirement> :=
    [Requirement("M1", "S1", "A", Some(2)), Requirement("M1", "S1", "B", Some(5))]
  const ExampleFixtures: seq<Fixture> :=
    [Fixture(1, "A", "active", "count", 0, 10), Fixture(2, "B", "active", "count", 0, 12)]

  lemma ExampleStock()
    ensures StockMap(ExampleFixtures) == map["A" := 10, "B" := 12]
  {
    assert ExampleFixtures[..1] == [ExampleFixtures[0]];
  }

  lemma ExampleRequirements()
    ensures RequirementsFor(ExampleTable, "M1") == ExampleTable
  {
    assert SqlEq("M1", "M1");
    assert ExampleTable[..1] == [ExampleTable[0]];
  }

  lemma ExampleStationTable(stock: map<string, int>)
    requires stock == map["A" := 10, "B" := 12]
    ensures StationTable(ExampleTable, stock) == map["S1" := [5, 2]]
  {
    assert Possible(ExampleTable[0], stock) == 5;
    assert Possible(ExampleTable[1], stock) == 2;
    assert Stations(ExampleTable) == {"S1"};
    assert PossibleValues(ExampleTable[..1], stock, "S1") == [5];
    assert PossibleValues(ExampleTable, stock, "S1") == [5, 2];
  }

  lemma ExampleMinimum()
    ensures MinPerStation(map["S1" := [5, 2]]) == map["S1" := 2]
  {
    var m := MinPerStation(map["S1" := [5, 2]]);
    assert [5, 2][1..] == [2];
    assert MinOf([5, 2]) == 2;
    assert m.Keys == {"S1"};
    assert m["S1"] == 2;
  }

  /** The station can be opened min(10 // 2, 12 // 5) = 2 times. */
  lemma WorkedExample()
    ensures MaxStationsSpec("M1", ExampleTable, ExampleFixtures) == Success(MaxStations("M1", map["S1" := 2]))
  {
    ExampleRequirements();
    ExampleStock();
    ExampleStationTable(StockMap(ExampleFixtures));
    ExampleMinimum();
  }
}
