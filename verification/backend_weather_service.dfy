/** `WeatherService` of backend/weather_service.py once the OpenWeather
    answers are decoded: how `_get_coordinates` turns a classified location
    into coordinates, the run-by-run daily aggregation of `get_forecast`,
    and `validate_date_range`. */
module BackendWeatherService {
  import opened Common
  import opened Text
  import opened ForecastItems
  import CoreWeatherService
  import DateRange

  // ---------------------------------------------------------------- coordinates

  /** The request `_get_coordinates` sends to the geocoder. */
  datatype GeoRequest = ZipLookup(zip: string) | DirectLookup(q: string)

  /** A geocoder entry as a JSON object of numbers. */
  type GeoEntry = map<string, real>

  /** The shape of the geocoder's answer. */
  datatype GeoAnswer = GeoList(entries: seq<GeoEntry>) | GeoDict(entry: GeoEntry) | GeoOther

  /** How `_get_coordinates` can fail: the answer has no usable shape, the
      "lat,lon" text does not unpack into two numbers (a `ValueError`), or
      an entry lacks a key (a `KeyError`). */
  datatype CoordFailure = LocationNotFound(message: string) | Malformed | MissingKey(key: string)

  const NotFoundPrefix := "Location not found: "

  /** The request made for a location: none for coordinates, the zip
      endpoint for zip codes, the direct endpoint for everything else. */
  function RequestFor(location: string, locationType: string): (r: Option<GeoRequest>)
    ensures r.None? <==> locationType == "coordinates"
    ensures locationType == "zip" ==> r == Some(ZipLookup(location))
    ensures locationType != "zip" && locationType != "coordinates" ==> r == Some(DirectLookup(location))
  {
    if locationType == "coordinates" then None
    else if locationType == "zip" then Some(ZipLookup(location))
    else Some(DirectLookup(location))
  }

  /** The lat/lon of one entry, or the first key it lacks. */
  function LatLon(e: GeoEntry): (r: Result<(real, real), CoordFailure>)
    ensures r.Ok? <==> "lat" in e && "lon" in e
    ensures r.Ok? ==> r.value == (e["lat"], e["lon"])
    ensures "lat" !in e ==> r == Err(MissingKey("lat"))
  {
    if "lat" !in e then Err(MissingKey("lat"))
    else if "lon" !in e then Err(MissingKey("lon"))
    else Ok((e["lat"], e["lon"]))
  }

  /** `lat, lon = map(float, location.split(','))`, with `parseFloat`
      standing for Python's `float` on one piece. */
  function ParsePair(location: string, parseFloat: string -> Option<real>): (r: Result<(real, real), CoordFailure>)
    ensures r.Ok? <==> (&& |SplitOn(location, ',')| == 2
                        && parseFloat(SplitOn(location, ',')[0]).Some?
                        && parseFloat(SplitOn(location, ',')[1]).Some?)
    ensures r.Ok? ==> r.value == (parseFloat(SplitOn(location, ',')[0]).value, parseFloat(SplitOn(location, ',')[1]).value)
    ensures r.Err? ==> r.error == Malformed
  {
    var parts := SplitOn(location, ',');
    if |parts| != 2 then Err(Malformed)
    else match (parseFloat(parts[0]), parseFloat(parts[1]))
      case (Some(lat), Some(lon)) => Ok((lat, lon))
      case _ => Err(Malformed)
  }

  /** `_get_coordinates`: coordinates are read from the text; any other
      type is looked up, and the answer is read by its shape — a non-empty
      list gives its first entry, an object with 'lat' gives itself, and
      anything else is "Location not found". */
  function GetCoordinates(location: string, locationType: string, parseFloat: string -> Option<real>,
                          answer: GeoAnswer): (r: Result<(real, real), CoordFailure>)
    ensures locationType == "coordinates" ==> r == ParsePair(location, parseFloat)
    ensures locationType != "coordinates" && answer.GeoList? && |answer.entries| > 0 ==> r == LatLon(answer.entries[0])
    ensures locationType != "coordinates" && answer.GeoDict? && "lat" in answer.entry ==> r == LatLon(answer.entry)
    ensures (&& locationType != "coordinates"
             && !(answer.GeoList? && |answer.entries| > 0)
             && !(answer.GeoDict? && "lat" in answer.entry))
            ==> r == Err(LocationNotFound(NotFoundPrefix + location))
  {
    if locationType == "coordinates" then ParsePair(location, parseFloat)
    else match answer
      case GeoList(es) => if |es| > 0 then LatLon(es[0]) else Err(LocationNotFound(NotFoundPrefix + location))
      case GeoDict(e) => if "lat" in e then LatLon(e) else Err(LocationNotFound(NotFoundPrefix + location))
      case GeoOther => Err(LocationNotFound(NotFoundPrefix + location))
  }

  /** Coordinates need no lookup: the answer plays no part. */
  lemma CoordinatesIgnoreAnswer(location: string, parseFloat: string -> Option<real>, a: GeoAnswer, b: GeoAnswer)
    ensures RequestFor(location, "coordinates").None?
    ensures GetCoordinates(location, "coordinates", parseFloat, a) == GetCoordinates(location, "coordinates", parseFloat, b)
  {
  }

  /** A "lat,lon" text whose pieces read as numbers gives those numbers. */
  lemma PairTextRoundTrip(lat: string, lon: string, parseFloat: string -> Option<real>)
    requires ',' !in lat && ',' !in lon
    requires parseFloat(lat).Some? && parseFloat(lon).Some?
    ensures GetCoordinates(lat + "," + lon, "coordinates", parseFloat, GeoOther)
              == Ok((parseFloat(lat).value, parseFloat(lon).value))
  {
    SplitJoin([lat, lon], ',');
    assert JoinWith([lat, lon], ',') == lat + "," + lon;
  }

  // ---------------------------------------------------------------- aggregation

  type Group = CoreWeatherService.Group

  /** The runs of consecutive samples sharing a day, in order. */
  function Runs(xs: seq<Sample>): (rs: seq<Group>)
    ensures |xs| == 0 <==> |rs| == 0
    ensures |rs| > 0 ==> rs[|rs| - 1].day == xs[|xs| - 1].day
    ensures forall k :: 0 <= k < |rs| ==> |rs[k].items| > 0
    decreases |xs|
  {
    if |xs| == 0 then []
    else
      var rs := Runs(xs[..|xs| - 1]);
      var x := xs[|xs| - 1];
      if |rs| > 0 && rs[|rs| - 1].day == x.day then
        rs[..|rs| - 1] + [CoreWeatherService.Group(x.day, rs[|rs| - 1].items + [x])]
      else rs + [CoreWeatherService.Group(x.day, [x])]
  }

  /** The samples of the runs, one run after another. */
  function Flatten(rs: seq<Group>): seq<Sample> {
    if |rs| == 0 then [] else Flatten(rs[..|rs| - 1]) + rs[|rs| - 1].items
  }

  lemma FlattenAppend(rs: seq<Group>, g: Group)
    ensures Flatten(rs + [g]) == Flatten(rs) + g.items
  {
    assert (rs + [g])[..|rs|] == rs;
  }

  /** One more sample joins the last run when it has that run's day, and
      opens a run of its own otherwise. */
  lemma RunsSnoc(init: seq<Sample>, x: Sample)
    ensures var rs := Runs(init);
            Runs(init + [x]) ==
              if |rs| > 0 && rs[|rs| - 1].day == x.day
              then rs[..|rs| - 1] + [CoreWeatherService.Group(x.day, rs[|rs| - 1].items + [x])]
              else rs + [CoreWeatherService.Group(x.day, [x])]
  {
    assert (init + [x])[..|init|] == init;
  }

  /** Flattening after a join: the joined sample comes last. */
  lemma FlattenJoin(front: seq<Group>, last: Group, x: Sample)
    ensures Flatten(front + [CoreWeatherService.Group(x.day, last.items + [x])]) == Flatten(front + [last]) + [x]
  {
    FlattenAppend(front, last);
    FlattenAppend(front, CoreWeatherService.Group(x.day, last.items + [x]));
  }

  /** The runs cover the input exactly, in order. */
  lemma {:induction false} RunsCover(xs: seq<Sample>)
    ensures Flatten(Runs(xs)) == xs
    decreases |xs|
  {
    if |xs| > 0 {
      var init := xs[..|xs| - 1];
      var x := xs[|xs| - 1];
      var rs := Runs(init);
      assert xs == init + [x];
      RunsCover(init);
      RunsSnoc(init, x);
      if |rs| > 0 && rs[|rs| - 1].day == x.day {
        assert rs[..|rs| - 1] + [rs[|rs| - 1]] == rs;
        FlattenJoin(rs[..|rs| - 1], rs[|rs| - 1], x);
      } else {
        FlattenAppend(rs, CoreWeatherService.Group(x.day, [x]));
      }
    }
  }

  /** Every sample of the group has the group's day. */
  predicate OneDay(g: Group) {
    forall i :: 0 <= i < |g.items| ==> g.items[i].day == g.day
  }

  /** Each run holds samples of its own day only ... */
  lemma {:induction false} RunsSameDay(xs: seq<Sample>)
    ensures forall k :: 0 <= k < |Runs(xs)| ==> OneDay(Runs(xs)[k])
    decreases |xs|
  {
    if |xs| > 0 {
      var init := xs[..|xs| - 1];
      var x := xs[|xs| - 1];
      var rs := Runs(init);
      assert xs == init + [x];
      RunsSameDay(init);
      RunsSnoc(init, x);
      if |rs| > 0 && rs[|rs| - 1].day == x.day {
        JoinOneDay(rs[|rs| - 1], x);
        AllOneDaySnoc(rs[..|rs| - 1], CoreWeatherService.Group(x.day, rs[|rs| - 1].items + [x]));
      } else {
        AllOneDaySnoc(rs, CoreWeatherService.Group(x.day, [x]));
      }
    }
  }

  lemma JoinOneDay(last: Group, x: Sample)
    requires OneDay(last) && last.day == x.day
    ensures OneDay(CoreWeatherService.Group(x.day, last.items + [x]))
  {
    var joined := CoreWeatherService.Group(x.day, last.items + [x]);
    forall i | 0 <= i < |joined.items|
      ensures joined.items[i].day == joined.day
    {
      if i < |last.items| {
        assert joined.items[i] == last.items[i];
      }
    }
  }

  lemma AllOneDaySnoc(p: seq<Group>, g: Group)
    requires forall k :: 0 <= k < |p| ==> OneDay(p[k])
    requires OneDay(g)
    ensures forall k :: 0 <= k < |p + [g]| ==> OneDay((p + [g])[k])
  {
    forall k | 0 <= k < |p + [g]|
      ensures OneDay((p + [g])[k])
    {
      if k < |p| {
        assert (p + [g])[k] == p[k];
      }
    }
  }

  /** ... and neighbouring runs have different days. */
  lemma {:induction false} RunsNeighboursDiffer(xs: seq<Sample>)
    ensures forall k :: 0 < k < |Runs(xs)| ==> Runs(xs)[k - 1].day != Runs(xs)[k].day
    decreases |xs|
  {
    if |xs| > 0 {
      var init := xs[..|xs| - 1];
      var x := xs[|xs| - 1];
      var rs := Runs(init);
      assert xs == init + [x];
      RunsNeighboursDiffer(init);
      RunsSnoc(init, x);
      if |rs| > 0 && rs[|rs| - 1].day == x.day {
        NeighboursSnoc(rs[..|rs| - 1], CoreWeatherService.Group(x.day, rs[|rs| - 1].items + [x]));
      } else {
        NeighboursSnoc(rs, CoreWeatherService.Group(x.day, [x]));
      }
    }
  }

  lemma NeighboursSnoc(p: seq<Group>, g: Group)
    requires forall k :: 0 < k < |p| ==> p[k - 1].day != p[k].day
    requires |p| > 0 ==> p[|p| - 1].day != g.day
    ensures forall k :: 0 < k < |p + [g]| ==> (p + [g])[k - 1].day != (p + [g])[k].day
  {
    forall k | 0 < k < |p + [g]|
      ensures (p + [g])[k - 1].day != (p + [g])[k].day
    {
      assert (p + [g])[k - 1] == p[k - 1];
      if k < |p| {
        assert (p + [g])[k] == p[k];
      }
    }
  }

  /** The number of places where the day changes from one sample to the
      next. */
  function Changes(xs: seq<Sample>): nat {
    if |xs| <= 1 then 0
    else Changes(xs[..|xs| - 1]) + (if xs[|xs| - 2].day != xs[|xs| - 1].day then 1 else 0)
  }

  /** A non-empty input gives one run more than it has day changes. */
  lemma {:induction false} RunCount(xs: seq<Sample>)
    requires |xs| > 0
    ensures |Runs(xs)| == 1 + Changes(xs)
    decreases |xs|
  {
    if |xs| > 1 {
      var init := xs[..|xs| - 1];
      RunCount(init);
      assert init[|init| - 1] == xs[|xs| - 2];
    }
  }

  /** One element of the answer: the day, the mean, the least and the
      largest temperature of a run. */
  datatype DayEntry = DayEntry(day: int, averageTemp: real, minTemp: real, maxTemp: real)

  /** The entry the loop appends when it closes a run: the day, the mean,
      the least and the largest of the run's temperatures. */
  function Close(day: int, dailyTemps: seq<real>): (e: DayEntry)
    requires |dailyTemps| > 0
    ensures e.day == day
    ensures e.minTemp <= e.averageTemp <= e.maxTemp
    ensures e.minTemp in dailyTemps && e.maxTemp in dailyTemps
    ensures forall i :: 0 <= i < |dailyTemps| ==> e.minTemp <= dailyTemps[i] <= e.maxTemp
  {
    DayEntry(day, Mean(dailyTemps), MinOf(dailyTemps), MaxOf(dailyTemps))
  }

  /** One entry per run, in order. */
  function EntriesOf(rs: seq<Group>): (es: seq<DayEntry>)
    requires forall k :: 0 <= k < |rs| ==> |rs[k].items| > 0
    ensures |es| == |rs|
  {
    if |rs| == 0 then []
    else EntriesOf(rs[..|rs| - 1]) + [Close(rs[|rs| - 1].day, Temps(rs[|rs| - 1].items))]
  }

  /** The entry of run `k` is made of that run's day and temperatures. */
  lemma {:induction false} EntriesOfAt(rs: seq<Group>, k: int)
    requires forall k :: 0 <= k < |rs| ==> |rs[k].items| > 0
    requires 0 <= k < |rs|
    ensures EntriesOf(rs)[k] == Close(rs[k].day, Temps(rs[k].items))
    decreases |rs|
  {
    if k < |rs| - 1 {
      var init := rs[..|rs| - 1];
      assert init[k] == rs[k];
      EntriesOfAt(init, k);
    }
  }

  /** What the aggregation loop holds after a prefix whose runs are `rs`:
      the open run's day and temperatures, and an entry for every run
      already closed. */
  predicate Tracks(rs: seq<Group>, currentDate: Option<int>, dailyTemps: seq<real>, entries: seq<DayEntry>)
    requires forall k :: 0 <= k < |rs| ==> |rs[k].items| > 0
  {
    && |rs| > 0
    && currentDate == Some(rs[|rs| - 1].day)
    && dailyTemps == Temps(rs[|rs| - 1].items)
    && entries == EntriesOf(rs[..|rs| - 1])
  }

  lemma TracksFirst(x: Sample)
    ensures Tracks(Runs([x]), Some(x.day), [x.temp], [])
  {
    RunsSnoc([], x);
    assert [] + [x] == [x];
  }

  lemma TracksJoin(init: seq<Sample>, x: Sample, day: int, dailyTemps: seq<real>, entries: seq<DayEntry>)
    requires Tracks(Runs(init), Some(day), dailyTemps, entries) && x.day == day
    ensures Tracks(Runs(init + [x]), Some(day), dailyTemps + [x.temp], entries)
  {
    var rs := Runs(init);
    RunsSnoc(init, x);
    var r := Runs(init + [x]);
    assert r[..|r| - 1] == rs[..|rs| - 1];
    TempsAppend(rs[|rs| - 1].items, [x]);
  }

  lemma TracksOpen(init: seq<Sample>, x: Sample, day: int, dailyTemps: seq<real>, entries: seq<DayEntry>)
    requires Tracks(Runs(init), Some(day), dailyTemps, entries) && x.day != day
    ensures |dailyTemps| > 0
    ensures Tracks(Runs(init + [x]), Some(x.day), [x.temp], entries + [Close(day, dailyTemps)])
  {
    var rs := Runs(init);
    RunsSnoc(init, x);
    var r := Runs(init + [x]);
    assert r[..|r| - 1] == rs;
    assert rs == rs[..|rs| - 1] + [rs[|rs| - 1]];
    EntriesSnoc(rs[..|rs| - 1], rs[|rs| - 1]);
  }

  lemma TracksDone(xs: seq<Sample>, currentDate: Option<int>, dailyTemps: seq<real>, entries: seq<DayEntry>)
    requires Tracks(Runs(xs), currentDate, dailyTemps, entries)
    ensures |dailyTemps| > 0
    ensures entries + [Close(currentDate.value, dailyTemps)] == EntriesOf(Runs(xs))
  {
    var rs := Runs(xs);
    assert rs == rs[..|rs| - 1] + [rs[|rs| - 1]];
    EntriesSnoc(rs[..|rs| - 1], rs[|rs| - 1]);
  }

  lemma EntriesSnoc(rs: seq<Group>, g: Group)
    requires forall k :: 0 <= k < |rs| ==> |rs[k].items| > 0
    requires |g.items| > 0
    ensures EntriesOf(rs + [g]) == EntriesOf(rs) + [Close(g.day, Temps(g.items))]
  {
    assert (rs + [g])[..|rs|] == rs;
  }

  /** The aggregation loop of `get_forecast`, as written: a run is closed
      when the day changes, and the last run is closed after the loop. It
      yields one entry per run of the input. */
  method AggregateRuns(xs: seq<Sample>) returns (entries: seq<DayEntry>)
    ensures entries == EntriesOf(Runs(xs))
  {
    var currentDate: Option<int> := None;
    var dailyTemps: seq<real> := [];
    entries := [];
    for i := 0 to |xs|
      invariant i == 0 ==> currentDate.None? && dailyTemps == [] && entries == []
      invariant i > 0 ==> Tracks(Runs(xs[..i]), currentDate, dailyTemps, entries)
    {
      var x := xs[i];
      assert xs[..i + 1] == xs[..i] + [x];
      if currentDate.None? {
        currentDate := Some(x.day);
      }
      if x.day != currentDate.value {
        TracksOpen(xs[..i], x, currentDate.value, dailyTemps, entries);
        entries := entries + [Close(currentDate.value, dailyTemps)];
        currentDate := Some(x.day);
        dailyTemps := [];
      } else if i > 0 {
        TracksJoin(xs[..i], x, currentDate.value, dailyTemps, entries);
      } else {
        assert xs[..1] == [x];
        TracksFirst(x);
      }
      dailyTemps := dailyTemps + [x.temp];
    }
    if |dailyTemps| > 0 {
      assert xs[..|xs|] == xs;
      TracksDone(xs, currentDate, dailyTemps, entries);
      entries := entries + [Close(currentDate.value, dailyTemps)];
    } else {
      assert |xs| == 0;
    }
  }

  // ---------------------------------------------------------------- the two groupings

  predicate DaysSorted(xs: seq<Sample>) {
    forall i, j :: 0 <= i < j < |xs| ==> xs[i].day <= xs[j].day
  }

  /** On a list whose days never decrease the two services group alike:
      runs and dictionary entries coincide. */
  lemma {:induction false} SortedRunsAreGroups(xs: seq<Sample>)
    requires DaysSorted(xs)
    ensures Runs(xs) == CoreWeatherService.GroupByDay(xs)
    decreases |xs|
  {
    if |xs| > 0 {
      var init := xs[..|xs| - 1];
      var x := xs[|xs| - 1];
      assert xs == init + [x];
      assert DaysSorted(init);
      SortedRunsAreGroups(init);
      SortedStep(init, x);
    }
  }

  /** One step of the induction: if runs and groups agree on a sorted
      prefix, they agree once the next sample is added. */
  lemma SortedStep(init: seq<Sample>, x: Sample)
    requires DaysSorted(init + [x])
    requires Runs(init) == CoreWeatherService.GroupByDay(init)
    ensures Runs(init + [x]) == CoreWeatherService.GroupByDay(init + [x])
  {
    var xs := init + [x];
    assert xs[..|xs| - 1] == init && xs[|xs| - 1] == x;
    var gs := CoreWeatherService.GroupByDay(init);
    assert CoreWeatherService.GroupByDay(xs) == CoreWeatherService.AddSample(gs, x);
    if |init| > 0 && init[|init| - 1].day == x.day {
      assert |gs| > 0 && gs[|gs| - 1].day == x.day;
      assert Runs(xs) == gs[..|gs| - 1] + [CoreWeatherService.Group(x.day, gs[|gs| - 1].items + [x])];
      DaysOfGroupsDistinct(init);
      SameDayJoinsLast(gs, x);
    } else {
      assert Runs(xs) == gs + [CoreWeatherService.Group(x.day, [x])];
      LaterDayIsNew(init, x);
      NewDayOpensGroup(gs, x);
    }
  }

  lemma DaysOfGroupsDistinct(xs: seq<Sample>)
    ensures var gs := CoreWeatherService.GroupByDay(xs);
            forall i, j :: 0 <= i < j < |gs| ==> gs[i].day != gs[j].day
  {
    var gs := CoreWeatherService.GroupByDay(xs);
    var ds := CoreWeatherService.DistinctDays(xs);
    forall i, j | 0 <= i < j < |gs|
      ensures gs[i].day != gs[j].day
    {
      assert CoreWeatherService.Days(gs)[i] == ds[i] && CoreWeatherService.Days(gs)[j] == ds[j];
    }
  }

  /** In a sorted list, a day other than the last one's has not occurred. */
  lemma LaterDayIsNew(init: seq<Sample>, x: Sample)
    requires DaysSorted(init + [x])
    requires |init| == 0 || init[|init| - 1].day != x.day
    ensures x.day !in CoreWeatherService.Days(CoreWeatherService.GroupByDay(init))
  {
    EarlierDaysSmaller(init, x);
    CoreWeatherService.DistinctDaysHas(init, x.day);
  }

  lemma EarlierDaysSmaller(init: seq<Sample>, x: Sample)
    requires DaysSorted(init + [x])
    requires |init| == 0 || init[|init| - 1].day != x.day
    ensures forall i :: 0 <= i < |init| ==> init[i].day < x.day
  {
    var xs := init + [x];
    var n := |init|;
    forall i | 0 <= i < n
      ensures init[i].day < x.day
    {
      assert xs[i] == init[i] && xs[n - 1] == init[n - 1] && xs[n] == x;
      assert xs[i].day <= xs[n - 1].day && xs[n - 1].day <= xs[n].day;
    }
  }

  /** A sample of the last group's day joins the last group. */
  lemma SameDayJoinsLast(gs: seq<Group>, x: Sample)
    requires |gs| > 0 && gs[|gs| - 1].day == x.day
    requires forall i, j :: 0 <= i < j < |gs| ==> gs[i].day != gs[j].day
    ensures CoreWeatherService.AddSample(gs, x)
              == gs[..|gs| - 1] + [CoreWeatherService.Group(x.day, gs[|gs| - 1].items + [x])]
  {
    var r := CoreWeatherService.AddSample(gs, x);
    var t := gs[..|gs| - 1] + [CoreWeatherService.Group(x.day, gs[|gs| - 1].items + [x])];
    assert CoreWeatherService.Days(gs)[|gs| - 1] == x.day;
    assert |r| == |t|;
    forall k | 0 <= k < |r|
      ensures r[k] == t[k]
    {
      if k < |gs| - 1 {
        assert gs[k].day != x.day;
        assert gs[k].items + [] == gs[k].items;
      }
    }
  }

  /** A sample of a day no group has opens a group at the end. */
  lemma NewDayOpensGroup(gs: seq<Group>, x: Sample)
    requires x.day !in CoreWeatherService.Days(gs)
    ensures CoreWeatherService.AddSample(gs, x) == gs + [CoreWeatherService.Group(x.day, [x])]
  {
    var r := CoreWeatherService.AddSample(gs, x);
    forall k | 0 <= k < |gs|
      ensures r[k] == gs[k]
    {
      assert CoreWeatherService.Days(gs)[k] == gs[k].day;
      assert gs[k].items + [] == gs[k].items;
    }
  }

  /** The two services part ways on a day that comes back after another:
      the days 1, 2, 1 make three runs ... */
  lemma RecurringDayRuns(a: Sample, b: Sample, c: Sample)
    requires a.day == 1 && b.day == 2 && c.day == 1
    ensures |Runs([a, b, c])| == 3
  {
    assert [a, b, c][..2] == [a, b] && [a, b][..1] == [a];
    assert Changes([a]) == 0;
    assert Changes([a, b]) == 1;
    assert Changes([a, b, c]) == 2;
    RunCount([a, b, c]);
  }

  /** ... but two dictionary entries. */
  lemma RecurringDayGroups(a: Sample, b: Sample, c: Sample)
    requires a.day == 1 && b.day == 2 && c.day == 1
    ensures |CoreWeatherService.GroupByDay([a, b, c])| == 2
  {
    assert [a, b, c][..2] == [a, b] && [a, b][..1] == [a];
    assert CoreWeatherService.DistinctDays([a]) == [1];
    assert CoreWeatherService.DistinctDays([a, b]) == [1, 2];
    assert CoreWeatherService.DistinctDays([a, b, c]) == [1, 2];
    assert |CoreWeatherService.Days(CoreWeatherService.GroupByDay([a, b, c]))| == 2;
  }

  // ---------------------------------------------------------------- date range

  const DatePrefix := "Date validation error: "
  const BackendOrderMessage := "Start date must be before end date"

  /** `validate_date_range`: parse both, then order, past bound, future
      bound, span; every failure carries the prefix. */
  function ValidateDateRange(start: DateRange.DateText, end: DateRange.DateText, today: int): (r: Result<bool, string>)
    ensures r.Ok? ==> r.value
    ensures r.Err? ==> |r.error| >= |DatePrefix| && r.error[..|DatePrefix|] == DatePrefix
    ensures start.Unparseable? ==> r == Err(DatePrefix + start.reason)
    ensures start.Parsed? && end.Unparseable? ==> r == Err(DatePrefix + end.reason)
  {
    if start.Unparseable? then Err(DatePrefix + start.reason)
    else if end.Unparseable? then Err(DatePrefix + end.reason)
    else
      var s := start.day;
      var e := end.day;
      if s > e then Err(DatePrefix + BackendOrderMessage)
      else if s < today - DateRange.MaxDaysPast then Err(DatePrefix + DateRange.PastMessage)
      else if e > today + DateRange.MaxDaysFuture then Err(DatePrefix + DateRange.FutureMessage)
      else if e - s > DateRange.MaxRangeDays then Err(DatePrefix + DateRange.SpanMessage)
      else Ok(true)
  }

  /** The rejection is the first failing check in the order start after
      end, past bound, future bound, span. */
  lemma BackendFirstFailureWins(s: int, e: int, today: int)
    ensures var r := ValidateDateRange(DateRange.Parsed(s), DateRange.Parsed(e), today);
            && (s > e ==> r == Err(DatePrefix + BackendOrderMessage))
            && (s <= e && s < today - 7 ==> r == Err(DatePrefix + DateRange.PastMessage))
            && (s <= e && s >= today - 7 && e > today + 5 ==> r == Err(DatePrefix + DateRange.FutureMessage))
            && (s <= e && s >= today - 7 && e <= today + 5 && e - s > 5 ==> r == Err(DatePrefix + DateRange.SpanMessage))
  {
  }

  /** Both validators accept the same ranges ... */
  lemma ValidatorsAgreeOnAcceptance(start: DateRange.DateText, end: DateRange.DateText, today: int)
    ensures ValidateDateRange(start, end, today).Ok? <==> DateRange.Validate(start, end, today).valid
  {
  }

  /** ... but may name different reasons: a start ten days back with an
      end today is "too far in the past" here and "too long" there. */
  lemma ValidatorsDifferOnReason(today: int)
    ensures ValidateDateRange(DateRange.Parsed(today - 10), DateRange.Parsed(today), today)
              == Err(DatePrefix + DateRange.PastMessage)
    ensures DateRange.Validate(DateRange.Parsed(today - 10), DateRange.Parsed(today), today).message
              == DateRange.SpanMessage
  {
  }
}
