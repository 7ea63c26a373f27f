/** `WeatherService` of src/core/weather_service.py once the OpenWeather
    answers are decoded: the coordinate guard, the day grouping and daily
    summaries of `get_forecast`, the record `get_current_weather` saves, and
    the decision `geocode_location` takes on the geocoder's answer. The
    store is the one of src/database/operations.py; clock readings are
    parameters. */
module CoreWeatherService {
  import opened Common
  import opened Tables
  import opened ForecastItems
  import opened WeatherStore

  const InvalidCoordinatesMessage := "Invalid coordinates"

  // ---------------------------------------------------------------- grouping

  /** The days of a forecast list in order of first appearance. */
  function DistinctDays(xs: seq<Sample>): (ds: seq<int>)
    ensures forall i, j :: 0 <= i < j < |ds| ==> ds[i] != ds[j]
  {
    if |xs| == 0 then []
    else
      var ds := DistinctDays(xs[..|xs| - 1]);
      if xs[|xs| - 1].day in ds then ds else ds + [xs[|xs| - 1].day]
  }

  /** A day occurs among the distinct days exactly when some sample has it. */
  lemma {:induction false} DistinctDaysHas(xs: seq<Sample>, d: int)
    ensures d in DistinctDays(xs) <==> exists i :: 0 <= i < |xs| && xs[i].day == d
    decreases |xs|
  {
    if |xs| > 0 {
      var init := xs[..|xs| - 1];
      DistinctDaysHas(init, d);
      if exists i :: 0 <= i < |xs| && xs[i].day == d {
        var i :| 0 <= i < |xs| && xs[i].day == d;
        if i < |xs| - 1 {
          assert init[i].day == d;
        }
      }
    }
  }

  /** The samples of one day, in their order. */
  function OfDay(xs: seq<Sample>, d: int): (r: seq<Sample>)
    ensures |r| <= |xs|
    ensures forall i :: 0 <= i < |r| ==> r[i].day == d && r[i] in xs
  {
    if |xs| == 0 then []
    else OfDay(xs[..|xs| - 1], d) + (if xs[|xs| - 1].day == d then [xs[|xs| - 1]] else [])
  }

  lemma {:induction false} OfDayEmpty(xs: seq<Sample>, d: int)
    requires d !in DistinctDays(xs)
    ensures OfDay(xs, d) == []
    decreases |xs|
  {
    if |xs| > 0 {
      var init := xs[..|xs| - 1];
      DistinctDaysHas(xs, d);
      DistinctDaysHas(init, d);
      OfDayEmpty(init, d);
      assert xs[|xs| - 1].day != d;
    }
  }

  lemma {:induction false} OfDayNonEmpty(xs: seq<Sample>, d: int)
    requires d in DistinctDays(xs)
    ensures |OfDay(xs, d)| > 0
    decreases |xs|
  {
    var init := xs[..|xs| - 1];
    if xs[|xs| - 1].day != d {
      assert d in DistinctDays(init);
      OfDayNonEmpty(init, d);
    }
  }

  /** Every sample is among the samples of its own day as often as in the
      whole list. */
  lemma {:induction false} OfDayKeepsSamples(xs: seq<Sample>, x: Sample)
    ensures multiset(OfDay(xs, x.day))[x] == multiset(xs)[x]
    decreases |xs|
  {
    if |xs| > 0 {
      var init := xs[..|xs| - 1];
      assert xs == init + [xs[|xs| - 1]];
      OfDayKeepsSamples(init, x);
    }
  }

  /** One entry of the day dictionary. */
  datatype Group = Group(day: int, items: seq<Sample>)

  function Days(gs: seq<Group>): (ds: seq<int>)
    ensures |ds| == |gs| && forall k :: 0 <= k < |gs| ==> ds[k] == gs[k].day
  {
    if |gs| == 0 then [] else [gs[0].day] + Days(gs[1..])
  }

  /** One step of the grouping loop: the sample joins the entry of its day,
      or opens a new entry at the end. */
  function AddSample(gs: seq<Group>, x: Sample): (r: seq<Group>)
    ensures |r| == |gs| + (if x.day in Days(gs) then 0 else 1)
    ensures forall k :: 0 <= k < |gs| ==>
              r[k] == Group(gs[k].day, gs[k].items + (if gs[k].day == x.day then [x] else []))
    ensures x.day !in Days(gs) ==> r[|gs|] == Group(x.day, [x])
    decreases |gs|
  {
    if |gs| == 0 then [Group(x.day, [x])]
    else if gs[0].day == x.day then [Group(x.day, gs[0].items + [x])] + AddSample(gs[1..], x)[..|gs| - 1]
    else [gs[0]] + AddSample(gs[1..], x)
  }

  /** The day dictionary of `get_forecast`: one entry per day in order of
      first appearance, each holding exactly that day's samples in order. */
  function GroupByDay(xs: seq<Sample>): (gs: seq<Group>)
    ensures Days(gs) == DistinctDays(xs)
    ensures forall k :: 0 <= k < |gs| ==> gs[k].items == OfDay(xs, gs[k].day)
    decreases |xs|
  {
    if |xs| == 0 then []
    else
      var gs := GroupByDay(xs[..|xs| - 1]);
      GroupStepDays(xs, gs);
      GroupStepItems(xs, gs);
      AddSample(gs, xs[|xs| - 1])
  }

  lemma GroupStepDays(xs: seq<Sample>, gs: seq<Group>)
    requires |xs| > 0 && Days(gs) == DistinctDays(xs[..|xs| - 1])
    ensures Days(AddSample(gs, xs[|xs| - 1])) == DistinctDays(xs)
  {
    var x := xs[|xs| - 1];
    var r := AddSample(gs, x);
    var ds := Days(gs);
    assert DistinctDays(xs) == if x.day in ds then ds else ds + [x.day];
    if x.day in ds {
      forall k | 0 <= k < |r|
        ensures r[k].day == ds[k]
      {
      }
      DaysAre(r, ds);
    } else {
      var ds' := ds + [x.day];
      forall k | 0 <= k < |r|
        ensures r[k].day == ds'[k]
      {
        if k < |gs| {
          assert ds'[k] == ds[k];
        }
      }
      DaysAre(r, ds');
    }
  }

  /** The day list of groups is fixed by their days, position by position. */
  lemma DaysAre(gs: seq<Group>, ds: seq<int>)
    requires |gs| == |ds| && forall k :: 0 <= k < |gs| ==> gs[k].day == ds[k]
    ensures Days(gs) == ds
  {
  }

  lemma GroupStepItems(xs: seq<Sample>, gs: seq<Group>)
    requires |xs| > 0 && Days(gs) == DistinctDays(xs[..|xs| - 1])
    requires forall k :: 0 <= k < |gs| ==> gs[k].items == OfDay(xs[..|xs| - 1], gs[k].day)
    ensures var r := AddSample(gs, xs[|xs| - 1]);
            forall k :: 0 <= k < |r| ==> r[k].items == OfDay(xs, r[k].day)
  {
    var init := xs[..|xs| - 1];
    var x := xs[|xs| - 1];
    var r := AddSample(gs, x);
    forall k | 0 <= k < |r|
      ensures r[k].items == OfDay(xs, r[k].day)
    {
      if k == |gs| {
        OfDayEmpty(init, x.day);
      }
    }
  }

  /** Every sample lands in the group of its day ... */
  lemma SampleInItsGroup(xs: seq<Sample>, i: int) returns (k: int)
    requires 0 <= i < |xs|
    ensures 0 <= k < |GroupByDay(xs)| && GroupByDay(xs)[k].day == xs[i].day && xs[i] in GroupByDay(xs)[k].items
  {
    var gs := GroupByDay(xs);
    DistinctDaysHas(xs, xs[i].day);
    k :| 0 <= k < |gs| && Days(gs)[k] == xs[i].day;
    OfDayKeepsSamples(xs, xs[i]);
    assert xs[i] in multiset(xs);
    assert xs[i] in OfDay(xs, xs[i].day);
    assert gs[k].day == xs[i].day && xs[i] in gs[k].items;
  }

  /** ... and in no other group. */
  lemma SampleInOneGroup(xs: seq<Sample>, x: Sample, k: int, l: int)
    requires 0 <= k < |GroupByDay(xs)| && 0 <= l < |GroupByDay(xs)|
    requires x in GroupByDay(xs)[k].items && x in GroupByDay(xs)[l].items
    ensures k == l
  {
    var gs := GroupByDay(xs);
    var ds := DistinctDays(xs);
    assert gs[k].day == x.day && gs[l].day == x.day;
    assert ds[k] == Days(gs)[k] && ds[l] == Days(gs)[l];
  }

  lemma GroupsNonEmpty(xs: seq<Sample>, k: int)
    requires 0 <= k < |GroupByDay(xs)|
    ensures |GroupByDay(xs)[k].items| > 0
  {
    var gs := GroupByDay(xs);
    assert Days(gs)[k] in DistinctDays(xs);
    OfDayNonEmpty(xs, gs[k].day);
  }

  // ---------------------------------------------------------------- summaries

  /** Python values as `list.count` compares them: the forecast entries are
      dicts, the weather pairs are tuples, and a tuple never equals a
      dict. */
  datatype PyValue = PyDict(sample: Sample) | PyPair(description: string, icon: string)

  function AsDicts(xs: seq<Sample>): (r: seq<PyValue>)
    ensures |r| == |xs| && forall i :: 0 <= i < |xs| ==> r[i] == PyDict(xs[i])
  {
    if |xs| == 0 then [] else [PyDict(xs[0])] + AsDicts(xs[1..])
  }

  /** `list.count(v)`. */
  function Count(xs: seq<PyValue>, v: PyValue): nat {
    multiset(xs)[v]
  }

  lemma {:induction false} PairNeverCounted(xs: seq<Sample>, d: string, icon: string)
    ensures Count(AsDicts(xs), PyPair(d, icon)) == 0
  {
    assert PyPair(d, icon) !in AsDicts(xs);
  }

  /** Python's `max(xs, key=key)`: the first element whose key is largest. */
  function MaxBy<T>(xs: seq<T>, key: T -> int): (r: T)
    requires |xs| > 0
    ensures r in xs
    ensures forall i :: 0 <= i < |xs| ==> key(xs[i]) <= key(r)
    ensures exists i :: 0 <= i < |xs| && xs[i] == r && forall j :: 0 <= j < i ==> key(xs[j]) < key(r)
  {
    if |xs| == 1 then xs[0]
    else
      var init := xs[..|xs| - 1];
      var m := MaxBy(init, key);
      assert forall i :: 0 <= i < |init| ==> init[i] == xs[i];
      if key(xs[|xs| - 1]) > key(m) then xs[|xs| - 1] else m
  }

  /** Under a key that is the same for every element, `max` gives the first
      element. */
  lemma MaxByConstantKey<T>(xs: seq<T>, key: T -> int, c: int)
    requires |xs| > 0
    requires forall i :: 0 <= i < |xs| ==> key(xs[i]) == c
    ensures MaxBy(xs, key) == xs[0]
  {
    var r := MaxBy(xs, key);
    var i :| 0 <= i < |xs| && xs[i] == r && forall j :: 0 <= j < i ==> key(xs[j]) < key(r);
  }

  function WeatherPairs(xs: seq<Sample>): (r: seq<(string, string)>)
    ensures |r| == |xs| && forall i :: 0 <= i < |xs| ==> r[i] == (xs[i].description, xs[i].icon)
  {
    if |xs| == 0 then [] else [(xs[0].description, xs[0].icon)] + WeatherPairs(xs[1..])
  }

  /** `max(pairs, key=lambda x: items.count(x))` as written: each pair is
      counted among the day's dicts, where it never occurs, so the first
      sample's pair is chosen. */
  function MostCommonWeather(items: seq<Sample>): (r: (string, string))
    requires |items| > 0
    ensures r == (items[0].description, items[0].icon)
  {
    var pairs := WeatherPairs(items);
    var key := (p: (string, string)) => Count(AsDicts(items), PyPair(p.0, p.1));
    forall i | 0 <= i < |pairs|
      ensures key(pairs[i]) == 0
    {
      PairNeverCounted(items, pairs[i].0, pairs[i].1);
    }
    MaxByConstantKey(pairs, key, 0);
    MaxBy(pairs, key)
  }

  /** `item.get("pop", 0)`. */
  function PopOrZero(x: Sample): real { x.pop.GetOr(0.0) }

  function Pops(xs: seq<Sample>): (ps: seq<real>)
    ensures |ps| == |xs| && forall i :: 0 <= i < |xs| ==> ps[i] == PopOrZero(xs[i])
  {
    if |xs| == 0 then [] else [PopOrZero(xs[0])] + Pops(xs[1..])
  }

  /** `ForecastData`. */
  datatype DailySummary = DailySummary(day: int, tempMin: real, tempMax: real,
                                       condition: string, icon: string, precipitation: real)

  /** The summary of one day's samples. */
  function Summarize(g: Group): (s: DailySummary)
    requires |g.items| > 0
    ensures s.day == g.day
    ensures s.tempMin <= s.tempMax
    ensures forall i :: 0 <= i < |g.items| ==> s.tempMin <= g.items[i].temp <= s.tempMax
    ensures s.tempMin in Temps(g.items) && s.tempMax in Temps(g.items)
    ensures s.condition == g.items[0].description && s.icon == g.items[0].icon
    ensures s.precipitation in Pops(g.items)
    ensures forall i :: 0 <= i < |g.items| ==> PopOrZero(g.items[i]) <= s.precipitation
  {
    var temps := Temps(g.items);
    var weather := MostCommonWeather(g.items);
    DailySummary(g.day, MinOf(temps), MaxOf(temps), weather.0, weather.1, MaxOf(Pops(g.items)))
  }

  const MaxForecastDays := 5

  /** The daily summaries of a forecast list: the first five days in order
      of first appearance, each summarizing exactly that day's samples. */
  function DailyForecasts(xs: seq<Sample>): (r: seq<DailySummary>)
    ensures |r| == if |DistinctDays(xs)| < MaxForecastDays then |DistinctDays(xs)| else MaxForecastDays
    ensures forall k :: 0 <= k < |r| ==>
              && r[k].day == DistinctDays(xs)[k]
              && |OfDay(xs, r[k].day)| > 0
              && r[k] == Summarize(Group(r[k].day, OfDay(xs, r[k].day)))
  {
    var gs := Limit(GroupByDay(xs), MaxForecastDays);
    forall k | 0 <= k < |gs|
      ensures |gs[k].items| > 0 && gs[k].day == DistinctDays(xs)[k]
    {
      GroupsNonEmpty(xs, k);
      assert gs[k] == GroupByDay(xs)[k];
      assert Days(GroupByDay(xs))[k] == GroupByDay(xs)[k].day;
    }
    seq(|gs|, k requires 0 <= k < |gs| => Summarize(gs[k]))
  }

  // ---------------------------------------------------------------- requests

  /** The record a daily summary is saved as: the mean of its extremes,
      no feels-like, humidity or wind, and a date range of that one day. */
  function ForecastReading(cityName: string, lat: real, lon: real, s: DailySummary): (r: Reading)
    ensures r.temperature == Some((s.tempMin + s.tempMax) / 2.0)
    ensures s.tempMin <= s.tempMax ==> s.tempMin <= r.temperature.value <= s.tempMax
    ensures r.rangeStart == Some(s.day) && r.rangeEnd == Some(s.day)
    ensures r.feelsLike.None? && r.humidity.None? && r.windSpeed.None?
    ensures r.locationName == cityName && r.latitude == Some(lat) && r.longitude == Some(lon)
    ensures r.condition == Some(s.condition)
  {
    Reading(cityName, Some(lat), Some(lon), Some((s.tempMin + s.tempMax) / 2.0),
            None, None, None, Some(s.condition), Some(s.day), Some(s.day))
  }

  /** Every day the forecast saves is stored with the midpoint of that
      day's lowest and highest temperature, which lies between the two. */
  lemma SavedTemperatureWithinDay(cityName: string, lat: real, lon: real, xs: seq<Sample>, k: int)
    requires 0 <= k < |DailyForecasts(xs)|
    ensures var s := DailyForecasts(xs)[k];
            var t := ForecastReading(cityName, lat, lon, s).temperature;
            && t == Some((s.tempMin + s.tempMax) / 2.0)
            && s.tempMin <= t.value <= s.tempMax
            && s.tempMin in Temps(OfDay(xs, s.day)) && s.tempMax in Temps(OfDay(xs, s.day))
  {
  }

  /** Saves the readings one after another, each in a commit of its own:
      record k is stamped with the k-th clock reading, `nows[k]`. */
  function SaveAll(st: Store, rs: seq<Reading>, nows: seq<int>): (r: Store)
    requires Valid(st) && |nows| == |rs|
    ensures Valid(r)
    ensures |r.weather| == |st.weather| + |rs| && r.weather[..|st.weather|] == st.weather
    ensures forall k :: 0 <= k < |rs| ==> r.weather[|st.weather| + k].value == RecordOf(rs[k], nows[k])
    ensures r.history == st.history && r.settings == st.settings
    decreases |rs|
  {
    if |rs| == 0 then st
    else
      var st1 := SaveWeatherData(st, rs[0], nows[0]).0;
      assert st1.weather == Append(st.weather, NextId(st.weather), RecordOf(rs[0], nows[0]));
      var r := SaveAll(st1, rs[1..], nows[1..]);
      assert r.weather[..|st.weather|] == r.weather[..|st1.weather|][..|st.weather|];
      assert forall k :: 1 <= k < |rs| ==> rs[k] == rs[1..][k - 1] && nows[k] == nows[1..][k - 1];
      r
  }

  function ForecastReadings(cityName: string, lat: real, lon: real, ss: seq<DailySummary>): (rs: seq<Reading>)
    ensures |rs| == |ss| && forall k :: 0 <= k < |ss| ==> rs[k] == ForecastReading(cityName, lat, lon, ss[k])
  {
    if |ss| == 0 then [] else [ForecastReading(cityName, lat, lon, ss[0])] + ForecastReadings(cityName, lat, lon, ss[1..])
  }

  /** Saves one record per daily summary, in order; `save_weather_data`
      commits each one separately, so the k-th record carries the k-th
      clock reading. */
  function SaveForecasts(st: Store, cityName: string, lat: real, lon: real, ss: seq<DailySummary>, nows: seq<int>): (r: Store)
    requires Valid(st) && |nows| == |ss|
    ensures Valid(r)
    ensures |r.weather| == |st.weather| + |ss| && r.weather[..|st.weather|] == st.weather
    ensures forall k :: 0 <= k < |ss| ==>
              r.weather[|st.weather| + k].value == RecordOf(ForecastReading(cityName, lat, lon, ss[k]), nows[k])
  {
    SaveAll(st, ForecastReadings(cityName, lat, lon, ss), nows)
  }

  datatype Forecast = Forecast(summaries: seq<DailySummary>, store: Store)

  /** `get_forecast` on a decoded answer (`city.name` and the list of
      samples): out-of-range coordinates are refused before anything else;
      otherwise the daily summaries, each also saved as a record. `nows`
      holds the clock readings of the (at most five) saves, in order; the
      k-th save uses `nows[k]`. */
  function GetForecast(lat: real, lon: real, cityName: string, xs: seq<Sample>, st: Store, nows: seq<int>): (r: Result<Forecast, string>)
    requires Valid(st) && |nows| == MaxForecastDays
    ensures r.Err? <==> !InRange(lat, lon)
    ensures r.Err? ==> r.error == InvalidCoordinatesMessage
    ensures r.Ok? ==> r.value.summaries == DailyForecasts(xs) && |r.value.summaries| <= MaxForecastDays
    ensures r.Ok? ==> r.value.store == SaveForecasts(st, cityName, lat, lon, r.value.summaries, nows[..|r.value.summaries|])
  {
    if !InRange(lat, lon) then Err(InvalidCoordinatesMessage)
    else
      var ss := DailyForecasts(xs);
      Ok(Forecast(ss, SaveForecasts(st, cityName, lat, lon, ss, nows[..|ss|])))
  }

  /** The decoded answer of the current-weather endpoint. */
  datatype Current = Current(temp: real, feelsLike: real, humidity: int, windSpeed: real,
                             description: string, icon: string, dt: int, name: string)

  /** `WeatherData`. */
  datatype WeatherData = WeatherData(temperature: real, feelsLike: real, humidity: int, windSpeed: real,
                                     condition: string, icon: string, timestamp: int,
                                     locationName: string, latitude: real, longitude: real)

  function CurrentReading(w: WeatherData): Reading {
    Reading(w.locationName, Some(w.latitude), Some(w.longitude), Some(w.temperature), Some(w.feelsLike),
            Some(w.humidity), Some(w.windSpeed), Some(w.condition), None, None)
  }

  datatype Observation = Observation(weather: WeatherData, store: Store)

  /** `get_current_weather` on a decoded answer: refused for out-of-range
      coordinates; otherwise the reading at the asked coordinates, saved as
      one new record without a date range. */
  function GetCurrentWeather(lat: real, lon: real, data: Current, st: Store, now: int): (r: Result<Observation, string>)
    requires Valid(st)
    ensures r.Err? <==> !InRange(lat, lon)
    ensures r.Err? ==> r.error == InvalidCoordinatesMessage
    ensures r.Ok? ==> var w := r.value.weather;
              && w.latitude == lat && w.longitude == lon && w.locationName == data.name
              && w.temperature == data.temp && w.condition == data.description && w.timestamp == data.dt
              && w.feelsLike == data.feelsLike && w.humidity == data.humidity && w.windSpeed == data.windSpeed
              && w.icon == data.icon
    ensures r.Ok? ==> Valid(r.value.store)
    ensures r.Ok? ==> exists id: nat ::
              && id !in ToMap(st.weather)
              && ToMap(r.value.store.weather) == ToMap(st.weather)[id := RecordOf(CurrentReading(r.value.weather), now)]
  {
    if !InRange(lat, lon) then Err(InvalidCoordinatesMessage)
    else
      var w := WeatherData(data.temp, data.feelsLike, data.humidity, data.windSpeed, data.description,
                           data.icon, data.dt, data.name, lat, lon);
      var (st', id) := SaveWeatherData(st, CurrentReading(w), now);
      Ok(Observation(w, st'))
  }

  /** The refusal does not depend on the answer: no request is needed to
      reach it. */
  lemma GuardPrecedesRequests(lat: real, lon: real, a: Current, b: Current, city: string,
                              xs: seq<Sample>, ys: seq<Sample>, st: Store, now: int, nows: seq<int>)
    requires Valid(st) && !InRange(lat, lon) && |nows| == MaxForecastDays
    ensures GetCurrentWeather(lat, lon, a, st, now) == GetCurrentWeather(lat, lon, b, st, now)
    ensures GetForecast(lat, lon, city, xs, st, nows) == GetForecast(lat, lon, city, ys, st, nows)
  {
  }

  /** One geocoder candidate. */
  datatype Candidate = Candidate(lat: real, lon: real, name: Option<string>)

  /** `geocode_location` on a decoded answer: the first candidate's
      coordinates, recorded in the location history under the query and the
      candidate's name; no candidate gives `None` and records nothing. */
  function GeocodeLocation(location: string, candidates: seq<Candidate>, st: Store, now: int): (r: (Option<(real, real)>, Store))
    requires Valid(st)
    ensures Valid(r.1)
    ensures r.0.None? <==> |candidates| == 0
    ensures r.0.Some? ==> r.0.value == (candidates[0].lat, candidates[0].lon)
    ensures |candidates| == 0 ==> r.1 == st
    ensures |candidates| > 0 ==>
              exists id: nat :: id !in ToMap(st.history)
                && ToMap(r.1.history) == ToMap(st.history)[id := HistoryEntry(location, candidates[0].name,
                                                               Some(candidates[0].lat), Some(candidates[0].lon), now)]
    ensures r.1.weather == st.weather && r.1.settings == st.settings
  {
    if |candidates| == 0 then (None, st)
    else
      var c := candidates[0];
      var (st', id) := AddLocationHistory(st, location, c.name, Some(c.lat), Some(c.lon), now);
      (Some((c.lat, c.lon)), st')
  }
}
