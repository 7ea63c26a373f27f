/** `DatabaseOperations` of src/database/operations.py over the three
    tables of src/database/models.py: weather records, location history and
    user settings. A store is a value; every operation returns the store
    after its commit. Clock readings (`datetime.utcnow` defaults) are
    parameters. */
module WeatherStore {
  import opened Common
  import opened Tables

  /** A `weather_records` row without its key. Nullable columns are options;
      dates are day numbers and `timestamp` a clock reading. */
  datatype WeatherRecord = WeatherRecord(
    locationName: string,
    latitude: Option<real>,
    longitude: Option<real>,
    timestamp: int,
    temperature: Option<real>,
    feelsLike: Option<real>,
    humidity: Option<int>,
    windSpeed: Option<real>,
    condition: Option<string>,
    rangeStart: Option<int>,
    rangeEnd: Option<int>)

  /** The arguments of `save_weather_data`. */
  datatype Reading = Reading(
    locationName: string,
    latitude: Option<real>,
    longitude: Option<real>,
    temperature: Option<real>,
    feelsLike: Option<real>,
    humidity: Option<int>,
    windSpeed: Option<real>,
    condition: Option<string>,
    rangeStart: Option<int>,
    rangeEnd: Option<int>)

  /** A `location_history` row without its key. */
  datatype HistoryEntry = HistoryEntry(query: string, resolvedName: Option<string>,
                                       latitude: Option<real>, longitude: Option<real>, timestamp: int)

  /** A `user_settings` row without its key. */
  datatype Setting = Setting(key: string, value: string, lastUpdated: int)

  datatype Store = Store(weather: seq<Row<WeatherRecord>>,
                         history: seq<Row<HistoryEntry>>,
                         settings: seq<Row<Setting>>)

  /** `setting_key` is declared unique. */
  predicate KeysUnique(rows: seq<Row<Setting>>) {
    forall i, j :: 0 <= i < j < |rows| ==> rows[i].value.key != rows[j].value.key
  }

  predicate Valid(st: Store) {
    IdsAscending(st.weather) && IdsAscending(st.history) && IdsAscending(st.settings) && KeysUnique(st.settings)
  }

  const EmptyStore := Store([], [], [])

  lemma EmptyStoreValid()
    ensures Valid(EmptyStore) && ToMap(EmptyStore.weather) == map[]
  {
  }

  /** The key SQLite gives a new row of a table declared without
      AUTOINCREMENT: one more than the largest key in use. */
  function NextId<T>(rows: seq<Row<T>>): (id: nat)
    ensures id > MaxId(rows) && id !in ToMap(rows)
  {
    MaxId(rows) + 1
  }

  // ---------------------------------------------------------------- weather records

  function RecordOf(r: Reading, now: int): WeatherRecord {
    WeatherRecord(r.locationName, r.latitude, r.longitude, now, r.temperature, r.feelsLike,
                  r.humidity, r.windSpeed, r.condition, r.rangeStart, r.rangeEnd)
  }

  /** `save_weather_data`: one new record under a fresh key, holding the
      given values and the current time; nothing else changes. */
  function SaveWeatherData(st: Store, r: Reading, now: int): (res: (Store, nat))
    requires Valid(st)
    ensures Valid(res.0)
    ensures res.1 !in ToMap(st.weather)
    ensures ToMap(res.0.weather) == ToMap(st.weather)[res.1 := RecordOf(r, now)]
    ensures res.0.history == st.history && res.0.settings == st.settings
  {
    var id := NextId(st.weather);
    (st.(weather := Append(st.weather, id, RecordOf(r, now))), id)
  }

  /** The stored record carries exactly the values passed in. */
  lemma SavedRecordHoldsArguments(st: Store, r: Reading, now: int)
    requires Valid(st)
    ensures var (st', id) := SaveWeatherData(st, r, now);
            var rec := Find(st'.weather, id).value;
            && Find(st'.weather, id).Some?
            && rec.locationName == r.locationName && rec.latitude == r.latitude
            && rec.longitude == r.longitude && rec.temperature == r.temperature
            && rec.feelsLike == r.feelsLike && rec.humidity == r.humidity
            && rec.windSpeed == r.windSpeed && rec.condition == r.condition
            && rec.rangeStart == r.rangeStart && rec.rangeEnd == r.rangeEnd
            && rec.timestamp == now
  {
  }

  /** `and_(date_range_start <= end, date_range_end >= start)` with SQL's
      NULL comparisons, which never hold. */
  predicate Overlaps(rec: WeatherRecord, startDay: int, endDay: int) {
    && rec.rangeStart.Some? && rec.rangeStart.value <= endDay
    && rec.rangeEnd.Some? && rec.rangeEnd.value >= startDay
  }

  /** The filter `get_weather_history` builds. The `is not None` test in
      its conditional expression is applied to a column object, never to a
      row value, so it always holds: the overlap test is the filter
      whenever both dates are given, and the timestamp fallback is never
      used. */
  predicate HistoryFilter(rec: WeatherRecord, locationName: string, startDay: Option<int>, endDay: Option<int>) {
    && rec.locationName == locationName
    && (startDay.Some? && endDay.Some? ==> Overlaps(rec, startDay.value, endDay.value))
  }

  function StampOf(rec: WeatherRecord): int { rec.timestamp }

  /** `get_weather_history`: the matching records, newest first. */
  function GetWeatherHistory(st: Store, locationName: string, startDay: Option<int>, endDay: Option<int>): (r: seq<WeatherRecord>)
    ensures forall i :: 0 <= i < |r| ==> r[i].locationName == locationName
    ensures startDay.Some? && endDay.Some? ==> forall i :: 0 <= i < |r| ==> Overlaps(r[i], startDay.value, endDay.value)
    ensures SortedDesc(r, StampOf)
    ensures multiset(r) == multiset(Where(Values(st.weather), rec => HistoryFilter(rec, locationName, startDay, endDay)))
  {
    var p := rec => HistoryFilter(rec, locationName, startDay, endDay);
    var matching := Where(Values(st.weather), p);
    var r := SortDesc(matching, StampOf);
    forall i | 0 <= i < |r|
      ensures p(r[i])
    {
      assert r[i] in multiset(matching);
    }
    r
  }

  /** Every stored record that matches the query is returned, as often as
      it is stored. */
  lemma HistoryIsComplete(st: Store, locationName: string, startDay: Option<int>, endDay: Option<int>, rec: WeatherRecord)
    requires HistoryFilter(rec, locationName, startDay, endDay)
    ensures multiset(GetWeatherHistory(st, locationName, startDay, endDay))[rec] == multiset(Values(st.weather))[rec]
  {
    WhereKeepsMultiset(Values(st.weather), rec => HistoryFilter(rec, locationName, startDay, endDay), rec);
  }

  /** A record without an explicit date range is never returned for a
      query with both dates, whatever its timestamp. */
  lemma UndatedRecordsExcluded(st: Store, locationName: string, startDay: int, endDay: int, rec: WeatherRecord)
    requires rec.rangeStart.None? || rec.rangeEnd.None?
    ensures rec !in GetWeatherHistory(st, locationName, Some(startDay), Some(endDay))
  {
  }

  /** One `name=value` keyword of `update_weather_record`. The names are
      the record's column attributes; any other name fails `hasattr` and is
      skipped. */
  datatype FieldUpdate =
    | SetLocationName(name: string)
    | SetLatitude(lat: Option<real>)
    | SetLongitude(lon: Option<real>)
    | SetTimestamp(stamp: int)
    | SetTemperature(temperature: Option<real>)
    | SetFeelsLike(feelsLike: Option<real>)
    | SetHumidity(humidity: Option<int>)
    | SetWindSpeed(windSpeed: Option<real>)
    | SetCondition(condition: Option<string>)
    | SetRangeStart(rangeStart: Option<int>)
    | SetRangeEnd(rangeEnd: Option<int>)
    | NoSuchAttribute(attribute: string)

  datatype Field = LocationName | Latitude | Longitude | Timestamp | Temperature | FeelsLike
                 | Humidity | WindSpeed | Condition | RangeStart | RangeEnd

  /** The column an update names, if it names one. */
  function FieldOf(u: FieldUpdate): Option<Field> {
    match u
    case SetLocationName(_) => Some(LocationName)
    case SetLatitude(_) => Some(Latitude)
    case SetLongitude(_) => Some(Longitude)
    case SetTimestamp(_) => Some(Timestamp)
    case SetTemperature(_) => Some(Temperature)
    case SetFeelsLike(_) => Some(FeelsLike)
    case SetHumidity(_) => Some(Humidity)
    case SetWindSpeed(_) => Some(WindSpeed)
    case SetCondition(_) => Some(Condition)
    case SetRangeStart(_) => Some(RangeStart)
    case SetRangeEnd(_) => Some(RangeEnd)
    case NoSuchAttribute(_) => None
  }

  /** The value a record holds in one column, spelled as the update that
      would set it. */
  function Get(rec: WeatherRecord, f: Field): (u: FieldUpdate)
    ensures FieldOf(u) == Some(f)
  {
    match f
    case LocationName => SetLocationName(rec.locationName)
    case Latitude => SetLatitude(rec.latitude)
    case Longitude => SetLongitude(rec.longitude)
    case Timestamp => SetTimestamp(rec.timestamp)
    case Temperature => SetTemperature(rec.temperature)
    case FeelsLike => SetFeelsLike(rec.feelsLike)
    case Humidity => SetHumidity(rec.humidity)
    case WindSpeed => SetWindSpeed(rec.windSpeed)
    case Condition => SetCondition(rec.condition)
    case RangeStart => SetRangeStart(rec.rangeStart)
    case RangeEnd => SetRangeEnd(rec.rangeEnd)
  }

  /** `if hasattr(record, key): setattr(record, key, value)`. */
  function Apply(rec: WeatherRecord, u: FieldUpdate): (r: WeatherRecord)
    ensures FieldOf(u).Some? ==> Get(r, FieldOf(u).value) == u
    ensures forall f :: Some(f) != FieldOf(u) ==> Get(r, f) == Get(rec, f)
  {
    match u
    case SetLocationName(x) => rec.(locationName := x)
    case SetLatitude(x) => rec.(latitude := x)
    case SetLongitude(x) => rec.(longitude := x)
    case SetTimestamp(x) => rec.(timestamp := x)
    case SetTemperature(x) => rec.(temperature := x)
    case SetFeelsLike(x) => rec.(feelsLike := x)
    case SetHumidity(x) => rec.(humidity := x)
    case SetWindSpeed(x) => rec.(windSpeed := x)
    case SetCondition(x) => rec.(condition := x)
    case SetRangeStart(x) => rec.(rangeStart := x)
    case SetRangeEnd(x) => rec.(rangeEnd := x)
    case NoSuchAttribute(_) => rec
  }

  /** The last update among `us` that names column `f`. */
  function LastFor(us: seq<FieldUpdate>, f: Field): (r: Option<FieldUpdate>)
    ensures r.Some? ==> r.value in us && FieldOf(r.value) == Some(f)
    ensures r.None? ==> forall i :: 0 <= i < |us| ==> FieldOf(us[i]) != Some(f)
  {
    if |us| == 0 then None
    else if FieldOf(us[|us| - 1]) == Some(f) then Some(us[|us| - 1])
    else LastFor(us[..|us| - 1], f)
  }

  /** The keyword updates applied in order. */
  function ApplyAll(rec: WeatherRecord, us: seq<FieldUpdate>): (r: WeatherRecord)
    ensures forall f :: Get(r, f) == LastFor(us, f).GetOr(Get(rec, f))
  {
    if |us| == 0 then rec else Apply(ApplyAll(rec, us[..|us| - 1]), us[|us| - 1])
  }

  /** `update_weather_record`: `None` for an unknown key; otherwise the
      record with the named columns set, every other column and every other
      record unchanged. */
  function UpdateWeatherRecord(st: Store, id: nat, us: seq<FieldUpdate>): (res: (Store, Option<WeatherRecord>))
    requires Valid(st)
    ensures Valid(res.0)
    ensures res.1.None? <==> id !in ToMap(st.weather)
    ensures res.1.None? ==> res.0 == st
    ensures res.1.Some? ==> ToMap(res.0.weather) == ToMap(st.weather)[id := res.1.value]
    ensures res.1.Some? ==> forall f :: Get(res.1.value, f) == LastFor(us, f).GetOr(Get(ToMap(st.weather)[id], f))
    ensures res.0.history == st.history && res.0.settings == st.settings
  {
    match Find(st.weather, id)
    case None => (st, None)
    case Some(rec) =>
      var updated := ApplyAll(rec, us);
      (st.(weather := Replace(st.weather, id, updated)), Some(updated))
  }

  /** A column no keyword names keeps its value. */
  lemma UpdateKeepsUnnamedColumns(st: Store, id: nat, us: seq<FieldUpdate>, f: Field)
    requires Valid(st) && id in ToMap(st.weather)
    requires forall i :: 0 <= i < |us| ==> FieldOf(us[i]) != Some(f)
    ensures Get(UpdateWeatherRecord(st, id, us).1.value, f) == Get(ToMap(st.weather)[id], f)
  {
  }

  /** `delete_weather_record`: true iff the key was in use; afterwards it
      is not, and nothing else changes. */
  function DeleteWeatherRecord(st: Store, id: nat): (res: (Store, bool))
    requires Valid(st)
    ensures Valid(res.0)
    ensures res.1 <==> id in ToMap(st.weather)
    ensures ToMap(res.0.weather) == ToMap(st.weather) - {id}
    ensures id !in ToMap(res.0.weather)
    ensures res.0.history == st.history && res.0.settings == st.settings
  {
    match Find(st.weather, id)
    case None => (st, false)
    case Some(_) => (st.(weather := Remove(st.weather, id)), true)
  }

  /** Without AUTOINCREMENT a key can come back: once the newest record is
      deleted, the next save gets a key no larger than the deleted one (the
      same key when the keys in use were contiguous). Keys issued by a save
      are positive. */
  lemma {:induction false} NewestKeyReissued(st: Store, r: Reading, now: int)
    requires Valid(st) && |st.weather| > 0 && st.weather[|st.weather| - 1].id > 0
    ensures var id := st.weather[|st.weather| - 1].id;
            SaveWeatherData(DeleteWeatherRecord(st, id).0, r, now).1 <= id
  {
    var n := |st.weather|;
    var id := st.weather[n - 1].id;
    ToMapKeys(st.weather, id);
    var rows := Remove(st.weather, id);
    assert DeleteWeatherRecord(st, id).0.weather == rows;
    forall i | 0 <= i < |rows|
      ensures rows[i].id <= id - 1
    {
      ToMapKeys(rows, rows[i].id);
      var j :| 0 <= j < n && st.weather[j] == rows[i];
    }
    MaxIdLeast(rows, id - 1);
  }

  // ---------------------------------------------------------------- location history

  /** `add_location_history`. */
  function AddLocationHistory(st: Store, query: string, resolvedName: Option<string>,
                              lat: Option<real>, lon: Option<real>, now: int): (res: (Store, nat))
    requires Valid(st)
    ensures Valid(res.0)
    ensures res.1 !in ToMap(st.history)
    ensures ToMap(res.0.history) == ToMap(st.history)[res.1 := HistoryEntry(query, resolvedName, lat, lon, now)]
    ensures res.0.weather == st.weather && res.0.settings == st.settings
  {
    var id := NextId(st.history);
    (st.(history := Append(st.history, id, HistoryEntry(query, resolvedName, lat, lon, now))), id)
  }

  function EntryStamp(e: HistoryEntry): int { e.timestamp }

  /** `get_location_history(limit)`: the newest entries first, at most
      `limit` of them (no bound for a negative limit, as SQLite reads it). */
  function GetLocationHistory(st: Store, limit: int): (r: seq<HistoryEntry>)
    ensures limit >= 0 ==> |r| == if limit < |st.history| then limit else |st.history|
    ensures limit < 0 ==> |r| == |st.history|
    ensures limit >= |st.history| || limit < 0 ==> multiset(r) == multiset(Values(st.history))
    ensures multiset(r) <= multiset(Values(st.history))
    ensures SortedDesc(r, EntryStamp)
    ensures forall i :: 0 <= i < |r| ==> r[i] in Values(st.history)
  {
    var sorted := SortDesc(Values(st.history), EntryStamp);
    var r := Limit(sorted, limit);
    LimitKeepsMultiset(sorted, limit);
    forall i | 0 <= i < |r|
      ensures r[i] in Values(st.history)
    {
      assert r[i] == sorted[i];
      assert sorted[i] in multiset(sorted);
    }
    r
  }

  /** The entries returned are the newest ones: none left out is newer
      than one returned. */
  lemma HistoryKeepsNewest(st: Store, limit: int, i: int, j: int)
    requires 0 <= i < |GetLocationHistory(st, limit)| <= j < |st.history|
    ensures EntryStamp(GetLocationHistory(st, limit)[i]) >= EntryStamp(SortDesc(Values(st.history), EntryStamp)[j])
  {
  }

  /** `clear_location_history`: empties the history and answers true. */
  function ClearLocationHistory(st: Store): (res: (Store, bool))
    requires Valid(st)
    ensures Valid(res.0) && res.1
    ensures ToMap(res.0.history) == map[]
    ensures GetLocationHistory(res.0, 10) == []
    ensures res.0.weather == st.weather && res.0.settings == st.settings
  {
    (st.(history := []), true)
  }

  // ---------------------------------------------------------------- settings

  /** `query(UserSetting).filter(setting_key == key).first()`. */
  function FindSetting(rows: seq<Row<Setting>>, key: string): (r: Option<Row<Setting>>)
    ensures r.Some? ==> r.value in rows && r.value.value.key == key
    ensures r.None? <==> forall i :: 0 <= i < |rows| ==> rows[i].value.key != key
  {
    if |rows| == 0 then None
    else if rows[0].value.key == key then Some(rows[0])
    else FindSetting(rows[1..], key)
  }

  /** Under unique keys the row found is the one row with that key. */
  lemma FoundSettingIsUnique(rows: seq<Row<Setting>>, i: int)
    requires KeysUnique(rows) && IdsAscending(rows) && 0 <= i < |rows|
    ensures FindSetting(rows, rows[i].value.key) == Some(rows[i])
  {
    var r := FindSetting(rows, rows[i].value.key).value;
    var j :| 0 <= j < |rows| && rows[j] == r;
    if j != i {
      assert rows[i].value.key == rows[j].value.key;
    }
  }

  /** `get_setting`. */
  function GetSetting(st: Store, key: string): (r: Option<string>)
    ensures r.Some? <==> exists i :: 0 <= i < |st.settings| && st.settings[i].value.key == key
  {
    match FindSetting(st.settings, key)
    case None => None
    case Some(row) => Some(row.value.value)
  }

  /** `set_setting`: an upsert. The existing row of that key is rewritten
      in place, or a new row is added when there is none. */
  function SetSetting(st: Store, key: string, value: string, now: int): (res: (Store, Setting))
    requires Valid(st)
    ensures Valid(res.0)
    ensures res.1 == Setting(key, value, now)
    ensures GetSetting(res.0, key) == Some(value)
    ensures FindSetting(res.0.settings, key).Some? && FindSetting(res.0.settings, key).value.value == res.1
    ensures FindSetting(st.settings, key).Some? ==>
              FindSetting(res.0.settings, key).value.id == FindSetting(st.settings, key).value.id
    ensures FindSetting(st.settings, key).None? ==> FindSetting(res.0.settings, key).value.id == NextId(st.settings)
    ensures forall k :: k != key ==> GetSetting(res.0, k) == GetSetting(st, k)
    ensures res.0.weather == st.weather && res.0.history == st.history
  {
    var s := Setting(key, value, now);
    match FindSetting(st.settings, key)
    case Some(row) =>
      var rows := Replace(st.settings, row.id, s);
      ReplaceSettingKeeps(st.settings, row, s);
      (st.(settings := rows), s)
    case None =>
      var rows := Append(st.settings, NextId(st.settings), s);
      AppendSettingKeeps(st.settings, NextId(st.settings), s);
      (st.(settings := rows), s)
  }

  lemma ReplaceSettingKeeps(rows: seq<Row<Setting>>, row: Row<Setting>, s: Setting)
    requires IdsAscending(rows) && KeysUnique(rows)
    requires row in rows && row.value.key == s.key
    ensures var r := Replace(rows, row.id, s);
            && KeysUnique(r)
            && FindSetting(r, s.key) == Some(Row(row.id, s))
            && forall k :: k != s.key ==> FindSetting(r, k) == FindSetting(rows, k)
  {
    var i :| 0 <= i < |rows| && rows[i] == row;
    ReplaceAt(rows, i, s);
    var r := Replace(rows, row.id, s);
    FoundSettingIsUnique(r, i);
    forall k | k != s.key
      ensures FindSetting(r, k) == FindSetting(rows, k)
    {
      ReplaceSettingOther(rows, i, s, k);
    }
  }

  /** Rewriting the row of one key leaves the lookup of every other key
      as it was. */
  lemma ReplaceSettingOther(rows: seq<Row<Setting>>, i: int, s: Setting, k: string)
    requires IdsAscending(rows) && KeysUnique(rows)
    requires 0 <= i < |rows| && rows[i].value.key == s.key && k != s.key
    ensures FindSetting(Replace(rows, rows[i].id, s), k) == FindSetting(rows, k)
  {
    ReplaceAt(rows, i, s);
    FindSettingPointwise(rows, Replace(rows, rows[i].id, s), k);
  }

  /** Replacing row `i` by a record of the same key changes that row only. */
  lemma ReplaceAt(rows: seq<Row<Setting>>, i: int, s: Setting)
    requires IdsAscending(rows) && KeysUnique(rows)
    requires 0 <= i < |rows| && rows[i].value.key == s.key
    ensures var r := Replace(rows, rows[i].id, s);
            && |r| == |rows|
            && r[i] == Row(rows[i].id, s)
            && (forall j :: 0 <= j < |r| && j != i ==> r[j] == rows[j])
            && KeysUnique(r)
  {
    var r := Replace(rows, rows[i].id, s);
    forall j | 0 <= j < |r| && j != i
      ensures r[j] == rows[j]
    {
      assert rows[j].id != rows[i].id;
    }
  }

  /** Two tables that agree on every row whose key is `k`, and on where such
      rows are, find the same row for `k`. */
  lemma {:induction false} FindSettingPointwise(a: seq<Row<Setting>>, b: seq<Row<Setting>>, k: string)
    requires |a| == |b|
    requires forall i :: 0 <= i < |a| ==> (a[i].value.key == k || b[i].value.key == k) ==> a[i] == b[i]
    ensures FindSetting(a, k) == FindSetting(b, k)
    decreases |a|
  {
    if |a| > 0 {
      FindSettingPointwise(a[1..], b[1..], k);
    }
  }

  lemma AppendSettingKeeps(rows: seq<Row<Setting>>, id: nat, s: Setting)
    requires IdsAscending(rows) && KeysUnique(rows) && id > MaxId(rows)
    requires FindSetting(rows, s.key).None?
    ensures var r := Append(rows, id, s);
            && KeysUnique(r)
            && FindSetting(r, s.key) == Some(Row(id, s))
            && forall k :: k != s.key ==> FindSetting(r, k) == FindSetting(rows, k)
  {
    var r := Append(rows, id, s);
    FoundSettingIsUnique(r, |rows|);
    forall k | k != s.key
      ensures FindSetting(r, k) == FindSetting(rows, k)
    {
      FindSettingAppend(rows, Row(id, s), k);
    }
  }

  lemma {:induction false} FindSettingAppend(rows: seq<Row<Setting>>, row: Row<Setting>, k: string)
    requires row.value.key != k
    ensures FindSetting(rows + [row], k) == FindSetting(rows, k)
    decreases |rows|
  {
    if |rows| > 0 {
      assert (rows + [row])[1..] == rows[1..] + [row];
      FindSettingAppend(rows[1..], row, k);
    } else {
      assert FindSetting([row][1..], k) == None;
    }
  }

  /** `delete_setting`: true iff the key was set; afterwards it is not, and
      other keys are untouched. */
  function DeleteSetting(st: Store, key: string): (res: (Store, bool))
    requires Valid(st)
    ensures Valid(res.0)
    ensures res.1 <==> GetSetting(st, key).Some?
    ensures GetSetting(res.0, key).None?
    ensures forall k :: k != key ==> GetSetting(res.0, k) == GetSetting(st, k)
    ensures res.0.weather == st.weather && res.0.history == st.history
  {
    match FindSetting(st.settings, key)
    case None => (st, false)
    case Some(row) =>
      RemoveSettingKeeps(st.settings, row);
      (st.(settings := Remove(st.settings, row.id)), true)
  }

  lemma RemoveSettingKeeps(rows: seq<Row<Setting>>, row: Row<Setting>)
    requires IdsAscending(rows) && KeysUnique(rows) && row in rows
    ensures var r := Remove(rows, row.id);
            && KeysUnique(r)
            && FindSetting(r, row.value.key).None?
            && forall k :: k != row.value.key ==> FindSetting(r, k) == FindSetting(rows, k)
  {
    RemoveSettingFacts(rows, row);
  }

  lemma RemoveSettingFacts(rows: seq<Row<Setting>>, row: Row<Setting>)
    requires IdsAscending(rows) && KeysUnique(rows) && row in rows
    ensures var r := Remove(rows, row.id);
            && KeysUnique(r)
            && (forall i :: 0 <= i < |r| ==> r[i].value.key != row.value.key)
            && forall k :: k != row.value.key ==> FindSetting(r, k) == FindSetting(rows, k)
  {
    var i :| 0 <= i < |rows| && rows[i] == row;
    RemoveAt(rows, i);
    DropKeepsKeysUnique(rows, i);
    SplitAt(rows, i);
    forall k | k != row.value.key
      ensures FindSetting(rows[..i] + rows[i + 1..], k) == FindSetting(rows, k)
    {
      FindSettingSkip(rows[..i], row, rows[i + 1..], k);
    }
  }

  /** Dropping row `i` keeps keys unique and leaves no row with its key. */
  lemma DropKeepsKeysUnique(rows: seq<Row<Setting>>, i: int)
    requires KeysUnique(rows) && 0 <= i < |rows|
    ensures var r := rows[..i] + rows[i + 1..];
            && KeysUnique(r)
            && forall j :: 0 <= j < |r| ==> r[j].value.key != rows[i].value.key
  {
    var r := rows[..i] + rows[i + 1..];
    forall a, b | 0 <= a < b < |r|
      ensures r[a].value.key != r[b].value.key
    {
      var a' := if a < i then a else a + 1;
      var b' := if b < i then b else b + 1;
      assert r[a] == rows[a'] && r[b] == rows[b'];
    }
    forall j | 0 <= j < |r|
      ensures r[j].value.key != rows[i].value.key
    {
      var j' := if j < i then j else j + 1;
      assert r[j] == rows[j'];
    }
  }

  /** A row whose key differs from `k` does not affect the search for `k`. */
  lemma {:induction false} FindSettingSkip(a: seq<Row<Setting>>, row: Row<Setting>, b: seq<Row<Setting>>, k: string)
    requires row.value.key != k
    ensures FindSetting(a + [row] + b, k) == FindSetting(a + b, k)
    decreases |a|
  {
    if |a| == 0 {
      assert [row] + b == a + [row] + b;
      assert (a + [row] + b)[1..] == b;
      assert a + b == b;
    } else {
      assert (a + [row] + b)[1..] == a[1..] + [row] + b;
      assert (a + b)[1..] == a[1..] + b;
      FindSettingSkip(a[1..], row, b, k);
    }
  }

  /** Writing then reading a setting gives the value back; deleting it
      makes it read as absent. */
  lemma SettingRoundTrip(st: Store, key: string, value: string, now: int)
    requires Valid(st)
    ensures var st' := SetSetting(st, key, value, now).0;
            && GetSetting(st', key) == Some(value)
            && GetSetting(DeleteSetting(st', key).0, key).None?
            && DeleteSetting(st', key).1
  {
  }
}
