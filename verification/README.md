# Weather app core in Dafny

A model of the logic of a small weather application (a Flask back end and a
PyQt desktop client, both written in Python). It covers:

- the classification and normalisation of typed location texts:
  - `LocationValidator`;
  - `parse_location_input` and its ZIP and city checks;
  - the desktop input widget's coordinate parser.
- the forecast date window:
  - `DateRangeValidator`;
  - the back end's own `validate_date_range`.
- the two forecast aggregations:
  - the desktop service groups the samples by calendar day in a dictionary, then summarises at most five days;
  - the back-end service closes a day each time the date changes from one sample to the next.
- the request-spacing rate limiter and the decisions `get_location_media` takes.
- the two record stores:
  - the SQLite `weather_queries` table of the back end;
  - the SQLAlchemy `DatabaseOperations` over weather records, location history and user settings.
- the API error taxonomy and its response envelopes.

Every network call, clock reading and database session becomes a parameter.

- Decoded provider answers are values.
- The current time is an argument.
- A store is a value that each operation returns after its commit.
- Regular expressions are written as deterministic predicates over `seq<char>`. A lemma per pattern shows the predicate agrees with Python's `re.match` reading of `^...$`, in which `$` also matches before one final newline.
- Floating-point values are exact reals.

Behaviour of the code that its names, comments or docstrings do not suggest:

- `update_weather_record` (src/database/operations.py:84-92) sets every keyword that names an attribute of the record, through `hasattr`/`setattr`, whatever the column (`WeatherStore.UpdateWeatherRecord`, `WeatherStore.ApplyAll`).
- The variable `most_common_weather` (src/core/weather_service.py:139-143) always holds the first sample's (description, icon) pair. `items.count(x)` compares a tuple with dictionaries, so every count is 0 and `max` keeps its first candidate (`CoreWeatherService.PairNeverCounted`, `CoreWeatherService.MostCommonWeather`).
- Both services say they group the 3-hour forecasts by day (backend/weather_service.py:99, src/core/weather_service.py:124). Only the back end works on contiguous runs of one day. The desktop service groups across the whole list, so a day that comes back later joins its earlier group (`BackendWeatherService.RecurringDayRuns`, `BackendWeatherService.RecurringDayGroups`). Both agree on lists whose days never decrease (`BackendWeatherService.SortedRunsAreGroups`).
- The back end's `validate_date_range` (backend/weather_service.py:149-159) tests the past and future bounds before the span. `DateRangeValidator.validate` (backend/validators/date_range.py:36-50) tests the span first. Both accept exactly the same ranges (`BackendWeatherService.ValidatorsAgreeOnAcceptance`) but can give different reasons (`BackendWeatherService.ValidatorsDifferOnReason`).
- The `RateLimiter` docstring speaks of a "token bucket algorithm" (src/core/api_services.py:27). The code keeps no bucket: it spaces requests at least `60 / requests_per_minute` seconds apart (`ApiServices.WaitIfNeeded`, `ApiServices.RateRespected`).
- `get_weather_history`'s comment "first try to match records with explicit date ranges" (src/database/operations.py:66-73) suggests a fallback to the timestamp. The conditional tests a column object against `None`, which always succeeds, so the fallback never runs. With both dates given, a record with no date range is never returned, whatever its timestamp (`WeatherStore.UndatedRecordsExcluded`).

Modules:

- `Common`: options, results, location kinds, coordinate ranges.
- `Text`: Python string operations.
- `Patterns`: the regular expressions.
- `Tables`: a keyed table as an ascending row list.
- `DateRange`, `LocationValidator`, `InputValidators` and `CoordinateInput`.
- `ForecastItems`: forecast entries and folds.
- `CoreWeatherService` and `BackendWeatherService`.
- `ApiServices`, `WeatherStore`, `QueryStore` and `ApiErrors`.

## Model

| member | source | states |
|---|---|---|
| LocationValidator.Validate | backend/validators/location.py:15-44 | a non-string or empty argument and a stripped text under two characters are refused with their own messages; a valid verdict always carries a kind |
| LocationValidator.ValidateMatched | backend/validators/location.py:35-38 | the first pattern that matches the stripped text decides the kind, with "Valid location format" |
| LocationValidator.ClassificationByPattern | backend/validators/location.py:7-44 | for each kind, the text is classified as it exactly when its pattern matches (landmark also through the fallback, and never for a ZIP) |
| LocationValidator.PatternsOverlapOnlyZipLandmark | backend/validators/location.py:7-12 | of the four patterns only ZIP and landmark can match the same text, so the pattern order matters for that pair alone |
| LocationValidator.ZipAlsoLandmark | backend/validators/location.py:8-11 | every ZIP text also matches the landmark pattern |
| LocationValidator.ZipBeatsLandmarkExample | backend/validators/location.py:36-38 | "12345" matches the landmark pattern yet is classified zip, because zip is tested first |
| LocationValidator.FallbackAcceptance | backend/validators/location.py:40-68 | when no pattern matches, the text is accepted as landmark ("Assumed landmark location") exactly when it has at most 100 characters, only `[\w\s\-'.,:()]` characters and at most 10 words; otherwise "Invalid location format" |
| LocationValidator.AcceptedTextIsUsual | backend/validators/location.py:31-68 | every accepted location, stripped, consists of characters of the fallback's set, whichever path accepted it |
| LocationValidator.CoordinateChars | backend/validators/location.py:9 | every character of a coordinate text lies in the fallback's set `[\w\s\-'.,:()]`, so the first accepting path never admits a character the fallback would refuse |
| LocationValidator.CityChars | backend/validators/location.py:10 | every character of a city, country text lies in the fallback's set `[\w\s\-'.,:()]` |
| LocationValidator.NormalizeLocation | backend/validators/location.py:71-106 | the coordinates type is the one left undescribed; every other type gives a text, and a type other than city, zip and landmark gives the stripped text unchanged |
| LocationValidator.CityNormalizationKeepsSegments | backend/validators/location.py:92-95 | splitting the normalised city at commas gives back as many segments as the stripped input, each the stripped and title-cased original segment, with no surrounding whitespace |
| LocationValidator.LandmarkNormalizationKeepsWords | backend/validators/location.py:101-104 | the normalised landmark has the same words as the input; those longer than three characters are capitalised and the rest are kept |
| LocationValidator.ZipNormalizationRemovesSpacesOnly | backend/validators/location.py:97-99 | the normalised ZIP holds no space, keeps every other character with its multiplicity and in its order, and leaves a well-formed ZIP unchanged |
| LocationValidator.FormatForDisplay | backend/validators/location.py:109-127 | the display record keeps the original text and type and shows the normalised form as its display name |
| Patterns.ZipPatternAnchored | backend/validators/location.py:8 | the ZIP predicate is `re.match` of `^\d{5}(-\d{4})?$`, including a trailing newline before `$` |
| Patterns.CoordinatePatternAnchored | backend/validators/location.py:9 | the coordinate predicate is `re.match` of the anchored lat,lon pattern |
| Patterns.CityCountryPatternAnchored | backend/validators/location.py:10 | the city, country predicate is `re.match` of its anchored pattern |
| Patterns.LandmarkPatternAnchored | backend/validators/location.py:11 | the landmark predicate is `re.match` of its anchored pattern; the newline is in `\s`, so `$` adds nothing |
| Patterns.DecimalPairPatternAnchored | src/utils/validators.py:71 | the loose decimal pair predicate is `re.match` of `^(-?\d+\.?\d*),\s*(-?\d+\.?\d*)$` |
| Patterns.CityNamePatternAnchored | src/utils/validators.py:55 | the city-name predicate is `re.match` of `^[A-Za-z\s\.\-\']+$` |
| Patterns.StrictIsLoose | backend/validators/location.py:9 | every number of the coordinate pattern is also a number of the looser decimal pattern |
| Patterns.DecimalChars | src/utils/validators.py:71 | a decimal number of the pattern holds only digits, '-' and '.' |
| Patterns.DmsNeedsDegreeSign | src/ui/widgets/location_input.py:112-116 | a text of the degrees form holds the degree sign |
| InputValidators.ValidateCoordinates | src/utils/validators.py:7-31 | accepts exactly two numeric values in range and returns them; otherwise the numeric, latitude or longitude message, tested in that order |
| InputValidators.ValidateZipCode | src/utils/validators.py:33-43 | holds exactly for `re.match` of the ZIP pattern; an accepted text starts with five digits and has 5, 6, 10 or 11 characters |
| InputValidators.ValidateCityName | src/utils/validators.py:45-56 | holds exactly for `re.match` of the city-name pattern; an accepted name holds no digit and no comma |
| InputValidators.ParseLocationInput | src/utils/validators.py:58-87 | a result carries the stripped text; a coordinates result has an in-range decimal pair; there is no result exactly when the text is neither an in-range pair, a ZIP nor a city name |
| InputValidators.ParseLocationTags | src/utils/validators.py:68-87 | the tag is coordinates exactly for an in-range pair, zip exactly for a ZIP, city exactly for a city name that is not a decimal pair |
| InputValidators.ZipIsNoCityName | src/utils/validators.py:79-85 | no text is both a ZIP and a city name, so the order of those two tests does not matter |
| InputValidators.DecimalPairIsNoZipNorCity | src/utils/validators.py:70-85 | a decimal pair is never a ZIP nor a city name |
| InputValidators.OutOfRangePairIsRejected | src/utils/validators.py:72-87 | a decimal pair out of range is not tagged at all: it falls through the ZIP and city tests |
| InputValidators.OutOfRangePairDisagreement | src/utils/validators.py:58-87 | an out-of-range coordinate text is refused by `parse_location_input` yet classified coordinates by the back-end validator, which checks no range |
| CoordinateInput.DmsDegrees | src/ui/widgets/location_input.py:119-127 | a degrees group becomes non-positive exactly for the negative hemisphere and keeps its magnitude `deg + min/60 + sec/3600` |
| CoordinateInput.DmsMagnitude | src/ui/widgets/location_input.py:120-121 | the magnitude is at least the whole degrees and below the next degree while minutes and seconds stay in their ranges |
| CoordinateInput.DmsValues | src/ui/widgets/location_input.py:116-127 | a degrees reading exists exactly when the text has the degrees form; it is the latitude group signed by 'S' and the longitude group signed by 'W' |
| CoordinateInput.ParseCoordinates | src/ui/widgets/location_input.py:91-132 | a result is always in range; an in-range decimal pair is returned as read; any other result comes from the degrees form; a text of neither form gives none |
| CoordinateInput.ParseCoordinatesExactly | src/ui/widgets/location_input.py:104-132 | a result exists exactly when the decimal form is in range or the degrees form is in range |
| CoordinateInput.FormsExclusive | src/ui/widgets/location_input.py:105-116 | no text has both the decimal and the degrees form, so trying the decimal form first hides nothing |
| CoordinateInput.DegreesFormSigns | src/ui/widgets/location_input.py:116-132 | on a text of the degrees form the parser answers exactly when the signed pair is in range, with the latitude negative for 'S' and the longitude negative for 'W', each of magnitude `deg + min/60 + sec/3600` |
| DateRange.Validate | backend/validators/date_range.py:12-60 | accepts exactly two parsed days in order, at most 5 days apart, starting no more than 7 days back and ending no more than 5 days ahead; an unparseable date gives the format message; the payload counts both ends |
| DateRange.FirstFailureWins | backend/validators/date_range.py:35-50 | the message is that of the first failing check among order, span, past bound and future bound |
| DateRange.SpanCheckedBeforeWindow | backend/validators/date_range.py:39-50 | a range inside the window but longer than 5 days is refused for its span |
| DateRange.GetValidRangeBounds | backend/validators/date_range.py:80-93 | the earliest day lies before today and the latest after it |
| DateRange.BoundsDescribeValidation | backend/validators/date_range.py:80-93 | the published bounds and span describe exactly the ranges `validate` accepts |
| DateRange.GenerateDateRange | backend/validators/date_range.py:96-114 | the days from start to end inclusive, in order, and none when start is after end |
| DateRange.GenerateValidated | backend/validators/date_range.py:53-57 | for an accepted range the generated list has `range_days` entries, from the start day to the end day |
| BackendWeatherService.ValidateDateRange | backend/weather_service.py:139-164 | success is always true; every failure is prefixed "Date validation error: "; a parse failure reports the parser's reason |
| BackendWeatherService.BackendFirstFailureWins | backend/weather_service.py:149-159 | the message is that of the first failing check among order, past bound, future bound and span |
| BackendWeatherService.ValidatorsAgreeOnAcceptance | backend/weather_service.py:139-161 | the back end accepts a range exactly when `DateRangeValidator.validate` does |
| BackendWeatherService.ValidatorsDifferOnReason | backend/weather_service.py:152-159 | a ten-day range ending today is refused by the back end for its past bound and by `DateRangeValidator` for its span |
| BackendWeatherService.RequestFor | backend/weather_service.py:21-36 | coordinates make no request; zip uses the zip lookup; every other type uses the direct query |
| BackendWeatherService.GetCoordinates | backend/weather_service.py:18-47 | coordinates are read from the text; otherwise the first list entry, or a dictionary with 'lat', gives the pair, and any other answer gives "Location not found: " and the location |
| BackendWeatherService.ParsePair | backend/weather_service.py:22-23 | succeeds exactly when the text splits at commas into two parts that both read as numbers, and returns those numbers |
| BackendWeatherService.CoordinatesIgnoreAnswer | backend/weather_service.py:21-23 | for the coordinates type no request is made and the provider's answer has no influence |
| BackendWeatherService.PairTextRoundTrip | backend/weather_service.py:22-23 | two comma-free numbers joined by a comma are read back as those numbers |
| BackendWeatherService.RunsCover | backend/weather_service.py:100-122 | the day runs, concatenated, are the forecast list itself: no sample is lost, duplicated or reordered |
| BackendWeatherService.RunsSameDay | backend/weather_service.py:104-122 | every sample of a run has the run's day |
| BackendWeatherService.RunsNeighboursDiffer | backend/weather_service.py:109-120 | consecutive runs have different days |
| BackendWeatherService.RunCount | backend/weather_service.py:109-133 | a non-empty list gives one run more than it has day changes |
| BackendWeatherService.Close | backend/weather_service.py:110-117 | a day entry keeps its day; its minimum and maximum are temperatures of the day that bound all the others, and the average lies between them |
| BackendWeatherService.EntriesOfAt | backend/weather_service.py:109-132 | entry k summarises exactly run k |
| BackendWeatherService.AggregateRuns | backend/weather_service.py:97-134 | the loop's entries are one closed summary per day run, in order, including the last open day |
| BackendWeatherService.SortedRunsAreGroups | backend/weather_service.py:103-122 | on a list whose days never decrease, the back end's runs equal the desktop service's day groups |
| BackendWeatherService.RecurringDayRuns | backend/weather_service.py:109-120 | days 1, 2, 1 make three runs in the back end |
| BackendWeatherService.RecurringDayGroups | src/core/weather_service.py:125-130 | days 1, 2, 1 make two groups in the desktop service |
| CoreWeatherService.GroupByDay | src/core/weather_service.py:125-130 | one group per distinct day in order of first appearance, each holding exactly that day's samples in order |
| CoreWeatherService.DistinctDaysHas | src/core/weather_service.py:127-129 | a day has a group exactly when some sample has that day |
| CoreWeatherService.SampleInItsGroup | src/core/weather_service.py:126-130 | every sample lands in the group of its day |
| CoreWeatherService.SampleInOneGroup | src/core/weather_service.py:126-130 | no sample is in two groups |
| CoreWeatherService.GroupsNonEmpty | src/core/weather_service.py:128-130 | no group is empty, so `min`, `max` and `max(..., key=...)` never see an empty list |
| CoreWeatherService.OfDayKeepsSamples | src/core/weather_service.py:126-130 | a day's group holds each of that day's samples as often as the list does |
| CoreWeatherService.PairNeverCounted | src/core/weather_service.py:139-143 | the count of a (description, icon) pair in the list of sample dictionaries is always 0 |
| CoreWeatherService.MaxBy | src/core/weather_service.py:139-143 | `max` with a key returns an element of greatest key, the first such |
| CoreWeatherService.MaxByConstantKey | src/core/weather_service.py:139-143 | when every key is equal, `max` returns the first element |
| CoreWeatherService.MostCommonWeather | src/core/weather_service.py:139-143 | the chosen condition and icon are those of the day's first sample |
| CoreWeatherService.Summarize | src/core/weather_service.py:138-153 | a day summary keeps its day; its minimum and maximum are temperatures of the day bounding every other; its precipitation is the largest `pop`, with 0 for a missing one |
| CoreWeatherService.DailyForecasts | src/core/weather_service.py:137-154 | at most five summaries, one per distinct day in order of first appearance, each summarising that day's samples |
| CoreWeatherService.ForecastReading | src/core/weather_service.py:157-168 | the saved record carries the midpoint `(temp_min + temp_max) / 2` of its summary as temperature, covers exactly its day, has no feels-like, humidity or wind, and carries the city, the coordinates and the condition |
| CoreWeatherService.SaveForecasts | src/core/weather_service.py:134-168 | one new record per summary, appended in summary order after the existing ones, which stay as they were; each record, committed on its own, carries its own clock reading |
| CoreWeatherService.SavedTemperatureWithinDay | src/core/weather_service.py:148-167 | for every day the forecast produces, the saved temperature is the midpoint of its minimum and maximum, lies between them, and both are temperatures of that day's samples |
| CoreWeatherService.GetForecast | src/core/weather_service.py:106-170 | out-of-range coordinates are refused with "Invalid coordinates"; otherwise the daily summaries are returned and each is saved with the clock reading of its own commit |
| CoreWeatherService.GetCurrentWeather | src/core/weather_service.py:56-101 | out-of-range coordinates are refused; otherwise the result carries the asked coordinates and every field of the answer (temperature, feels-like, humidity, wind, description, icon, time, name), and it is saved as exactly one new record |
| CoreWeatherService.GuardPrecedesRequests | src/core/weather_service.py:58-59 | for out-of-range coordinates the outcome does not depend on the provider's answer |
| CoreWeatherService.GeocodeLocation | src/core/weather_service.py:175-211 | no candidate gives no coordinates and no history; otherwise the first candidate's coordinates, recorded as one new history entry with the query |
| ForecastItems.Mean | backend/weather_service.py:111 | the mean of a non-empty list lies between its minimum and maximum |
| ForecastItems.MinOf | backend/weather_service.py:115 | `min` is an element no greater than any other |
| ForecastItems.MaxOf | backend/weather_service.py:116 | `max` is an element no smaller than any other |
| ApiServices.NewRateLimiter | src/core/api_services.py:28-31 | a rate of 0 fails; otherwise the interval times the rate is a minute, and the last request is at time 0 |
| ApiServices.SleepFor | src/core/api_services.py:35-38 | the sleep is non-negative and brings the request at least one interval after the last; it is 0 or exactly that much |
| ApiServices.SleepIsLeast | src/core/api_services.py:36-38 | no shorter non-negative sleep would keep the spacing |
| ApiServices.WaitIfNeeded | src/core/api_services.py:33-39 | the new stamp is at least one interval after the previous stamp and not before the first clock reading; rate and interval do not change |
| ApiServices.Schedule | src/core/api_services.py:33-39 | successive requests through one limiter are stamped at least one interval apart |
| ApiServices.ScheduleSpread | src/core/api_services.py:33-39 | requests n apart are stamped at least n intervals apart |
| ApiServices.RateRespected | src/core/api_services.py:26-39 | within any span shorter than a minute, at most `requests_per_minute` requests are stamped |
| ApiServices.NewServices | src/core/api_services.py:47-60 | YouTube is limited to 30 requests a minute (2 s apart), maps to 60 (1 s apart) |
| ApiServices.MapUrl | src/core/api_services.py:109-115 | the map address is the static-map endpoint and "?center=", then the location as is, then zoom 12, size 400x300 and the maps key at the very end |
| ApiServices.CenterRoundTrip | src/core/api_services.py:109-115 | the location is read back from the map address when it holds no '&' |
| ApiServices.GetLocationMedia | src/core/api_services.py:62-117 | the YouTube limiter is consulted exactly once and first; the maps limiter is consulted, and the map address of the location and that key built, exactly when a maps key is set; the videos are passed through |
| QueryStore.InsertQuery | backend/database.py:62-80 | a missing NOT NULL value fails and changes nothing; otherwise the new row gets a key above every key ever issued and holds the values with both stamps now |
| QueryStore.UpdateQuery | backend/database.py:82-101 | true exactly for an existing key; temperature and conditions change only where an argument is given, and updated_at becomes now |
| QueryStore.UpdateWithNothingKeepsData | backend/database.py:87-91 | an update with neither value moves only updated_at |
| QueryStore.DeleteQuery | backend/database.py:103-118 | true exactly for an existing key, which is then gone, with every other row kept |
| QueryStore.GetAllQueries | backend/database.py:47-60 | every row, as often as stored, newest created_at first |
| QueryStore.DeletedKeyNotReissued | backend/database.py:22 | with AUTOINCREMENT a deleted key is never given to a later insert |
| WeatherStore.SaveWeatherData | src/database/operations.py:29-54 | one record is added under a key not in use, holding the arguments and the current time; nothing else changes |
| WeatherStore.SavedRecordHoldsArguments | src/database/operations.py:41-52 | the stored record has each argument in its column |
| WeatherStore.GetWeatherHistory | src/database/operations.py:56-77 | only records of the named location, overlapping the dates when both are given, newest first |
| WeatherStore.HistoryIsComplete | src/database/operations.py:62-75 | every stored record that matches is returned, as often as it is stored |
| WeatherStore.UndatedRecordsExcluded | src/database/operations.py:65-73 | with both dates given, a record without a date range is never returned |
| WeatherStore.Apply | src/database/operations.py:88-90 | a keyword naming a column sets it and leaves the others; an unknown keyword changes nothing |
| WeatherStore.ApplyAll | src/database/operations.py:88-90 | after the keywords, each column holds the value of the last keyword naming it, or its old value |
| WeatherStore.UpdateWeatherRecord | src/database/operations.py:84-92 | an unknown key gives no record and no change; otherwise only that record changes, as the keywords say |
| WeatherStore.UpdateKeepsUnnamedColumns | src/database/operations.py:88-90 | a column no keyword names keeps its value |
| WeatherStore.DeleteWeatherRecord | src/database/operations.py:94-105 | true exactly for an existing key, which is then gone; nothing else changes |
| WeatherStore.NewestKeyReissued | src/database/models.py:15 | without AUTOINCREMENT, deleting the newest record lets the next save reuse a key no larger than the deleted one |
| WeatherStore.AddLocationHistory | src/database/operations.py:108-121 | one entry is added under a key not in use, holding the arguments and the current time |
| WeatherStore.GetLocationHistory | src/database/operations.py:123-128 | exactly `min(limit, n)` entries of the n stored (all of them for a negative limit), newest first, each stored entry returned at most as often as it is stored |
| WeatherStore.HistoryKeepsNewest | src/database/operations.py:123-128 | no entry left out is newer than one returned |
| WeatherStore.ClearLocationHistory | src/database/operations.py:130-134 | the history becomes empty and reads back empty; the answer is true |
| WeatherStore.FindSetting | src/database/operations.py:139-141 | the row found has the key; no row is found exactly when no row has it |
| WeatherStore.FoundSettingIsUnique | src/database/models.py:44 | with unique keys, the row found is the one row of that key |
| WeatherStore.GetSetting | src/database/operations.py:156-161 | a value exactly when some row has the key |
| WeatherStore.SetSetting | src/database/operations.py:137-154 | the key reads back the new value, and its row holds the value and the clock reading; an existing row keeps its id and a new one gets the next; every other key reads as before, and keys stay unique |
| WeatherStore.DeleteSetting | src/database/operations.py:163-172 | true exactly when the key was set; afterwards it reads as absent and every other key as before |
| WeatherStore.SettingRoundTrip | src/database/operations.py:137-172 | a setting written reads back its value, and deleting it succeeds and makes it absent |
| Tables.SortDesc | src/database/operations.py:75 | `ORDER BY ... DESC` gives a permutation of the rows with keys non-increasing |
| Tables.Limit | src/database/operations.py:127 | `LIMIT n` keeps the first n rows, or all of them for a negative n |
| Tables.LimitKeepsMultiset | src/database/operations.py:127 | a limited query returns no row more often than the table holds it |
| Tables.Where | src/database/operations.py:62-63 | a filter keeps exactly the elements that satisfy it |
| Tables.WhereKeepsMultiset | src/database/operations.py:62-63 | a filter keeps each satisfying element as often as it occurs |
| Tables.Append | src/database/operations.py:53 | adding a row under a fresh key extends the table's map by that key alone |
| Tables.Remove | src/database/operations.py:99 | deleting by key removes that key from the table's map and nothing else |
| Tables.Replace | src/database/operations.py:88-91 | rewriting by key changes that key's record alone and keeps the row order |
| ApiErrors.NewApiError | backend/error_handlers/api_errors.py:5-11 | the status code defaults to 500 and missing details become an empty map |
| ApiErrors.NewValidationError | backend/error_handlers/api_errors.py:13-16 | a validation error always has status 400 |
| ApiErrors.NewNotFoundError | backend/error_handlers/api_errors.py:18-21 | a not-found error always has status 404 |
| ApiErrors.NewExternalApiError | backend/error_handlers/api_errors.py:23-29 | status 502; the details hold 'service' and the caller's details, which win on a clash |
| ApiErrors.HandleApiError | backend/error_handlers/api_errors.py:31-39 | status 'error', the message, 'details' only when there are some, and the error's own code |
| ApiErrors.HandleValidationError | backend/error_handlers/api_errors.py:50-59 | code 400, the fixed message "Validation error", the error's text under 'errors', details when there are some |
| ApiErrors.HandleHttpError | backend/error_handlers/api_errors.py:41-48 | the description and code, with the code also as the status |
| ApiErrors.HandleGenericError | backend/error_handlers/api_errors.py:61-68 | code 500, the fixed message, and the exception's class name |
| ApiErrors.Dispatch | backend/error_handlers/api_errors.py:70-75 | validation errors go to their own handler, other API errors to the API handler, HTTP errors and the rest to theirs; every body has status 'error' |
| ApiErrors.DispatchKeepsStatusAndDetails | backend/error_handlers/api_errors.py:31-59 | a well-formed API error is answered with its own status code and carries its details back unchanged |
| ApiErrors.StatusByKind | backend/error_handlers/api_errors.py:13-39 | validation, not-found, external and plain API errors reach the client as 400, 404, 502 and 500 |
| ApiErrors.MessageReachesClient | backend/error_handlers/api_errors.py:31-59 | the error's text reaches the client, under 'message' or, for validation errors, under 'errors' |
| ApiErrors.FormatErrorResponse | backend/error_handlers/api_errors.py:77-86 | status, message and code (400 by default), plus 'details' exactly when details are given and not empty |
| Text.SplitJoin | backend/validators/location.py:94-95 | joining comma-free pieces with a comma and splitting again gives the pieces back |
| Text.JoinSplit | backend/validators/location.py:94-95 | splitting at a character and joining with it gives the text back |
| Text.WordsJoin | backend/validators/location.py:103-104 | joining words with spaces and splitting on whitespace gives the words back |
| Text.Strip | backend/validators/location.py:31 | `str.strip()`: the result is the slice of the input between its leading and its trailing whitespace, and begins and ends with no whitespace |
| Text.Title | backend/validators/location.py:95 | `str.title`: a letter starting a run of letters is upper-cased, the others lower-cased, every other character kept |
| Text.RemoveCharKeepsOthers | backend/validators/location.py:99 | `replace(' ', '')` keeps every other character with its multiplicity |
| Text.RemoveCharCut | backend/validators/location.py:99 | `replace(' ', '')` keeps the other characters in their order: cut anywhere, what remains of the part before precedes what remains of the part after |

## Left out

- Network requests, HTTP sessions and their `RequestException` / `ConnectionError` paths: the provider answers are parameters, already decoded.
- Database connections and the `except Error` branches of backend/database.py, which print and return `None` or `False`. The rollback-and-raise paths of src/database/operations.py are also out: commits always succeed in the model.
- `datetime.strptime`, `isoformat` and `strftime`: dates are day numbers. A date text arrives as parsed or unparseable. `DateRangeValidator.format_for_display` and the date strings of the payloads are not modelled.
- Converting a timestamp to a local calendar day (`fromtimestamp(...).date()`): each forecast sample carries its day.
- Floating-point arithmetic: values are exact reals. `round(avg, 2)` in the back-end forecast is not modelled (`BackendWeatherService.Close` keeps the exact mean). The midpoint temperature saved per forecast day is exact, without float rounding.
- `float()` on arbitrary text. The back end's `_get_coordinates` takes the parser as a `parseFloat` parameter. The other call sites read only the decimal shapes their regular expressions admit.
- LocationValidator.NormalizeLocation: the coordinates branch (`f"{lat:.6f},{lon:.6f}"` after `re.findall`) and the coordinate part of `format_for_display` render floats as text, so the model answers `None` for the coordinates type.
- Non-ASCII characters: Python's `\s`, `\w`, `str.isspace`, `str.title` and `str.capitalize` also act on Unicode letters and spaces. The model treats only ASCII characters as letters, digits or whitespace.
- The YouTube search response, `publishedAt` parsing and the JSON decoding of videos: the decoded list of videos is a parameter. URL parameter encoding is not modelled either: the map address holds the location as written.
- CoreWeatherService.GetForecast: takes five clock readings, one per possible save, and uses the first as many as there are days; it does not require them to be non-decreasing, which `datetime.utcnow` does not promise either.
- `RateLimiter` under concurrent callers: each call is one atomic step. `time.sleep` is modelled as sleeping at least the requested time (the second clock reading comes at or after the sleep's end).
- ORDER BY among equal keys: SQLite gives no order, and the model fixes one. `Tables.SortDesc` states only the permutation and the key order.
- WeatherStore.UpdateWeatherRecord: a keyword naming `id` or any other non-column attribute of the record object is treated as unknown and skipped.
- `register_error_handlers` and Flask's lookup by class are modelled only as the dispatch they produce (`ApiErrors.Dispatch`). `jsonify` is left out.
- The GUI (main window, widgets, dialogs), export utilities, the `__init__` modules and the session manager: they are presentation and wiring around the modelled calls.
- The message texts of the two date validators differ for an inverted range ("before end date" against "before or equal to end date"). Both are modelled as the source spells them.
- The request wiring of the back end's `get_forecast` and `get_current_weather` in backend/weather_service.py is left out: it builds URLs and decodes JSON. Its parts are modelled separately: the coordinate lookup (`BackendWeatherService.GetCoordinates`), the date check (`BackendWeatherService.ValidateDateRange`) and the day loop (`BackendWeatherService.AggregateRuns`).
- The Flask routes, CORS and limiter decorators of backend/main.py, and the background worker fan-out of the desktop main window: they are request and thread wiring.
