/** src/core/api_services.py: the request-spacing rate limiter and the
    decisions `get_location_media` takes around its two external services.
    The clock is a parameter: each call to `wait_if_needed` reads the time
    once before deciding and once after sleeping. The YouTube response is
    passed in already decoded. */
module ApiServices {
  import opened Common
  import opened Text

  /** `RateLimiter`: the configured rate, the spacing it implies, and the
      time of the last request let through. */
  datatype RateLimiter = RateLimiter(requestsPerMinute: int, interval: real, lastRequest: real)

  /** `RateLimiter(requests_per_minute)`. A rate of 0 divides by zero,
      which is reported as `None`. */
  function NewRateLimiter(rpm: int): (r: Option<RateLimiter>)
    ensures r.None? <==> rpm == 0
    ensures r.Some? ==> r.value.requestsPerMinute == rpm && r.value.lastRequest == 0.0
    ensures r.Some? ==> r.value.interval * rpm as real == 60.0
    ensures r.Some? && rpm > 0 ==> r.value.interval > 0.0
  {
    if rpm == 0 then None else Some(RateLimiter(rpm, 60.0 / rpm as real, 0.0))
  }

  /** The two clock readings of one `wait_if_needed`: `now` before the
      decision, and the second reading `slack` after the requested sleep
      ended (a sleep never ends early, so `slack` is not negative). */
  datatype Clock = Clock(now: real, slack: real)

  predicate Honest(c: Clock) { c.slack >= 0.0 }

  /** The sleep requested at time `now`: the least non-negative wait that
      puts the next request one interval after the last one. */
  function SleepFor(l: RateLimiter, now: real): (d: real)
    ensures d >= 0.0
    ensures now + d >= l.lastRequest + l.interval
    ensures d == 0.0 || now + d == l.lastRequest + l.interval
  {
    var since := now - l.lastRequest;
    if since < l.interval then l.interval - since else 0.0
  }

  /** No shorter non-negative wait would keep the spacing. */
  lemma SleepIsLeast(l: RateLimiter, now: real, d: real)
    requires d >= 0.0 && now + d >= l.lastRequest + l.interval
    ensures SleepFor(l, now) <= d
  {
  }

  datatype Wait = Wait(limiter: RateLimiter, slept: real)

  /** `wait_if_needed`: sleeps as requested, then stamps the request with
      the second clock reading. The rate and the spacing never change. */
  function WaitIfNeeded(l: RateLimiter, c: Clock): (w: Wait)
    requires Honest(c)
    ensures w.slept == SleepFor(l, c.now)
    ensures w.limiter.requestsPerMinute == l.requestsPerMinute && w.limiter.interval == l.interval
    ensures w.limiter.lastRequest >= l.lastRequest + l.interval
    ensures w.limiter.lastRequest >= c.now
    ensures l.interval >= 0.0 ==> w.limiter.lastRequest >= l.lastRequest
  {
    var d := SleepFor(l, c.now);
    Wait(l.(lastRequest := c.now + d + c.slack), d)
  }

  /** Entry `k` of a series lies at least `d` after entry `k - 1`. */
  predicate SpacedAt(stamps: seq<real>, d: real, k: int) {
    0 < k < |stamps| ==> stamps[k] >= stamps[k - 1] + d
  }

  /** The stamps of a series of requests through one limiter. */
  function Schedule(l: RateLimiter, clocks: seq<Clock>): (stamps: seq<real>)
    requires forall i :: 0 <= i < |clocks| ==> Honest(clocks[i])
    ensures |stamps| == |clocks|
    ensures |stamps| > 0 ==> stamps[0] >= l.lastRequest + l.interval
    ensures forall k :: SpacedAt(stamps, l.interval, k)
    decreases |clocks|
  {
    if |clocks| == 0 then []
    else
      var w := WaitIfNeeded(l, clocks[0]);
      var rest := Schedule(w.limiter, clocks[1..]);
      var stamps := [w.limiter.lastRequest] + rest;
      forall k
        ensures SpacedAt(stamps, l.interval, k)
      {
        if 1 < k < |stamps| {
          assert SpacedAt(rest, l.interval, k - 1);
        }
      }
      stamps
  }

  /** In a series whose consecutive entries are at least `d` apart,
      entries `j - i` places apart are at least `j - i` times `d` apart. */
  lemma {:induction false} Spread(stamps: seq<real>, d: real, i: int, j: int)
    requires forall k :: SpacedAt(stamps, d, k)
    requires 0 <= i <= j < |stamps|
    ensures stamps[j] - stamps[i] >= (j - i) as real * d
    decreases j - i
  {
    if i < j {
      Spread(stamps, d, i, j - 1);
      assert SpacedAt(stamps, d, j);
      MulStep((j - 1 - i) as real, d);
    }
  }

  lemma MulStep(n: real, d: real)
    ensures (n + 1.0) * d == n * d + d
  {
  }

  lemma MulMono(a: real, b: real, d: real)
    requires a <= b && d >= 0.0
    ensures a * d <= b * d
  {
    assert b * d - a * d == (b - a) * d;
  }

  /** Requests `j - i` apart through one limiter are stamped at least
      `j - i` intervals apart. */
  lemma ScheduleSpread(l: RateLimiter, clocks: seq<Clock>, i: int, j: int)
    requires forall k :: 0 <= k < |clocks| ==> Honest(clocks[k])
    requires 0 <= i <= j < |clocks|
    ensures Schedule(l, clocks)[j] - Schedule(l, clocks)[i] >= (j - i) as real * l.interval
  {
    var stamps := Schedule(l, clocks);
    assert forall k :: SpacedAt(stamps, l.interval, k);
    Spread(stamps, l.interval, i, j);
  }

  /** A limiter built for a positive rate: its spacing is a minute
      divided by the rate. */
  predicate Configured(l: RateLimiter) {
    l.requestsPerMinute > 0 && l.interval > 0.0 && l.interval * l.requestsPerMinute as real == 60.0
  }

  lemma NewLimiterConfigured(rpm: int)
    requires rpm > 0
    ensures NewRateLimiter(rpm).Some? && Configured(NewRateLimiter(rpm).value)
  {
  }

  /** The rate holds: the requests stamped within any span shorter than a
      minute number at most `requests_per_minute`. */
  lemma RateRespected(l: RateLimiter, clocks: seq<Clock>, i: int, j: int)
    requires Configured(l)
    requires forall k :: 0 <= k < |clocks| ==> Honest(clocks[k])
    requires 0 <= i <= j < |clocks|
    requires Schedule(l, clocks)[j] - Schedule(l, clocks)[i] < 60.0
    ensures j - i + 1 <= l.requestsPerMinute
  {
    WithinAMinute(Schedule(l, clocks), l, i, j);
  }

  lemma WithinAMinute(stamps: seq<real>, l: RateLimiter, i: int, j: int)
    requires Configured(l)
    requires forall k :: SpacedAt(stamps, l.interval, k)
    requires 0 <= i <= j < |stamps| && stamps[j] - stamps[i] < 60.0
    ensures j - i < l.requestsPerMinute
  {
    Spread(stamps, l.interval, i, j);
    FewerThanRate(stamps[j] - stamps[i], (j - i) as real, l.requestsPerMinute as real, l.interval);
  }

  lemma FewerThanRate(gap: real, n: real, rpm: real, interval: real)
    requires interval > 0.0 && interval * rpm == 60.0
    requires gap >= n * interval && gap < 60.0
    ensures n < rpm
  {
    if n >= rpm {
      MulMono(rpm, n, interval);
    }
  }

  // ---------------------------------------------------------------- services

  const YouTubeRequestsPerMinute := 30
  const MapsRequestsPerMinute := 60
  const MapsStaticUrl := "https://maps.googleapis.com/maps/api/staticmap"

  /** A decoded YouTube search result. */
  datatype Video = Video(videoId: string, title: string, thumbnailUrl: string, publishedAt: string)

  datatype Services = Services(youtubeKey: string, mapsKey: Option<string>,
                               youtube: RateLimiter, maps: RateLimiter)

  /** `APIServices.__init__`: 30 YouTube requests and 60 map requests a
      minute, both limiters fresh. */
  function NewServices(youtubeKey: string, mapsKey: Option<string>): (s: Services)
    ensures s.youtubeKey == youtubeKey && s.mapsKey == mapsKey
    ensures s.youtube == RateLimiter(YouTubeRequestsPerMinute, 2.0, 0.0)
    ensures s.maps == RateLimiter(MapsRequestsPerMinute, 1.0, 0.0)
  {
    Services(youtubeKey, mapsKey,
             NewRateLimiter(YouTubeRequestsPerMinute).value, NewRateLimiter(MapsRequestsPerMinute).value)
  }

  /** `if self.maps_api_key:` — set and not the empty string. */
  predicate MapsKeySet(s: Services) {
    s.mapsKey.Some? && |s.mapsKey.value| > 0
  }

  /** The fixed parameters after the location: zoom 12, a 400 by 300
      image, then the maps key. */
  const MapOptions := "&zoom=12&size=400x300&key="

  /** The static map address for a location, the location written as is. */
  function MapUrl(location: string, key: string): (url: string)
    ensures |url| > |MapsStaticUrl| + 8 && url[..|MapsStaticUrl| + 8] == MapsStaticUrl + "?center="
    ensures Contains(url, location)
    ensures |url| == |MapsStaticUrl| + 8 + |location| + |MapOptions| + |key|
    ensures url[|MapsStaticUrl| + 8..|MapsStaticUrl| + 8 + |location|] == location
    ensures url[|url| - |key| - |MapOptions|..] == MapOptions + key
  {
    var url := MapsStaticUrl + "?center=" + location + MapOptions + key;
    UrlParts(MapsStaticUrl + "?center=", location, MapOptions + key, url);
    url
  }

  /** The parts of an address written as a prefix, the location and a tail. */
  lemma UrlParts(pre: string, location: string, tail: string, url: string)
    requires url == pre + location + tail
    ensures |url| == |pre| + |location| + |tail|
    ensures url[..|pre|] == pre && url[|pre|..|pre| + |location|] == location
    ensures url[|pre| + |location|..] == tail
    ensures Contains(url, location)
  {
    ContainsMiddle(pre, location, tail);
  }

  /** The `center` parameter read back from a map address: the text after
      `?center=` up to the next '&'. */
  function CenterOf(url: string): (c: Option<string>)
    ensures c.Some? ==> '&' !in c.value
  {
    var n := |MapsStaticUrl| + 8;
    if |url| < n || url[..n] != MapsStaticUrl + "?center=" then None
    else
      var rest := url[n..];
      if '&' in rest then Some(rest[..IndexOf(rest, '&')]) else Some(rest)
  }

  /** The location is recovered from the address exactly when it holds no
      '&'; the source does not encode it, so an '&' cuts it short. */
  lemma CenterRoundTrip(location: string, key: string)
    requires '&' !in location
    ensures CenterOf(MapUrl(location, key)) == Some(location)
  {
    var n := |MapsStaticUrl| + 8;
    var tail := MapOptions[1..] + key;
    var url := MapUrl(location, key);
    var rest := location + ['&'] + tail;
    assert url[n..] == rest;
    IndexOfAfterPrefix(location, '&', tail);
    assert rest[..|location|] == location;
  }

  datatype LocationMedia = LocationMedia(videos: seq<Video>, staticMapUrl: Option<string>)

  datatype Limiter = YouTubeLimiter | MapsLimiter

  /** The services afterwards, the media returned, and the limiters
      consulted, in order. */
  datatype MediaCall = MediaCall(services: Services, media: LocationMedia, consulted: seq<Limiter>)

  /** `get_location_media` once the search has answered with `videos`:
      the YouTube limiter is consulted exactly once; the maps limiter is
      consulted and a map address built only when a maps key is set. */
  function GetLocationMedia(s: Services, location: string, videos: seq<Video>,
                            youtubeClock: Clock, mapsClock: Clock): (r: MediaCall)
    requires Honest(youtubeClock) && Honest(mapsClock)
    ensures multiset(r.consulted)[YouTubeLimiter] == 1 && r.consulted[0] == YouTubeLimiter
    ensures MapsLimiter in r.consulted <==> MapsKeySet(s)
    ensures r.services.youtube == WaitIfNeeded(s.youtube, youtubeClock).limiter
    ensures MapsKeySet(s) ==> r.services.maps == WaitIfNeeded(s.maps, mapsClock).limiter
    ensures !MapsKeySet(s) ==> r.services.maps == s.maps
    ensures r.services.youtubeKey == s.youtubeKey && r.services.mapsKey == s.mapsKey
    ensures r.media.videos == videos
    ensures r.media.staticMapUrl.Some? <==> MapsKeySet(s)
    ensures MapsKeySet(s) ==> r.media.staticMapUrl == Some(MapUrl(location, s.mapsKey.value))
    ensures r.media.staticMapUrl.Some? ==> Contains(r.media.staticMapUrl.value, location)
    ensures r.media.staticMapUrl.Some? && '&' !in location ==> CenterOf(r.media.staticMapUrl.value) == Some(location)
  {
    var s1 := s.(youtube := WaitIfNeeded(s.youtube, youtubeClock).limiter);
    if MapsKeySet(s) then
      assert '&' !in location ==> CenterOf(MapUrl(location, s.mapsKey.value)) == Some(location) by {
        if '&' !in location {
          CenterRoundTrip(location, s.mapsKey.value);
        }
      }
      var s2 := s1.(maps := WaitIfNeeded(s.maps, mapsClock).limiter);
      MediaCall(s2, LocationMedia(videos, Some(MapUrl(location, s.mapsKey.value))), [YouTubeLimiter, MapsLimiter])
    else
      MediaCall(s1, LocationMedia(videos, None), [YouTubeLimiter])
  }
}
