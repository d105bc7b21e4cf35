/** `get_timeline`: interval parsing, the observed time span of the filtered
    entries, and their counts per fixed-width time bucket. */
module Timeline {
  import opened Models
  import opened Text
  import opened Filter
  import Query

  /** Nanoseconds to whole milliseconds, rounding down. */
  function ToMilliseconds(ns: nat): (ms: nat)
    ensures ms * 1_000_000 <= ns < ms * 1_000_000 + 1_000_000
  {
    ns / 1_000_000
  }

  /** Nanoseconds to whole microseconds, rounding down. */
  function ToMicroseconds(ns: nat): (us: nat)
    ensures us * 1_000 <= ns < us * 1_000 + 1_000
  {
    ns / 1_000
  }

  // ---------------------------------------------------------------------
  // Interval strings: `^(\d+)(us|ms|s|m)$`
  // ---------------------------------------------------------------------

  datatype Unit = Micros | Millis | Seconds | Minutes

  function Suffix(u: Unit): string
  {
    match u
    case Micros => "us"
    case Millis => "ms"
    case Seconds => "s"
    case Minutes => "m"
  }

  /** Microseconds per unit. */
  function Factor(u: Unit): nat
  {
    match u
    case Micros => 1
    case Millis => 1_000
    case Seconds => 1_000_000
    case Minutes => 60_000_000
  }

  /** The unit a suffix names, if any. */
  function UnitOf(t: string): (r: Option<Unit>)
    ensures r.Some? ==> t == Suffix(r.value)
    ensures forall u :: t == Suffix(u) ==> r == Some(u)
  {
    if t == "us" then Some(Micros)
    else if t == "ms" then Some(Millis)
    else if t == "s" then Some(Seconds)
    else if t == "m" then Some(Minutes)
    else None
  }

  /** The two capture groups of the interval pattern: a non-empty run of
      decimal digits, then exactly one unit suffix, then the end. */
  function IntervalParts(s: string): (r: Option<(string, Unit)>)
    ensures r.Some? ==> |r.value.0| > 0 && AllDigits(r.value.0) && s == r.value.0 + Suffix(r.value.1)
  {
    var k := DigitPrefixLength(s);
    if k == 0 then None
    else
      match UnitOf(s[k..])
      case None => None
      case Some(u) =>
        assert s == s[..k] + s[k..];
        Some((s[..k], u))
  }

  /** Every string of the pattern's shape is recognised, with its digits and
      unit as captured. */
  lemma IntervalPartsComplete(d: string, u: Unit)
    requires |d| > 0 && AllDigits(d)
    ensures IntervalParts(d + Suffix(u)) == Some((d, u))
  {
    DigitPrefixOf(d, Suffix(u));
    assert (d + Suffix(u))[..|d|] == d;
    assert (d + Suffix(u))[|d|..] == Suffix(u);
  }

  /** `parse_interval` as written, in a release build: the digits are read
      as a `u64` (rejected when they exceed its range) and multiplied by the
      unit's factor with wrap-around modulo 2^64. */
  function ParseIntervalAsWritten(s: string): Result<U64>
  {
    match IntervalParts(s)
    case None => Err(ApiError(BadRequest, "Invalid interval format: " + s))
    case Some((d, u)) =>
      var v := DecimalValue(d);
      if v >= U64_LIMIT then Err(ApiError(BadRequest, "Invalid interval value: " + s))
      else Ok((v * Factor(u)) % U64_LIMIT)
  }

  /** `parse_interval` with the product range-checked like the digits: the
      interval in microseconds, or BAD_REQUEST. */
  function ParseInterval(s: string): (r: Result<U64>)
    ensures IntervalParts(s).None? ==> r == Err(ApiError(BadRequest, "Invalid interval format: " + s))
    ensures r.Err? ==> r.error.status == BadRequest
    ensures r.Ok? ==>
      && IntervalParts(s).Some?
      && r.value == DecimalValue(IntervalParts(s).value.0) * Factor(IntervalParts(s).value.1)
    ensures IntervalParts(s).Some? ==>
      (r.Ok? <==> DecimalValue(IntervalParts(s).value.0) * Factor(IntervalParts(s).value.1) < U64_LIMIT)
    ensures (IntervalParts(s).Some? && r.Err?) ==>
      r.error == ApiError(BadRequest, "Invalid interval value: " + s)
  {
    match IntervalParts(s)
    case None => Err(ApiError(BadRequest, "Invalid interval format: " + s))
    case Some((d, u)) =>
      var v := DecimalValue(d);
      if v * Factor(u) >= U64_LIMIT then Err(ApiError(BadRequest, "Invalid interval value: " + s))
      else Ok(v * Factor(u))
  }

  /** Round trip: a number written in decimal followed by a unit parses back
      to that number of units, in microseconds. */
  lemma ParseIntervalRoundTrip(n: nat, u: Unit)
    requires n * Factor(u) < U64_LIMIT
    ensures ParseInterval(NatToString(n) + Suffix(u)) == Ok(n * Factor(u))
  {
    IntervalPartsComplete(NatToString(n), u);
  }

  /** The two parsers differ only where the product leaves the 64-bit range. */
  lemma ParseIntervalAsWrittenAgrees(s: string)
    requires IntervalParts(s).Some?
    requires DecimalValue(IntervalParts(s).value.0) * Factor(IntervalParts(s).value.1) < U64_LIMIT
    ensures ParseIntervalAsWritten(s) == ParseInterval(s)
  {
  }

  /** The wrap-around at work: 2^61 milliseconds, `"2305843009213693952ms"`
      (digits `d` of value 2^61), is accepted by the source as an interval of
      0 microseconds (2^61 * 1000 is a multiple of 2^64), which then panics on
      division by zero as soon as one entry is bucketed. */
  lemma IntervalProductWraps(d: string)
    requires |d| > 0 && AllDigits(d) && DecimalValue(d) == 0x2000_0000_0000_0000
    ensures ParseIntervalAsWritten(d + "ms") == Ok(0)
    ensures ParseInterval(d + "ms") == Err(ApiError(BadRequest, "Invalid interval value: " + d + "ms"))
  {
    IntervalPartsComplete(d, Millis);
    assert d + "ms" == d + Suffix(Millis);
    assert IntervalParts(d + "ms") == Some((d, Millis));
    assert DecimalValue(d) * Factor(Millis) == 125 * U64_LIMIT;
  }

  /** `default_interval`. */
  function DefaultInterval(): string { "1s" }

  /** The default interval is one second. */
  lemma DefaultIntervalIsOneSecond()
    ensures ParseInterval(DefaultInterval()) == Ok(1_000_000)
  {
    IntervalPartsComplete("1", Seconds);
    assert "1"[..0] == [];
    assert DefaultInterval() == "1" + Suffix(Seconds);
  }

  /** Microsecond precision is chosen by the interval string's suffix; for a
      well-formed interval that is exactly the `us` unit. */
  lemma MicrosecondsIffMicroUnit(s: string)
    requires IntervalParts(s).Some?
    ensures EndsWith(s, "us") <==> IntervalParts(s).value.1 == Micros
  {
    var d := IntervalParts(s).value.0;
    var u := IntervalParts(s).value.1;
    if u == Seconds {
      assert s[|s| - 2] == d[|d| - 1];
    }
  }

  /** The bucket width in the chosen unit: the interval itself in
      microsecond mode, else the interval divided by 1000. */
  function BucketWidth(intervalUs: nat, micro: bool): nat
  {
    if micro then intervalUs else intervalUs / 1000
  }

  /** In millisecond mode no precision is lost: the width is the interval in
      whole milliseconds, and it is positive whenever the interval's value is. */
  lemma MillisecondWidthExact(s: string)
    requires ParseInterval(s).Ok? && !EndsWith(s, "us")
    ensures BucketWidth(ParseInterval(s).value, false) * 1000 == ParseInterval(s).value
    ensures DecimalValue(IntervalParts(s).value.0) > 0 ==> BucketWidth(ParseInterval(s).value, false) > 0
  {
    MicrosecondsIffMicroUnit(s);
  }

  // ---------------------------------------------------------------------
  // Time span and buckets
  // ---------------------------------------------------------------------

  /** `iter().min().unwrap_or(0)`. */
  function MinOr0(s: seq<nat>): (r: nat)
    ensures |s| == 0 ==> r == 0
    ensures |s| > 0 ==> r in s && forall i :: 0 <= i < |s| ==> r <= s[i]
  {
    if |s| == 0 then 0
    else
      var m := MinOr0(s[1..]);
      if |s| == 1 || s[0] <= m then s[0] else m
  }

  /** `iter().max().unwrap_or(0)`. */
  function MaxOr0(s: seq<nat>): (r: nat)
    ensures |s| == 0 ==> r == 0
    ensures |s| > 0 ==> r in s && forall i :: 0 <= i < |s| ==> s[i] <= r
  {
    if |s| == 0 then 0
    else
      var m := MaxOr0(s[1..]);
      if |s| == 1 || s[0] >= m then s[0] else m
  }

  /** The filtered entries' timestamps in the chosen unit. */
  function TimesIn(entries: seq<Entry>, micro: bool): seq<nat>
  {
    seq(|entries|, i requires 0 <= i < |entries| =>
      if micro then ToMicroseconds(entries[i].ts) else ToMilliseconds(entries[i].ts))
  }

  /** `((t - min) / width) * width + min`: the start of the bucket holding
      `t`. Bucket starts lie on the grid of multiples of `width` above `lo`;
      the bucket starts at or after `lo`, at or before `t`, and `t` lies
      within one width of its start, which pins the start down uniquely. */
  function BucketKey(t: nat, lo: nat, width: nat): (k: nat)
    requires lo <= t && width > 0
    ensures lo <= k <= t < k + width
    ensures (k - lo) % width == 0
  {
    var q := (t - lo) / width;
    assert t - lo == q * width + (t - lo) % width;
    MultipleModWidth(q, width);
    q * width + lo
  }

  /** A multiple of `width` leaves no remainder. */
  lemma MultipleModWidth(q: nat, width: nat)
    requires width > 0
    ensures (q * width) % width == 0
  {
    var d := (q * width) / width;
    var m := (q * width) % width;
    assert q * width == d * width + m;
    var e := q - d;
    assert e * width == q * width - d * width;
    assert e * width == m;
  }

  /** Each timestamp's bucket start, in order. */
  function BucketKeys(times: seq<nat>, lo: nat, width: nat): (keys: seq<nat>)
    requires width > 0 || |times| == 0
    requires forall i :: 0 <= i < |times| ==> lo <= times[i]
    ensures |keys| == |times|
    ensures forall i :: 0 <= i < |times| ==> keys[i] == BucketKey(times[i], lo, width)
  {
    seq(|times|, i requires 0 <= i < |times| => BucketKey(times[i], lo, width))
  }

  /** How many times `x` occurs in `s`. */
  function Occurrences(s: seq<nat>, x: nat): nat
  {
    if |s| == 0 then 0
    else Occurrences(s[..|s| - 1], x) + (if s[|s| - 1] == x then 1 else 0)
  }

  lemma OccurrencesAppend(s: seq<nat>, x: nat, k: nat)
    ensures Occurrences(s + [x], k) == Occurrences(s, k) + (if x == k then 1 else 0)
  {
    assert (s + [x])[..|s|] == s;
  }

  lemma {:induction false} OccurrencesPositive(s: seq<nat>, x: nat)
    ensures Occurrences(s, x) > 0 <==> x in s
  {
    if |s| > 0 {
      OccurrencesPositive(s[..|s| - 1], x);
      assert s == s[..|s| - 1] + [s[|s| - 1]];
    }
  }

  /** The loop over the filtered entries that fills the bucket map
      (`*buckets.entry(key).or_insert(0) += 1`): afterwards the map holds
      exactly the bucket starts that occur, each with its number of entries. */
  method CountBuckets(times: seq<nat>, lo: nat, width: nat) returns (buckets: map<nat, nat>)
    requires width > 0 || |times| == 0
    requires forall i :: 0 <= i < |times| ==> lo <= times[i]
    ensures var keys := BucketKeys(times, lo, width);
      && (forall k :: k in buckets <==> k in keys)
      && (forall k :: k in buckets ==> buckets[k] == Occurrences(keys, k))
  {
    buckets := map[];
    ghost var keys := BucketKeys(times, lo, width);
    for i := 0 to |times|
      invariant forall k :: k in buckets <==> k in keys[..i]
      invariant forall k :: k in buckets ==> buckets[k] == Occurrences(keys[..i], k)
    {
      var key := BucketKey(times[i], lo, width);
      assert keys[..i + 1] == keys[..i] + [key];
      forall k {
        OccurrencesAppend(keys[..i], key, k);
      }
      OccurrencesPositive(keys[..i], key);
      buckets := buckets[key := (if key in buckets then buckets[key] else 0) + 1];
    }
    assert keys[..|times|] == keys;
  }

  datatype TimelineBucket = TimelineBucket(timestamp: nat, count: nat)

  datatype TimelineResponse = TimelineResponse(
    buckets: seq<TimelineBucket>,
    minTimestamp: nat,
    maxTimestamp: nat)

  function Timestamps(bs: seq<TimelineBucket>): (ts: seq<nat>)
    ensures |ts| == |bs|
    ensures forall i :: 0 <= i < |bs| ==> ts[i] == bs[i].timestamp
  {
    seq(|bs|, i requires 0 <= i < |bs| => bs[i].timestamp)
  }

  predicate StrictlyAscending(bs: seq<TimelineBucket>)
  {
    forall i, j :: 0 <= i < j < |bs| ==> bs[i].timestamp < bs[j].timestamp
  }

  /** The least element of a non-empty set of bucket starts. */
  method SmallestKey(keys: set<nat>) returns (k: nat)
    requires keys != {}
    ensures k in keys && forall j :: j in keys ==> k <= j
  {
    k :| k in keys;
    var rest := keys - {k};
    while rest != {}
      invariant rest <= keys && k in keys
      invariant forall j :: j in keys && j !in rest ==> k <= j
      decreases |rest|
    {
      var j :| j in rest;
      if j < k {
        k := j;
      }
      rest := rest - {j};
    }
  }

  /** The keys of the bucket map in ascending order. */
  method SortedKeys(keys: set<nat>) returns (ks: seq<nat>)
    ensures forall i, j :: 0 <= i < j < |ks| ==> ks[i] < ks[j]
    ensures forall k :: k in ks <==> k in keys
  {
    ks := [];
    var rest := keys;
    while rest != {}
      invariant rest <= keys
      invariant forall i, j :: 0 <= i < j < |ks| ==> ks[i] < ks[j]
      invariant forall k :: k in keys <==> k in rest || k in ks
      invariant forall i, k :: 0 <= i < |ks| && k in rest ==> ks[i] < k
      decreases |rest|
    {
      var k := SmallestKey(rest);
      ks := ks + [k];
      rest := rest - {k};
    }
  }

  /** Collecting the map into a vector and `sort_by_key(timestamp)`: the
      map's pairs, each once, in ascending order of bucket start. (The keys
      are distinct, so this result is the only one the sort can produce.) */
  method SortBuckets(m: map<nat, nat>) returns (bs: seq<TimelineBucket>)
    ensures StrictlyAscending(bs)
    ensures forall i :: 0 <= i < |bs| ==> bs[i].timestamp in m && bs[i].count == m[bs[i].timestamp]
    ensures forall k :: k in m ==> k in Timestamps(bs)
  {
    var ks := SortedKeys(m.Keys);
    bs := seq(|ks|, i requires 0 <= i < |ks| => TimelineBucket(ks[i], m[ks[i]]));
    assert Timestamps(bs) == ks;
  }

  /** `bs` is the timeline of the bucket starts `keys`: strictly ascending
      starts, each with the number of entries that fall in it (never zero),
      and no bucket start left out. */
  predicate IsHistogram(bs: seq<TimelineBucket>, keys: seq<nat>)
  {
    && StrictlyAscending(bs)
    && (forall i :: 0 <= i < |bs| ==> bs[i].count == Occurrences(keys, bs[i].timestamp) && bs[i].count >= 1)
    && (forall i :: 0 <= i < |keys| ==> keys[i] in Timestamps(bs))
  }

  function SumCounts(bs: seq<TimelineBucket>): nat
  {
    if |bs| == 0 then 0 else SumCounts(bs[..|bs| - 1]) + bs[|bs| - 1].count
  }

  /** The occurrences in `keys` of each element of `ts`, summed. */
  function SumOccurrences(keys: seq<nat>, ts: seq<nat>): nat
  {
    if |ts| == 0 then 0 else SumOccurrences(keys, ts[..|ts| - 1]) + Occurrences(keys, ts[|ts| - 1])
  }

  lemma {:induction false} SumOccurrencesOfNothing(ts: seq<nat>)
    ensures SumOccurrences([], ts) == 0
  {
    if |ts| > 0 {
      SumOccurrencesOfNothing(ts[..|ts| - 1]);
    }
  }

  lemma {:induction false} SumOccurrencesAppend(keys: seq<nat>, x: nat, ts: seq<nat>)
    ensures SumOccurrences(keys + [x], ts) == SumOccurrences(keys, ts) + Occurrences(ts, x)
  {
    assert (keys + [x])[..|keys|] == keys;
    if |ts| > 0 {
      SumOccurrencesAppend(keys, x, ts[..|ts| - 1]);
    }
  }

  /** An element of a duplicate-free sequence occurs in it exactly once. */
  lemma {:induction false} OccursOnce(ts: seq<nat>, x: nat)
    requires forall i, j :: 0 <= i < j < |ts| ==> ts[i] != ts[j]
    requires x in ts
    ensures Occurrences(ts, x) == 1
  {
    var init := ts[..|ts| - 1];
    if ts[|ts| - 1] == x {
      OccurrencesPositive(init, x);
    } else {
      assert x in init;
      OccursOnce(init, x);
    }
  }

  /** Summing, over duplicate-free `ts` that contain every key, how often
      each occurs in `keys` counts every key once. */
  lemma {:induction false} SumOccurrencesCoversAll(keys: seq<nat>, ts: seq<nat>)
    requires forall i, j :: 0 <= i < j < |ts| ==> ts[i] != ts[j]
    requires forall i :: 0 <= i < |keys| ==> keys[i] in ts
    ensures SumOccurrences(keys, ts) == |keys|
  {
    if |keys| == 0 {
      SumOccurrencesOfNothing(ts);
    } else {
      var init := keys[..|keys| - 1];
      var x := keys[|keys| - 1];
      assert keys == init + [x];
      SumOccurrencesCoversAll(init, ts);
      SumOccurrencesAppend(init, x, ts);
      OccursOnce(ts, x);
    }
  }

  lemma {:induction false} SumCountsIsSumOccurrences(bs: seq<TimelineBucket>, keys: seq<nat>)
    requires forall i :: 0 <= i < |bs| ==> bs[i].count == Occurrences(keys, bs[i].timestamp)
    ensures SumCounts(bs) == SumOccurrences(keys, Timestamps(bs))
  {
    if |bs| > 0 {
      var init := bs[..|bs| - 1];
      SumCountsIsSumOccurrences(init, keys);
      assert Timestamps(bs)[..|bs| - 1] == Timestamps(init);
    }
  }

  /** The bucket counts add up to the number of bucketed entries. */
  lemma HistogramTotal(bs: seq<TimelineBucket>, keys: seq<nat>)
    requires IsHistogram(bs, keys)
    ensures SumCounts(bs) == |keys|
  {
    SumCountsIsSumOccurrences(bs, keys);
    SumOccurrencesCoversAll(keys, Timestamps(bs));
  }

  /** Some bucket's interval `[start, start + width)` holds `t`. */
  predicate InSomeBucket(bs: seq<TimelineBucket>, t: nat, width: nat)
  {
    exists j :: 0 <= j < |bs| && bs[j].timestamp <= t < bs[j].timestamp + width
  }

  /** Every entry is counted in a bucket whose interval `[start, start +
      width)` holds its timestamp. */
  lemma HistogramCoversTimes(bs: seq<TimelineBucket>, times: seq<nat>, lo: nat, width: nat)
    requires width > 0 || |times| == 0
    requires forall i :: 0 <= i < |times| ==> lo <= times[i]
    requires IsHistogram(bs, BucketKeys(times, lo, width))
    ensures forall i :: 0 <= i < |times| ==> InSomeBucket(bs, times[i], width)
  {
    var keys := BucketKeys(times, lo, width);
    var ts := Timestamps(bs);
    forall i | 0 <= i < |times|
      ensures InSomeBucket(bs, times[i], width)
    {
      assert keys[i] in ts;
      var j :| 0 <= j < |ts| && ts[j] == keys[i];
      assert bs[j].timestamp == BucketKey(times[i], lo, width);
    }
  }

  /** Every bucket starts at or after `lo` and at or before the largest timestamp. */
  lemma HistogramWithinSpan(bs: seq<TimelineBucket>, times: seq<nat>, lo: nat, width: nat)
    requires width > 0 || |times| == 0
    requires forall i :: 0 <= i < |times| ==> lo <= times[i]
    requires IsHistogram(bs, BucketKeys(times, lo, width))
    ensures forall j :: 0 <= j < |bs| ==> lo <= bs[j].timestamp
    ensures forall j :: 0 <= j < |bs| ==> bs[j].timestamp <= MaxOr0(times)
  {
    var keys := BucketKeys(times, lo, width);
    var hi := MaxOr0(times);
    forall j | 0 <= j < |bs|
      ensures lo <= bs[j].timestamp <= hi
    {
      OccurrencesPositive(keys, bs[j].timestamp);
      var i :| 0 <= i < |keys| && keys[i] == bs[j].timestamp;
      assert bs[j].timestamp == BucketKey(times[i], lo, width);
      assert times[i] <= hi;
    }
  }

  /** Every entry is counted in a bucket whose interval `[start, start +
      width)` holds its timestamp, and every bucket starts within the
      observed span `[min, max]`. */
  lemma HistogramBounds(bs: seq<TimelineBucket>, times: seq<nat>, width: nat)
    requires width > 0 || |times| == 0
    requires IsHistogram(bs, BucketKeys(times, MinOr0(times), width))
    ensures forall i :: 0 <= i < |times| ==> InSomeBucket(bs, times[i], width)
    ensures forall j :: 0 <= j < |bs| ==> MinOr0(times) <= bs[j].timestamp <= MaxOr0(times)
  {
    HistogramCoversTimes(bs, times, MinOr0(times), width);
    HistogramWithinSpan(bs, times, MinOr0(times), width);
  }

  /** The timeline of a list of bucket starts is unique. */
  lemma HistogramUnique(a: seq<TimelineBucket>, b: seq<TimelineBucket>, keys: seq<nat>)
    requires IsHistogram(a, keys) && IsHistogram(b, keys)
    ensures a == b
  {
    forall x ensures x in Timestamps(a) <==> x in Timestamps(b) {
      OccurrencesPositive(keys, x);
    }
    AscendingUnique(Timestamps(a), Timestamps(b));
    assert forall i :: 0 <= i < |a| ==> a[i].timestamp == Timestamps(a)[i] == Timestamps(b)[i] == b[i].timestamp;
  }

  /** Two strictly ascending sequences with the same elements are equal. */
  lemma {:induction false} AscendingUnique(a: seq<nat>, b: seq<nat>)
    requires forall i, j :: 0 <= i < j < |a| ==> a[i] < a[j]
    requires forall i, j :: 0 <= i < j < |b| ==> b[i] < b[j]
    requires forall x :: x in a <==> x in b
    ensures a == b
  {
    if |a| > 0 {
      assert a[0] in b && b[0] in a;
      assert a[0] == b[0];
      forall x ensures x in a[1..] <==> x in b[1..] {
        if x in a[1..] {
          assert x in b && x != b[0];
        }
        if x in b[1..] {
          assert x in a && x != a[0];
        }
      }
      AscendingUnique(a[1..], b[1..]);
      assert a == [a[0]] + a[1..] && b == [b[0]] + b[1..];
    } else {
      HeadIn(b);
    }
  }

  lemma HeadIn(s: seq<nat>)
    ensures |s| > 0 ==> s[0] in s
  {
  }

  /** Counting and sorting together produce the timeline of the bucket starts. */
  method Bucketize(times: seq<nat>, lo: nat, width: nat) returns (bs: seq<TimelineBucket>)
    requires width > 0 || |times| == 0
    requires forall i :: 0 <= i < |times| ==> lo <= times[i]
    ensures IsHistogram(bs, BucketKeys(times, lo, width))
  {
    var buckets := CountBuckets(times, lo, width);
    bs := SortBuckets(buckets);
    ghost var keys := BucketKeys(times, lo, width);
    forall i | 0 <= i < |bs|
      ensures bs[i].count >= 1
    {
      OccurrencesPositive(keys, bs[i].timestamp);
    }
  }

  // ---------------------------------------------------------------------
  // The handler
  // ---------------------------------------------------------------------

  /** The `/api/timeline` query fields: those of `/api/logs` plus `interval`. */
  datatype TimelineParams = TimelineParams(base: QueryParams, interval: Option<string>)

  /** The interval a request asks for, `default_interval` when it names none. */
  function RequestInterval(p: TimelineParams): string
  {
    if p.interval.Some? then p.interval.value else DefaultInterval()
  }

  /** `get_timeline`. A rejected query is a BAD_REQUEST; an unknown session a
      NOT_FOUND, reported before the interval is looked at; a malformed
      interval a BAD_REQUEST; a zero bucket width panics once an entry is
      bucketed; otherwise the response carries the span of the filtered
      timestamps and their timeline. */
  method GetTimeline(sessions: SessionTable, query: Extracted<TimelineParams>,
                     categoryValues: seq<string>, rx: Regex)
    returns (r: Reply<TimelineResponse>)
    ensures query.Rejection? ==>
      r == Rejected(ApiError(BadRequest, "Invalid timeline query parameters: " + query.reason))
    ensures query.Parsed? && query.params.base.sessionId !in sessions ==>
      r == Rejected(ApiError(NotFound, "Session not found: " + query.params.base.sessionId))
    ensures (query.Parsed? && query.params.base.sessionId in sessions
      && ParseInterval(RequestInterval(query.params)).Err?) ==>
      r == Rejected(ParseInterval(RequestInterval(query.params)).error)
    ensures (query.Parsed? && query.params.base.sessionId in sessions
      && ParseInterval(RequestInterval(query.params)).Ok?) ==>
      var f := Query.RequestFilter(query.params.base, categoryValues);
      var interval := RequestInterval(query.params);
      var micro := EndsWith(interval, "us");
      var times := TimesIn(Filtered(sessions[f.sessionId], f, rx), micro);
      var width := BucketWidth(ParseInterval(interval).value, micro);
      if width == 0 && |times| > 0 then r == Panicked
      else
        && r.Json?
        && r.value.minTimestamp == MinOr0(times)
        && r.value.maxTimestamp == MaxOr0(times)
        && IsHistogram(r.value.buckets, BucketKeys(times, MinOr0(times), width))
  {
    if query.Rejection? {
      return Rejected(ApiError(BadRequest, "Invalid timeline query parameters: " + query.reason));
    }
    var filter := Query.RequestFilter(query.params.base, categoryValues);
    var interval := RequestInterval(query.params);
    if filter.sessionId !in sessions {
      return Rejected(ApiError(NotFound, "Session not found: " + filter.sessionId));
    }
    var filtered := FilterEntries(sessions[filter.sessionId], filter, rx);
    var parsed := ParseInterval(interval);
    if parsed.Err? {
      return Rejected(parsed.error);
    }
    var micro := EndsWith(interval, "us");
    var times := TimesIn(filtered, micro);
    var lo := MinOr0(times);
    var hi := MaxOr0(times);
    var width := BucketWidth(parsed.value, micro);
    if width == 0 && |times| > 0 {
      // `(ts - min_timestamp) / interval` divides by zero
      return Panicked;
    }
    var buckets := Bucketize(times, lo, width);
    return Json(TimelineResponse(buckets, lo, hi));
  }

  /** With 500 ms buckets, entries at 0, 400 and 900 ms fall into two
      buckets: the one starting at 0 holds two entries, the one starting at
      500 holds one. (The grid is anchored at the smallest timestamp, 0.) */
  lemma FiveHundredMillisecondExample(bs: seq<TimelineBucket>)
    requires IsHistogram(bs, BucketKeys([0, 400, 900], 0, 500))
    ensures MinOr0([0, 400, 900]) == 0
    ensures bs == [TimelineBucket(0, 2), TimelineBucket(500, 1)]
  {
    var times: seq<nat> := [0, 400, 900];
    assert MinOr0(times) == 0;
    var keys := BucketKeys(times, 0, 500);
    assert keys[0] == BucketKey(0, 0, 500) == 0;
    assert keys[1] == BucketKey(400, 0, 500) == 0;
    assert keys[2] == BucketKey(900, 0, 500) == 500;
    assert keys == [0, 0, 500];
    var expected := [TimelineBucket(0, 2), TimelineBucket(500, 1)];
    ExampleHistogram();
    HistogramUnique(bs, expected, keys);
  }

  lemma ExampleHistogram()
    ensures IsHistogram([TimelineBucket(0, 2), TimelineBucket(500, 1)], [0, 0, 500])
  {
    var keys: seq<nat> := [0, 0, 500];
    var expected := [TimelineBucket(0, 2), TimelineBucket(500, 1)];
    OccurrencesAppend([], 0, 0);
    OccurrencesAppend([0], 0, 0);
    OccurrencesAppend([0, 0], 500, 0);
    OccurrencesAppend([], 0, 500);
    OccurrencesAppend([0], 0, 500);
    OccurrencesAppend([0, 0], 500, 500);
    assert [] + [0] == [0] && [0] + [0] == [0, 0] && [0, 0] + [500] == keys;
    assert Timestamps(expected) == [0, 500];
  }
}
