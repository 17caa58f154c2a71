/** The analytics aggregator of src/models/analyticsModel.ts: duration
    formatting, the backward walk over fixed-width time buckets, the per-tag
    ranking, and the day/week/month anchors. Clock readings are parameters and
    bucket labels are the instants the source renders as dates. */
module AnalyticsModel {
  import opened Records
  import opened Sorting
  import opened Store
  import opened Decimal

  const SECONDS_PER_DAY: int := 86400
  const SECONDS_PER_WEEK: int := 7 * SECONDS_PER_DAY
  /** The synthetic month: 4.34524 weeks, a fractional number of seconds. */
  const SECONDS_PER_MONTH: real := 4.34524 * (SECONDS_PER_WEEK as real)

  /** An entry with its tag relation included (null when the tag is missing). */
  datatype EntryWithTag = EntryWithTag(entry: Entry, tag: Option<Tag>)

  /** A bucket row: the bucket's lower-edge instant, offset-adjusted, and its total. */
  datatype BucketRow = BucketRow(labelInstant: real, value: string)

  /** A tag row: the tag name and its total. */
  datatype Row = Row(labelText: string, value: string)

  // ---------------------------------------------------------------------------
  // HH:MM formatting

  /** The quotient JavaScript's `%` pairs with: a / b truncated toward zero. */
  function TruncQuot(a: int, b: int): int
    requires b > 0
  {
    if a >= 0 then a / b else -((-a) / b)
  }

  /** JavaScript's `%`: the remainder takes the sign of the dividend. With the
      truncated quotient it rebuilds the dividend, and it lies in [0, b) for a
      non-negative dividend and in (-b, 0] for a negative one; together these
      fix it uniquely. */
  function JsRem(a: int, b: int): (r: int)
    requires b > 0
    ensures a == TruncQuot(a, b) * b + r
    ensures a >= 0 ==> 0 <= r < b
    ensures a < 0 ==> -b < r <= 0
  {
    if a >= 0 then a % b
    else
      var q := (-a) / b;
      assert -a == q * b + (-a) % b;
      assert (-q) * b == -(q * b);
      -((-a) % b)
  }

  /** HHMM: floored hours and floored minutes of the remainder, each
      zero-padded to two characters (hours are not capped). Dafny's `/` by a
      positive divisor is Math.floor of the quotient. */
  function HHMM(seconds: int): string {
    var hours := seconds / 3600;
    var minutes := JsRem(seconds, 3600) / 60;
    PadStart2(IntToString(hours)) + ":" + PadStart2(IntToString(minutes))
  }

  /** The position of the first colon, or the length when there is none. */
  function ColonIndex(s: string): (i: nat)
    ensures i <= |s|
    ensures forall j :: 0 <= j < i ==> s[j] != ':'
    ensures i < |s| ==> s[i] == ':'
  {
    if s == [] || s[0] == ':' then 0 else 1 + ColonIndex(s[1..])
  }

  /** Reads "H…H:MM" text back into its hours and minutes. */
  function ParseHHMM(s: string): Option<(nat, nat)> {
    var i := ColonIndex(s);
    if 1 <= i && i + 1 < |s| && AllDigits(s[..i]) && AllDigits(s[i + 1..])
    then Some((ValueOf(s[..i]), ValueOf(s[i + 1..])))
    else None
  }

  /** For a non-negative duration, the text reads back as the whole hours and
      the whole minutes left over (seconds dropped, minutes below 60), with two
      minute digits after the colon and at least two hour digits before it. */
  lemma HHMMRoundTrip(seconds: int)
    requires seconds >= 0
    ensures var h, m := seconds / 3600, (seconds % 3600) / 60;
      && ParseHHMM(HHMM(seconds)) == Some((h, m))
      && 0 <= m < 60
      && h * 3600 + m * 60 <= seconds < h * 3600 + m * 60 + 60
      && |HHMM(seconds)| >= 5 && HHMM(seconds)[|HHMM(seconds)| - 3] == ':'
  {
    var h, m := seconds / 3600, (seconds % 3600) / 60;
    var hs, ms := PadStart2(NatToString(h)), PadStart2(NatToString(m));
    var s := HHMM(seconds);
    assert s == hs + ":" + ms;
    NatToStringDigits(h);
    NatToStringDigits(m);
    PadStart2Value(NatToString(h));
    PadStart2Value(NatToString(m));
    assert |ms| == 2 by {
      if m >= 10 {
        NatToStringDigits(m / 10);
        assert m / 10 < 10;
      }
    }
    var i := ColonIndex(s);
    assert forall j :: 0 <= j < |hs| ==> s[j] == hs[j];
    assert s[|hs|] == ':';
    assert i == |hs|;
    assert s[..i] == hs && s[i + 1..] == ms;
  }

  // ---------------------------------------------------------------------------
  // Buckets

  function Start(e: EntryWithTag): real { e.entry.startTimeUtc as real }

  function Duration(e: EntryWithTag): int { e.entry.endTimeUtc - e.entry.startTimeUtc }

  /** The reduce that adds up the durations of a list of entries. */
  function TotalDuration(es: seq<EntryWithTag>): int {
    if es == [] then 0 else Duration(es[0]) + TotalDuration(es[1..])
  }

  /** Entries starting at or after t. */
  function StartingFrom(es: seq<EntryWithTag>, t: real): (r: seq<EntryWithTag>)
    ensures forall e :: e in r <==> e in es && Start(e) >= t
  {
    if es == [] then [] else (if Start(es[0]) >= t then [es[0]] else []) + StartingFrom(es[1..], t)
  }

  /** Entries starting before t. */
  function StartingBefore(es: seq<EntryWithTag>, t: real): (r: seq<EntryWithTag>)
    ensures forall e :: e in r <==> e in es && Start(e) < t
  {
    if es == [] then [] else (if Start(es[0]) < t then [es[0]] else []) + StartingBefore(es[1..], t)
  }

  /** Entries starting in [lo, hi). */
  function Window(es: seq<EntryWithTag>, lo: real, hi: real): (r: seq<EntryWithTag>)
    ensures forall e :: e in r <==> e in es && lo <= Start(e) < hi
  {
    if es == [] then [] else (if lo <= Start(es[0]) < hi then [es[0]] else []) + Window(es[1..], lo, hi)
  }

  /** The lower edge of bucket k when walking back from start: one interval
      further back per step. */
  function Edge(start: real, interval: real, k: nat): real {
    if k == 0 then start else Edge(start, interval, k - 1) - interval
  }

  /** The edge of bucket k lies k intervals before the start. */
  lemma {:induction false} EdgeIsMultiple(start: real, interval: real, k: nat)
    ensures Edge(start, interval, k) == start - (k as real) * interval
  {
    if k > 0 {
      EdgeIsMultiple(start, interval, k - 1);
      assert (k as real) * interval == ((k - 1) as real) * interval + interval;
    }
  }

  /** Bucket k holds the entries from its lower edge on, and below the lower
      edge of the newer bucket k - 1; bucket 0 has no upper bound. */
  predicate InBucket(e: EntryWithTag, start: real, interval: real, k: nat) {
    Edge(start, interval, k) <= Start(e) && (k == 0 || Start(e) < Edge(start, interval, k - 1))
  }

  function BucketEntries(es: seq<EntryWithTag>, start: real, interval: real, k: nat): (r: seq<EntryWithTag>)
    ensures forall e :: e in r <==> e in es && InBucket(e, start, interval, k)
  {
    if k == 0 then StartingFrom(es, Edge(start, interval, 0))
    else Window(es, Edge(start, interval, k), Edge(start, interval, k - 1))
  }

  /** The seconds bucket k adds up. */
  function BucketSeconds(es: seq<EntryWithTag>, start: real, interval: real, k: nat): int {
    TotalDuration(BucketEntries(es, start, interval, k))
  }

  lemma TotalCons(x: EntryWithTag, t: seq<EntryWithTag>)
    ensures TotalDuration([x] + t) == Duration(x) + TotalDuration(t)
  {
    assert ([x] + t)[1..] == t;
  }

  lemma StartingFromCons(x: EntryWithTag, t: seq<EntryWithTag>, lo: real)
    ensures StartingFrom([x] + t, lo) == (if Start(x) >= lo then [x] else []) + StartingFrom(t, lo)
  {
    assert ([x] + t)[1..] == t;
  }

  /** What the walk filters at step k > 0 (the pool left by step k - 1,
      narrowed to the current lower edge) is exactly the bucket's window. */
  lemma {:induction false} PoolThenEdgeIsWindow(es: seq<EntryWithTag>, lo: real, hi: real)
    ensures StartingFrom(StartingBefore(es, hi), lo) == Window(es, lo, hi)
  {
    if es != [] {
      var x, rest := es[0], es[1..];
      PoolThenEdgeIsWindow(rest, lo, hi);
      var pool := StartingBefore(rest, hi);
      if Start(x) < hi {
        assert StartingBefore(es, hi) == [x] + pool;
        StartingFromCons(x, pool, lo);
        assert Window(es, lo, hi) == (if lo <= Start(x) then [x] else []) + Window(rest, lo, hi);
      } else {
        assert StartingBefore(es, hi) == [] + pool;
        assert [] + pool == pool;
        assert Window(es, lo, hi) == [] + Window(rest, lo, hi);
      }
    }
  }

  /** What the walk has left to look at before step k: everything at first,
      then the entries older than the previous lower edge. */
  function Pool(entries: seq<EntryWithTag>, start: real, interval: real, k: nat): seq<EntryWithTag> {
    if k == 0 then entries else StartingBefore(entries, Edge(start, interval, k - 1))
  }

  /** Step k of the walk sums exactly bucket k. */
  lemma WalkStep(entries: seq<EntryWithTag>, start: real, interval: real, k: nat)
    ensures StartingFrom(Pool(entries, start, interval, k), Edge(start, interval, k))
         == BucketEntries(entries, start, interval, k)
  {
    if k > 0 {
      PoolThenEdgeIsWindow(entries, Edge(start, interval, k), Edge(start, interval, k - 1));
    }
  }

  /** One step back moves the lower edge down by one interval. */
  lemma EdgeStep(start: real, interval: real, k: nat)
    ensures Edge(start, interval, k + 1) == Edge(start, interval, k) - interval
  {
  }

  /** The row for bucket k: its lower edge less the offset, and its formatted total. */
  function RowFor(entries: seq<EntryWithTag>, start: real, interval: real, offset: int, k: nat): BucketRow {
    BucketRow(Edge(start, interval, k) - offset as real, HHMM(BucketSeconds(entries, start, interval, k)))
  }

  /** The first n values of f, in order. */
  function Tabulate<T>(f: nat -> T, n: nat): (r: seq<T>)
    ensures |r| == n
  {
    if n == 0 then [] else Tabulate(f, n - 1) + [f(n - 1)]
  }

  /** Element k of a tabulation is f(k). */
  lemma {:induction false} TabulateAt<T>(f: nat -> T, n: nat, k: nat)
    requires k < n
    ensures Tabulate(f, n)[k] == f(k)
  {
    if k < n - 1 {
      TabulateAt(f, n - 1, k);
    }
  }

  /** The first n rows, newest bucket first. */
  function Rows(entries: seq<EntryWithTag>, start: real, interval: real, offset: int, n: nat): (r: seq<BucketRow>)
    ensures |r| == n
  {
    Tabulate(k => RowFor(entries, start, interval, offset, k), n)
  }

  /** Row k of the first n rows is the row for bucket k. */
  lemma RowsAt(entries: seq<EntryWithTag>, start: real, interval: real, offset: int, n: nat, k: nat)
    requires k < n
    ensures Rows(entries, start, interval, offset, n)[k] == RowFor(entries, start, interval, offset, k)
  {
    TabulateAt(k => RowFor(entries, start, interval, offset, k), n, k);
  }

  /** Step k of the walk produces the row for bucket k, right after the rows before it. */
  lemma WalkRow(entries: seq<EntryWithTag>, start: real, interval: real, offset: int, k: nat)
    ensures BucketRow(Edge(start, interval, k) - offset as real,
                      HHMM(TotalDuration(StartingFrom(Pool(entries, start, interval, k), Edge(start, interval, k)))))
         == RowFor(entries, start, interval, offset, k)
    ensures Rows(entries, start, interval, offset, k + 1)
         == Rows(entries, start, interval, offset, k) + [RowFor(entries, start, interval, offset, k)]
  {
    WalkStep(entries, start, interval, k);
  }

  /** sumByInterval: no rows when there are no entries, otherwise `max` rows,
      newest bucket first (row k is bucket k, see RowsAt). */
  method SumByInterval(entries: seq<EntryWithTag>, start: real, interval: real, max: int, offset: int)
    returns (result: seq<BucketRow>)
    ensures |result| == if entries == [] || max <= 0 then 0 else max
    ensures result == Rows(entries, start, interval, offset, |result|)
  {
    result := [];
    var currentEntries := entries;
    var currentStart := start;
    var cutOff := max;
    while |entries| > 0 && cutOff > 0
      invariant |result| == max - cutOff
      invariant cutOff <= max && (cutOff < max ==> cutOff >= 0 && entries != [])
      invariant currentStart == Edge(start, interval, |result|)
      invariant currentEntries == Pool(entries, start, interval, |result|)
      invariant result == Rows(entries, start, interval, offset, |result|)
      decreases cutOff
    {
      var k := |result|;
      var entriesInInterval := StartingFrom(currentEntries, currentStart);
      var row := BucketRow(currentStart - offset as real, HHMM(TotalDuration(entriesInInterval)));
      WalkRow(entries, start, interval, offset, k);
      assert row == RowFor(entries, start, interval, offset, k);
      result := result + [row];
      currentEntries := StartingBefore(entries, currentStart);
      currentStart := currentStart - interval;
      cutOff := cutOff - 1;
    }
  }

  /** With a positive interval, older buckets have lower edges. */
  lemma {:induction false} EdgesDecrease(start: real, interval: real, a: nat, b: nat)
    ensures interval > 0.0 && a < b ==> Edge(start, interval, b) < Edge(start, interval, a)
  {
    if interval > 0.0 && a < b - 1 {
      EdgesDecrease(start, interval, a, b - 1);
    }
  }

  /** An entry falls in at most one bucket, whatever the interval. */
  lemma BucketsAreDisjoint(e: EntryWithTag, start: real, interval: real, k1: nat, k2: nat)
    requires InBucket(e, start, interval, k1) && InBucket(e, start, interval, k2)
    ensures k1 == k2
  {
    // a bucket other than the newest is non-empty only when the walk goes back in time
    if k1 >= 1 {
      EdgeStep(start, interval, k1 - 1);
      EdgesDecrease(start, interval, k2, k1 - 1);
    }
    if k2 >= 1 {
      EdgeStep(start, interval, k2 - 1);
      EdgesDecrease(start, interval, k1, k2 - 1);
    }
  }

  /** With a positive interval the labels strictly decrease: newest bucket first. */
  lemma LabelsDecrease(start: real, interval: real, offset: int, i: nat, j: nat)
    requires interval > 0.0 && i < j
    ensures Edge(start, interval, j) - offset as real < Edge(start, interval, i) - offset as real
  {
    EdgesDecrease(start, interval, i, j);
  }

  /** The seconds of the first n rows. */
  function RowsSeconds(es: seq<EntryWithTag>, start: real, interval: real, n: nat): int {
    if n == 0 then 0 else RowsSeconds(es, start, interval, n - 1) + BucketSeconds(es, start, interval, n - 1)
  }

  /** Entries from lo on are those from hi on plus those in [lo, hi). */
  lemma {:induction false} SplitAtEdge(es: seq<EntryWithTag>, lo: real, hi: real)
    requires lo <= hi
    ensures TotalDuration(StartingFrom(es, lo)) == TotalDuration(StartingFrom(es, hi)) + TotalDuration(Window(es, lo, hi))
  {
    if es != [] {
      var x, rest := es[0], es[1..];
      SplitAtEdge(rest, lo, hi);
      var a, b, w := StartingFrom(rest, lo), StartingFrom(rest, hi), Window(rest, lo, hi);
      var pa, pb, pw := (if Start(x) >= lo then [x] else []), (if Start(x) >= hi then [x] else []),
                        (if lo <= Start(x) < hi then [x] else []);
      assert StartingFrom(es, lo) == pa + a;
      assert StartingFrom(es, hi) == pb + b;
      assert Window(es, lo, hi) == pw + w;
      TotalCons(x, a);
      TotalCons(x, b);
      TotalCons(x, w);
      assert [] + a == a && [] + b == b && [] + w == w;
    }
  }

  /** With a positive interval the first n rows add up to exactly the entries
      starting at or after the lower edge of row n - 1: each such entry is
      counted once, and older ones are ignored. */
  lemma {:induction false} RowsCoverRecentEntries(es: seq<EntryWithTag>, start: real, interval: real, n: nat)
    requires interval > 0.0 && n >= 1
    ensures RowsSeconds(es, start, interval, n) == TotalDuration(StartingFrom(es, Edge(start, interval, n - 1)))
  {
    if n > 1 {
      RowsCoverRecentEntries(es, start, interval, n - 1);
      EdgeStep(start, interval, n - 2);
      SplitAtEdge(es, Edge(start, interval, n - 1), Edge(start, interval, n - 2));
    }
  }

  lemma {:induction false} TotalOfNonNegative(es: seq<EntryWithTag>, t: real)
    requires forall e :: e in es ==> Duration(e) >= 0
    ensures 0 <= TotalDuration(StartingFrom(es, t)) <= TotalDuration(es)
  {
    if es != [] {
      var x, rest := es[0], es[1..];
      assert forall e :: e in rest ==> e in es;
      TotalOfNonNegative(rest, t);
      var a := StartingFrom(rest, t);
      TotalCons(x, a);
      assert es == [x] + rest;
      TotalCons(x, rest);
      if Start(x) >= t {
        assert StartingFrom(es, t) == [x] + a;
      } else {
        assert StartingFrom(es, t) == [] + a;
        assert [] + a == a;
      }
    }
  }

  /** For well-formed entries the rows never add up to more than the total. */
  lemma RowsAtMostTotal(es: seq<EntryWithTag>, start: real, interval: real, n: nat)
    requires interval > 0.0
    requires forall e :: e in es ==> Duration(e) >= 0
    ensures 0 <= RowsSeconds(es, start, interval, n) <= TotalDuration(es)
  {
    if n >= 1 {
      RowsCoverRecentEntries(es, start, interval, n);
      TotalOfNonNegative(es, Edge(start, interval, n - 1));
    } else {
      TotalOfNonNegative(es, start);
    }
  }

  // ---------------------------------------------------------------------------
  // Tag ranking

  /** A group of the tag map, listed with its key. */
  datatype TagGroup = TagGroup(id: int, name: string, totalSeconds: int)

  /** A value of the tag map; the colour is stored but never read. */
  datatype TagInfo = TagInfo(name: string, color: Color, totalSeconds: int)

  function TotalKey(g: TagGroup): int { g.totalSeconds }

  predicate Tagged(e: EntryWithTag) { e.tag.Some? }

  /** The keys of the tag map in insertion order: the tag ids of tagged
      entries, each once, in order of first appearance. */
  function TagOrder(es: seq<EntryWithTag>): (r: seq<int>)
    ensures forall id :: id in r <==> exists i :: 0 <= i < |es| && Tagged(es[i]) && es[i].entry.tagId == id
    ensures forall i, j :: 0 <= i < j < |r| ==> r[i] != r[j]
  {
    if es == [] then []
    else
      var p, e := es[..|es| - 1], es[|es| - 1];
      var o := TagOrder(p);
      assert forall i :: 0 <= i < |p| ==> p[i] == es[i];
      if Tagged(e) && e.entry.tagId !in o then o + [e.entry.tagId] else o
  }

  /** The seconds of the tagged entries with the given tag id. */
  function TagSeconds(es: seq<EntryWithTag>, id: int): int {
    if es == [] then 0
    else
      var e := es[|es| - 1];
      TagSeconds(es[..|es| - 1], id) + (if Tagged(e) && e.entry.tagId == id then Duration(e) else 0)
  }

  /** The name the tag map keeps for an id: that of the first tagged entry with it. */
  function TagName(es: seq<EntryWithTag>, id: int): string {
    if es == [] then ""
    else
      var p, e := es[..|es| - 1], es[|es| - 1];
      if Tagged(e) && e.entry.tagId == id && id !in TagOrder(p) then e.tag.value.name else TagName(p, id)
  }

  /** The groups of the tag map, in insertion order. */
  function TagGroups(es: seq<EntryWithTag>): (r: seq<TagGroup>)
    ensures |r| == |TagOrder(es)|
  {
    var o := TagOrder(es);
    seq(|o|, i requires 0 <= i < |o| => TagGroup(o[i], TagName(es, o[i]), TagSeconds(es, o[i])))
  }

  /** One row per group: the tag name and its formatted total. */
  function TagRows(gs: seq<TagGroup>): (r: seq<Row>)
    ensures |r| == |gs|
  {
    seq(|gs|, i requires 0 <= i < |gs| => Row(gs[i].name, HHMM(gs[i].totalSeconds)))
  }

  /** The groups, ranked: largest total first, ties in insertion order. */
  function RankedGroups(es: seq<EntryWithTag>): seq<TagGroup> {
    SortDesc(TagGroups(es), TotalKey)
  }

  /** What one more entry does to the order, the seconds and the names. */
  lemma TagStep(es: seq<EntryWithTag>, e: EntryWithTag)
    ensures TagOrder(es + [e]) == if Tagged(e) && e.entry.tagId !in TagOrder(es)
                                  then TagOrder(es) + [e.entry.tagId] else TagOrder(es)
    ensures forall id :: TagSeconds(es + [e], id)
                      == TagSeconds(es, id) + (if Tagged(e) && e.entry.tagId == id then Duration(e) else 0)
    ensures forall id :: TagName(es + [e], id)
                      == if Tagged(e) && e.entry.tagId == id && id !in TagOrder(es) then e.tag.value.name else TagName(es, id)
  {
    assert (es + [e])[..|es|] == es;
  }

  /** An id no tagged entry carries has no seconds. */
  lemma {:induction false} TagSecondsAbsent(es: seq<EntryWithTag>, id: int)
    requires id !in TagOrder(es)
    ensures TagSeconds(es, id) == 0
  {
    if es != [] {
      var p := es[..|es| - 1];
      assert forall x :: x in TagOrder(p) ==> x in TagOrder(es);
      TagSecondsAbsent(p, id);
    }
  }

  /** The tag map and its insertion order describe the groups of es. */
  ghost predicate GroupsMatch(tagGroups: map<int, TagInfo>, keys: seq<int>, es: seq<EntryWithTag>) {
    && keys == TagOrder(es)
    && (forall id :: id in tagGroups <==> id in keys)
    && forall id :: id in keys ==>
         tagGroups[id].name == TagName(es, id) && tagGroups[id].totalSeconds == TagSeconds(es, id)
  }

  /** One pass of the accumulation loop: an entry with a tag adds its working
      time to its tag's group, creating the group on first sight. */
  method AccumulateEntry(tagGroups: map<int, TagInfo>, keys: seq<int>, ghost prefix: seq<EntryWithTag>,
                         entry: EntryWithTag)
    returns (tagGroups': map<int, TagInfo>, keys': seq<int>)
    requires GroupsMatch(tagGroups, keys, prefix)
    ensures GroupsMatch(tagGroups', keys', prefix + [entry])
  {
    TagStep(prefix, entry);
    tagGroups', keys' := tagGroups, keys;
    if entry.tag.Some? {
      var tagId := entry.entry.tagId;
      var workingTime := entry.entry.endTimeUtc - entry.entry.startTimeUtc;
      if tagId in tagGroups {
        var tagInfo := tagGroups[tagId];
        tagGroups' := tagGroups[tagId := tagInfo.(totalSeconds := tagInfo.totalSeconds + workingTime)];
      } else {
        TagSecondsAbsent(prefix, tagId);
        tagGroups' := tagGroups[tagId := TagInfo(entry.tag.value.name, entry.tag.value.color, workingTime)];
        keys' := keys + [tagId];
      }
    }
  }

  /** Reading the map in insertion order gives the groups of es. */
  lemma GroupsMatchGroups(tagGroups: map<int, TagInfo>, keys: seq<int>, es: seq<EntryWithTag>)
    requires GroupsMatch(tagGroups, keys, es)
    ensures forall j :: 0 <= j < |keys| ==> keys[j] in tagGroups
    ensures seq(|keys|, j requires 0 <= j < |keys| && keys[j] in tagGroups =>
                  TagGroup(keys[j], tagGroups[keys[j]].name, tagGroups[keys[j]].totalSeconds))
            == TagGroups(es)
  {
    forall j | 0 <= j < |keys| ensures keys[j] in tagGroups {
      assert keys[j] in keys;
    }
  }

  /** getTagsWithWorkingHours: accumulate per tag id in a map that remembers
      insertion order, skipping entries without a tag, then rank the groups by
      total, largest first, and format each as a row. */
  method GetTagsWithWorkingHours(entries: seq<EntryWithTag>) returns (rows: seq<Row>)
    ensures rows == TagRows(RankedGroups(entries))
  {
    var tagGroups: map<int, TagInfo> := map[];
    var keys: seq<int> := [];
    for i := 0 to |entries|
      invariant GroupsMatch(tagGroups, keys, entries[..i])
    {
      assert entries[..i + 1] == entries[..i] + [entries[i]];
      tagGroups, keys := AccumulateEntry(tagGroups, keys, entries[..i], entries[i]);
    }
    assert entries[..|entries|] == entries;
    GroupsMatchGroups(tagGroups, keys, entries);
    var result := seq(|keys|, j requires 0 <= j < |keys| && keys[j] in tagGroups =>
                        TagGroup(keys[j], tagGroups[keys[j]].name, tagGroups[keys[j]].totalSeconds));
    rows := TagRows(SortDesc(result, TotalKey));
  }

  /** The map keeps the name of the first tagged entry with an id; later
      entries with the same id only add seconds. */
  lemma {:induction false} TagNameIsFirst(es: seq<EntryWithTag>, i: int)
    requires 0 <= i < |es| && Tagged(es[i])
    requires forall j :: 0 <= j < i ==> !(Tagged(es[j]) && es[j].entry.tagId == es[i].entry.tagId)
    ensures TagName(es, es[i].entry.tagId) == es[i].tag.value.name
  {
    var p := es[..|es| - 1];
    var id := es[i].entry.tagId;
    if i == |es| - 1 {
      assert id !in TagOrder(p) by {
        assert forall j :: 0 <= j < |p| ==> p[j] == es[j];
      }
    } else {
      assert p[i] == es[i];
      TagNameIsFirst(p, i);
      assert id in TagOrder(p);
    }
  }

  /** The ranked groups: largest total first, exactly the groups of the map
      (one per tag id of a tagged entry), each holding its id's seconds and
      first-seen name, and groups with equal totals in insertion order. */
  lemma RankedGroupsProperties(es: seq<EntryWithTag>, v: int)
    ensures var r := RankedGroups(es);
      && NonIncreasing(r, TotalKey)
      && multiset(r) == multiset(TagGroups(es))
      && |r| == |TagOrder(es)|
      && (forall g :: g in r ==> g.id in TagOrder(es) && g.totalSeconds == TagSeconds(es, g.id) && g.name == TagName(es, g.id))
      && (forall i :: 0 <= i < |es| && Tagged(es[i]) ==> exists g :: g in r && g.id == es[i].entry.tagId)
      && WithKey(r, TotalKey, v) == WithKey(TagGroups(es), TotalKey, v)
  {
    var r, gs, o := RankedGroups(es), TagGroups(es), TagOrder(es);
    assert |r| == |gs| by {
      assert |multiset(r)| == |multiset(gs)|;
    }
    forall g | g in r
      ensures g.id in o && g.totalSeconds == TagSeconds(es, g.id) && g.name == TagName(es, g.id)
    {
      SortDescMembers(gs, TotalKey, g);
      var k :| 0 <= k < |gs| && gs[k] == g;
    }
    forall i | 0 <= i < |es| && Tagged(es[i])
      ensures exists g :: g in r && g.id == es[i].entry.tagId
    {
      var id := es[i].entry.tagId;
      assert id in o;
      var k :| 0 <= k < |o| && o[k] == id;
      SortDescMembers(gs, TotalKey, gs[k]);
    }
    SortDescStable(gs, TotalKey, v);
  }

  /** The seconds of all tagged entries. */
  function TaggedSeconds(es: seq<EntryWithTag>): int {
    if es == [] then 0
    else TaggedSeconds(es[..|es| - 1]) + (if Tagged(es[|es| - 1]) then Duration(es[|es| - 1]) else 0)
  }

  /** The totals of a list of groups. */
  function GroupSum(gs: seq<TagGroup>): int {
    if gs == [] then 0 else GroupSum(gs[..|gs| - 1]) + gs[|gs| - 1].totalSeconds
  }

  /** The seconds of the listed ids. */
  function SumOver(es: seq<EntryWithTag>, ids: seq<int>): int {
    if ids == [] then 0 else SumOver(es, ids[..|ids| - 1]) + TagSeconds(es, ids[|ids| - 1])
  }

  lemma {:induction false} GroupSumIsSumOver(es: seq<EntryWithTag>, n: nat)
    requires n <= |TagOrder(es)|
    ensures GroupSum(TagGroups(es)[..n]) == SumOver(es, TagOrder(es)[..n])
  {
    if n > 0 {
      GroupSumIsSumOver(es, n - 1);
      assert TagGroups(es)[..n][..n - 1] == TagGroups(es)[..n - 1];
      assert TagOrder(es)[..n][..n - 1] == TagOrder(es)[..n - 1];
    }
  }

  /** One more entry adds its seconds to the listed ids once, when its tag is among them. */
  lemma {:induction false} SumOverStep(es: seq<EntryWithTag>, e: EntryWithTag, ids: seq<int>)
    requires forall i, j :: 0 <= i < j < |ids| ==> ids[i] != ids[j]
    ensures SumOver(es + [e], ids) == SumOver(es, ids) + (if Tagged(e) && e.entry.tagId in ids then Duration(e) else 0)
  {
    if ids != [] {
      var q := ids[..|ids| - 1];
      SumOverStep(es, e, q);
      TagStep(es, e);
      assert ids == q + [ids[|ids| - 1]];
    }
  }

  /** Every second of every tagged entry lands in exactly one group. */
  lemma {:induction false} GroupsConserveSeconds(es: seq<EntryWithTag>)
    ensures GroupSum(TagGroups(es)) == TaggedSeconds(es)
  {
    SumOverIsTagged(es);
    GroupSumIsSumOver(es, |TagOrder(es)|);
    assert TagGroups(es)[..|TagOrder(es)|] == TagGroups(es);
    assert TagOrder(es)[..|TagOrder(es)|] == TagOrder(es);
  }

  lemma {:induction false} SumOverIsTagged(es: seq<EntryWithTag>)
    ensures SumOver(es, TagOrder(es)) == TaggedSeconds(es)
  {
    if es != [] {
      var p, e := es[..|es| - 1], es[|es| - 1];
      assert es == p + [e];
      SumOverIsTagged(p);
      TagStep(p, e);
      var o := TagOrder(p);
      SumOverStep(p, e, o);
      if Tagged(e) && e.entry.tagId !in o {
        TagSecondsAbsent(p, e.entry.tagId);
        assert (o + [e.entry.tagId])[..|o|] == o;
      }
    }
  }

  // ---------------------------------------------------------------------------
  // The analytics report

  /** The three instants the walks start from. */
  datatype Anchors = Anchors(dayStart: int, weekStart: int, monthStart: int)

  /** The weekday n days before a day whose weekday is dow (0 is Sunday). */
  function WeekdayBefore(dow: int, n: int): int {
    (dow - n) % 7
  }

  /** The anchors for a clock reading and the weekday it falls on: the UTC
      midnight of the current day shifted by the offset, and that midnight
      moved back to the last Monday (week) or the last Sunday (month). */
  function AnchorsAt(nowInSeconds: int, dayOfWeek: int, utcOffset: int): (a: Anchors)
    requires 0 <= dayOfWeek < 7
    ensures nowInSeconds >= 0 ==>
      && (a.dayStart - utcOffset) % SECONDS_PER_DAY == 0
      && a.dayStart - utcOffset <= nowInSeconds < a.dayStart - utcOffset + SECONDS_PER_DAY
    ensures (a.dayStart - a.weekStart) % SECONDS_PER_DAY == 0
    ensures (a.dayStart - a.monthStart) % SECONDS_PER_DAY == 0
    ensures var w, m := (a.dayStart - a.weekStart) / SECONDS_PER_DAY, (a.dayStart - a.monthStart) / SECONDS_PER_DAY;
      && 0 <= w <= 6 && WeekdayBefore(dayOfWeek, w) == 1
      && 0 <= m <= 6 && WeekdayBefore(dayOfWeek, m) == 0
  {
    var daysWeekSubtract := (dayOfWeek + 6) % 7;
    var daysMonthSubtract := dayOfWeek;
    var midnight := nowInSeconds - JsRem(nowInSeconds, SECONDS_PER_DAY);
    Anchors(midnight + utcOffset,
            midnight - daysWeekSubtract * SECONDS_PER_DAY + utcOffset,
            midnight - daysMonthSubtract * SECONDS_PER_DAY + utcOffset)
  }

  /** The user's entries with their tag relation included, newest first. */
  function AnalyticsEntries(entries: seq<Entry>, tags: seq<Tag>, userId: int): seq<EntryWithTag> {
    SortDesc(WithTags(EntriesOf(entries, userId), tags), StartKey)
  }

  /** Each entry paired with the tag its tag id refers to. */
  function WithTags(es: seq<Entry>, tags: seq<Tag>): (r: seq<EntryWithTag>)
    ensures |r| == |es|
    ensures forall i :: 0 <= i < |es| ==> r[i] == EntryWithTag(es[i], TagById(tags, es[i].tagId))
  {
    seq(|es|, i requires 0 <= i < |es| => EntryWithTag(es[i], TagById(tags, es[i].tagId)))
  }

  /** The report walks over exactly the user's entries, each with its own tag,
      newest first. */
  lemma AnalyticsEntriesProperties(entries: seq<Entry>, tags: seq<Tag>, userId: int, x: EntryWithTag)
    ensures NonIncreasing(AnalyticsEntries(entries, tags, userId), StartKey)
    ensures x in AnalyticsEntries(entries, tags, userId)
        <==> x.entry in entries && x.entry.userId == userId && x.tag == TagById(tags, x.entry.tagId)
  {
    var own := EntriesOf(entries, userId);
    var joined := WithTags(own, tags);
    SortDescMembers(joined, StartKey, x);
    if x.entry in own && x.tag == TagById(tags, x.entry.tagId) {
      var i :| 0 <= i < |own| && own[i] == x.entry;
      assert joined[i] == x;
    }
  }

  function StartKey(e: EntryWithTag): int { e.entry.startTimeUtc }

  datatype Analytics = Analytics(day: seq<BucketRow>, week: seq<BucketRow>, month: seq<BucketRow>, tags: seq<Row>)

  /** How many rows a walk of at most max buckets yields. */
  function RowCount(es: seq<EntryWithTag>, max: nat): nat {
    if es == [] then 0 else max
  }

  /** getAnalyticsData: 14 day rows, 52 week rows and 12 month rows walked back
      from the anchors (none at all when the user has no entries), and the tag
      ranking, all over the user's entries newest first. The clock reading
      and its weekday are parameters. */
  method GetAnalyticsData(db: Db, userId: int, utcOffset: int, nowInSeconds: int, dayOfWeek: int)
    returns (report: Analytics)
    requires 0 <= dayOfWeek < 7
    ensures var es, a := AnalyticsEntries(db.entries, db.tags, userId), AnchorsAt(nowInSeconds, dayOfWeek, utcOffset);
      && report.day == Rows(es, a.dayStart as real, SECONDS_PER_DAY as real, utcOffset, RowCount(es, 14))
      && report.week == Rows(es, a.weekStart as real, SECONDS_PER_WEEK as real, utcOffset, RowCount(es, 52))
      && report.month == Rows(es, a.monthStart as real, SECONDS_PER_MONTH, utcOffset, RowCount(es, 12))
      && report.tags == TagRows(RankedGroups(es))
  {
    var entries := AnalyticsEntries(db.entries, db.tags, userId);
    var anchors := AnchorsAt(nowInSeconds, dayOfWeek, utcOffset);
    var daysSum := SumByInterval(entries, anchors.dayStart as real, SECONDS_PER_DAY as real, 14, utcOffset);
    var weeksSum := SumByInterval(entries, anchors.weekStart as real, SECONDS_PER_WEEK as real, 52, utcOffset);
    var monthsSum := SumByInterval(entries, anchors.monthStart as real, SECONDS_PER_MONTH, 12, utcOffset);
    var tagsSummary := GetTagsWithWorkingHours(entries);
    report := Analytics(daysSum, weeksSum, monthsSum, tagsSummary);
  }
}
