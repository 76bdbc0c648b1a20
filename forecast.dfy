/**
 * The forecast table (`get_bmkg_data`) and its 24-hour window (`filter_24_hours`).
 * Timestamps are whole seconds; the date parser is a parameter.
 */
module Forecast {
  import opened Wrappers
  import opened Seqs

  // ---------------------------------------------------------------- the feed

  /** One hourly entry of the feed; every field may be absent. */
  datatype Entry = Entry(
    utcDatetime: Option<string>,
    localDatetime: Option<string>,
    t: Option<real>,
    hu: Option<real>,
    weatherDesc: Option<string>,
    image: Option<string>,
    ws: Option<real>,
    wd: Option<string>,
    tcc: Option<real>,
    vsText: Option<string>)

  /** One element of the feed's `data` list: its `cuaca` list of per-day groups of hourly entries. */
  datatype Location = Location(cuaca: Option<seq<seq<Entry>>>)

  /** The HTTP status and the decoded body's `data` list, either of which may be absent. */
  datatype Response = Response(statusCode: int, data: Option<seq<Location>>)

  // ---------------------------------------------------------------- the table

  /** One row of the table; `Time` is the raw text before conversion and a timestamp after it. */
  datatype Row<Time> = Row(
    utc: Option<Time>,
    local: Option<Time>,
    suhu: Option<real>,
    kelembaban: Option<real>,
    cuaca: Option<string>,
    ikon: Option<string>,
    angin: Option<real>,
    arahAngin: Option<string>,
    awan: Option<real>,
    jarakPandang: Option<string>)

  type RawRow = Row<string>
  type ForecastRow = Row<int>

  /** The record built from one entry: each feed field under its column name. */
  function RecordOf(e: Entry): RawRow
  {
    Row(e.utcDatetime, e.localDatetime, e.t, e.hu, e.weatherDesc, e.image, e.ws, e.wd, e.tcc, e.vsText)
  }

  /** The records of a run of entries, one each and in order. */
  function Records(entries: seq<Entry>): (rows: seq<RawRow>)
    ensures |rows| == |entries|
  {
    seq(|entries|, i requires 0 <= i < |entries| => RecordOf(entries[i]))
  }

  lemma RecordsSnoc(entries: seq<Entry>, e: Entry)
    ensures Records(entries + [e]) == Records(entries) + [RecordOf(e)]
  {
    assert forall i :: 0 <= i < |entries| ==> (entries + [e])[i] == entries[i];
  }

  /**
   * The nested loop of `get_bmkg_data`: the records of the groups' entries laid end to
   * end, one per hourly entry.
   */
  method FlattenGroups(cuaca: seq<seq<Entry>>) returns (records: seq<RawRow>)
    ensures records == Records(Concat(cuaca))
    ensures |records| == SumLengths(cuaca)
  {
    records := [];
    for g := 0 to |cuaca|
      invariant records == Records(Concat(cuaca[..g]))
    {
      var grup := cuaca[g];
      for e := 0 to |grup|
        invariant records == Records(Concat(cuaca[..g]) + grup[..e])
      {
        RecordsSnoc(Concat(cuaca[..g]) + grup[..e], grup[e]);
        assert grup[..e + 1] == grup[..e] + [grup[e]];
        records := records + [RecordOf(grup[e])];
      }
      assert cuaca[..g + 1][..g] == cuaca[..g];
      assert grup[..|grup|] == grup;
    }
    assert cuaca[..|cuaca|] == cuaca;
    ConcatLength(cuaca);
  }

  /**
   * The flattened records go group by group and keep each group's entry order: entry j of
   * group i is record number (entries in the groups before i) + j.
   */
  lemma RecordsLayout(cuaca: seq<seq<Entry>>, i: nat, j: nat)
    requires i < |cuaca| && j < |cuaca[i]|
    ensures Offset(cuaca, i) + j < |Records(Concat(cuaca))|
    ensures Records(Concat(cuaca))[Offset(cuaca, i) + j] == RecordOf(cuaca[i][j])
  {
    ConcatAt(cuaca, i, j);
  }

  // ---------------------------------------------------------------- timestamps

  /** `pd.to_datetime(errors='coerce')` on one cell: a missing cell or an unparseable text gives None. */
  function ParseCell(raw: Option<string>, parse: string -> Option<int>): Option<int>
  {
    match raw
    case None => None
    case Some(text) => parse(text)
  }

  /** A record with its two time columns converted. */
  function ConvertRow(r: RawRow, parse: string -> Option<int>): ForecastRow
  {
    Row(ParseCell(r.utc, parse), ParseCell(r.local, parse), r.suhu, r.kelembaban, r.cuaca, r.ikon,
        r.angin, r.arahAngin, r.awan, r.jarakPandang)
  }

  /** The table with its two time columns converted, row for row. */
  function Convert(rows: seq<RawRow>, parse: string -> Option<int>): (table: seq<ForecastRow>)
    ensures |table| == |rows|
  {
    seq(|rows|, i requires 0 <= i < |rows| => ConvertRow(rows[i], parse))
  }

  /**
   * Row i of the converted table: its local time is the parsed local cell, missing when
   * the cell is missing or does not parse; every measurement column is carried over.
   */
  lemma ConvertedRow(rows: seq<RawRow>, parse: string -> Option<int>, i: nat)
    requires i < |rows|
    ensures var r := Convert(rows, parse)[i];
      && (r.local.None? <==> rows[i].local.None? || parse(rows[i].local.value).None?)
      && (rows[i].local.Some? ==> r.local == parse(rows[i].local.value))
      && (r.utc.None? <==> rows[i].utc.None? || parse(rows[i].utc.value).None?)
      && (rows[i].utc.Some? ==> r.utc == parse(rows[i].utc.value))
      && r.suhu == rows[i].suhu && r.kelembaban == rows[i].kelembaban && r.cuaca == rows[i].cuaca
      && r.ikon == rows[i].ikon && r.angin == rows[i].angin && r.arahAngin == rows[i].arahAngin
      && r.awan == rows[i].awan && r.jarakPandang == rows[i].jarakPandang
  {
  }

  // ---------------------------------------------------------------- sort_values('local')

  /** `a` may come before `b` when sorting by local time ascending, missing times last. */
  predicate LocalLe(a: ForecastRow, b: ForecastRow)
  {
    b.local.None? || (a.local.Some? && a.local.value <= b.local.value)
  }

  ghost predicate SortedByLocal(s: seq<ForecastRow>)
  {
    forall i, j :: 0 <= i < j < |s| ==> LocalLe(s[i], s[j])
  }

  /** In an order sorted by local time, every row without a time comes after every row with one. */
  lemma SortedPutsMissingLast(s: seq<ForecastRow>, i: nat, j: nat)
    requires SortedByLocal(s) && i < j < |s|
    requires s[i].local.None?
    ensures s[j].local.None?
  {
  }

  /** `x` placed into the sorted `s`: still sorted, and nothing lost or gained. */
  function Insert(x: ForecastRow, s: seq<ForecastRow>): (r: seq<ForecastRow>)
    requires SortedByLocal(s)
    ensures SortedByLocal(r)
    ensures multiset(r) == multiset(s) + multiset{x}
    decreases |s|
  {
    if s == [] then [x]
    else if LocalLe(x, s[0]) then [x] + s
    else
      var rest := Insert(x, s[1..]);
      InsertBehind(x, s, rest);
      [s[0]] + rest
  }

  /** The step of `Insert` that keeps the head of `s` in front of the rest. */
  lemma InsertBehind(x: ForecastRow, s: seq<ForecastRow>, rest: seq<ForecastRow>)
    requires s != [] && SortedByLocal(s) && !LocalLe(x, s[0])
    requires SortedByLocal(rest) && multiset(rest) == multiset(s[1..]) + multiset{x}
    ensures SortedByLocal([s[0]] + rest)
    ensures multiset([s[0]] + rest) == multiset(s) + multiset{x}
  {
    assert s == [s[0]] + s[1..];
    forall y | y in rest
      ensures LocalLe(s[0], y)
    {
      assert y in multiset(rest);
      if y != x {
        assert y in multiset(s[1..]);
        var k :| 0 <= k < |s[1..]| && s[1..][k] == y;
        assert s[k + 1] == y;
      }
    }
    var r := [s[0]] + rest;
    forall i, j | 0 <= i < j < |r|
      ensures LocalLe(r[i], r[j])
    {
      if i == 0 {
        assert r[j] == rest[j - 1];
        assert rest[j - 1] in rest;
      } else {
        assert r[i] == rest[i - 1] && r[j] == rest[j - 1];
      }
    }
  }

  /** `sort_values('local')`: a reordering of the table, sorted by local time, missing times last. */
  function SortByLocal(s: seq<ForecastRow>): (r: seq<ForecastRow>)
    ensures SortedByLocal(r)
    ensures multiset(r) == multiset(s)
    decreases |s|
  {
    if s == [] then []
    else
      assert s == [s[0]] + s[1..];
      Insert(s[0], SortByLocal(s[1..]))
  }

  // ---------------------------------------------------------------- get_bmkg_data

  /**
   * `get_bmkg_data` after the HTTP request: a status other than 200, or an absent or
   * empty `data` list, gives the empty table; otherwise one row per hourly entry of the
   * first location (an absent `cuaca` list counting as empty), time columns converted,
   * reordered by local time with missing times last.
   */
  method FetchForecast(resp: Response, parse: string -> Option<int>) returns (df: seq<ForecastRow>)
    ensures resp.statusCode != 200 ==> df == []
    ensures resp.data.GetOr([]) == [] ==> df == []
    ensures resp.statusCode == 200 && resp.data.GetOr([]) != [] ==>
              var cuaca := resp.data.value[0].cuaca.GetOr([]);
              && |df| == SumLengths(cuaca)
              && SortedByLocal(df)
              && multiset(df) == multiset(Convert(Records(Concat(cuaca)), parse))
  {
    if resp.statusCode != 200 {
      return [];
    }
    var dataList := resp.data.GetOr([]);
    if |dataList| == 0 {
      return [];
    }
    var cuacaNested := dataList[0].cuaca.GetOr([]);
    var records := FlattenGroups(cuacaNested);
    df := Convert(records, parse);
    if |df| > 0 {
      df := SortByLocal(df);
      assert |multiset(df)| == |df|;
    }
  }

  // ---------------------------------------------------------------- filter_24_hours

  /** `timedelta(hours=24)` in seconds. */
  const Day: int := 24 * 60 * 60

  /** The row's local time lies in the closed window [now, now + 24 hours]; a missing time never does. */
  predicate InWindow(r: ForecastRow, now: int)
  {
    r.local.Some? && now <= r.local.value <= now + Day
  }

  /** The boolean mask `(df['local'] >= now) & (df['local'] <= next_24h)`. */
  function Mask(df: seq<ForecastRow>, now: int): (mask: seq<bool>)
    ensures |mask| == |df|
  {
    seq(|df|, i requires 0 <= i < |df| => InWindow(df[i], now))
  }

  /** `s[mask]`: the elements whose mask entry is true, in order. */
  function Select<T>(s: seq<T>, mask: seq<bool>): (r: seq<T>)
    requires |mask| == |s|
    ensures |r| <= |s|
    ensures forall x :: x in r ==> x in s
    decreases |s|
  {
    if s == [] then [] else (if mask[0] then [s[0]] else []) + Select(s[1..], mask[1..])
  }

  /** `filter_24_hours(df)` with `datetime.now()` passed in as `now`. */
  function Filter24Hours(df: seq<ForecastRow>, now: int): (w: seq<ForecastRow>)
    ensures |w| <= |df|
    ensures forall x :: x in w ==> x in df
  {
    if df == [] then df else Select(df, Mask(df, now))
  }

  /** The rows in the window, in order: the reference reading of the filter. */
  function KeepInWindow(df: seq<ForecastRow>, now: int): seq<ForecastRow>
    decreases |df|
  {
    if df == [] then [] else (if InWindow(df[0], now) then [df[0]] else []) + KeepInWindow(df[1..], now)
  }

  /** Selecting with the mask is keeping the rows in the window. */
  lemma {:induction false} FilterIsKeep(df: seq<ForecastRow>, now: int)
    ensures Filter24Hours(df, now) == KeepInWindow(df, now)
    decreases |df|
  {
    if df != [] {
      assert Mask(df, now)[1..] == Mask(df[1..], now);
      FilterIsKeep(df[1..], now);
    }
  }

  lemma {:induction false} KeepAppend(a: seq<ForecastRow>, b: seq<ForecastRow>, now: int)
    ensures KeepInWindow(a + b, now) == KeepInWindow(a, now) + KeepInWindow(b, now)
    decreases |a|
  {
    if a == [] {
      assert a + b == b;
    } else {
      assert (a + b)[0] == a[0] && (a + b)[1..] == a[1..] + b;
      KeepAppend(a[1..], b, now);
      var head := if InWindow(a[0], now) then [a[0]] else [];
      calc {
        KeepInWindow(a + b, now);
        head + KeepInWindow(a[1..] + b, now);
        head + (KeepInWindow(a[1..], now) + KeepInWindow(b, now));
        (head + KeepInWindow(a[1..], now)) + KeepInWindow(b, now);
      }
    }
  }

  /**
   * The filter keeps order: filtering two stretches of rows one after the other is
   * filtering them together, and a single row is kept exactly when it lies in the window.
   */
  lemma FilterOrder(a: seq<ForecastRow>, b: seq<ForecastRow>, x: ForecastRow, now: int)
    ensures Filter24Hours(a + b, now) == Filter24Hours(a, now) + Filter24Hours(b, now)
    ensures Filter24Hours([x], now) == if InWindow(x, now) then [x] else []
  {
    FilterIsKeep(a + b, now);
    FilterIsKeep(a, now);
    FilterIsKeep(b, now);
    KeepAppend(a, b, now);
    FilterIsKeep([x], now);
    assert [x][1..] == [];
  }

  lemma {:induction false} KeepCounts(df: seq<ForecastRow>, now: int, x: ForecastRow)
    ensures multiset(KeepInWindow(df, now))[x] == if InWindow(x, now) then multiset(df)[x] else 0
    decreases |df|
  {
    if df != [] {
      KeepCounts(df[1..], now, x);
      assert df == [df[0]] + df[1..];
    }
  }

  /**
   * The filter keeps exactly the rows in the window: each one as often as the table holds
   * it, and no other row.
   */
  lemma FilterKeepsWindow(df: seq<ForecastRow>, now: int, x: ForecastRow)
    ensures multiset(Filter24Hours(df, now))[x] == if InWindow(x, now) then multiset(df)[x] else 0
    ensures x in Filter24Hours(df, now) <==> x in df && InWindow(x, now)
  {
    FilterIsKeep(df, now);
    KeepCounts(df, now, x);
  }

  lemma {:induction false} KeepSorted(df: seq<ForecastRow>, now: int)
    requires SortedByLocal(df)
    ensures SortedByLocal(KeepInWindow(df, now))
    decreases |df|
  {
    if df != [] {
      KeepSorted(df[1..], now);
      var rest := KeepInWindow(df[1..], now);
      forall y | y in rest ensures LocalLe(df[0], y) {
        KeepCounts(df[1..], now, y);
        assert y in df[1..];
      }
    }
  }

  /** A table sorted by local time stays sorted when filtered to the window. */
  lemma FilterKeepsSorted(df: seq<ForecastRow>, now: int)
    requires SortedByLocal(df)
    ensures SortedByLocal(Filter24Hours(df, now))
  {
    FilterIsKeep(df, now);
    KeepSorted(df, now);
  }
}
