/** The timeline of the main panel: one card per row that has a local time, four cards to a grid row. */
module Timeline {
  import opened Wrappers
  import opened Seqs
  import opened WeatherIcon
  import opened Forecast

  /** The number of cards in a full grid row (`cols_per_row`). */
  const ColsPerRow: nat := 4

  /**
   * One hourly card: its local time (shown as hour and date), temperature and humidity
   * when present, and the description it shows. The card's icon is not stored apart:
   * it is always the classification of that description.
   */
  datatype Card = Card(time: int, suhu: Option<real>, kelembaban: Option<real>, cuaca: string)
  {
    /** The card's `emoji` entry. */
    function Emoji(): Icon
    {
      WeatherEmoji(Some(cuaca))
    }
  }

  /** The card of a row with a local time; a missing description is shown as "N/A". */
  function MakeCard(r: ForecastRow): Card
    requires r.local.Some?
  {
    Card(r.local.value, r.suhu, r.kelembaban, r.cuaca.GetOr("N/A"))
  }

  /** The card a row contributes: one if it has a local time, none otherwise. */
  function CardsOf(r: ForecastRow): (cards: seq<Card>)
    ensures |cards| == (if r.local.Some? then 1 else 0)
  {
    if r.local.Some? then [MakeCard(r)] else []
  }

  /** The cards of a table: one for each row with a local time, in row order. */
  function Cards(df: seq<ForecastRow>): (cards: seq<Card>)
    ensures |cards| <= |df|
    decreases |df|
  {
    if df == [] then [] else Cards(df[..|df| - 1]) + CardsOf(df[|df| - 1])
  }

  lemma CardsSnoc(df: seq<ForecastRow>, k: nat)
    requires k < |df|
    ensures Cards(df[..k + 1]) == Cards(df[..k]) + CardsOf(df[k])
  {
    assert df[..k + 1][..k] == df[..k];
  }

  /**
   * The grid loop: cards collected into a current row that is closed at four cards, and a
   * partial last row closed after the loop. Laid end to end the grid rows are the cards in
   * order; every row is full except perhaps the last, and none is empty; so the grid is the
   * cards chunked by four.
   */
  method BuildGrid(df: seq<ForecastRow>) returns (rows: seq<seq<Card>>)
    ensures Concat(rows) == Cards(df)
    ensures forall i :: 0 <= i < |rows| ==> 0 < |rows[i]| <= ColsPerRow
    ensures forall i :: 0 <= i < |rows| - 1 ==> |rows[i]| == ColsPerRow
    ensures rows == Chunks(Cards(df), ColsPerRow)
  {
    rows := [];
    var currentRow: seq<Card> := [];
    for k := 0 to |df|
      invariant Concat(rows) + currentRow == Cards(df[..k])
      invariant FullRows(rows)
      invariant |currentRow| < ColsPerRow
    {
      CardsSnoc(df, k);
      if df[k].local.Some? {
        var card := MakeCard(df[k]);
        assert Cards(df[..k + 1]) == Concat(rows) + (currentRow + [card]);
        currentRow := currentRow + [card];
        if |currentRow| == ColsPerRow {
          ConcatSnoc(rows, currentRow);
          FullRowsSnoc(rows, currentRow);
          rows := rows + [currentRow];
          currentRow := [];
        }
      }
    }
    assert df[..|df|] == df;
    CloseGrid(rows, currentRow, Cards(df));
    if currentRow != [] {
      rows := rows + [currentRow];
    }
  }

  /** Every row of the grid so far holds four cards. */
  ghost predicate FullRows(rows: seq<seq<Card>>)
  {
    forall i :: 0 <= i < |rows| ==> |rows[i]| == ColsPerRow
  }

  lemma FullRowsSnoc(rows: seq<seq<Card>>, row: seq<Card>)
    requires FullRows(rows) && |row| == ColsPerRow
    ensures FullRows(rows + [row])
  {
  }

  /** Closing the partial last row leaves a grid of the right shape: the cards chunked by four. */
  lemma CloseGrid(rows: seq<seq<Card>>, currentRow: seq<Card>, cards: seq<Card>)
    requires Concat(rows) + currentRow == cards
    requires FullRows(rows)
    requires |currentRow| < ColsPerRow
    ensures var grid := if currentRow == [] then rows else rows + [currentRow];
      && Concat(grid) == cards
      && (forall i :: 0 <= i < |grid| ==> 0 < |grid[i]| <= ColsPerRow)
      && (forall i :: 0 <= i < |grid| - 1 ==> |grid[i]| == ColsPerRow)
      && grid == Chunks(cards, ColsPerRow)
  {
    var grid := if currentRow == [] then rows else rows + [currentRow];
    if currentRow == [] {
      assert Concat(rows) + currentRow == Concat(rows);
    } else {
      ConcatSnoc(rows, currentRow);
    }
    ChunksUnique(grid, cards, ColsPerRow);
  }

  /** A grid of n cards has ceil(n / 4) rows. */
  lemma {:induction false} GridRowCount(cards: seq<Card>)
    ensures |Chunks(cards, ColsPerRow)| == (|cards| + 3) / 4
    decreases |cards|
  {
    if |cards| > ColsPerRow {
      GridRowCount(cards[ColsPerRow..]);
    }
  }

  /** Every row of the 24-hour window has a local time, so each one gets a card, in order. */
  lemma {:induction false} CardsOfWindow(df: seq<ForecastRow>, now: int)
    ensures |Cards(Filter24Hours(df, now))| == |Filter24Hours(df, now)|
  {
    var w := Filter24Hours(df, now);
    forall x | x in w ensures x.local.Some? {
      FilterKeepsWindow(df, now, x);
    }
    CardsAll(w);
  }

  lemma {:induction false} CardsAll(df: seq<ForecastRow>)
    requires forall x :: x in df ==> x.local.Some?
    ensures |Cards(df)| == |df|
    ensures forall i :: 0 <= i < |df| ==> Cards(df)[i] == MakeCard(df[i])
    decreases |df|
  {
    if df != [] {
      var init := df[..|df| - 1];
      assert forall x :: x in init ==> x in df;
      CardsAll(init);
      assert df[|df| - 1] in df;
      assert CardsOf(df[|df| - 1]) == [MakeCard(df[|df| - 1])];
    }
  }

  /**
   * The timeline of a table sorted by local time: its cards come in time order and every
   * card's time lies in the 24-hour window.
   */
  lemma TimelineInOrder(df: seq<ForecastRow>, now: int)
    requires SortedByLocal(df)
    ensures var cards := Cards(Filter24Hours(df, now));
      && (forall i, j :: 0 <= i < j < |cards| ==> cards[i].time <= cards[j].time)
      && (forall i :: 0 <= i < |cards| ==> now <= cards[i].time <= now + Day)
  {
    var w := Filter24Hours(df, now);
    FilterKeepsSorted(df, now);
    forall x | x in w ensures InWindow(x, now) {
      FilterKeepsWindow(df, now, x);
    }
    CardsAll(w);
    var cards := Cards(w);
    forall i | 0 <= i < |cards| ensures now <= cards[i].time <= now + Day {
      assert w[i] in w;
    }
    forall i, j | 0 <= i < j < |cards| ensures cards[i].time <= cards[j].time {
      assert w[i] in w && w[j] in w;
      assert LocalLe(w[i], w[j]);
    }
  }

  /** A row whose description is missing is shown as "N/A" and so gets the Fair icon, not Unknown. */
  lemma MissingDescriptionCard(r: ForecastRow)
    requires r.local.Some? && r.cuaca.None?
    ensures MakeCard(r).Emoji() == Fair
  {
    var lower := Text.Lower("N/A");
    assert lower == "n/a";
    assert !Text.Contains("cerah", lower) && !Text.Contains("berawan", lower) && !Text.Contains("mendung", lower);
    assert !Text.Contains("hujan", lower) && !Text.Contains("badai", lower) && !Text.Contains("petir", lower);
  }
}
