/**
 The stock ticker: a fixed list of stocks, the position of the featured
 one, and a play/pause flag. While playing, a repeating timer moves the
 position one step forward, wrapping from the last stock to the first; the
 play/pause button flips the flag. The timer is modelled as a discrete
 `Tick` event.
 */
module Ticker {

  /** One ticker stock. Prices and changes are display values: nothing computes with them. */
  datatype Stock = Stock(
    symbol: string,
    name: string,
    price: real,
    change: real,
    changePercent: real,
    volume: string)

  /**
   The ticker's state. The position starts at 0 and only ever moves by
   `(prev + 1) % length`, so it is never negative; on non-negative values
   Dafny's `%` and JavaScript's truncating `%` agree.
   */
  datatype TickerState = TickerState(stocks: seq<Stock>, currentIndex: nat, isPlaying: bool)

  /** What drives the ticker: a timer firing, or a press of the play/pause button. */
  datatype Event = Tick | PlayPause

  /** One row of the "Market Movers" list. */
  datatype Row = Row(stock: Stock, highlighted: bool)

  /** `autoScroll` defaults to playing. */
  const DefaultAutoScroll := true

  /** The position indexes the stock list. */
  predicate Valid(t: TickerState) {
    t.currentIndex < |t.stocks|
  }

  /** The ticker as mounted: first stock featured, playing as `autoScroll` says. */
  function Init(stocks: seq<Stock>, autoScroll: bool): (t: TickerState)
    ensures t.stocks == stocks && t.currentIndex == 0 && t.isPlaying == autoScroll
    ensures Valid(t) <==> |stocks| > 0
  {
    TickerState(stocks, 0, autoScroll)
  }

  /**
   A timer firing. The interval only runs while playing, so a paused ticker
   is unchanged; a playing one moves to the next stock, from the last back
   to the first (`(prev + 1) % stocks.length`).
   */
  function Step(t: TickerState): (r: TickerState)
    requires |t.stocks| > 0
    ensures r.stocks == t.stocks && r.isPlaying == t.isPlaying
    ensures !t.isPlaying ==> r == t
    ensures Valid(t) ==> Valid(r)
    ensures Valid(t) && t.isPlaying && t.currentIndex < |t.stocks| - 1 ==> r.currentIndex == t.currentIndex + 1
    ensures Valid(t) && t.isPlaying && t.currentIndex == |t.stocks| - 1 ==> r.currentIndex == 0
  {
    if t.isPlaying then t.(currentIndex := (t.currentIndex + 1) % |t.stocks|) else t
  }

  /** The play/pause button: flips the flag and keeps the featured stock. */
  function PlayPauseButton(t: TickerState): (r: TickerState)
    ensures r.isPlaying == !t.isPlaying
    ensures r.stocks == t.stocks && r.currentIndex == t.currentIndex
    ensures Valid(r) <==> Valid(t)
  {
    t.(isPlaying := !t.isPlaying)
  }

  /** Pressing play/pause twice restores the state. */
  lemma PlayPauseInvolution(t: TickerState)
    ensures PlayPauseButton(PlayPauseButton(t)) == t
  {
  }

  /** One event: a timer firing or a button press. */
  function Handle(t: TickerState, e: Event): (r: TickerState)
    requires |t.stocks| > 0
    ensures r.stocks == t.stocks
    ensures Valid(t) ==> Valid(r)
    ensures e.Tick? ==> r.isPlaying == t.isPlaying
    ensures e.Tick? && !t.isPlaying ==> r == t
    ensures e.Tick? && t.isPlaying ==> r.currentIndex == (t.currentIndex + 1) % |t.stocks|
    ensures e.PlayPause? ==> r.isPlaying == !t.isPlaying && r.currentIndex == t.currentIndex
  {
    match e
    case Tick => Step(t)
    case PlayPause => PlayPauseButton(t)
  }

  /** A run of events, handled left to right. */
  function Run(t: TickerState, events: seq<Event>): (r: TickerState)
    requires |t.stocks| > 0
    ensures r.stocks == t.stocks
    decreases |events|
  {
    if |events| == 0 then t else Run(Handle(t, events[0]), events[1..])
  }

  /** Whatever the events, the position keeps indexing the stock list. */
  lemma {:induction false} RunKeepsValid(t: TickerState, events: seq<Event>)
    requires Valid(t)
    ensures Valid(Run(t, events))
    decreases |events|
  {
    if |events| > 0 {
      RunKeepsValid(Handle(t, events[0]), events[1..]);
    }
  }

  /** `n` timer firings in a row. */
  function Ticks(t: TickerState, n: nat): (r: TickerState)
    requires |t.stocks| > 0
    ensures r.stocks == t.stocks && r.isPlaying == t.isPlaying
    ensures Valid(t) ==> Valid(r)
    decreases n
  {
    if n == 0 then t else Step(Ticks(t, n - 1))
  }

  lemma MulAtLeast(k: int, len: int)
    requires k >= 1 && len > 0
    ensures k * len >= len
  {
  }

  /** The remainder is the one `r` with `a == q * len + r` and `0 <= r < len`. */
  lemma ModUnique(a: int, len: int, q: int, r: int)
    requires len > 0 && 0 <= r < len && a == q * len + r
    ensures a % len == r
  {
    var d := a / len;
    assert a == d * len + a % len;
    assert (q - d) * len == a % len - r;
    if q - d >= 1 {
      MulAtLeast(q - d, len);
    } else if d - q >= 1 {
      MulAtLeast(d - q, len);
    }
  }

  /** Stepping a remainder forward and reducing again is stepping the value forward. */
  lemma ModSucc(a: int, len: int)
    requires len > 0
    ensures ((a % len) + 1) % len == (a + 1) % len
  {
    var q, r := a / len, a % len;
    assert a == q * len + r;
    if r + 1 < len {
      ModUnique(a + 1, len, q, r + 1);
      ModUnique(r + 1, len, 0, r + 1);
    } else {
      ModUnique(a + 1, len, q + 1, 0);
      ModUnique(r + 1, len, 1, 0);
    }
  }

  /** While playing, `n` firings move the position `n` steps forward, cyclically. */
  lemma {:induction false} TicksAdvance(t: TickerState, n: nat)
    requires Valid(t) && t.isPlaying
    ensures Ticks(t, n).currentIndex == (t.currentIndex + n) % |t.stocks|
    decreases n
  {
    if n > 0 {
      TicksAdvance(t, n - 1);
      ModSucc(t.currentIndex + n - 1, |t.stocks|);
    }
  }

  /** While playing, as many firings as there are stocks bring the ticker back where it was. */
  lemma FullCycle(t: TickerState)
    requires Valid(t) && t.isPlaying
    ensures Ticks(t, |t.stocks|) == t
  {
    TicksAdvance(t, |t.stocks|);
    ModUnique(t.currentIndex + |t.stocks|, |t.stocks|, 1, t.currentIndex);
  }

  /** While paused, no number of firings changes anything. */
  lemma {:induction false} PausedTicksIdle(t: TickerState, n: nat)
    requires |t.stocks| > 0 && !t.isPlaying
    ensures Ticks(t, n) == t
    decreases n
  {
    if n > 0 {
      PausedTicksIdle(t, n - 1);
    }
  }

  /**
   Pausing, letting any number of firings pass and resuming gives back the
   ticker as it was paused.
   */
  lemma PauseResume(t: TickerState, n: nat)
    requires |t.stocks| > 0 && t.isPlaying
    ensures PlayPauseButton(Ticks(PlayPauseButton(t), n)) == t
  {
    PausedTicksIdle(PlayPauseButton(t), n);
  }

  /** The featured stock. */
  function Current(t: TickerState): (s: Stock)
    requires Valid(t)
    ensures s in t.stocks
  {
    t.stocks[t.currentIndex]
  }

  /** The "Market Movers" list: every stock in order, the one at the position highlighted. */
  function Rows(t: TickerState): (rows: seq<Row>)
    ensures |rows| == |t.stocks|
    ensures forall i :: 0 <= i < |rows| ==> rows[i].stock == t.stocks[i]
    ensures forall i :: 0 <= i < |rows| ==> (rows[i].highlighted <==> i == t.currentIndex)
  {
    seq(|t.stocks|, i requires 0 <= i < |t.stocks| => Row(t.stocks[i], i == t.currentIndex))
  }

  /** How many rows are highlighted: none exactly when no row is. */
  function HighlightCount(rows: seq<Row>): (n: nat)
    ensures n <= |rows|
    ensures n == 0 <==> forall i :: 0 <= i < |rows| ==> !rows[i].highlighted
    decreases |rows|
  {
    if |rows| == 0 then 0
    else
      assert forall i :: 1 <= i < |rows| ==> rows[i] == rows[1..][i - 1];
      (if rows[0].highlighted then 1 else 0) + HighlightCount(rows[1..])
  }

  /** A list highlighting only the row at `k` highlights exactly one row, or none if `k` is out of range. */
  lemma {:induction false} HighlightCountSingle(rows: seq<Row>, k: int)
    requires forall i :: 0 <= i < |rows| ==> (rows[i].highlighted <==> i == k)
    ensures HighlightCount(rows) == if 0 <= k < |rows| then 1 else 0
    decreases |rows|
  {
    if |rows| > 0 {
      HighlightCountSingle(rows[1..], k - 1);
    }
  }

  /** A valid ticker highlights exactly one row, and that row shows the featured stock. */
  lemma ExactlyOneHighlighted(t: TickerState)
    requires Valid(t)
    ensures HighlightCount(Rows(t)) == 1
    ensures forall i :: 0 <= i < |Rows(t)| && Rows(t)[i].highlighted ==> Rows(t)[i].stock == Current(t)
  {
    HighlightCountSingle(Rows(t), t.currentIndex);
  }

  /** The eight stocks the ticker shows. */
  function DefaultStocks(): (s: seq<Stock>)
    ensures |s| == 8
  {
    [ Stock("AAPL", "Apple Inc.", 175.43, 2.15, 1.24, "45.2M"),
      Stock("MSFT", "Microsoft Corp.", 378.85, -1.23, -0.32, "28.7M"),
      Stock("GOOGL", "Alphabet Inc.", 138.21, 4.32, 3.23, "31.5M"),
      Stock("TSLA", "Tesla Inc.", 248.50, -5.67, -2.23, "89.3M"),
      Stock("AMZN", "Amazon.com Inc.", 145.86, 1.89, 1.31, "42.1M"),
      Stock("NVDA", "NVIDIA Corp.", 875.28, 12.45, 1.44, "52.8M"),
      Stock("META", "Meta Platforms", 484.20, -3.21, -0.66, "18.9M"),
      Stock("NFLX", "Netflix Inc.", 445.03, 8.92, 2.05, "15.6M") ]
  }

  /**
   The mounted ticker indexes its stocks safely after any events: it starts
   playing on AAPL, and every featured stock read afterwards is one of the
   eight.
   */
  lemma DefaultTickerAlwaysInBounds(events: seq<Event>)
    ensures var t := Init(DefaultStocks(), DefaultAutoScroll);
      t.isPlaying && Current(t).symbol == "AAPL" && Valid(Run(t, events))
  {
    RunKeepsValid(Init(DefaultStocks(), DefaultAutoScroll), events);
  }
}
