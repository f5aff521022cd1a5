# Stock tracker dashboard: watchlist and ticker state, in Dafny

This project models the only two pieces of client-side logic in the stock
tracker dashboard.

- **Watchlist panel** (`WatchlistPanel`). Its state is an ordered list of
  watched stocks and a search string. Starring a stock (`toggleFavorite`)
  maps over the list and flips `isFavorite` on every record with the given
  id. Removing a stock (`removeFromWatchlist`) filters those records out.
  Every render recomputes `filteredStocks`, a case-insensitive substring
  search on symbol or name. It then splits that list into the "Favorites"
  card and the "All Stocks" card, and the header counts the stored stocks
  and the visible favourites.
- **Stock ticker** (`StockTicker`). Its state is a fixed list of eight
  stocks, the index of the featured stock, and a play/pause flag. While
  playing, a 3-second interval advances the index by
  `(prev + 1) % stocks.length`. The play/pause button flips the flag. The
  "Market Movers" list highlights the row whose position is the index.

Modules, one per file:

- `Sequences` (`sequences.dfy`): order-preserving `Filter`, the array
  `filter` that every list view is built from, with its properties.
- `Ascii` (`ascii.dfy`): `toLowerCase` restricted to ASCII letters, and
  `includes` as `Contains`.
- `ChangeStyle` (`change_style.dfy`): the colour, sign and arrow of a price
  change. It is shared by both components, which carry identical copies
  (`StockTicker.tsx` lines 56-62 repeat `WatchlistPanel.tsx` lines 121-127).
- `Watchlist` (`watchlist.dfy`): records, toggle, remove, search, the two
  cards, the header, and the panel driven by a sequence of user actions.
- `Ticker` (`ticker.dfy`): the ticker state machine, driven by `Tick` and
  `PlayPause` events.

Two facts about the code shape the model:

- The ticker's stock list is a fixed eight-entry literal, indexed directly
  as `stocks[currentIndex]`, with no result for an empty list. So
  `Ticker.Step`, `Ticker.Handle` and `Ticker.Current` require a non-empty
  list: with an empty one, `% stocks.length` would give NaN and the read
  would fail. The index starts at 0 and only moves by
  `(prev + 1) % stocks.length`, so it is a `nat`; on non-negative operands
  JavaScript's truncating `%` and Dafny's `%` agree.
- The favourites card is a stable filter over the stored order. Starring
  TSLA in the seeded list makes the card read AAPL, TSLA, NVDA, GOOGL,
  as proved in `Watchlist.SeedFavoritesKeepListOrder`.

## Model

| member | source | states |
|---|---|---|
| `Sequences.Filter` | src/components/dashboard/WatchlistPanel.tsx:113-130 | array `filter`; no contract of its own, its properties are the lemmas `FilterMembers`, `FilterCounts`, `FilterLength`, `FilterIsSubsequence`, `FilterKeepsAll`, `FilterDropsAll`, `FilterPartition`, `FilterFilter` and `FilterConcat` |
| `Sequences.FilterMembers` | src/components/dashboard/WatchlistPanel.tsx:129-130 | `filter` keeps an element exactly when it is in the input and passes the predicate; every kept element passes |
| `Sequences.FilterCounts` | src/components/dashboard/WatchlistPanel.tsx:113 | `filter` keeps every copy of a passing element and drops every copy of a failing one |
| `Sequences.FilterLength` | src/components/dashboard/WatchlistPanel.tsx:116-119 | `filter` never lengthens the list |
| `Sequences.FilterIsSubsequence` | src/components/dashboard/WatchlistPanel.tsx:116-119 | `filter` keeps the relative order of the elements it keeps |
| `Sequences.SubsequenceTransitive` | src/components/dashboard/WatchlistPanel.tsx:129-130 | a filter of a filter is still an order-preserving subsequence of the original list |
| `Sequences.FilterKeepsAll` | src/components/dashboard/WatchlistPanel.tsx:116-119 | if every element passes, `filter` returns the list unchanged |
| `Sequences.FilterDropsAll` | src/components/dashboard/WatchlistPanel.tsx:116-119 | when no element passes, `filter` returns the empty list |
| `Sequences.FilterPartition` | src/components/dashboard/WatchlistPanel.tsx:129-130 | filtering by a predicate and by its negation splits the list: multisets add up to the input, lengths sum to its length, no element in both |
| `Sequences.FilterFilter` | src/components/dashboard/WatchlistPanel.tsx:129-130 | two successive filters equal one filter by the conjunction, and the two orders agree |
| `Sequences.FilterConcat` | src/components/dashboard/WatchlistPanel.tsx:129-130 | filtering a concatenation is concatenating the filtered parts |
| `Ascii.LowerChar` | src/components/dashboard/WatchlistPanel.tsx:117-118 | the lower-cased character is never upper-case; non-letters are kept; 'A'..'Z' move to 'a'..'z' by the fixed offset |
| `Ascii.ToLower` | src/components/dashboard/WatchlistPanel.tsx:117-118 | `toLowerCase` keeps the length, maps each character on its own, and leaves no upper-case letter |
| `Ascii.ToLowerFixesLowerCased` | src/components/dashboard/WatchlistPanel.tsx:117-118 | a string with no upper-case letter is its own lower-case form |
| `Ascii.ToLowerIdempotent` | src/components/dashboard/WatchlistPanel.tsx:117-118 | lower-casing twice equals lower-casing once |
| `Ascii.Contains` | src/components/dashboard/WatchlistPanel.tsx:117-118 | `includes` holds exactly when the pattern occurs at some position of the string |
| `Ascii.OccursInTail` | src/components/dashboard/WatchlistPanel.tsx:117-118 | the occurrences after position 0 are exactly the occurrences in the string without its first character |
| `Ascii.ContainsEmpty` | src/components/dashboard/WatchlistPanel.tsx:117-118 | every string includes the empty string |
| `Ascii.ContainsSlice` | src/components/dashboard/WatchlistPanel.tsx:117-118 | a string includes each of its own substrings |
| `Ascii.ContainsHasFirstChar` | src/components/dashboard/WatchlistPanel.tsx:117-118 | a string that includes a non-empty pattern contains the pattern's first character |
| `ChangeStyle.ChangeColor` | src/components/dashboard/WatchlistPanel.tsx:121-123 | the text is green exactly when the change is >= 0 (zero is green) and red exactly when it is negative |
| `ChangeStyle.ChangeBgColor` | src/components/dashboard/WatchlistPanel.tsx:125-127 | the badge is green exactly when the change is >= 0 and red exactly when it is negative |
| `ChangeStyle.SignPrefix` | src/components/dashboard/WatchlistPanel.tsx:200-201 | '+' is written exactly for a change >= 0, nothing for a negative one |
| `ChangeStyle.ChangeArrow` | src/components/dashboard/WatchlistPanel.tsx:195-199 | the arrow points up exactly when the change is >= 0 |
| `ChangeStyle.StylesAgree` | src/components/dashboard/WatchlistPanel.tsx:121-127 | colour, badge, sign and arrow of one change never disagree, and zero counts as a gain |
| `Watchlist.ToggleFavorite` | src/components/dashboard/WatchlistPanel.tsx:104-110 | length and order kept; records with the id have `isFavorite` negated and all other fields unchanged; all other records unchanged |
| `Watchlist.ToggleFavoriteInvolution` | src/components/dashboard/WatchlistPanel.tsx:104-110 | toggling the same id twice gives back the original list |
| `Watchlist.ToggleFavoriteAbsent` | src/components/dashboard/WatchlistPanel.tsx:104-110 | toggling an id that no record carries leaves the list unchanged |
| `Watchlist.ToggleFavoriteKeepsIds` | src/components/dashboard/WatchlistPanel.tsx:104-110 | toggling keeps every id in place, so unique ids stay unique |
| `Watchlist.RemoveFromWatchlist` | src/components/dashboard/WatchlistPanel.tsx:112-114 | no record with the id remains; exactly the records with that id are dropped, the rest keep their order; an absent id leaves the list unchanged |
| `Watchlist.ConsKeepsUniqueIds` | src/components/dashboard/WatchlistPanel.tsx:112-114 | putting a record in front of a list that lacks its id keeps ids unique |
| `Watchlist.FilterKeepsUniqueIds` | src/components/dashboard/WatchlistPanel.tsx:112-114 | filtering a list with unique ids leaves ids unique |
| `Watchlist.RemovePresentDropsOne` | src/components/dashboard/WatchlistPanel.tsx:112-114 | with unique ids, removing a present id shortens the list by exactly one |
| `Watchlist.Matches` | src/components/dashboard/WatchlistPanel.tsx:117-118 | the search rule; no contract of its own, it is characterised by `FilteredStocks`, `MatchesIgnoresTermCase`, `MatchesIgnoresFavorite` and `SearchFindsApple` |
| `Watchlist.FilteredStocks` | src/components/dashboard/WatchlistPanel.tsx:116-119 | a record is visible exactly when its lower-cased symbol or its lower-cased name includes the lower-cased term; the visible records keep list order and multiplicity; the empty term shows the whole list |
| `Watchlist.MatchesIgnoresTermCase` | src/components/dashboard/WatchlistPanel.tsx:116-119 | a term and its lower-case form match the same records |
| `Watchlist.MatchesIgnoresFavorite` | src/components/dashboard/WatchlistPanel.tsx:116-119 | the search ignores the favourite flag |
| `Watchlist.ToggleCommutesWithFilter` | src/components/dashboard/WatchlistPanel.tsx:104-119 | the search result of a toggled list is the toggled search result, so starring never hides or reveals a record |
| `Watchlist.FavoriteStocks` | src/components/dashboard/WatchlistPanel.tsx:129 | the Favorites card holds exactly the visible favourites, in order |
| `Watchlist.RegularStocks` | src/components/dashboard/WatchlistPanel.tsx:130 | the All Stocks card holds exactly the visible non-favourites, in order |
| `Watchlist.FavoritesRegularPartition` | src/components/dashboard/WatchlistPanel.tsx:129-130 | the two cards partition the visible list: no record in both, none missing, lengths summing to the visible length |
| `Watchlist.InitialPanel` | src/components/dashboard/WatchlistPanel.tsx:40-41 | the panel starts with an empty search term, so every stored record is visible |
| `Watchlist.Visible` | src/components/dashboard/WatchlistPanel.tsx:116-119 | `filteredStocks` of the panel: exactly the stored records matching the current term, every copy of each kept, in stored order |
| `Watchlist.Favorites` | src/components/dashboard/WatchlistPanel.tsx:129 | `favoriteStocks`: exactly the stored favourites matching the current term |
| `Watchlist.Regular` | src/components/dashboard/WatchlistPanel.tsx:130 | `regularStocks`: exactly the stored non-favourites matching the current term |
| `Watchlist.SplitThenSearch` | src/components/dashboard/WatchlistPanel.tsx:116-130 | searching then splitting into cards gives the same cards as splitting the stored list then searching each part |
| `Watchlist.NoMatchShowsNothing` | src/components/dashboard/WatchlistPanel.tsx:116-130 | when no stored record matches the term, the visible list and both cards are empty |
| `Watchlist.CardsFollowListOrder` | src/components/dashboard/WatchlistPanel.tsx:116-130 | both cards are order-preserving subsequences of the stored list |
| `Watchlist.Header` | src/components/dashboard/WatchlistPanel.tsx:143 | the header shows the length of the stored list and the length of the Favorites card; that count plus the All Stocks card's length is the visible length, and it never exceeds the stock count |
| `Watchlist.Apply` | src/components/dashboard/WatchlistPanel.tsx:104-158 | each user action keeps ids unique; the search box changes only the term; removing an id gives `RemoveFromWatchlist`'s result: exactly the records with that id are dropped, every copy of the others kept, in order; toggling gives `ToggleFavorite`'s result, flipping only the records with that id; no action lengthens the list |
| `Watchlist.ApplyAll` | src/components/dashboard/WatchlistPanel.tsx:104-158 | successive handler calls never lengthen the list, and keep its length when none is a removal |
| `Watchlist.AbsentIdStaysAbsent` | src/components/dashboard/WatchlistPanel.tsx:104-114 | no sequence of actions brings back an id the list does not hold, since nothing adds records |
| `Watchlist.RemovalIsPermanent` | src/components/dashboard/WatchlistPanel.tsx:112-130 | after a removal, whatever actions follow and whatever the term, neither the list nor either card holds the removed id |
| `Watchlist.CardsLackAbsentId` | src/components/dashboard/WatchlistPanel.tsx:116-130 | neither card shows a record whose id the stored list does not hold |
| `Watchlist.ApplyAllKeepsUniqueIds` | src/components/dashboard/WatchlistPanel.tsx:104-114 | any sequence of actions keeps ids unique |
| `Watchlist.SeedStocks` | src/components/dashboard/WatchlistPanel.tsx:41-102 | the panel is seeded with five records, AAPL, TSLA, NVDA, AMZN, GOOGL in that order; AAPL, NVDA and GOOGL are starred, TSLA and AMZN are not |
| `Watchlist.SeedIds` | src/components/dashboard/WatchlistPanel.tsx:41-102 | the seeded ids are "1" to "5" in list order |
| `Watchlist.SeedUniqueIds` | src/components/dashboard/WatchlistPanel.tsx:41-102 | the seeded records have distinct ids |
| `Watchlist.SeededPanelKeepsUniqueIds` | src/components/dashboard/WatchlistPanel.tsx:41-158 | starting from the seeded panel, ids stay unique after any sequence of actions |
| `Watchlist.FavoritesOfFive` | src/components/dashboard/WatchlistPanel.tsx:129 | with no search term, the Favorites card of five records lists the starred ones in list order |
| `Watchlist.FavoriteFilterOfFive` | src/components/dashboard/WatchlistPanel.tsx:129 | filtering five records for favourites keeps each starred one and drops each plain one, in list order |
| `Watchlist.AlternatingFavorites` | src/components/dashboard/WatchlistPanel.tsx:129 | records starred, plain, starred, plain, starred put the first, third and fifth on the card |
| `Watchlist.ToggleOnlySecond` | src/components/dashboard/WatchlistPanel.tsx:104-110 | toggling the id that only the second record carries flips that record alone |
| `Watchlist.AllButFourthFavorite` | src/components/dashboard/WatchlistPanel.tsx:129 | when only the fourth of five is plain, the card shows the other four in order |
| `Watchlist.StarringKeepsListOrder` | src/components/dashboard/WatchlistPanel.tsx:104-129 | starring the second record puts it second on the card, not last |
| `Watchlist.SeedFavoritesKeepListOrder` | src/components/dashboard/WatchlistPanel.tsx:41-130 | on the seeded panel, Favorites reads AAPL, NVDA, GOOGL, and after starring TSLA reads AAPL, TSLA, NVDA, GOOGL |
| `Watchlist.FilteredSingle` | src/components/dashboard/WatchlistPanel.tsx:116-119 | searching a one-record list keeps the record exactly when it matches |
| `Watchlist.SearchFindsApple` | src/components/dashboard/WatchlistPanel.tsx:116-119 | "apple" (name) and "AAPL" (symbol) both find Apple; "xyz" finds nothing |
| `Ticker.Init` | src/components/dashboard/StockTicker.tsx:31-33 | the ticker starts on index 0, playing as `autoScroll` says; the index is valid exactly when the list is non-empty |
| `Ticker.Step` | src/components/dashboard/StockTicker.tsx:46-54 | a paused tick changes nothing; a playing tick moves to the next index, and from the last index to 0; validity, list and flag are kept |
| `Ticker.PlayPauseButton` | src/components/dashboard/StockTicker.tsx:81 | the button negates the flag and keeps the list and the index |
| `Ticker.PlayPauseInvolution` | src/components/dashboard/StockTicker.tsx:81 | two presses restore the state |
| `Ticker.Handle` | src/components/dashboard/StockTicker.tsx:46-81 | one event: a tick while paused changes nothing and a tick while playing moves the index to `(index + 1) % length`; a button press flips the flag and keeps the index; neither changes the list or leaves the bounds |
| `Ticker.Run` | src/components/dashboard/StockTicker.tsx:35-54 | no event changes the stock list |
| `Ticker.RunKeepsValid` | src/components/dashboard/StockTicker.tsx:46-54 | from a valid state, any sequence of ticks and presses keeps the index inside the list |
| `Ticker.Ticks` | src/components/dashboard/StockTicker.tsx:49-51 | repeated ticks keep the list, the flag and validity |
| `Ticker.TicksAdvance` | src/components/dashboard/StockTicker.tsx:50 | while playing, n ticks move the index to (index + n) mod length |
| `Ticker.FullCycle` | src/components/dashboard/StockTicker.tsx:50 | while playing, as many ticks as there are stocks return to the starting state |
| `Ticker.PausedTicksIdle` | src/components/dashboard/StockTicker.tsx:46-47 | while paused, any number of ticks changes nothing |
| `Ticker.PauseResume` | src/components/dashboard/StockTicker.tsx:46-54 | pausing, letting any number of ticks pass and resuming restores the state |
| `Ticker.Current` | src/components/dashboard/StockTicker.tsx:101-123 | the featured stock of a valid state is one of the list's stocks |
| `Ticker.Rows` | src/components/dashboard/StockTicker.tsx:139-143 | one row per stock, in list order; a row is highlighted exactly when its position is the index |
| `Ticker.HighlightCount` | src/components/dashboard/StockTicker.tsx:139-143 | the number of highlighted rows is at most the number of rows, and is zero exactly when no row is highlighted |
| `Ticker.HighlightCountSingle` | src/components/dashboard/StockTicker.tsx:139-143 | a list highlighting only position k highlights one row when k is in range and none otherwise |
| `Ticker.ExactlyOneHighlighted` | src/components/dashboard/StockTicker.tsx:139-143 | a valid ticker highlights exactly one row, and that row shows the featured stock |
| `Ticker.DefaultStocks` | src/components/dashboard/StockTicker.tsx:35-44 | the ticker's list has eight stocks |
| `Ticker.DefaultTickerAlwaysInBounds` | src/components/dashboard/StockTicker.tsx:31-44 | the mounted ticker plays from AAPL, and after any events its index still reads inside the eight stocks |

## Left out

- Timing. `setInterval` with 3000 ms and the `clearInterval` cleanup
  (`StockTicker.tsx` lines 46-54) become the discrete `Tick` event. The
  model says nothing about when ticks arrive. It also does not model that
  resuming waits a fresh full interval, or that the timer is cancelled on
  unmount.
- React rendering, JSX and the `useState`/`useEffect` plumbing. State is an
  explicit value and each handler is a transition function.
- Number formatting (`toFixed`, `Math.abs`, the 52-week and market-cap
  text). Prices and changes are carried as `real` fields and nothing is
  computed from them.
- Full Unicode `toLowerCase`. `Ascii.ToLower` maps only 'A'..'Z'; every
  other character is kept as it is.
- The "Add Stock", "Top Gainers" and "Top Losers" buttons, which have no
  handlers.
- The header's mobile-menu toggle, the footer, the landing page, the
  markets page, the dashboard page and the portfolio summary. They are
  static markup over literal data. The markets page's `getChangeColor` is
  the same as `ChangeStyle.ChangeColor`.
- Ticker.Current: states only that the featured stock is one of the list's
  stocks. Which one it is (the stock at the index) is stated by
  `Ticker.ExactlyOneHighlighted`.
