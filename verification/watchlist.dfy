/**
 The watchlist panel: an ordered list of tracked stocks and a search term.
 Toggling a favourite maps over the list, removal filters it, and every
 read recomputes the search-filtered list and its split into favourites
 and the remaining ("regular") stocks.
 */
module Watchlist {
  import opened Sequences
  import opened Ascii

  /** One watched stock. Prices and changes are display values: nothing computes with them. */
  datatype WatchlistStock = WatchlistStock(
    id: string,
    symbol: string,
    name: string,
    price: real,
    change: real,
    changePercent: real,
    high52Week: real,
    low52Week: real,
    marketCap: string,
    isFavorite: bool)

  /** The panel's state: the stock list, in insertion order, and the search box's text. */
  datatype Panel = Panel(stocks: seq<WatchlistStock>, searchTerm: string)

  /** What the user can do to the panel. */
  datatype Action = SetSearchTerm(term: string) | ToggleFavoriteOf(id: string) | RemoveOf(id: string)

  /** The header line: "N stocks • M favorites". */
  datatype HeaderCounts = HeaderCounts(stocks: nat, favorites: nat)

  /** No two records share an id. */
  predicate UniqueIds(stocks: seq<WatchlistStock>) {
    forall i, j :: 0 <= i < j < |stocks| ==> stocks[i].id != stocks[j].id
  }

  /** Some record carries `id`. */
  predicate HasId(stocks: seq<WatchlistStock>, id: string) {
    exists i :: 0 <= i < |stocks| && stocks[i].id == id
  }

  /** The record with its favourite flag flipped and every other field kept. */
  function Flip(s: WatchlistStock): WatchlistStock {
    s.(isFavorite := !s.isFavorite)
  }

  // ---------------------------------------------------------------- toggleFavorite

  /**
   `toggleFavorite(id)`: every record whose id is `id` has its favourite
   flag negated; nothing else changes, and the order is kept.
   */
  function ToggleFavorite(stocks: seq<WatchlistStock>, id: string): (r: seq<WatchlistStock>)
    ensures |r| == |stocks|
    ensures forall i :: 0 <= i < |r| ==> r[i].(isFavorite := stocks[i].isFavorite) == stocks[i]
    ensures forall i :: 0 <= i < |r| && stocks[i].id == id ==> r[i].isFavorite == !stocks[i].isFavorite
    ensures forall i :: 0 <= i < |r| && stocks[i].id != id ==> r[i] == stocks[i]
  {
    if |stocks| == 0 then []
    else [if stocks[0].id == id then Flip(stocks[0]) else stocks[0]] + ToggleFavorite(stocks[1..], id)
  }

  /** Toggling the same id twice gives back the original list. */
  lemma ToggleFavoriteInvolution(stocks: seq<WatchlistStock>, id: string)
    ensures ToggleFavorite(ToggleFavorite(stocks, id), id) == stocks
  {
    var once := ToggleFavorite(stocks, id);
    var twice := ToggleFavorite(once, id);
    forall i | 0 <= i < |stocks|
      ensures twice[i] == stocks[i]
    {
      assert once[i].id == stocks[i].id;
    }
  }

  /** Toggling an id no record carries is a no-op. */
  lemma ToggleFavoriteAbsent(stocks: seq<WatchlistStock>, id: string)
    requires !HasId(stocks, id)
    ensures ToggleFavorite(stocks, id) == stocks
  {
  }

  /** Toggling keeps the ids in place, so unique ids stay unique. */
  lemma ToggleFavoriteKeepsIds(stocks: seq<WatchlistStock>, id: string)
    ensures forall i :: 0 <= i < |stocks| ==> ToggleFavorite(stocks, id)[i].id == stocks[i].id
    ensures UniqueIds(stocks) ==> UniqueIds(ToggleFavorite(stocks, id))
  {
  }

  // ---------------------------------------------------------------- removeFromWatchlist

  /** Whether a record survives removal of `id`. */
  function KeepsOtherThan(id: string): WatchlistStock -> bool {
    (s: WatchlistStock) => s.id != id
  }

  /**
   `removeFromWatchlist(id)`: the list with exactly the records carrying
   `id` dropped and the others kept in order; an absent id changes nothing.
   */
  function RemoveFromWatchlist(stocks: seq<WatchlistStock>, id: string): (r: seq<WatchlistStock>)
    ensures !HasId(r, id)
    ensures forall x :: x in r <==> x in stocks && x.id != id
    ensures forall x :: multiset(r)[x] == if x.id == id then 0 else multiset(stocks)[x]
    ensures IsSubsequence(r, stocks)
    ensures !HasId(stocks, id) ==> r == stocks
  {
    var keep := KeepsOtherThan(id);
    FilterMembers(keep, stocks);
    FilterCounts(keep, stocks);
    FilterIsSubsequence(keep, stocks);
    FilterKeepsAll(keep, stocks);
    Filter(keep, stocks)
  }

  /** Putting a record in front of a list that lacks its id keeps ids unique. */
  lemma ConsKeepsUniqueIds(x: WatchlistStock, rest: seq<WatchlistStock>)
    requires UniqueIds(rest) && !HasId(rest, x.id)
    ensures UniqueIds([x] + rest)
  {
    var r := [x] + rest;
    forall i, j | 0 <= i < j < |r|
      ensures r[i].id != r[j].id
    {
      assert r[j] == rest[j - 1];
      if i > 0 {
        assert r[i] == rest[i - 1];
      }
    }
  }

  /** Filtering never brings two records with the same id together. */
  lemma {:induction false} FilterKeepsUniqueIds(p: WatchlistStock -> bool, stocks: seq<WatchlistStock>)
    ensures UniqueIds(stocks) ==> UniqueIds(Filter(p, stocks))
    decreases |stocks|
  {
    if UniqueIds(stocks) && |stocks| > 0 {
      var tail := stocks[1..];
      assert UniqueIds(tail);
      var rest := Filter(p, tail);
      FilterKeepsUniqueIds(p, tail);
      FilterMembers(p, tail);
      if p(stocks[0]) {
        assert !HasId(rest, stocks[0].id);
        ConsKeepsUniqueIds(stocks[0], rest);
        assert Filter(p, stocks) == [stocks[0]] + rest;
      } else {
        assert Filter(p, stocks) == rest;
      }
    }
  }

  /** With unique ids, removing a present id shortens the list by exactly one. */
  lemma {:induction false} RemovePresentDropsOne(stocks: seq<WatchlistStock>, id: string)
    requires UniqueIds(stocks) && HasId(stocks, id)
    ensures |RemoveFromWatchlist(stocks, id)| == |stocks| - 1
    decreases |stocks|
  {
    var keep := KeepsOtherThan(id);
    var tail := stocks[1..];
    assert UniqueIds(tail);
    if stocks[0].id == id {
      forall i | 0 <= i < |tail|
        ensures keep(tail[i])
      {
        assert tail[i] == stocks[i + 1];
      }
      FilterKeepsAll(keep, tail);
      assert Filter(keep, stocks) == Filter(keep, tail);
    } else {
      var k :| 0 <= k < |stocks| && stocks[k].id == id;
      assert tail[k - 1].id == id;
      RemovePresentDropsOne(tail, id);
      assert Filter(keep, stocks) == [stocks[0]] + Filter(keep, tail);
    }
  }

  // ---------------------------------------------------------------- search

  /**
   The search rule: the lower-cased symbol or the lower-cased name contains
   the lower-cased search term.
   */
  predicate Matches(stock: WatchlistStock, term: string) {
    Contains(ToLower(stock.symbol), ToLower(term)) || Contains(ToLower(stock.name), ToLower(term))
  }

  function MatchesTerm(term: string): WatchlistStock -> bool {
    (s: WatchlistStock) => Matches(s, term)
  }

  /**
   `filteredStocks`: the records matching the search term, in list order.
   The empty term matches every record.
   */
  function FilteredStocks(stocks: seq<WatchlistStock>, term: string): (r: seq<WatchlistStock>)
    ensures forall x :: x in r <==> x in stocks && Matches(x, term)
    ensures forall x :: multiset(r)[x] == if Matches(x, term) then multiset(stocks)[x] else 0
    ensures IsSubsequence(r, stocks)
    ensures term == "" ==> r == stocks
  {
    var matching := MatchesTerm(term);
    FilterMembers(matching, stocks);
    FilterCounts(matching, stocks);
    FilterIsSubsequence(matching, stocks);
    FilterKeepsAll(matching, stocks);
    assert term == "" ==> forall i :: 0 <= i < |stocks| ==> Matches(stocks[i], term) by {
      forall i | 0 <= i < |stocks| {
        ContainsEmpty(ToLower(stocks[i].symbol));
      }
    }
    Filter(matching, stocks)
  }

  /** Matching ignores letter case in the search term. */
  lemma MatchesIgnoresTermCase(stock: WatchlistStock, term: string)
    ensures Matches(stock, term) <==> Matches(stock, ToLower(term))
  {
    ToLowerIdempotent(term);
  }

  /** Matching looks only at symbol and name, never at the favourite flag. */
  lemma MatchesIgnoresFavorite(stock: WatchlistStock, term: string)
    ensures Matches(Flip(stock), term) <==> Matches(stock, term)
  {
  }

  /**
   Toggling and filtering commute: the filtered view of a toggled list is
   the toggled filtered view, so a favourite toggle never hides or reveals
   a record.
   */
  lemma {:induction false} ToggleCommutesWithFilter(stocks: seq<WatchlistStock>, id: string, term: string)
    ensures FilteredStocks(ToggleFavorite(stocks, id), term) == ToggleFavorite(FilteredStocks(stocks, term), id)
    decreases |stocks|
  {
    if |stocks| > 0 {
      ToggleCommutesWithFilter(stocks[1..], id, term);
      var t := ToggleFavorite(stocks, id);
      assert t[1..] == ToggleFavorite(stocks[1..], id);
      MatchesIgnoresFavorite(stocks[0], term);
      var rest := Filter(MatchesTerm(term), stocks[1..]);
      if Matches(stocks[0], term) {
        assert Filter(MatchesTerm(term), stocks) == [stocks[0]] + rest;
        assert ([stocks[0]] + rest)[1..] == rest;
      }
    }
  }

  // ---------------------------------------------------------------- favourites / regular

  predicate IsFavorite(s: WatchlistStock) {
    s.isFavorite
  }

  predicate IsRegular(s: WatchlistStock) {
    !s.isFavorite
  }

  /** `favoriteStocks`: the favourite records of the filtered list, in order. */
  function FavoriteStocks(filtered: seq<WatchlistStock>): (r: seq<WatchlistStock>)
    ensures forall i :: 0 <= i < |r| ==> r[i].isFavorite
    ensures forall x :: x in r <==> x in filtered && x.isFavorite
    ensures IsSubsequence(r, filtered)
  {
    FilterMembers(IsFavorite, filtered);
    FilterIsSubsequence(IsFavorite, filtered);
    Filter(IsFavorite, filtered)
  }

  /** `regularStocks`: the non-favourite records of the filtered list, in order. */
  function RegularStocks(filtered: seq<WatchlistStock>): (r: seq<WatchlistStock>)
    ensures forall i :: 0 <= i < |r| ==> !r[i].isFavorite
    ensures forall x :: x in r <==> x in filtered && !x.isFavorite
    ensures IsSubsequence(r, filtered)
  {
    FilterMembers(IsRegular, filtered);
    FilterIsSubsequence(IsRegular, filtered);
    Filter(IsRegular, filtered)
  }

  /**
   Favourites and regular stocks partition the filtered list: no record in
   both, none missing, lengths summing to the filtered length.
   */
  lemma FavoritesRegularPartition(filtered: seq<WatchlistStock>)
    ensures multiset(FavoriteStocks(filtered)) + multiset(RegularStocks(filtered)) == multiset(filtered)
    ensures |FavoriteStocks(filtered)| + |RegularStocks(filtered)| == |filtered|
    ensures forall x :: !(x in FavoriteStocks(filtered) && x in RegularStocks(filtered))
  {
    FilterPartition(IsFavorite, IsRegular, filtered);
  }

  // ---------------------------------------------------------------- the panel

  /** The panel as first rendered: the given list and an empty search box. */
  function InitialPanel(stocks: seq<WatchlistStock>): (p: Panel)
    ensures p.stocks == stocks
    ensures Visible(p) == stocks
  {
    Panel(stocks, "")
  }

  /** The records the search box lets through. */
  function Visible(p: Panel): (r: seq<WatchlistStock>)
    ensures forall x :: x in r <==> x in p.stocks && Matches(x, p.searchTerm)
    ensures forall x :: multiset(r)[x] == if Matches(x, p.searchTerm) then multiset(p.stocks)[x] else 0
    ensures IsSubsequence(r, p.stocks)
  {
    FilteredStocks(p.stocks, p.searchTerm)
  }

  /** The "Favorites" card: the stored favourites that match the search. */
  function Favorites(p: Panel): (r: seq<WatchlistStock>)
    ensures forall x :: x in r <==> x in p.stocks && Matches(x, p.searchTerm) && x.isFavorite
  {
    FavoriteStocks(Visible(p))
  }

  /** The "All Stocks" card: the stored non-favourites that match the search. */
  function Regular(p: Panel): (r: seq<WatchlistStock>)
    ensures forall x :: x in r <==> x in p.stocks && Matches(x, p.searchTerm) && !x.isFavorite
  {
    RegularStocks(Visible(p))
  }

  /**
   Searching and splitting commute: each card is also the search applied to
   the stored favourites (or the stored non-favourites).
   */
  lemma SplitThenSearch(p: Panel)
    ensures Favorites(p) == FilteredStocks(FavoriteStocks(p.stocks), p.searchTerm)
    ensures Regular(p) == FilteredStocks(RegularStocks(p.stocks), p.searchTerm)
  {
    FilterFilter(IsFavorite, MatchesTerm(p.searchTerm), p.stocks);
    FilterFilter(IsRegular, MatchesTerm(p.searchTerm), p.stocks);
  }

  /** A search no stored record matches empties the list and both cards. */
  lemma NoMatchShowsNothing(p: Panel)
    requires forall i :: 0 <= i < |p.stocks| ==> !Matches(p.stocks[i], p.searchTerm)
    ensures Visible(p) == [] && Favorites(p) == [] && Regular(p) == []
  {
    FilterDropsAll(MatchesTerm(p.searchTerm), p.stocks);
  }

  /** Both cards show records of the stored list, each in the stored order. */
  lemma CardsFollowListOrder(p: Panel)
    ensures IsSubsequence(Favorites(p), p.stocks)
    ensures IsSubsequence(Regular(p), p.stocks)
  {
    SubsequenceTransitive(Favorites(p), Visible(p), p.stocks);
    SubsequenceTransitive(Regular(p), Visible(p), p.stocks);
  }

  /**
   The header counts the whole stored list but only the favourites on the
   Favorites card; those and the All Stocks card together make up the
   visible list, so the favourites count never exceeds the stock count.
   */
  function Header(p: Panel): (c: HeaderCounts)
    ensures c.stocks == |p.stocks|
    ensures c.favorites == |Favorites(p)|
    ensures c.favorites + |Regular(p)| == |Visible(p)|
    ensures c.favorites <= c.stocks
    ensures c.favorites <= |Visible(p)|
  {
    var fav := Favorites(p);
    FavoritesRegularPartition(Visible(p));
    FilterLength(MatchesTerm(p.searchTerm), p.stocks);
    HeaderCounts(|p.stocks|, |fav|)
  }

  /** One user action applied to the panel. */
  function Apply(p: Panel, a: Action): (q: Panel)
    ensures a.SetSearchTerm? ==> q.stocks == p.stocks && q.searchTerm == a.term
    ensures !a.SetSearchTerm? ==> q.searchTerm == p.searchTerm
    ensures UniqueIds(p.stocks) ==> UniqueIds(q.stocks)
    ensures a.RemoveOf? ==> !HasId(q.stocks, a.id)
    ensures a.RemoveOf? ==> (forall x :: x in q.stocks <==> x in p.stocks && x.id != a.id) && IsSubsequence(q.stocks, p.stocks)
    ensures a.RemoveOf? ==> q.stocks == RemoveFromWatchlist(p.stocks, a.id)
    ensures a.ToggleFavoriteOf? ==> q.stocks == ToggleFavorite(p.stocks, a.id)
    ensures a.ToggleFavoriteOf? ==> |q.stocks| == |p.stocks|
    ensures |q.stocks| <= |p.stocks|
  {
    match a
    case SetSearchTerm(term) => p.(searchTerm := term)
    case ToggleFavoriteOf(id) =>
      ToggleFavoriteKeepsIds(p.stocks, id);
      p.(stocks := ToggleFavorite(p.stocks, id))
    case RemoveOf(id) =>
      FilterKeepsUniqueIds(KeepsOtherThan(id), p.stocks);
      FilterLength(KeepsOtherThan(id), p.stocks);
      p.(stocks := RemoveFromWatchlist(p.stocks, id))
  }

  /** A run of user actions, applied left to right. No action adds a record. */
  function ApplyAll(p: Panel, actions: seq<Action>): (q: Panel)
    ensures |q.stocks| <= |p.stocks|
    ensures (forall i :: 0 <= i < |actions| ==> !actions[i].RemoveOf?) ==> |q.stocks| == |p.stocks|
    decreases |actions|
  {
    if |actions| == 0 then p else ApplyAll(Apply(p, actions[0]), actions[1..])
  }

  /** No action brings back an id the list no longer has: there is no add operation. */
  lemma {:induction false} AbsentIdStaysAbsent(p: Panel, actions: seq<Action>, id: string)
    requires !HasId(p.stocks, id)
    ensures !HasId(ApplyAll(p, actions).stocks, id)
    decreases |actions|
  {
    if |actions| > 0 {
      var q := Apply(p, actions[0]);
      AbsentIdStaysAbsent(q, actions[1..], id);
    }
  }

  /**
   Removal is permanent: after removing `id`, whatever the user does next
   and whatever the search term, neither card shows a record with that id.
   */
  lemma RemovalIsPermanent(p: Panel, id: string, later: seq<Action>)
    ensures var q := ApplyAll(Apply(p, RemoveOf(id)), later);
      !HasId(q.stocks, id) && !HasId(Favorites(q), id) && !HasId(Regular(q), id)
  {
    var removed := Apply(p, RemoveOf(id));
    AbsentIdStaysAbsent(removed, later, id);
    CardsLackAbsentId(ApplyAll(removed, later), id);
  }

  /** Neither card shows an id the stored list does not hold. */
  lemma CardsLackAbsentId(q: Panel, id: string)
    requires !HasId(q.stocks, id)
    ensures !HasId(Favorites(q), id) && !HasId(Regular(q), id)
  {
    forall x | x in Favorites(q) || x in Regular(q)
      ensures x.id != id
    {
      assert x in q.stocks;
    }
  }

  /** Actions keep ids unique. */
  lemma {:induction false} ApplyAllKeepsUniqueIds(p: Panel, actions: seq<Action>)
    requires UniqueIds(p.stocks)
    ensures UniqueIds(ApplyAll(p, actions).stocks)
    decreases |actions|
  {
    if |actions| > 0 {
      ApplyAllKeepsUniqueIds(Apply(p, actions[0]), actions[1..]);
    }
  }

  // ---------------------------------------------------------------- the seeded panel

  /** The five records the panel starts with. */
  function SeedStocks(): (s: seq<WatchlistStock>)
    ensures |s| == 5
    ensures s[0].symbol == "AAPL" && s[1].symbol == "TSLA" && s[2].symbol == "NVDA"
    ensures s[3].symbol == "AMZN" && s[4].symbol == "GOOGL"
    ensures s[0].isFavorite && !s[1].isFavorite && s[2].isFavorite && !s[3].isFavorite && s[4].isFavorite
  {
    [ WatchlistStock("1", "AAPL", "Apple Inc.", 175.43, 2.15, 1.24, 198.23, 124.17, "2.8T", true),
      WatchlistStock("2", "TSLA", "Tesla Inc.", 248.50, -5.67, -2.23, 299.29, 138.80, "789B", false),
      WatchlistStock("3", "NVDA", "NVIDIA Corp.", 875.28, 12.45, 1.44, 974.00, 180.96, "2.1T", true),
      WatchlistStock("4", "AMZN", "Amazon.com Inc.", 145.86, 1.89, 1.31, 170.00, 88.12, "1.5T", false),
      WatchlistStock("5", "GOOGL", "Alphabet Inc.", 138.21, 4.32, 3.23, 153.78, 83.34, "1.7T", true) ]
  }

  /** The seed's ids are "1" to "5", TSLA's being "2". */
  lemma SeedIds()
    ensures var s := SeedStocks();
      s[0].id == "1" && s[1].id == "2" && s[2].id == "3" && s[3].id == "4" && s[4].id == "5"
  {
  }

  /** The seeded ids are distinct. */
  lemma SeedUniqueIds()
    ensures UniqueIds(SeedStocks())
  {
    SeedIds();
  }

  /** From the seeded panel, every sequence of actions leaves ids unique. */
  lemma SeededPanelKeepsUniqueIds(actions: seq<Action>)
    ensures UniqueIds(ApplyAll(InitialPanel(SeedStocks()), actions).stocks)
  {
    SeedUniqueIds();
    ApplyAllKeepsUniqueIds(InitialPanel(SeedStocks()), actions);
  }

  /** The favourites card of an unfiltered five-record list, read off flag by flag. */
  lemma FavoritesOfFive(s: seq<WatchlistStock>)
    requires |s| == 5
    ensures Favorites(InitialPanel(s)) == (if s[0].isFavorite then [s[0]] else [])
      + (if s[1].isFavorite then [s[1]] else []) + (if s[2].isFavorite then [s[2]] else [])
      + (if s[3].isFavorite then [s[3]] else []) + (if s[4].isFavorite then [s[4]] else [])
  {
    assert Visible(InitialPanel(s)) == s;
    FavoriteFilterOfFive(s);
  }

  /** `FavoritesOfFive` for the bare filter, one record at a time. */
  lemma FavoriteFilterOfFive(s: seq<WatchlistStock>)
    requires |s| == 5
    ensures Filter(IsFavorite, s) == (if s[0].isFavorite then [s[0]] else [])
      + (if s[1].isFavorite then [s[1]] else []) + (if s[2].isFavorite then [s[2]] else [])
      + (if s[3].isFavorite then [s[3]] else []) + (if s[4].isFavorite then [s[4]] else [])
  {
    assert s == [s[0]] + [s[1]] + [s[2]] + [s[3]] + [s[4]];
    FilterConcat(IsFavorite, [s[0]] + [s[1]] + [s[2]] + [s[3]], [s[4]]);
    FilterConcat(IsFavorite, [s[0]] + [s[1]] + [s[2]], [s[3]]);
    FilterConcat(IsFavorite, [s[0]] + [s[1]], [s[2]]);
    FilterConcat(IsFavorite, [s[0]], [s[1]]);
    forall i | 0 <= i < 5
      ensures Filter(IsFavorite, [s[i]]) == if s[i].isFavorite then [s[i]] else []
    {
      assert [s[i]][1..] == [];
    }
  }

  /**
   Five records flagged favourite, regular, favourite, regular, favourite
   show the first, third and fifth on the favourites card.
   */
  lemma AlternatingFavorites(s: seq<WatchlistStock>)
    requires |s| == 5
    requires s[0].isFavorite && !s[1].isFavorite && s[2].isFavorite && !s[3].isFavorite && s[4].isFavorite
    ensures Favorites(InitialPanel(s)) == [s[0], s[2], s[4]]
  {
    var empty: seq<WatchlistStock> := [];
    FavoritesOfFive(s);
    assert [s[0]] + empty + [s[2]] + empty + [s[4]] == [s[0], s[2], s[4]];
  }

  /** Toggling the id only the second of five records carries flips that record alone. */
  lemma ToggleOnlySecond(s: seq<WatchlistStock>, id: string)
    requires |s| == 5
    requires s[1].id == id && s[0].id != id && s[2].id != id && s[3].id != id && s[4].id != id
    ensures ToggleFavorite(s, id) == [s[0], Flip(s[1]), s[2], s[3], s[4]]
  {
  }

  /**
   Starring the second of those five puts it second on the favourites
   card, not last: the card follows the stored order.
   */
  lemma StarringKeepsListOrder(s: seq<WatchlistStock>, id: string)
    requires |s| == 5
    requires s[0].isFavorite && !s[1].isFavorite && s[2].isFavorite && !s[3].isFavorite && s[4].isFavorite
    requires s[1].id == id && s[0].id != id && s[2].id != id && s[3].id != id && s[4].id != id
    ensures Favorites(Apply(InitialPanel(s), ToggleFavoriteOf(id))) == [s[0], Flip(s[1]), s[2], s[4]]
  {
    var t := ToggleFavorite(s, id);
    ToggleOnlySecond(s, id);
    assert t[0].isFavorite && t[1].isFavorite && t[2].isFavorite && !t[3].isFavorite && t[4].isFavorite;
    AllButFourthFavorite(t);
  }

  /** Five records of which only the fourth is regular show the other four, in order. */
  lemma AllButFourthFavorite(t: seq<WatchlistStock>)
    requires |t| == 5
    requires t[0].isFavorite && t[1].isFavorite && t[2].isFavorite && !t[3].isFavorite && t[4].isFavorite
    ensures Favorites(InitialPanel(t)) == [t[0], t[1], t[2], t[4]]
  {
    var empty: seq<WatchlistStock> := [];
    FavoritesOfFive(t);
    assert [t[0]] + [t[1]] + [t[2]] + empty + [t[4]] == [t[0], t[1], t[2], t[4]];
  }

  /**
   On the seeded panel the favourites card starts as AAPL, NVDA, GOOGL, and
   once TSLA (id "2") is starred it reads AAPL, TSLA, NVDA, GOOGL.
   */
  lemma SeedFavoritesKeepListOrder()
    ensures var s := SeedStocks();
      Favorites(InitialPanel(s)) == [s[0], s[2], s[4]]
    ensures var s := SeedStocks();
      Favorites(Apply(InitialPanel(s), ToggleFavoriteOf("2"))) == [s[0], Flip(s[1]), s[2], s[4]]
  {
    SeedIds();
    AlternatingFavorites(SeedStocks());
    StarringKeepsListOrder(SeedStocks(), "2");
  }

  /** Filtering one record keeps it exactly when it matches. */
  lemma FilteredSingle(x: WatchlistStock, term: string)
    ensures FilteredStocks([x], term) == if Matches(x, term) then [x] else []
  {
    if term == "" {
      ContainsEmpty(ToLower(x.symbol));
      assert ToLower(term) == "";
    } else {
      var p := MatchesTerm(term);
      assert FilteredStocks([x], term) == Filter(p, [x]);
      assert [x][1..] == [];
      assert Filter(p, []) == [];
      assert Filter(p, [x]) == if p(x) then [x] + Filter(p, []) else Filter(p, []);
      assert p(x) == Matches(x, term);
    }
  }

  /**
   The search is case-insensitive on both symbol and name: "apple" and
   "AAPL" both find Apple, "xyz" finds nothing.
   */
  lemma SearchFindsApple()
    ensures var apple := SeedStocks()[0];
      && FilteredStocks([apple], "apple") == [apple]
      && FilteredStocks([apple], "AAPL") == [apple]
      && FilteredStocks([apple], "xyz") == []
  {
    var apple := SeedStocks()[0];
    assert apple.symbol == "AAPL" && apple.name == "Apple Inc.";
    assert ToLower("AAPL") == "aapl";
    assert ToLower("Apple Inc.") == "apple inc.";
    ToLowerFixesLowerCased("apple");
    ToLowerFixesLowerCased("xyz");
    ContainsSlice("apple inc.", 0, 5);
    assert "apple inc."[0..5] == "apple";
    ContainsSlice("aapl", 0, 4);
    assert "aapl"[0..4] == "aapl";
    ContainsHasFirstChar("aapl", "xyz");
    ContainsHasFirstChar("apple inc.", "xyz");
    FilteredSingle(apple, "apple");
    FilteredSingle(apple, "AAPL");
    FilteredSingle(apple, "xyz");
  }
}
