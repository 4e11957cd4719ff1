/**
 * The selection logic of the home-page dashboard script: which trending card
 * gets which badge, which genres are offered, the skeleton placeholders shown
 * while a list loads, when a search is issued, and how many cards each list shows.
 * The markup itself is not modelled.
 */
module Dashboard {
  import opened Js

  /** `makeCard`'s badge map; any other badge type has no class. */
  const BadgeClasses: map<string, string> :=
    map["hot" := "badge-hot", "new" := "badge-new", "top" := "badge-top"]

  /** The badge type `loadTrending` passes for the card at list index i. */
  function TrendingBadge(i: nat): (badge: string)
    ensures badge == "hot" <==> i < 3
    ensures badge == "new" <==> 3 <= i < 6
    ensures badge == "" <==> 6 <= i
  {
    if i < 3 then "hot" else if i < 6 then "new" else ""
  }

  /** `badgeMap[badgeType] || ''`. */
  function BadgeClass(badge: string): (cssClass: string)
    ensures badge in BadgeClasses ==> cssClass == BadgeClasses[badge]
    ensures badge !in BadgeClasses ==> cssClass == ""
  {
    if badge in BadgeClasses then BadgeClasses[badge] else ""
  }

  datatype BadgeView = BadgeView(cssClass: string, text: string)

  /**
   * The badge `makeCard` renders for a badge type: none for an empty (or
   * undefined) type, otherwise the mapped class and the upper-cased type as label.
   */
  function CardBadge(badge: string): (view: Option<BadgeView>)
    ensures view.None? <==> badge == ""
    ensures view.Some? ==> view.value.cssClass == BadgeClass(badge)
    ensures view.Some? ==> |view.value.text| == |badge|
    ensures view.Some? ==> forall k :: 0 <= k < |badge| ==> view.value.text[k] == UpperChar(badge[k])
  {
    if badge == "" then None else Some(BadgeView(BadgeClass(badge), ToUpperCase(badge)))
  }

  /** The first three trending cards are HOT, the next three NEW, the rest have no badge. */
  lemma TrendingBadgeRendered(i: nat)
    ensures i < 3 ==> CardBadge(TrendingBadge(i)) == Some(BadgeView("badge-hot", "HOT"))
    ensures 3 <= i < 6 ==> CardBadge(TrendingBadge(i)) == Some(BadgeView("badge-new", "NEW"))
    ensures 6 <= i ==> CardBadge(TrendingBadge(i)) == None
  {
    assert ToUpperCase("hot") == "HOT";
    assert ToUpperCase("new") == "NEW";
  }

  /** An unknown badge type still gets its label, with an empty class. */
  lemma UnknownBadgeHasNoClass(badge: string)
    requires badge != "" && badge !in BadgeClasses
    ensures CardBadge(badge) == Some(BadgeView("", ToUpperCase(badge)))
  {
  }

  /** How many cards the trending, top-rated, all-time and fan-favourite lists show. */
  const AnimeListLimit: nat := 24
  /** How many cards the manga list shows. */
  const MangaListLimit: nat := 12

  /** `data.data.slice(0, 24).map((a, i) => makeCard(a, badge(i)))`: each kept item with its badge type. */
  function TrendingCards<A>(data: seq<A>): (cards: seq<(A, string)>)
    ensures |cards| == Min(|data|, AnimeListLimit)
    ensures forall i :: 0 <= i < |cards| ==> cards[i] == (data[i], TrendingBadge(i))
  {
    var shown := Take(data, AnimeListLimit);
    seq(|shown|, i requires 0 <= i < |shown| => (shown[i], TrendingBadge(i)))
  }

  /** The top-rated list: the first 24 items, each with its rank `#i + 1`. */
  function TopRatedCards<A>(data: seq<A>): (cards: seq<(A, nat)>)
    ensures |cards| == Min(|data|, AnimeListLimit)
    ensures forall i :: 0 <= i < |cards| ==> cards[i] == (data[i], i + 1)
  {
    var shown := Take(data, AnimeListLimit);
    seq(|shown|, i requires 0 <= i < |shown| => (shown[i], i + 1))
  }

  /** The all-time and fan-favourite lists: the first 24 items, rendered without a badge. */
  function UnbadgedCards<A>(data: seq<A>): (cards: seq<(A, string)>)
    ensures |cards| == Min(|data|, AnimeListLimit)
    ensures forall i :: 0 <= i < |cards| ==> cards[i].0 == data[i] && CardBadge(cards[i].1).None?
  {
    var shown := Take(data, AnimeListLimit);
    seq(|shown|, i requires 0 <= i < |shown| => (shown[i], ""))
  }

  /** The manga list: the first 12 items. */
  function MangaCards<A>(data: seq<A>): (cards: seq<A>)
    ensures |cards| == Min(|data|, MangaListLimit)
    ensures forall i :: 0 <= i < |cards| ==> cards[i] == data[i]
  {
    Take(data, MangaListLimit)
  }

  /** A genre as the metadata API lists it. */
  datatype Genre = Genre(malId: int, name: string)

  const BlockedGenreNames: set<string> := {"Hentai", "Erotica", "Boys Love", "Girls Love"}

  predicate IsSafe(g: Genre) { g.name !in BlockedGenreNames }

  /** `res.data.filter(g => g.name !== 'Hentai' && ...)`: the genres offered as chips. */
  function SafeGenres(genres: seq<Genre>): (safe: seq<Genre>)
    ensures |safe| <= |genres|
    ensures forall g :: g in safe ==> g in genres && IsSafe(g)
    ensures forall g :: g in genres && IsSafe(g) ==> g in safe
    decreases |genres|
  {
    if genres == [] then []
    else (if IsSafe(genres[0]) then [genres[0]] else []) + SafeGenres(genres[1..])
  }

  /** Filtering a concatenation filters each part in place: the kept genres stay in their order. */
  lemma {:induction false} SafeGenresAppend(a: seq<Genre>, b: seq<Genre>)
    ensures SafeGenres(a + b) == SafeGenres(a) + SafeGenres(b)
    decreases |a|
  {
    if a == [] {
      assert a + b == b;
    } else {
      assert (a + b)[0] == a[0];
      assert (a + b)[1..] == a[1..] + b;
      SafeGenresAppend(a[1..], b);
    }
  }

  /** Filtering twice is filtering once. */
  lemma {:induction false} SafeGenresIdempotent(genres: seq<Genre>)
    ensures SafeGenres(SafeGenres(genres)) == SafeGenres(genres)
    decreases |genres|
  {
    if genres != [] {
      var head := if IsSafe(genres[0]) then [genres[0]] else [];
      SafeGenresAppend(head, SafeGenres(genres[1..]));
      SafeGenresIdempotent(genres[1..]);
    }
  }

  /** A list with no blocked genre is offered as it is. */
  lemma {:induction false} SafeGenresKeepsSafeList(genres: seq<Genre>)
    requires forall i :: 0 <= i < |genres| ==> IsSafe(genres[i])
    ensures SafeGenres(genres) == genres
    decreases |genres|
  {
    if genres != [] {
      SafeGenresKeepsSafeList(genres[1..]);
    }
  }

  const SkeletonCard: string := "<div class=\"skeleton-card\"></div>"

  /** `Array(n).fill(card)`. */
  function Fill(n: nat, card: string): (cards: seq<string>)
    ensures |cards| == n && forall i :: 0 <= i < n ==> cards[i] == card
  {
    seq(n, _ => card)
  }

  /** `skeletons(n)`: n placeholder cards joined with nothing in between. */
  function Skeletons(n: nat): (html: string)
    ensures n == 0 ==> html == ""
    ensures n > 0 ==> html == SkeletonCard + Skeletons(n - 1)
    decreases n
  {
    assert n > 0 ==> Fill(n, SkeletonCard)[1..] == Fill(n - 1, SkeletonCard);
    Join(Fill(n, SkeletonCard))
  }

  /** n copies of a card, joined, are n * |card| characters long. */
  lemma {:induction false} FillJoinLength(n: nat, card: string)
    ensures |Join(Fill(n, card))| == n * |card|
    decreases n
  {
    if n > 0 {
      assert Fill(n, card)[1..] == Fill(n - 1, card);
      FillJoinLength(n - 1, card);
    }
  }

  /** n placeholders are n * |card| characters long. */
  lemma SkeletonsLength(n: nat)
    ensures |Skeletons(n)| == n * |SkeletonCard|
  {
    FillJoinLength(n, SkeletonCard);
  }

  /** Placeholders for m + n cards are those for m cards followed by those for n. */
  lemma SkeletonsAdd(m: nat, n: nat)
    ensures Skeletons(m + n) == Skeletons(m) + Skeletons(n)
  {
    assert Fill(m + n, SkeletonCard) == Fill(m, SkeletonCard) + Fill(n, SkeletonCard);
    JoinAppend(Fill(m, SkeletonCard), Fill(n, SkeletonCard));
  }

  /** A search needs at least this many characters after trimming. */
  const MinQueryLength: nat := 2

  /** The input handler: the trimmed query that is searched for, or none (dropdown hidden). */
  function SearchQuery(input: string): (query: Option<string>)
    ensures query.Some? <==> |Trim(input)| >= MinQueryLength
    ensures query.Some? ==> query.value == Trim(input)
  {
    var q := Trim(input);
    if |q| < MinQueryLength then None else Some(q)
  }

  /** A query that is searched for is never blank or padded, whatever white space surrounds the input. */
  lemma SearchQueryUnpadded(front: string, input: string, back: string)
    requires AllWhiteSpace(front) && AllWhiteSpace(back)
    ensures SearchQuery(front + input + back) == SearchQuery(input)
    ensures SearchQuery(input).Some? ==> Unpadded(SearchQuery(input).value)
    ensures SearchQuery(input).Some? ==> !AllWhiteSpace(input)
  {
    TrimIgnoresPadding(front, input, back);
  }

  /**
   * The focus handler: the dropdown reopens only for a searchable query when it
   * is not empty (it holds what an earlier search left there: results,
   * "No results found" or an error message).
   */
  function ShowOnFocus(input: string, dropdown: string): (show: bool)
    ensures show ==> SearchQuery(input).Some?
    ensures show <==> SearchQuery(input).Some? && dropdown != ""
  {
    |Trim(input)| >= MinQueryLength && dropdown != ""
  }
}
