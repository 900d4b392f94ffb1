/** The chart summaries computed from the filtered reviews: sentiment counts,
    the confidence histogram, the per-game comparison, the two scatter series
    and the per-game rating histogram. Each is a function of the list alone;
    the class methods that compute them with loops are proved equal to these. */
module Aggregates {
  import opened Wrappers
  import opened Strings
  import opened Reviews
  import Filters

  const Positive := "positive"
  const Negative := "negative"

  function Sum(s: seq<nat>): nat {
    if s == [] then 0 else Sum(s[..|s| - 1]) + s[|s| - 1]
  }

  /** Adding one at index `k` adds one to the sum. */
  lemma {:induction false} SumIncrement(s: seq<nat>, k: nat)
    requires k < |s|
    ensures Sum(s[k := s[k] + 1]) == Sum(s) + 1
    decreases |s|
  {
    var t := s[k := s[k] + 1];
    if k < |s| - 1 {
      assert t[..|t| - 1] == s[..|s| - 1][k := s[k] + 1];
      SumIncrement(s[..|s| - 1], k);
    } else {
      assert t[..|t| - 1] == s[..|s| - 1];
    }
  }

  // ---------------------------------------------------------------- sentiment counts

  /** Number of reviews whose sentiment is exactly `s`. */
  function CountSentiment(data: seq<Review>, s: string): nat {
    if data == [] then 0
    else CountSentiment(data[..|data| - 1], s) + (if data[|data| - 1].sentiment == s then 1 else 0)
  }

  /** `getSentimentCounts()`. */
  datatype SentimentCounts = SentimentCounts(positive: nat, negative: nat)

  /** Reviews with a sentiment other than `positive` or `negative` are in
      neither count, so the two counts never exceed the number of reviews. */
  lemma {:induction false} SentimentCountsBound(data: seq<Review>)
    ensures CountSentiment(data, Positive) + CountSentiment(data, Negative) <= |data|
  {
    if data != [] {
      SentimentCountsBound(data[..|data| - 1]);
    }
  }

  // ---------------------------------------------------------------- confidence histogram

  /** The upper bounds of the first four confidence buckets. */
  const Bounds: seq<real> := [0.2, 0.4, 0.6, 0.8]

  /** The bucket the `if / else if` chain of `getConfidenceData` picks. */
  function Bucket(c: real): nat {
    if c <= 0.2 then 0
    else if c <= 0.4 then 1
    else if c <= 0.6 then 2
    else if c <= 0.8 then 3
    else 4
  }

  /** The chain picks the first bucket whose bound the value meets, and the
      last bucket when it meets none. */
  lemma BucketIsFirstBound(c: real)
    ensures Bucket(c) < 5
    ensures Bucket(c) < 4 ==> c <= Bounds[Bucket(c)]
    ensures forall j :: 0 <= j < 4 && j < Bucket(c) ==> Bounds[j] < c
  {
  }

  /** `getConfidenceData()`: five counters, one increment per review. */
  function Histogram(data: seq<Review>): (h: seq<nat>)
    ensures |h| == 5
  {
    if data == [] then [0, 0, 0, 0, 0]
    else
      var h := Histogram(data[..|data| - 1]);
      var b := Bucket(data[|data| - 1].confidence);
      h[b := h[b] + 1]
  }

  /** Number of reviews whose confidence falls in bucket `k`. */
  function CountBucket(data: seq<Review>, k: nat): nat {
    if data == [] then 0
    else CountBucket(data[..|data| - 1], k) + (if Bucket(data[|data| - 1].confidence) == k then 1 else 0)
  }

  /** Every review lands in exactly one bucket: the counts add up to the
      number of reviews, and bucket `k` holds the reviews whose bucket is `k`. */
  lemma {:induction false} HistogramSpec(data: seq<Review>)
    ensures Sum(Histogram(data)) == |data|
    ensures forall k :: 0 <= k < 5 ==> Histogram(data)[k] == CountBucket(data, k)
  {
    if data != [] {
      var init := data[..|data| - 1];
      HistogramSpec(init);
      SumIncrement(Histogram(init), Bucket(data[|data| - 1].confidence));
    } else {
      ZeroBarsSum();
    }
  }

  // ---------------------------------------------------------------- per-game comparison

  /** `data.map(item => item.game_name)`. */
  function Names(data: seq<Review>): (ns: seq<string>)
    ensures |ns| == |data|
    ensures forall i :: 0 <= i < |data| ==> ns[i] == data[i].gameName
  {
    seq(|data|, i requires 0 <= i < |data| => data[i].gameName)
  }

  /** The names of the data are the games of its reviews. */
  lemma NamesElems(data: seq<Review>)
    ensures Elems(Names(data)) == set r | r in data :: r.gameName
  {
    forall n | n in Elems(Names(data)) ensures exists r :: r in data && r.gameName == n {
      var i :| 0 <= i < |data| && Names(data)[i] == n;
      assert data[i] in data;
    }
    forall r | r in data ensures r.gameName in Elems(Names(data)) {
      var i :| 0 <= i < |data| && data[i] == r;
      assert Names(data)[i] == r.gameName;
    }
  }

  /** Number of reviews of game `name` with sentiment `s`. */
  function CountGame(data: seq<Review>, name: string, s: string): nat {
    if data == [] then 0
    else
      var x := data[|data| - 1];
      CountGame(data[..|data| - 1], name, s) + (if x.gameName == name && x.sentiment == s then 1 else 0)
  }

  /** A game that does not occur has no reviews of any sentiment. */
  lemma {:induction false} CountGameAbsent(data: seq<Review>, name: string, s: string)
    requires name !in Elems(Names(data))
    ensures CountGame(data, name, s) == 0
    decreases |data|
  {
    if data != [] {
      var init := data[..|data| - 1];
      assert Names(data) == Names(init) + [data[|data| - 1].gameName];
      CountGameAbsent(init, name, s);
    }
  }

  /** The `gameStats` dictionary after the reviews of `data`: a new game
      starts at zero, then the counter of the review's sentiment goes up. */
  function GameStats(data: seq<Review>): map<string, SentimentCounts> {
    if data == [] then map[]
    else
      var m := GameStats(data[..|data| - 1]);
      var x := data[|data| - 1];
      var c := if x.gameName in m then m[x.gameName] else SentimentCounts(0, 0);
      m[x.gameName :=
        if x.sentiment == Positive then c.(positive := c.positive + 1)
        else if x.sentiment == Negative then c.(negative := c.negative + 1)
        else c]
  }

  /** `Object.keys(gameStats)`: the games in order of first appearance. */
  function GameKeys(data: seq<Review>): seq<string> {
    if data == [] then []
    else
      var ks := GameKeys(data[..|data| - 1]);
      var name := data[|data| - 1].gameName;
      if name in ks then ks else ks + [name]
  }

  /** The dictionary has one key per game of the data, listed once each by
      `GameKeys`, and holds each game's positive and negative counts. */
  lemma GameStatsSpec(data: seq<Review>)
    ensures GameStats(data).Keys == Elems(GameKeys(data)) == Elems(Names(data))
    ensures forall n :: n in GameStats(data) ==>
      GameStats(data)[n] == SentimentCounts(CountGame(data, n, Positive), CountGame(data, n, Negative))
  {
    GameStatsKeys(data);
    GameStatsCounts(data);
  }

  lemma {:induction false} GameStatsKeys(data: seq<Review>)
    ensures GameStats(data).Keys == Elems(GameKeys(data)) == Elems(Names(data))
  {
    if data != [] {
      var init := data[..|data| - 1];
      GameStatsKeys(init);
      assert Names(data) == Names(init) + [data[|data| - 1].gameName];
    }
  }

  lemma {:induction false} GameStatsCounts(data: seq<Review>)
    ensures forall n :: n in GameStats(data) ==>
      GameStats(data)[n] == SentimentCounts(CountGame(data, n, Positive), CountGame(data, n, Negative))
  {
    if data != [] {
      var init := data[..|data| - 1];
      var x := data[|data| - 1];
      GameStatsCounts(init);
      if x.gameName !in GameStats(init) {
        GameStatsKeys(init);
        CountGameAbsent(init, x.gameName, Positive);
        CountGameAbsent(init, x.gameName, Negative);
      }
    }
  }

  /** The keys are listed once each, in an order the names of the data
      appear in. */
  lemma {:induction false} GameKeysOrder(data: seq<Review>)
    ensures Distinct(GameKeys(data))
    ensures Filters.IsSubsequence(GameKeys(data), Names(data))
  {
    if data != [] {
      var init := data[..|data| - 1];
      var name := data[|data| - 1].gameName;
      var ks := GameKeys(init);
      GameKeysOrder(init);
      assert Names(data) == Names(init) + [name];
      if name in ks {
        Filters.SubsequenceExtend(ks, Names(init), name);
      } else {
        var ks' := ks + [name];
        assert ks'[..|ks|] == ks;
        assert Names(data)[..|Names(data)| - 1] == Names(init);
      }
    }
  }

  /** Sorting the dictionary's keys gives the comparison's labels, and each
      label's entry holds that game's counts. */
  lemma GameStatsLabels(data: seq<Review>)
    ensures SortedDistinct(GameKeys(data)) == GameComparisonOf(data).labels
    ensures forall n :: n in GameComparisonOf(data).labels ==>
      && n in GameStats(data)
      && GameStats(data)[n] == SentimentCounts(CountGame(data, n, Positive), CountGame(data, n, Negative))
  {
    GameStatsSpec(data);
    StrictlySortedUnique(SortedDistinct(GameKeys(data)), SortedDistinct(Names(data)));
  }

  /** `labels.map(game => gameStats[game].positive)` (or `.negative` for
      any other `s`). */
  function Series(m: map<string, SentimentCounts>, labels: seq<string>, s: string): (cs: seq<nat>)
    requires forall n :: n in labels ==> n in m
    ensures |cs| == |labels|
  {
    seq(|labels|, k requires 0 <= k < |labels| =>
      if s == Positive then m[labels[k]].positive else m[labels[k]].negative)
  }

  /** Reading the dictionary at its sorted keys gives the comparison. */
  lemma GameStatsSeries(data: seq<Review>)
    ensures var labels := SortedDistinct(GameKeys(data));
      && labels == GameComparisonOf(data).labels
      && (forall n :: n in labels ==> n in GameStats(data))
      && Series(GameStats(data), labels, Positive) == CountsFor(data, labels, Positive)
      && Series(GameStats(data), labels, Negative) == CountsFor(data, labels, Negative)
  {
    GameStatsLabels(data);
    var labels := SortedDistinct(GameKeys(data));
    var m := GameStats(data);
    var pos, neg := Series(m, labels, Positive), Series(m, labels, Negative);
    forall k | 0 <= k < |labels|
      ensures pos[k] == CountGame(data, labels[k], Positive)
      ensures neg[k] == CountGame(data, labels[k], Negative)
    {
      assert labels[k] in labels;
    }
  }

  /** `getGameComparisonData()`: sorted game names with a positive and a negative count each. */
  datatype GameComparison = GameComparison(labels: seq<string>, positive: seq<nat>, negative: seq<nat>)

  function CountsFor(data: seq<Review>, labels: seq<string>, s: string): (cs: seq<nat>)
    ensures |cs| == |labels|
  {
    seq(|labels|, i requires 0 <= i < |labels| => CountGame(data, labels[i], s))
  }

  function GameComparisonOf(data: seq<Review>): GameComparison {
    var labels := SortedDistinct(Names(data));
    GameComparison(labels, CountsFor(data, labels, Positive), CountsFor(data, labels, Negative))
  }

  predicate Distinct(xs: seq<string>) {
    forall i, j :: 0 <= i < j < |xs| ==> xs[i] != xs[j]
  }

  lemma SortedIsDistinct(xs: seq<string>)
    requires StrictlySorted(xs)
    ensures Distinct(xs)
  {
    forall i, j | 0 <= i < j < |xs| ensures xs[i] != xs[j] {
      LessIrreflexive(xs[i]);
    }
  }

  /** Adding one review to the data adds one to the summed counts when its
      sentiment is `s` and its game is among the (distinct) labels. */
  lemma {:induction false} CountsForStep(data: seq<Review>, x: Review, labels: seq<string>, s: string)
    requires Distinct(labels)
    ensures Sum(CountsFor(data + [x], labels, s))
      == Sum(CountsFor(data, labels, s)) + (if x.sentiment == s && x.gameName in labels then 1 else 0)
    decreases |labels|
  {
    if labels != [] {
      var init := labels[..|labels| - 1];
      var last := labels[|labels| - 1];
      CountsForStep(data, x, init, s);
      assert (data + [x])[..|data|] == data;
      assert CountsFor(data + [x], labels, s)[..|init|] == CountsFor(data + [x], init, s);
      assert CountsFor(data, labels, s)[..|init|] == CountsFor(data, init, s);
      assert x.gameName in labels <==> x.gameName in init || x.gameName == last;
      assert last !in init;
    }
  }

  /** With distinct labels that cover every game of the data, the per-game
      counts add up to the overall count for sentiment `s`. */
  lemma {:induction false} CountsForTotal(data: seq<Review>, labels: seq<string>, s: string)
    requires Distinct(labels)
    requires forall i :: 0 <= i < |data| ==> data[i].gameName in labels
    ensures Sum(CountsFor(data, labels, s)) == CountSentiment(data, s)
    decreases |data|
  {
    if data == [] {
      CountsForEmpty(labels, s);
    } else {
      var init := data[..|data| - 1];
      var x := data[|data| - 1];
      CountsForTotal(init, labels, s);
      CountsForStep(init, x, labels, s);
      assert init + [x] == data;
    }
  }

  lemma {:induction false} CountsForEmpty(labels: seq<string>, s: string)
    ensures Sum(CountsFor([], labels, s)) == 0
    decreases |labels|
  {
    if labels != [] {
      var init := labels[..|labels| - 1];
      CountsForEmpty(init, s);
      assert CountsFor([], labels, s)[..|init|] == CountsFor([], init, s);
    }
  }

  /** The labels are strictly sorted and are exactly the games present; the
      two count series line up with the labels; and each series adds up to
      the matching sentiment count. */
  lemma GameComparisonSpec(data: seq<Review>)
    ensures var g := GameComparisonOf(data);
      && StrictlySorted(g.labels)
      && Elems(g.labels) == Elems(Names(data))
      && |g.positive| == |g.labels| && |g.negative| == |g.labels|
      && Sum(g.positive) == CountSentiment(data, Positive)
      && Sum(g.negative) == CountSentiment(data, Negative)
  {
    var labels := SortedDistinct(Names(data));
    SortedIsDistinct(labels);
    forall i | 0 <= i < |data| ensures data[i].gameName in labels {
      assert Names(data)[i] in Elems(Names(data));
    }
    CountsForTotal(data, labels, Positive);
    CountsForTotal(data, labels, Negative);
  }

  // ---------------------------------------------------------------- scatter series

  datatype Point<X> = Point(x: X, y: real)

  /** Points of positive and of negative reviews. */
  datatype Scatter<X> = Scatter(positive: seq<Point<X>>, negative: seq<Point<X>>)

  /** `getRatingSentimentData()`: (rating, confidence) per review, split by sentiment. */
  function RatingScatter(data: seq<Review>): Scatter<Option<int>> {
    if data == [] then Scatter([], [])
    else
      var sc := RatingScatter(data[..|data| - 1]);
      var x := data[|data| - 1];
      var p := Point(x.rating, x.confidence);
      if x.sentiment == Positive then sc.(positive := sc.positive + [p])
      else if x.sentiment == Negative then sc.(negative := sc.negative + [p])
      else sc
  }

  /** `getPlaytimeSentimentData()`: (playtime, confidence) per review with
      positive playtime, split by sentiment. */
  function PlaytimeScatter(data: seq<Review>): Scatter<int> {
    if data == [] then Scatter([], [])
    else
      var sc := PlaytimeScatter(data[..|data| - 1]);
      var x := data[|data| - 1];
      var p := Point(x.playtime, x.confidence);
      if x.playtime > 0 && x.sentiment == Positive then sc.(positive := sc.positive + [p])
      else if x.playtime > 0 && x.sentiment == Negative then sc.(negative := sc.negative + [p])
      else sc
  }

  /** The rating series has one point per positive and one per negative
      review, each taken from a review of that sentiment. */
  lemma {:induction false} RatingScatterSpec(data: seq<Review>)
    ensures |RatingScatter(data).positive| == CountSentiment(data, Positive)
    ensures |RatingScatter(data).negative| == CountSentiment(data, Negative)
    ensures forall p :: p in RatingScatter(data).positive ==>
      exists r :: r in data && r.sentiment == Positive && p == Point(r.rating, r.confidence)
    ensures forall p :: p in RatingScatter(data).negative ==>
      exists r :: r in data && r.sentiment == Negative && p == Point(r.rating, r.confidence)
  {
    if data != [] {
      var init := data[..|data| - 1];
      RatingScatterSpec(init);
      assert forall r :: r in init ==> r in data;
    }
  }

  /** Number of reviews with positive playtime and sentiment `s`. */
  function CountPlaytime(data: seq<Review>, s: string): nat {
    if data == [] then 0
    else
      var x := data[|data| - 1];
      CountPlaytime(data[..|data| - 1], s) + (if x.playtime > 0 && x.sentiment == s then 1 else 0)
  }

  /** The playtime series leaves out every review with playtime 0 or less:
      all its x values are positive, and it is no longer than the matching
      sentiment count. */
  lemma {:induction false} PlaytimeScatterSpec(data: seq<Review>)
    ensures |PlaytimeScatter(data).positive| == CountPlaytime(data, Positive) <= CountSentiment(data, Positive)
    ensures |PlaytimeScatter(data).negative| == CountPlaytime(data, Negative) <= CountSentiment(data, Negative)
    ensures forall p :: p in PlaytimeScatter(data).positive ==> p.x > 0
    ensures forall p :: p in PlaytimeScatter(data).negative ==> p.x > 0
  {
    if data != [] {
      PlaytimeScatterSpec(data[..|data| - 1]);
    }
  }

  /** The reviews a scatter series plots: those with sentiment `s` and, when
      `played` holds, a positive playtime; kept in data order. */
  function Plotted(data: seq<Review>, s: string, played: bool): seq<Review> {
    if data == [] then []
    else
      var x := data[|data| - 1];
      Plotted(data[..|data| - 1], s, played)
        + (if x.sentiment == s && (!played || x.playtime > 0) then [x] else [])
  }

  /** The plotted reviews are the data's reviews that pass, in data order,
      each as often as in the data. */
  lemma {:induction false} PlottedSpec(data: seq<Review>, s: string, played: bool)
    ensures Filters.IsSubsequence(Plotted(data, s, played), data)
    ensures forall r ::
              multiset(Plotted(data, s, played))[r] ==
              if r.sentiment == s && (!played || r.playtime > 0) then multiset(data)[r] else 0
  {
    if data != [] {
      var init := data[..|data| - 1];
      var x := data[|data| - 1];
      var ps := Plotted(init, s, played);
      PlottedSpec(init, s, played);
      assert data == init + [x];
      if x.sentiment == s && (!played || x.playtime > 0) {
        assert (ps + [x])[..|ps|] == ps;
      } else {
        assert ps + [] == ps;
        Filters.SubsequenceExtend(ps, init, x);
      }
    }
  }

  /** The (rating, confidence) point of each review, in order. */
  function RatingPoints(rs: seq<Review>): seq<Point<Option<int>>> {
    if rs == [] then []
    else
      var x := rs[|rs| - 1];
      RatingPoints(rs[..|rs| - 1]) + [Point(x.rating, x.confidence)]
  }

  /** The (playtime, confidence) point of each review, in order. */
  function PlaytimePoints(rs: seq<Review>): seq<Point<int>> {
    if rs == [] then []
    else
      var x := rs[|rs| - 1];
      PlaytimePoints(rs[..|rs| - 1]) + [Point(x.playtime, x.confidence)]
  }

  lemma RatingPointsSnoc(rs: seq<Review>, x: Review)
    ensures RatingPoints(rs + [x]) == RatingPoints(rs) + [Point(x.rating, x.confidence)]
  {
    assert (rs + [x])[..|rs|] == rs;
  }

  lemma PlaytimePointsSnoc(rs: seq<Review>, x: Review)
    ensures PlaytimePoints(rs + [x]) == PlaytimePoints(rs) + [Point(x.playtime, x.confidence)]
  {
    assert (rs + [x])[..|rs|] == rs;
  }

  /** Each rating series is the points of the reviews of its sentiment, in
      data order. */
  lemma {:induction false} RatingScatterSeries(data: seq<Review>)
    ensures RatingScatter(data) == Scatter(RatingPoints(Plotted(data, Positive, false)),
                                           RatingPoints(Plotted(data, Negative, false)))
  {
    if data != [] {
      var init := data[..|data| - 1];
      var x := data[|data| - 1];
      var pos := Plotted(init, Positive, false);
      var neg := Plotted(init, Negative, false);
      RatingScatterSeries(init);
      if x.sentiment == Positive {
        assert Plotted(data, Positive, false) == pos + [x];
        assert Plotted(data, Negative, false) == neg;
        RatingPointsSnoc(pos, x);
      } else if x.sentiment == Negative {
        assert Plotted(data, Positive, false) == pos;
        assert Plotted(data, Negative, false) == neg + [x];
        RatingPointsSnoc(neg, x);
      } else {
        assert Plotted(data, Positive, false) == pos;
        assert Plotted(data, Negative, false) == neg;
      }
    }
  }

  /** Each playtime series is the points of the reviews of its sentiment
      with positive playtime, in data order. */
  lemma {:induction false} PlaytimeScatterSeries(data: seq<Review>)
    ensures PlaytimeScatter(data) == Scatter(PlaytimePoints(Plotted(data, Positive, true)),
                                             PlaytimePoints(Plotted(data, Negative, true)))
  {
    if data != [] {
      var init := data[..|data| - 1];
      var x := data[|data| - 1];
      var pos := Plotted(init, Positive, true);
      var neg := Plotted(init, Negative, true);
      PlaytimeScatterSeries(init);
      if x.playtime > 0 && x.sentiment == Positive {
        assert Plotted(data, Positive, true) == pos + [x];
        assert Plotted(data, Negative, true) == neg;
        PlaytimePointsSnoc(pos, x);
      } else if x.playtime > 0 && x.sentiment == Negative {
        assert Plotted(data, Positive, true) == pos;
        assert Plotted(data, Negative, true) == neg + [x];
        PlaytimePointsSnoc(neg, x);
      } else {
        assert Plotted(data, Positive, true) == pos;
        assert Plotted(data, Negative, true) == neg;
      }
    }
  }

  // ---------------------------------------------------------------- per-game rating histogram

  /** `filteredData.filter(item => item.game_name === gameName)`. */
  function GameRecords(data: seq<Review>, game: string): seq<Review> {
    if data == [] then []
    else
      var x := data[|data| - 1];
      GameRecords(data[..|data| - 1], game) + (if x.gameName == game then [x] else [])
  }

  /** A rating that counts in the 1..5 histogram (never `NaN`). */
  predicate InStarRange(rating: Option<int>) {
    rating.Some? && 1 <= rating.value <= 5
  }

  /** The rating counters of `createModalGameChart`: one increment at
      `rating - 1` per review whose rating is in 1..5. */
  function RatingHistogram(games: seq<Review>): (h: seq<nat>)
    ensures |h| == 5
  {
    if games == [] then [0, 0, 0, 0, 0]
    else
      var h := RatingHistogram(games[..|games| - 1]);
      var r := games[|games| - 1].rating;
      if InStarRange(r) then h[r.value - 1 := h[r.value - 1] + 1] else h
  }

  /** Number of reviews of `game` rated exactly `stars`. */
  function CountRating(data: seq<Review>, game: string, stars: int): nat {
    if data == [] then 0
    else
      var x := data[|data| - 1];
      CountRating(data[..|data| - 1], game, stars) + (if x.gameName == game && x.rating == Some(stars) then 1 else 0)
  }

  /** Number of reviews of `game` whose rating is in 1..5. */
  function CountRated(data: seq<Review>, game: string): nat {
    if data == [] then 0
    else
      var x := data[|data| - 1];
      CountRated(data[..|data| - 1], game) + (if x.gameName == game && InStarRange(x.rating) then 1 else 0)
  }

  lemma ZeroBarsSum()
    ensures Sum([0, 0, 0, 0, 0]) == 0
  {
    assert [0, 0, 0, 0, 0][..4] == [0, 0, 0, 0];
    assert [0, 0, 0, 0][..3] == [0, 0, 0];
    assert [0, 0, 0][..2] == [0, 0];
    assert [0, 0][..1] == [0];
  }

  /** The histogram of the game's reviews after one more review. */
  lemma RatingHistogramStep(data: seq<Review>, game: string)
    requires data != []
    ensures var x := data[|data| - 1];
      var h := RatingHistogram(GameRecords(data[..|data| - 1], game));
      RatingHistogram(GameRecords(data, game))
        == if x.gameName == game && InStarRange(x.rating) then h[x.rating.value - 1 := h[x.rating.value - 1] + 1] else h
  {
    var x := data[|data| - 1];
    var g := GameRecords(data[..|data| - 1], game);
    if x.gameName == game {
      assert GameRecords(data, game) == g + [x];
      assert (g + [x])[..|g|] == g;
    } else {
      assert GameRecords(data, game) == g;
    }
  }

  /** Bar `k` of the chart for `game` counts the reviews of that game rated `k + 1`. */
  lemma {:induction false} RatingHistogramBars(data: seq<Review>, game: string)
    ensures forall k :: 0 <= k < 5 ==> RatingHistogram(GameRecords(data, game))[k] == CountRating(data, game, k + 1)
  {
    if data != [] {
      RatingHistogramBars(data[..|data| - 1], game);
      RatingHistogramStep(data, game);
    }
  }

  /** The bars add up to the reviews of the game with a rating in 1..5, which
      is at most all reviews of the game. */
  lemma {:induction false} RatingHistogramTotal(data: seq<Review>, game: string)
    ensures Sum(RatingHistogram(GameRecords(data, game))) == CountRated(data, game) <= |GameRecords(data, game)|
  {
    CountRatedBound(data, game);
    if data == [] {
      ZeroBarsSum();
    } else {
      var init := data[..|data| - 1];
      var x := data[|data| - 1];
      RatingHistogramTotal(init, game);
      RatingHistogramStep(data, game);
      if x.gameName == game && InStarRange(x.rating) {
        SumIncrement(RatingHistogram(GameRecords(init, game)), x.rating.value - 1);
      }
    }
  }

  lemma {:induction false} CountRatedBound(data: seq<Review>, game: string)
    ensures CountRated(data, game) <= |GameRecords(data, game)|
  {
    if data != [] {
      CountRatedBound(data[..|data| - 1], game);
    }
  }
}
