/** The state of the dashboard (`SentimentAnalyzer`): the loaded reviews, the
    filtered view, the filter criteria and the sorted game names, with the
    methods that change them and the loops that summarise the filtered view. */
module Dashboard {
  import opened Wrappers
  import opened Strings
  import opened Numbers
  import opened Reviews
  import opened Filters
  import opened Aggregates
  import opened TopWords
  import CsvLine

  lemma AppendAssoc<T>(a: seq<T>, b: seq<T>, x: T)
    ensures a + b + [x] == a + (b + [x])
  {
  }

  /** The inner loop of `getTopWords()`: every word of one review that
      passes the word test is counted into `wordCount`. */
  method CountKeptWords(wordCount: seq<WordCount>, ghost counted: seq<string>, words: seq<string>)
    returns (result: seq<WordCount>)
    requires wordCount == Tally(counted)
    ensures result == Tally(counted + KeptWords(words))
  {
    result := wordCount;
    var j := 0;
    assert words[..0] == [];
    assert counted + KeptWords(words[..0]) == counted;
    while j < |words|
      invariant 0 <= j <= |words|
      invariant result == Tally(counted + KeptWords(words[..j]))
    {
      var word := words[j];
      TallyKeptNext(counted, words, j);
      if |word| > 2 && word !in StopWords && !AllDigits(word) {
        assert Kept(word);
        result := Bump(result, word);
      } else {
        assert !Kept(word);
      }
      j := j + 1;
    }
    assert words[..j] == words;
  }

  class SentimentAnalyzer {
    var rawData: seq<Review>
    var filteredData: seq<Review>
    var currentFilter: Filter
    var gameNames: seq<string>

    /** What every method keeps: the view is an order-preserving part of the
        loaded reviews, the game names are the sorted distinct names of the
        loaded reviews, and every loaded review carries the name of its id. */
    ghost predicate Valid()
      reads this
    {
      && IsSubsequence(filteredData, rawData)
      && StrictlySorted(gameNames)
      && Elems(gameNames) == Elems(Names(rawData))
      && NamedById(rawData)
    }

    /** The fields as the constructor sets them, before any data is loaded. */
    constructor ()
      ensures Valid()
      ensures rawData == [] && filteredData == [] && gameNames == []
      ensures currentFilter == DefaultFilter
    {
      rawData := [];
      filteredData := [];
      currentFilter := DefaultFilter;
      gameNames := [];
      new;
      SubsequenceOfSelf(filteredData);
    }

    /** `parseCSV(csvText)`: appends one record per accepted data line, then
        shows everything and recomputes the game names. */
    method ParseCsv(csvText: string)
      requires Valid()
      modifies this
      ensures Valid()
      ensures rawData == old(rawData) + Records(csvText)
      ensures filteredData == rawData
      ensures gameNames == SortedDistinct(Names(rawData))
      ensures currentFilter == old(currentFilter)
    {
      var lines := Lines(csvText);
      var headers := Split(lines[0], ',');
      LoadDataLines(headers, lines);
      filteredData := rawData;
      gameNames := SortedDistinct(Names(rawData));
      SubsequenceOfSelf(rawData);
    }

    /** The loop of `parseCSV` over the data lines (every line after the
        first): each line is split, and when it has as many fields as there
        are headers its record is pushed onto `rawData`. */
    method LoadDataLines(headers: seq<string>, lines: seq<string>)
      requires |lines| >= 1
      requires NamedById(rawData)
      modifies this
      ensures rawData == old(rawData) + LoadLines(headers, lines[1..])
      ensures NamedById(rawData)
      ensures filteredData == old(filteredData) && currentFilter == old(currentFilter) && gameNames == old(gameNames)
    {
      var i := 1;
      while i < |lines|
        invariant 1 <= i <= |lines|
        invariant rawData == old(rawData) + LoadLines(headers, lines[1..i])
        invariant filteredData == old(filteredData) && currentFilter == old(currentFilter) && gameNames == old(gameNames)
      {
        var values := CsvLine.ParseCsvLine(lines[i]);
        ghost var loaded := LoadLines(headers, lines[1..i]);
        LoadLinesNext(headers, lines, i);
        if |values| == |headers| {
          var review := MakeReview(headers, values);
          AppendAssoc(old(rawData), loaded, review);
          rawData := rawData + [review];
        }
        i := i + 1;
      }
      assert lines[1..i] == lines[1..];
      LoadedNames(headers, lines[1..]);
      NamedByIdAppend(old(rawData), LoadLines(headers, lines[1..]));
    }

    /** `applyFilters()` without the redrawing: the view becomes the reviews
        that pass the current criteria, in their loaded order. */
    method ApplyFilters()
      requires Valid()
      modifies this
      ensures Valid()
      ensures filteredData == Select(rawData, currentFilter)
      ensures rawData == old(rawData) && currentFilter == old(currentFilter) && gameNames == old(gameNames)
    {
      var result: seq<Review> := [];
      var i := 0;
      while i < |rawData|
        invariant 0 <= i <= |rawData|
        invariant result == Select(rawData[..i], currentFilter)
      {
        var item := rawData[i];
        if Passes(item, currentFilter) {
          result := result + [item];
        }
        assert rawData[..i + 1][..i] == rawData[..i];
        i := i + 1;
      }
      assert rawData[..i] == rawData;
      filteredData := result;
      SelectIsSubsequence(rawData, currentFilter);
    }

    /** `resetFilters()` without the form fields: every criterion back to its
        default, after which the view is all loaded reviews. */
    method ResetFilters()
      requires Valid()
      modifies this
      ensures Valid()
      ensures currentFilter == DefaultFilter
      ensures filteredData == rawData
      ensures rawData == old(rawData) && gameNames == old(gameNames)
    {
      currentFilter := DefaultFilter;
      ApplyFilters();
      SelectDefault(rawData);
    }

    /** The game selector's change handler. */
    method SetGameFilter(game: string)
      requires Valid()
      modifies this
      ensures Valid()
      ensures currentFilter == old(currentFilter).(game := game)
      ensures filteredData == Select(rawData, currentFilter)
      ensures rawData == old(rawData) && gameNames == old(gameNames)
    {
      currentFilter := currentFilter.(game := game);
      ApplyFilters();
    }

    /** The sentiment selector's change handler. */
    method SetSentimentFilter(sentiment: string)
      requires Valid()
      modifies this
      ensures Valid()
      ensures currentFilter == old(currentFilter).(sentiment := sentiment)
      ensures filteredData == Select(rawData, currentFilter)
      ensures rawData == old(rawData) && gameNames == old(gameNames)
    {
      currentFilter := currentFilter.(sentiment := sentiment);
      ApplyFilters();
    }

    /** The rating selector's change handler. */
    method SetRatingFilter(rating: string)
      requires Valid()
      modifies this
      ensures Valid()
      ensures currentFilter == old(currentFilter).(rating := rating)
      ensures filteredData == Select(rawData, currentFilter)
      ensures rawData == old(rawData) && gameNames == old(gameNames)
    {
      currentFilter := currentFilter.(rating := rating);
      ApplyFilters();
    }

    /** The search box's input handler: the term is stored lower-cased and
        the filters are applied (once the debounce delay has passed). */
    method SetSearch(text: string)
      requires Valid()
      modifies this
      ensures Valid()
      ensures currentFilter == old(currentFilter).(search := Lower(text))
      ensures filteredData == Select(rawData, currentFilter)
      ensures rawData == old(rawData) && gameNames == old(gameNames)
    {
      currentFilter := currentFilter.(search := Lower(text));
      ApplyFilters();
    }

    /** `getSentimentCounts()`. */
    method GetSentimentCounts() returns (counts: SentimentCounts)
      ensures counts.positive == CountSentiment(filteredData, Positive)
      ensures counts.negative == CountSentiment(filteredData, Negative)
      ensures counts.positive + counts.negative <= |filteredData|
    {
      var positive := 0;
      var negative := 0;
      var i := 0;
      while i < |filteredData|
        invariant 0 <= i <= |filteredData|
        invariant positive == CountSentiment(filteredData[..i], Positive)
        invariant negative == CountSentiment(filteredData[..i], Negative)
      {
        var item := filteredData[i];
        if item.sentiment == Positive {
          positive := positive + 1;
        } else if item.sentiment == Negative {
          negative := negative + 1;
        }
        assert filteredData[..i + 1][..i] == filteredData[..i];
        i := i + 1;
      }
      assert filteredData[..i] == filteredData;
      counts := SentimentCounts(positive, negative);
      SentimentCountsBound(filteredData);
    }

    /** `getConfidenceData()`: five counters in an array, one increment per
        review in the bucket its confidence falls in. */
    method GetConfidenceData() returns (ranges: seq<nat>)
      ensures ranges == Histogram(filteredData)
      ensures |ranges| == 5 && Sum(ranges) == |filteredData|
      ensures forall k :: 0 <= k < 5 ==> ranges[k] == CountBucket(filteredData, k)
    {
      var counters := new nat[5](_ => 0);
      var i := 0;
      while i < |filteredData|
        invariant 0 <= i <= |filteredData|
        invariant counters[..] == Histogram(filteredData[..i])
      {
        var confidence := filteredData[i].confidence;
        if confidence <= 0.2 {
          counters[0] := counters[0] + 1;
        } else if confidence <= 0.4 {
          counters[1] := counters[1] + 1;
        } else if confidence <= 0.6 {
          counters[2] := counters[2] + 1;
        } else if confidence <= 0.8 {
          counters[3] := counters[3] + 1;
        } else {
          counters[4] := counters[4] + 1;
        }
        assert filteredData[..i + 1][..i] == filteredData[..i];
        i := i + 1;
      }
      assert filteredData[..i] == filteredData;
      ranges := counters[..];
      HistogramSpec(filteredData);
    }

    /** `getGameComparisonData()`: per-game counters in a dictionary whose
        keys are then sorted. */
    method GetGameComparisonData() returns (g: GameComparison)
      ensures g == GameComparisonOf(filteredData)
      ensures StrictlySorted(g.labels) && Elems(g.labels) == Elems(Names(filteredData))
      ensures |g.positive| == |g.labels| && |g.negative| == |g.labels|
      ensures Sum(g.positive) == CountSentiment(filteredData, Positive)
      ensures Sum(g.negative) == CountSentiment(filteredData, Negative)
    {
      var stats: map<string, SentimentCounts> := map[];
      var keys: seq<string> := [];
      var i := 0;
      while i < |filteredData|
        invariant 0 <= i <= |filteredData|
        invariant stats == GameStats(filteredData[..i])
        invariant keys == GameKeys(filteredData[..i])
      {
        var item := filteredData[i];
        var name := item.gameName;
        assert filteredData[..i + 1][..i] == filteredData[..i];
        if name !in stats {
          stats := stats[name := SentimentCounts(0, 0)];
        }
        if name !in keys {
          keys := keys + [name];
        }
        if item.sentiment == Positive {
          stats := stats[name := stats[name].(positive := stats[name].positive + 1)];
        } else if item.sentiment == Negative {
          stats := stats[name := stats[name].(negative := stats[name].negative + 1)];
        }
        i := i + 1;
      }
      assert filteredData[..i] == filteredData;
      var labels := SortedDistinct(keys);
      GameStatsSeries(filteredData);
      var positive := Series(stats, labels, Positive);
      var negative := Series(stats, labels, Negative);
      g := GameComparison(labels, positive, negative);
      GameComparisonSpec(filteredData);
    }

    /** `getRatingSentimentData()`: one point per positive or negative review,
        pushed onto the list of its sentiment. */
    method GetRatingSentimentData() returns (sc: Scatter<Option<int>>)
      ensures sc == RatingScatter(filteredData)
      ensures |sc.positive| == CountSentiment(filteredData, Positive)
      ensures |sc.negative| == CountSentiment(filteredData, Negative)
    {
      var positive: seq<Point<Option<int>>> := [];
      var negative: seq<Point<Option<int>>> := [];
      var i := 0;
      while i < |filteredData|
        invariant 0 <= i <= |filteredData|
        invariant Scatter(positive, negative) == RatingScatter(filteredData[..i])
      {
        var item := filteredData[i];
        var point := Point(item.rating, item.confidence);
        if item.sentiment == Positive {
          positive := positive + [point];
        } else if item.sentiment == Negative {
          negative := negative + [point];
        }
        assert filteredData[..i + 1][..i] == filteredData[..i];
        i := i + 1;
      }
      assert filteredData[..i] == filteredData;
      sc := Scatter(positive, negative);
      RatingScatterSpec(filteredData);
    }

    /** `getPlaytimeSentimentData()`: as the rating series, for reviews with
        a positive playtime only. */
    method GetPlaytimeSentimentData() returns (sc: Scatter<int>)
      ensures sc == PlaytimeScatter(filteredData)
      ensures forall p :: p in sc.positive ==> p.x > 0
      ensures forall p :: p in sc.negative ==> p.x > 0
    {
      var positive: seq<Point<int>> := [];
      var negative: seq<Point<int>> := [];
      var i := 0;
      while i < |filteredData|
        invariant 0 <= i <= |filteredData|
        invariant Scatter(positive, negative) == PlaytimeScatter(filteredData[..i])
      {
        var item := filteredData[i];
        if item.playtime > 0 {
          var point := Point(item.playtime, item.confidence);
          if item.sentiment == Positive {
            positive := positive + [point];
          } else if item.sentiment == Negative {
            negative := negative + [point];
          }
        }
        assert filteredData[..i + 1][..i] == filteredData[..i];
        i := i + 1;
      }
      assert filteredData[..i] == filteredData;
      sc := Scatter(positive, negative);
      PlaytimeScatterSpec(filteredData);
    }

    /** `getTopWords()`: the words of each positive review counted into a
        dictionary, then sorted by count and cut to fifty. */
    method GetTopWords() returns (top: seq<WordCount>)
      ensures top == TopWordsOf(filteredData)
      ensures |top| <= TopCount && NonIncreasing(top) && DistinctWords(top)
      ensures forall i :: 0 <= i < |top| ==>
        Kept(top[i].word) && top[i].count == multiset(PositiveWords(filteredData))[top[i].word] > 0
    {
      var wordCount: seq<WordCount> := [];
      var i := 0;
      while i < |filteredData|
        invariant 0 <= i <= |filteredData|
        invariant wordCount == Tally(PositiveWords(filteredData[..i]))
      {
        var item := filteredData[i];
        ghost var counted := PositiveWords(filteredData[..i]);
        PositiveWordsNext(filteredData, i);
        if item.sentiment == Positive {
          var words := Words(Lower(item.cleanedText));
          wordCount := CountKeptWords(wordCount, counted, words);
          assert ReviewWords(item) == KeptWords(words);
          assert PositiveWords(filteredData[..i + 1]) == counted + KeptWords(words);
        } else {
          assert PositiveWords(filteredData[..i + 1]) == counted;
        }
        i := i + 1;
      }
      assert filteredData[..i] == filteredData;
      var sorted := SortByCount(wordCount);
      top := if |sorted| <= TopCount then sorted else sorted[..TopCount];
      TopWordsSpec(filteredData);
    }

    /** The rating histogram of `createModalGameChart(gameName)`: five
        counters in an array, one increment at `rating - 1` per review of the
        game rated 1 to 5. */
    method GetRatingHistogram(gameName: string) returns (ratingData: seq<nat>)
      ensures ratingData == RatingHistogram(GameRecords(filteredData, gameName))
      ensures |ratingData| == 5
      ensures forall k :: 0 <= k < 5 ==> ratingData[k] == CountRating(filteredData, gameName, k + 1)
      ensures Sum(ratingData) == CountRated(filteredData, gameName)
    {
      var gameData := GameRecords(filteredData, gameName);
      var counters := new nat[5](_ => 0);
      var i := 0;
      while i < |gameData|
        invariant 0 <= i <= |gameData|
        invariant counters[..] == RatingHistogram(gameData[..i])
      {
        var rating := gameData[i].rating;
        if rating.Some? && rating.value >= 1 && rating.value <= 5 {
          counters[rating.value - 1] := counters[rating.value - 1] + 1;
        }
        assert gameData[..i + 1][..i] == gameData[..i];
        i := i + 1;
      }
      assert gameData[..i] == gameData;
      ratingData := counters[..];
      RatingHistogramBars(filteredData, gameName);
      RatingHistogramTotal(filteredData, gameName);
    }
  }
}
