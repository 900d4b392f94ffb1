/** Review records and how they are built from CSV text (`parseCSV`,
    `getGameName`). */
module Reviews {
  import opened Wrappers
  import opened Strings
  import opened Numbers
  import CsvLine

  /** One parsed review. `gameId` and `rating` are `None` where `parseInt`
      gives `NaN`; the other numbers fall back to 0 (`parseInt(x) || 0`). */
  datatype Review = Review(
    gameId: Option<int>,
    gameName: string,
    rating: Option<int>,
    sentiment: string,
    confidence: real,
    helpful: int,
    funny: int,
    playtime: int,
    timestamp: int,
    reviewText: string,
    cleanedText: string)

  /** The fixed table of known Steam app ids. */
  const GameTitles: map<int, string> := map[
    1086940 := "Baldur's Gate 3",
    1091500 := "Cyberpunk 2077",
    1245620 := "Elden Ring",
    1145360 := "Hades",
    292030 := "The Witcher 3",
    1174180 := "Red Dead Redemption 2",
    1940340 := "Darkest Dungeon 2",
    2651280 := "Spider-Man 2",
    2050650 := "Resident Evil 4 Remake",
    1716740 := "Starfield"
  ]

  const GamePrefix := "Game "

  /** `getGameName(id)`: the title of a known id, otherwise `Game {id}`
      (`Game NaN` when the id did not parse). */
  function GameName(id: Option<int>): string {
    match id
    case None => GamePrefix + "NaN"
    case Some(n) => if n in GameTitles then GameTitles[n] else GamePrefix + IntToString(n)
  }

  /** The id whose title has `len` characters: the ten titles have ten
      different lengths, so a title's length names its id. */
  function IdOfTitleLength(len: nat): int {
    if len == 15 then 1086940
    else if len == 14 then 1091500
    else if len == 10 then 1245620
    else if len == 5 then 1145360
    else if len == 13 then 292030
    else if len == 21 then 1174180
    else if len == 17 then 1940340
    else if len == 12 then 2651280
    else if len == 22 then 2050650
    else 1716740
  }

  /** No title in the table starts with `Game `, and no two ids share a title. */
  lemma TitlesDistinct()
    ensures forall n :: n in GameTitles ==> !StartsWith(GameTitles[n], GamePrefix)
    ensures forall a, b :: a in GameTitles && b in GameTitles && GameTitles[a] == GameTitles[b] ==> a == b
  {
    forall n | n in GameTitles
      ensures GameTitles[n][0] != 'G' && IdOfTitleLength(|GameTitles[n]|) == n
    {
    }
  }

  /** An id outside the table is named `Game ` followed by its decimal text,
      from which the id reads back. */
  lemma GameNameFallback(n: int)
    requires n !in GameTitles
    ensures StartsWith(GameName(Some(n)), GamePrefix)
    ensures ParseInt(GameName(Some(n))[|GamePrefix|..]) == Some(n)
  {
    var name := GameName(Some(n));
    assert name[|GamePrefix|..] == IntToString(n);
    ParseIntToString(n);
  }

  /** A name from the table is never a fallback name. */
  lemma TitleIsNotFallback(n: int, id: Option<int>)
    requires n in GameTitles
    requires id.None? || id.value !in GameTitles
    ensures GameTitles[n] != GameName(id)
  {
    TitlesDistinct();
    assert StartsWith(GameName(id), GamePrefix);
  }

  /** `Game NaN` is not the fallback name of any id: a decimal text starts
      with a sign or a digit. */
  lemma NaNIsNotFallback(n: int)
    ensures GameName(None) != GamePrefix + IntToString(n)
  {
    var t := IntToString(n);
    assert t[0] == '-' || IsDigit(t[0]);
    assert (GamePrefix + t)[|GamePrefix|] == t[0];
    assert GameName(None)[|GamePrefix|] == 'N';
  }

  /** Two fallback names are equal only for equal ids. */
  lemma FallbackInjective(a: int, b: int)
    requires GamePrefix + IntToString(a) == GamePrefix + IntToString(b)
    ensures a == b
  {
    assert (GamePrefix + IntToString(a))[|GamePrefix|..] == IntToString(a);
    assert (GamePrefix + IntToString(b))[|GamePrefix|..] == IntToString(b);
    IntToStringInjective(a, b);
  }

  /** Different ids never share a game name, so grouping by name is grouping by id. */
  lemma GameNameInjective(a: Option<int>, b: Option<int>)
    requires GameName(a) == GameName(b)
    ensures a == b
  {
    if a.Some? && a.value in GameTitles {
      if b.Some? && b.value in GameTitles {
        TitlesDistinct();
      } else {
        TitleIsNotFallback(a.value, b);
      }
    } else if b.Some? && b.value in GameTitles {
      TitleIsNotFallback(b.value, a);
    } else if a.Some? && b.Some? {
      FallbackInjective(a.value, b.value);
    } else if a.Some? {
      NaNIsNotFallback(a.value);
    } else if b.Some? {
      NaNIsNotFallback(b.value);
    }
  }

  /** The names a plain object `{}` inherits from `Object.prototype`; a read
      `obj[name]` finds a value under each of them before any assignment. */
  const InheritedKeys: set<string> := {
    "__proto__", "constructor", "toString", "valueOf", "hasOwnProperty",
    "isPrototypeOf", "propertyIsEnumerable", "toLocaleString",
    "__defineGetter__", "__defineSetter__", "__lookupGetter__", "__lookupSetter__"
  }

  /** A game name is never a name a plain object inherits, so the per-game
      dictionary keyed by name starts every game from no counter and lists it
      among its own keys: each title starts with an upper-case letter and each
      fallback with `G`, while every inherited name starts with `_` or a
      lower-case letter. */
  lemma GameNameNotInheritedKey(id: Option<int>)
    ensures GameName(id) !in InheritedKeys
    ensures GameName(id) != "__proto__" && GameName(id) != "constructor"
  {
    GameNameCapital(id);
    InheritedKeysLower();
  }

  /** Every game name starts with an upper-case letter. */
  lemma GameNameCapital(id: Option<int>)
    ensures GameName(id) != [] && 'A' <= GameName(id)[0] <= 'Z'
  {
    var name := GameName(id);
    if id.Some? && id.value in GameTitles {
      var n := id.value;
      assert n == 1086940 || n == 1091500 || n == 1245620 || n == 1145360 || n == 292030
        || n == 1174180 || n == 1940340 || n == 2651280 || n == 2050650 || n == 1716740;
    } else {
      assert name[0] == 'G';
    }
  }

  /** Every inherited name starts with `_` or a lower-case letter. */
  lemma InheritedKeysLower()
    ensures forall k | k in InheritedKeys :: k != [] && (k[0] == '_' || 'a' <= k[0] <= 'z')
  {
  }

  /** `review[name]` after `headers.forEach((h, k) => review[h.trim()] = values[k].trim())`:
      the trimmed value under the LAST header whose trimmed text is `name`. */
  function Column(headers: seq<string>, values: seq<string>, name: string): Option<string>
    requires |headers| == |values|
  {
    if headers == [] then None
    else if Trim(headers[|headers| - 1]) == name then Some(Trim(values[|values| - 1]))
    else Column(headers[..|headers| - 1], values[..|values| - 1], name)
  }

  /** A text column; a missing column reads as empty. */
  function TextColumn(headers: seq<string>, values: seq<string>, name: string): string
    requires |headers| == |values|
  {
    Column(headers, values, name).GetOr("")
  }

  /** `parseInt(review[name])`; a missing column is `parseInt(undefined)`, i.e. `NaN`. */
  function IntColumn(headers: seq<string>, values: seq<string>, name: string): Option<int>
    requires |headers| == |values|
  {
    match Column(headers, values, name)
    case None => None
    case Some(v) => ParseInt(v)
  }

  /** `parseInt(review[name]) || 0`. */
  function CountColumn(headers: seq<string>, values: seq<string>, name: string): int
    requires |headers| == |values|
  {
    IntColumn(headers, values, name).GetOr(0)
  }

  /** `parseFloat(review[name]) || 0`. */
  function RealColumn(headers: seq<string>, values: seq<string>, name: string): real
    requires |headers| == |values|
  {
    match Column(headers, values, name)
    case None => 0.0
    case Some(v) => ParseFloat(v).GetOr(0.0)
  }

  /** The record built from one accepted line. */
  function MakeReview(headers: seq<string>, values: seq<string>): (r: Review)
    requires |headers| == |values|
    ensures r.gameName == GameName(r.gameId)
  {
    var id := IntColumn(headers, values, "game_id");
    Review(
      id,
      GameName(id),
      IntColumn(headers, values, "rating"),
      TextColumn(headers, values, "sentiment"),
      RealColumn(headers, values, "sentiment_confidence"),
      CountColumn(headers, values, "helpful"),
      CountColumn(headers, values, "funny"),
      CountColumn(headers, values, "playtime"),
      CountColumn(headers, values, "timestamp"),
      TextColumn(headers, values, "review_text"),
      TextColumn(headers, values, "cleaned_text"))
  }

  /** A data line is accepted when it splits into as many fields as there are headers. */
  predicate Accepted(headers: seq<string>, line: string) {
    |CsvLine.Fields(line)| == |headers|
  }

  /** What one data line contributes: its record when it is accepted, nothing otherwise. */
  function LineRecords(headers: seq<string>, line: string): seq<Review> {
    var values := CsvLine.Fields(line);
    if |values| == |headers| then [MakeReview(headers, values)] else []
  }

  /** The records of the data lines, in order, one per accepted line. */
  function LoadLines(headers: seq<string>, lines: seq<string>): seq<Review> {
    if lines == [] then []
    else LoadLines(headers, lines[..|lines| - 1]) + LineRecords(headers, lines[|lines| - 1])
  }

  /** The lines of the CSV text: `csvText.trim().split('\n')`. */
  function Lines(text: string): (ls: seq<string>)
    ensures |ls| >= 1
  {
    Split(Trim(text), '\n')
  }

  /** The header line split by plain `split(',')`. */
  function Headers(text: string): seq<string> {
    Split(Lines(text)[0], ',')
  }

  /** Everything `parseCSV(text)` appends to `rawData`. */
  function Records(text: string): seq<Review> {
    var ls := Lines(text);
    LoadLines(Headers(text), ls[1..])
  }

  /** Loading one more line appends what that line contributes. */
  lemma LoadLinesNext(headers: seq<string>, lines: seq<string>, i: nat)
    requires 1 <= i < |lines|
    ensures LoadLines(headers, lines[1..i + 1]) == LoadLines(headers, lines[1..i]) + LineRecords(headers, lines[i])
  {
    assert lines[1..i + 1][..i - 1] == lines[1..i];
  }

  /** Number of accepted lines. */
  function AcceptedCount(headers: seq<string>, lines: seq<string>): nat {
    if lines == [] then 0
    else AcceptedCount(headers, lines[..|lines| - 1]) + (if Accepted(headers, lines[|lines| - 1]) then 1 else 0)
  }

  /** One record per accepted line, and the record of accepted line `j` sits
      right after the records of the accepted lines before it: every other
      line is skipped and the order of the input is kept. */
  lemma {:induction false} LoadLinesSpec(headers: seq<string>, lines: seq<string>)
    ensures |LoadLines(headers, lines)| == AcceptedCount(headers, lines)
    ensures forall j :: 0 <= j < |lines| && Accepted(headers, lines[j]) ==>
      AcceptedCount(headers, lines[..j]) < |LoadLines(headers, lines)| &&
      LoadLines(headers, lines)[AcceptedCount(headers, lines[..j])] == MakeReview(headers, CsvLine.Fields(lines[j]))
  {
    if lines != [] {
      var init := lines[..|lines| - 1];
      LoadLinesSpec(headers, init);
      AcceptedCountPrefix(headers, lines);
      forall j | 0 <= j < |lines| && Accepted(headers, lines[j])
        ensures AcceptedCount(headers, lines[..j]) < |LoadLines(headers, lines)|
        ensures LoadLines(headers, lines)[AcceptedCount(headers, lines[..j])] == MakeReview(headers, CsvLine.Fields(lines[j]))
      {
        if j < |lines| - 1 {
          assert init[..j] == lines[..j];
          assert init[j] == lines[j];
        } else {
          assert lines[..j] == init;
        }
      }
    }
  }

  /** The accepted count only grows along the lines. */
  lemma AcceptedCountPrefix(headers: seq<string>, lines: seq<string>)
    requires lines != []
    ensures forall j :: 0 <= j < |lines| ==> AcceptedCount(headers, lines[..j]) <= AcceptedCount(headers, lines[..|lines| - 1])
  {
    var init := lines[..|lines| - 1];
    forall j | 0 <= j < |lines|
      ensures AcceptedCount(headers, lines[..j]) <= AcceptedCount(headers, init)
    {
      assert lines[..j] == init[..j];
      AcceptedCountMonotone(headers, init, j);
    }
  }

  lemma {:induction false} AcceptedCountMonotone(headers: seq<string>, lines: seq<string>, j: nat)
    requires j <= |lines|
    ensures AcceptedCount(headers, lines[..j]) <= AcceptedCount(headers, lines)
    decreases |lines|
  {
    if j < |lines| {
      var init := lines[..|lines| - 1];
      assert init[..j] == lines[..j];
      AcceptedCountMonotone(headers, init, j);
    } else {
      assert lines[..j] == lines;
    }
  }

  /** Every record carries the name its id maps to. */
  predicate NamedById(rs: seq<Review>) {
    forall r :: r in rs ==> r.gameName == GameName(r.gameId)
  }

  lemma NamedByIdAppend(a: seq<Review>, b: seq<Review>)
    requires NamedById(a) && NamedById(b)
    ensures NamedById(a + b)
  {
  }

  /** Every loaded record carries the name its id maps to. */
  lemma {:induction false} LoadedNames(headers: seq<string>, lines: seq<string>)
    ensures NamedById(LoadLines(headers, lines))
  {
    if lines != [] {
      LoadedNames(headers, lines[..|lines| - 1]);
      var init := LoadLines(headers, lines[..|lines| - 1]);
      if Accepted(headers, lines[|lines| - 1]) {
        NamedByIdAppend(init, [MakeReview(headers, CsvLine.Fields(lines[|lines| - 1]))]);
      }
    }
  }
}
