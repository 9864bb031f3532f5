/**
 * The per-field rules of the preprocessing script: counting the items of a
 * comma-separated list, taking its first item, splitting a duration such as
 * "90 min" into value and unit, and mapping a rating code onto an audience
 * category.
 */
module FieldParsers {
  import opened Wrappers
  import opened Text

  /** The fill value for missing text fields, also treated as "no items". */
  const Unknown: string := "unknown"

  // ---------------------------------------------------------------------
  // count_items
  // ---------------------------------------------------------------------

  /** How many of `items` are non-empty once stripped. */
  function CountNonBlank(items: seq<string>): (n: nat)
    ensures n <= |items|
  {
    if items == [] then 0
    else CountNonBlank(items[..|items| - 1]) + (if Strip(items[|items| - 1]) != [] then 1 else 0)
  }

  /**
   * `count_items`: 0 for the sentinel, otherwise the number of comma pieces
   * that are not blank; never more than one per comma plus one.
   */
  function CountItems(text: string): (n: nat)
    ensures text == Unknown ==> n == 0
    ensures n <= Occurrences(text, ',') + 1
  {
    if text == Unknown then 0 else CountNonBlank(Split(text, ','))
  }

  /** The loop of `count_items`, which increments a counter once per non-blank piece. */
  method CountItemsLoop(text: string) returns (count: nat)
    ensures count == CountItems(text)
  {
    if text == Unknown {
      return 0;
    }
    var items := Split(text, ',');
    count := 0;
    for i := 0 to |items|
      invariant count == CountNonBlank(items[..i])
    {
      ghost var done := items[..i + 1];
      assert done[..i] == items[..i] && done[i] == items[i];
      if Strip(items[i]) != [] {
        count := count + 1;
      }
      assert count == CountNonBlank(done);
    }
    assert items[..|items|] == items;
    assert CountItems(text) == CountNonBlank(items);
  }

  lemma {:induction false} CountNonBlankAppend(a: seq<string>, b: seq<string>)
    ensures CountNonBlank(a + b) == CountNonBlank(a) + CountNonBlank(b)
  {
    if b == [] {
      assert a + b == a;
    } else {
      CountNonBlankAppend(a, b[..|b| - 1]);
      assert (a + b)[..|a + b| - 1] == a + b[..|b| - 1];
      assert (a + b)[|a + b| - 1] == b[|b| - 1];
    }
  }

  /**
   * The count is additive over commas: the pieces of `a,b` are the pieces
   * of `a` followed by those of `b`. The sentinel counts 0 only as the
   * whole text; as one piece of a longer list it is an item like any other.
   */
  lemma CountItemsConcat(a: string, b: string)
    ensures CountItems(a + [','] + b) == CountNonBlank(Split(a, ',')) + CountNonBlank(Split(b, ','))
    ensures a != Unknown && b != Unknown ==> CountItems(a + [','] + b) == CountItems(a) + CountItems(b)
  {
    var t := a + [','] + b;
    assert t != Unknown by {
      assert t[|a|] == ',';
      assert ',' !in Unknown;
    }
    CountPiecesConcat(a, b);
  }

  /** The non-blank pieces of `a,b` are those of `a` and those of `b`. */
  lemma CountPiecesConcat(a: string, b: string)
    ensures CountNonBlank(Split(a + [','] + b, ',')) == CountNonBlank(Split(a, ',')) + CountNonBlank(Split(b, ','))
  {
    SplitConcat(a, b, ',');
    CountNonBlankAppend(Split(a, ','), Split(b, ','));
  }

  /** A piece without commas is one item, or none when blank. */
  lemma CountPiecesSingle(text: string)
    requires ',' !in text
    ensures CountNonBlank(Split(text, ',')) == if IsBlank(text) then 0 else 1
  {
    SplitNoSeparator(text, ',');
    assert Split(text, ',')[..0] == [];
  }

  /** Two non-blank pieces around one comma are two items, whatever the pieces say. */
  lemma CountItemsTwoPieces(a: string, b: string)
    requires ',' !in a && ',' !in b
    requires !IsBlank(a) && !IsBlank(b)
    ensures CountItems(a + [','] + b) == 2
  {
    CountPiecesSingle(a);
    CountPiecesSingle(b);
    CountItemsConcat(a, b);
  }

  /** Four comma-free pieces joined by commas: one item per piece that is not blank. */
  lemma CountItemsFourPieces(a: string, b: string, c: string, d: string)
    requires ',' !in a && ',' !in b && ',' !in c && ',' !in d
    ensures CountItems(a + [','] + (b + [','] + (c + [','] + d))) ==
      (if IsBlank(a) then 0 else 1) + (if IsBlank(b) then 0 else 1) +
      (if IsBlank(c) then 0 else 1) + (if IsBlank(d) then 0 else 1)
  {
    CountPiecesSingle(a);
    CountPiecesSingle(b);
    CountPiecesSingle(c);
    CountPiecesSingle(d);
    CountPiecesThree(b, c, d);
    CountItemsConcat(a, b + [','] + (c + [','] + d));
  }

  /** The non-blank pieces of `b,c,d` are those of `b`, `c` and `d` together. */
  lemma CountPiecesThree(b: string, c: string, d: string)
    ensures CountNonBlank(Split(b + [','] + (c + [','] + d), ',')) ==
      CountNonBlank(Split(b, ',')) + CountNonBlank(Split(c, ',')) + CountNonBlank(Split(d, ','))
  {
    CountPiecesConcat(c, d);
    CountPiecesConcat(b, c + [','] + d);
  }

  /** A text without commas (other than the sentinel) is one item, or none when blank. */
  lemma CountItemsSingle(text: string)
    requires ',' !in text && text != Unknown
    ensures CountItems(text) == if IsBlank(text) then 0 else 1
  {
    CountPiecesSingle(text);
  }

  /** The count is 0 exactly for the sentinel and for texts made only of commas and whitespace. */
  lemma {:induction false} CountItemsZero(text: string)
    requires text != Unknown
    ensures CountItems(text) == 0 <==> forall i :: 0 <= i < |text| ==> text[i] == ',' || IsSpace(text[i])
  {
    CountNonBlankZero(text);
  }

  lemma {:induction false} CountNonBlankZero(text: string)
    ensures CountNonBlank(Split(text, ',')) == 0 <==> forall i :: 0 <= i < |text| ==> text[i] == ',' || IsSpace(text[i])
    decreases |text|
  {
    var k := Find(text, ',');
    SplitFirst(text, ',');
    var first := text[..k];
    if k == |text| {
      SplitNoSeparator(text, ',');
      assert Split(text, ',')[..0] == [];
      assert first == text;
    } else {
      var rest := text[k + 1..];
      SplitRest(text, ',');
      var parts := Split(text, ',');
      assert parts == [parts[0]] + parts[1..];
      CountNonBlankAppend([parts[0]], parts[1..]);
      assert [parts[0]][..0] == [];
      CountNonBlankZero(rest);
      if CountNonBlank(parts) == 0 {
        forall i | 0 <= i < |text| ensures text[i] == ',' || IsSpace(text[i]) {
          if i < k { assert text[i] == first[i]; }
          else if i > k { assert text[i] == rest[i - k - 1]; }
        }
      }
    }
  }

  // ---------------------------------------------------------------------
  // get_primary_genre
  // ---------------------------------------------------------------------

  /**
   * `get_primary_genre`: the sentinel is kept; otherwise the text before the
   * first comma, stripped, even when that is empty.
   */
  function GetPrimaryGenre(genres: string): (g: string)
    ensures genres == Unknown ==> g == Unknown
    ensures genres != Unknown ==> g == Strip(genres[..Find(genres, ',')])
    ensures ',' !in g
    ensures g == [] || (!IsSpace(g[0]) && !IsSpace(g[|g| - 1]))
  {
    if genres == Unknown then Unknown
    else
      SplitFirst(genres, ',');
      Strip(Split(genres, ',')[0])
  }

  /** A non-empty primary genre is one of the items that `count_items` counts. */
  lemma PrimaryGenreCounted(genres: string)
    requires genres != Unknown && GetPrimaryGenre(genres) != []
    ensures CountItems(genres) >= 1
  {
    var parts := Split(genres, ',');
    SplitFirst(genres, ',');
    assert parts == [parts[0]] + parts[1..];
    CountNonBlankAppend([parts[0]], parts[1..]);
    assert [parts[0]][..0] == [];
  }

  /** The primary genre of `a,b` is `a` stripped, whatever follows the comma. */
  lemma PrimaryGenreOfFirst(a: string, b: string)
    requires ',' !in a
    ensures GetPrimaryGenre(a + [','] + b) == Strip(a)
  {
    var t := a + [','] + b;
    assert t != Unknown by {
      assert t[|a|] == ',';
      assert ',' !in Unknown;
    }
    assert t[..|a|] == a;
    FindAt(t, ',', |a|);
  }

  // ---------------------------------------------------------------------
  // extract_duration_value / extract_duration_unit
  // ---------------------------------------------------------------------

  /**
   * `extract_duration_value`: the integer before the first space (or the
   * whole text when there is none), and `None` when it is not an integer.
   */
  function ExtractDurationValue(duration: string): (v: Option<int>)
    ensures v == ParseInt(duration[..Find(duration, ' ')])
    ensures v.Some? ==> duration != [] && duration[0] != ' '
  {
    SplitFirst(duration, ' ');
    ParseInt(Split(duration, ' ')[0])
  }

  /**
   * `extract_duration_unit`: the lower-cased text between the first and the
   * second space (the second piece), or the sentinel when there is no space.
   * It does not look at whether the first piece is a number.
   */
  function ExtractDurationUnit(duration: string): (u: string)
    ensures ' ' !in duration ==> u == Unknown
    ensures ' ' in duration ==>
      var rest := duration[Find(duration, ' ') + 1..];
      u == Lower(rest[..Find(rest, ' ')])
  {
    var parts := Split(duration, ' ');
    OneSpaceLessPiece(duration);
    if |parts| >= 2 then
      SplitRest(duration, ' ');
      SplitFirst(duration[Find(duration, ' ') + 1..], ' ');
      Lower(parts[1])
    else
      Unknown
  }

  lemma {:induction false} OneSpaceLessPiece(s: string)
    ensures |Split(s, ' ')| >= 2 <==> ' ' in s
  {
    if ' ' in s {
      SplitRest(s, ' ');
    } else {
      SplitNoSeparator(s, ' ');
    }
  }

  /** Without a space the value is the whole text parsed, and there is no unit. */
  lemma DurationWithoutSpace(d: string)
    requires ' ' !in d
    ensures ExtractDurationValue(d) == ParseInt(d)
    ensures ExtractDurationUnit(d) == Unknown
  {
    FindAt(d, ' ', |d|);
    assert d[..|d|] == d;
  }

  /**
   * For `a b` with no space in `a`, the value is `a` parsed and the unit is
   * the lower-cased text of `b` up to its own first space.
   */
  lemma DurationOfPieces(a: string, b: string)
    requires ' ' !in a
    ensures ExtractDurationValue(a + [' '] + b) == ParseInt(a)
    ensures ExtractDurationUnit(a + [' '] + b) == Lower(b[..Find(b, ' ')])
  {
    var d := a + [' '] + b;
    assert d[..|a|] == a;
    FindAt(d, ' ', |a|);
    assert d[|a| + 1..] == b;
  }

  /** Formatting a number and a unit as "<n> <unit>" and extracting gives back the number and the lower-cased unit. */
  lemma DurationRoundTrip(n: int, unit: string)
    requires ' ' !in unit
    ensures ExtractDurationValue(FormatInt(n) + " " + unit) == Some(n)
    ensures ExtractDurationUnit(FormatInt(n) + " " + unit) == Lower(unit)
  {
    var s := FormatInt(n) + " " + unit;
    ParseFormat(n);
    var digits := FormatInt(n);
    assert ' ' !in digits;
    SplitConcat(digits, unit, ' ');
    assert s == digits + [' '] + unit;
    SplitNoSeparator(digits, ' ');
    SplitNoSeparator(unit, ' ');
  }

  // ---------------------------------------------------------------------
  // classify_rating
  // ---------------------------------------------------------------------

  const KidsRatings: seq<string> := ["tv-y", "tv-y7", "g"]
  const TeenRatings: seq<string> := ["tv-pg", "pg", "pg-13"]
  const AdultRatings: seq<string> := ["tv-ma", "r", "nc-17"]
  const FamilyRatings: seq<string> := ["tv-g"]

  /** The closed set of audience categories. */
  const Categories: set<string> := {"kids", "teens", "family", "adults", "not rated"}

  /**
   * `classify_rating`: the lower-cased rating is looked up in the four
   * lists; anything else, the "not rated" fill value included, is "not rated".
   */
  function ClassifyRating(rating: string): (c: string)
    ensures c in Categories
    ensures c == "kids" <==> Lower(rating) in KidsRatings
    ensures c == "teens" <==> Lower(rating) in TeenRatings
    ensures c == "family" <==> Lower(rating) in FamilyRatings
    ensures c == "adults" <==> Lower(rating) in AdultRatings
  {
    var r := Lower(rating);
    RatingListsDisjoint();
    if r in KidsRatings then "kids"
    else if r in TeenRatings then "teens"
    else if r in FamilyRatings then "family"
    else if r in AdultRatings then "adults"
    else "not rated"
  }

  /** No rating code is in two lists, so the order of the tests does not matter. */
  lemma RatingListsDisjoint()
    ensures forall s :: s in KidsRatings ==> s !in TeenRatings && s !in FamilyRatings && s !in AdultRatings
    ensures forall s :: s in TeenRatings ==> s !in FamilyRatings && s !in AdultRatings
    ensures forall s :: s in FamilyRatings ==> s !in AdultRatings
  {
  }

  /** The classification ignores case. */
  lemma ClassifyIgnoresCase(rating: string)
    ensures ClassifyRating(Lower(rating)) == ClassifyRating(rating)
  {
    LowerIdempotent(rating);
  }

  // ---------------------------------------------------------------------
  // Worked examples. Each multi-piece text is first cut at its separators,
  // so that the proof goes through the general lemmas above.
  // ---------------------------------------------------------------------

  lemma CountItemsExampleSentinel()
    ensures CountItems("unknown") == 0
  {
  }

  lemma CountItemsExampleEmpty()
    ensures CountItems("") == 0
  {
    CountItemsSingle("");
  }

  /** " , " has no items: both pieces are blank. */
  lemma CountItemsExampleBlank()
    ensures CountItems(" , ") == 0
  {
    assert " , " == " " + [','] + " ";
    CountItemsSingle(" ");
    CountItemsConcat(" ", " ");
  }

  /** "a, b,,c" has four pieces, of which the empty third one is not counted. */
  lemma CountItemsExample()
    ensures CountItems("a, b,,c") == 3
  {
    assert !IsBlank("a") by { assert !IsSpace("a"[0]); }
    assert !IsBlank(" b") by { assert !IsSpace(" b"[1]); }
    assert !IsBlank("c") by { assert !IsSpace("c"[0]); }
    CountItemsFourPieces("a", " b", "", "c");
    assert "a, b,,c" == "a" + [','] + (" b" + [','] + ("" + [','] + "c"));
  }

  /** The sentinel as one piece of a list is counted: "unknown,Drama" has 2 items. */
  lemma CountItemsExampleSentinelPiece()
    ensures CountItems("unknown,Drama") == 2
  {
    assert !IsBlank("unknown") by { assert !IsSpace("unknown"[0]); }
    assert !IsBlank("Drama") by { assert !IsSpace("Drama"[0]); }
    CountItemsTwoPieces("unknown", "Drama");
    assert "unknown,Drama" == "unknown" + [','] + "Drama";
  }

  lemma PrimaryGenreExampleSentinel()
    ensures GetPrimaryGenre("unknown") == "unknown"
  {
  }

  lemma PrimaryGenreExampleFirst()
    ensures GetPrimaryGenre("Drama, Comedy") == "Drama"
  {
    assert "Drama, Comedy" == "Drama" + [','] + " Comedy";
    StripTrimmed("Drama");
    PrimaryGenreOfFirst("Drama", " Comedy");
  }

  /** An empty first piece is not skipped. */
  lemma PrimaryGenreExampleEmptyFirst()
    ensures GetPrimaryGenre(",Drama") == ""
  {
    assert ",Drama" == "" + [','] + "Drama";
    PrimaryGenreOfFirst("", "Drama");
  }

  lemma ParseExample90()
    ensures ParseInt("90") == Some(90)
  {
    assert DigitsValue("90") == 90 by { assert "90"[..1] == "9"; }
  }

  /** A sign with no digits after it is not a number. */
  lemma ParseExampleLoneSign()
    ensures ParseInt("+") == None && ParseInt("-") == None
  {
  }

  /** A text without a space is its own first piece up to the first space. */
  lemma NoSpacePrefix(s: string)
    requires ' ' !in s
    ensures s[..Find(s, ' ')] == s
  {
    FindAt(s, ' ', |s|);
    assert s[..|s|] == s;
  }

  lemma DurationExampleMinutes()
    ensures ExtractDurationValue("90 min") == Some(90)
    ensures ExtractDurationUnit("90 min") == "min"
  {
    assert "90 min" == "90" + [' '] + "min";
    ParseExample90();
    NoSpacePrefix("min");
    DurationOfPieces("90", "min");
  }

  lemma DurationExampleSeason()
    ensures ExtractDurationValue("1 Season") == Some(1)
    ensures ExtractDurationUnit("1 Season") == "season"
  {
    assert "1 Season" == "1" + [' '] + "Season";
    assert ParseInt("1") == Some(1) by { assert "1"[..0] == ""; }
    NoSpacePrefix("Season");
    assert Lower("Season") == "season";
    DurationOfPieces("1", "Season");
  }

  /** A text without a space has no unit; "Season" and "unknown" have no value either. */
  lemma DurationExampleNoNumber()
    ensures ExtractDurationValue("Season") == None && ExtractDurationUnit("Season") == Unknown
    ensures ExtractDurationValue("unknown") == None && ExtractDurationUnit("unknown") == Unknown
  {
    DurationWithoutSpace("Season");
    DurationWithoutSpace("unknown");
  }

  /** "" and " 90 min" have no value: the first piece is empty. */
  lemma DurationExampleEmpty()
    ensures ExtractDurationValue("") == None && ExtractDurationUnit("") == Unknown
    ensures ExtractDurationValue(" 90 min") == None
  {
    DurationWithoutSpace("");
    assert " 90 min" == "" + [' '] + "90 min";
    DurationOfPieces("", "90 min");
  }

  /** The value and the unit fail independently of each other. */
  lemma DurationExampleUnitWithoutValue()
    ensures ExtractDurationValue("a b") == None
    ensures ExtractDurationUnit("a b") == "b"
  {
    assert "a b" == "a" + [' '] + "b";
    NoSpacePrefix("b");
    DurationOfPieces("a", "b");
  }

  lemma DurationExampleValueWithEmptyUnit()
    ensures ExtractDurationValue("90 ") == Some(90)
    ensures ExtractDurationUnit("90 ") == ""
  {
    assert "90 " == "90" + [' '] + "";
    ParseExample90();
    DurationOfPieces("90", "");
  }

  lemma DurationExampleValueWithoutUnit()
    ensures ExtractDurationValue("90") == Some(90) && ExtractDurationUnit("90") == Unknown
  {
    ParseExample90();
    DurationWithoutSpace("90");
  }

  lemma ClassifyRatingExampleTeens()
    ensures ClassifyRating("PG-13") == "teens"
  {
    assert Lower("PG-13") == "pg-13";
  }

  lemma ClassifyRatingExampleAdults()
    ensures ClassifyRating("TV-MA") == "adults"
  {
    assert Lower("TV-MA") == "tv-ma";
  }

  lemma ClassifyRatingExampleFamily()
    ensures ClassifyRating("TV-G") == "family"
  {
    assert Lower("TV-G") == "tv-g";
  }

  /** The fill value for a missing rating is itself classified as "not rated". */
  lemma ClassifyRatingExampleFill()
    ensures ClassifyRating("not rated") == "not rated"
  {
    assert Lower("not rated") == "not rated";
  }

  lemma ClassifyRatingExampleOther()
    ensures ClassifyRating("XYZ") == "not rated"
  {
    assert Lower("XYZ") == "xyz";
  }
}
