/**
 * `normalize_dataset`: build the analysis table from the cleaned one, one
 * output row per cleaned row, copying some columns and deriving the others
 * with the field parsers.
 */
module Normalizer {
  import opened Wrappers
  import opened Text
  import opened Records
  import opened FieldParsers
  import opened Deduplication
  import opened Cleaner

  /**
   * The column mapping of `normalize_dataset`, applied to one cleaned row:
   * the list columns are copied under their new names, their counts never
   * exceed their commas plus one, and the category is one of the five.
   */
  function NormalizeRecord(c: CleanRecord): (n: NormalizedRecord)
    ensures n.directors == c.director && n.castMembers == c.cast
    ensures n.genres == c.listedIn && n.countries == c.country
    ensures n.numDirectors <= Occurrences(c.director, ',') + 1
    ensures n.numCast <= Occurrences(c.cast, ',') + 1
    ensures n.numGenres <= Occurrences(c.listedIn, ',') + 1
    ensures n.ratingCategory in Categories
  {
    NormalizedRecord(
      showId := c.showId,
      kind := c.kind,
      title := c.title,
      directors := c.director,
      numDirectors := CountItems(c.director),
      castMembers := c.cast,
      numCast := CountItems(c.cast),
      genres := c.listedIn,
      numGenres := CountItems(c.listedIn),
      primaryGenre := GetPrimaryGenre(c.listedIn),
      releaseYear := c.releaseYear,
      dateAdded := c.dateAdded,
      rating := c.rating,
      ratingCategory := ClassifyRating(c.rating),
      durationValue := ExtractDurationValue(c.duration),
      durationUnit := ExtractDurationUnit(c.duration),
      countries := c.country,
      description := c.description)
  }

  /**
   * The table `normalize_dataset` returns: one row per cleaned row, in the
   * same order, so each output row carries the identifier, type and title
   * of the input row at the same position.
   */
  function NormalizeTable(rows: seq<CleanRecord>): (t: seq<NormalizedRecord>)
    ensures |t| == |rows|
    ensures forall i :: 0 <= i < |rows| ==>
      t[i].showId == rows[i].showId && t[i].kind == rows[i].kind && t[i].title == rows[i].title
  {
    seq(|rows|, i requires 0 <= i < |rows| => NormalizeRecord(rows[i]))
  }

  /** `Series.apply(f)`: `f` applied to every cell of a column, in order. */
  method Apply<A, B>(column: seq<A>, f: A -> B) returns (result: seq<B>)
    ensures |result| == |column|
    ensures forall i :: 0 <= i < |column| ==> result[i] == f(column[i])
  {
    result := [];
    for i := 0 to |column|
      invariant |result| == i
      invariant forall k :: 0 <= k < i ==> result[k] == f(column[k])
    {
      result := result + [f(column[i])];
    }
  }

  /**
   * `normalize_dataset`: the derived columns are computed one at a time by
   * applying a field parser to a source column, and the new table is the
   * copied columns and the derived ones side by side. There is exactly one
   * output row per input row, in the same order.
   */
  method NormalizeDataset(rows: seq<CleanRecord>) returns (table: seq<NormalizedRecord>)
    ensures |table| == |rows|
    ensures table == NormalizeTable(rows)
  {
    var directors := seq(|rows|, i requires 0 <= i < |rows| => rows[i].director);
    var cast := seq(|rows|, i requires 0 <= i < |rows| => rows[i].cast);
    var genres := seq(|rows|, i requires 0 <= i < |rows| => rows[i].listedIn);
    var rating := seq(|rows|, i requires 0 <= i < |rows| => rows[i].rating);
    var duration := seq(|rows|, i requires 0 <= i < |rows| => rows[i].duration);
    var numDirectors := Apply(directors, CountItems);
    var numCast := Apply(cast, CountItems);
    var numGenres := Apply(genres, CountItems);
    var primaryGenre := Apply(genres, GetPrimaryGenre);
    var ratingCategory := Apply(rating, ClassifyRating);
    var durationValue := Apply(duration, ExtractDurationValue);
    var durationUnit := Apply(duration, ExtractDurationUnit);
    table := seq(|rows|, k requires 0 <= k < |rows| => NormalizedRecord(
      rows[k].showId, rows[k].kind, rows[k].title,
      rows[k].director, numDirectors[k], rows[k].cast, numCast[k],
      rows[k].listedIn, numGenres[k], primaryGenre[k],
      rows[k].releaseYear, rows[k].dateAdded, rows[k].rating, ratingCategory[k],
      durationValue[k], durationUnit[k], rows[k].country, rows[k].description));
  }

  /**
   * The columns of the normalized table: one row per input row, the copied
   * columns equal their sources and the derived columns are the field
   * parsers applied to their source columns.
   */
  lemma NormalizeTableColumns(rows: seq<CleanRecord>)
    ensures |NormalizeTable(rows)| == |rows|
    ensures forall i :: 0 <= i < |rows| ==>
      var c, n := rows[i], NormalizeTable(rows)[i];
      && n.showId == c.showId && n.kind == c.kind && n.title == c.title
      && n.directors == c.director && n.castMembers == c.cast && n.genres == c.listedIn
      && n.releaseYear == c.releaseYear && n.dateAdded == c.dateAdded
      && n.rating == c.rating && n.countries == c.country && n.description == c.description
    ensures forall i :: 0 <= i < |rows| ==>
      var c, n := rows[i], NormalizeTable(rows)[i];
      && n.numDirectors == CountItems(c.director)
      && n.numCast == CountItems(c.cast)
      && n.numGenres == CountItems(c.listedIn)
      && n.primaryGenre == GetPrimaryGenre(c.listedIn)
      && n.ratingCategory == ClassifyRating(c.rating)
      && n.durationValue == ExtractDurationValue(c.duration)
      && n.durationUnit == ExtractDurationUnit(c.duration)
  {
  }

  /**
   * What every normalized row satisfies whatever the input: the rating
   * category is one of the five, the primary genre is a trimmed, comma-free
   * piece, the counts are bounded by the commas, a non-empty primary
   * genre is counted among the genres, and a duration value only comes
   * from a text that does not start with a space.
   */
  lemma NormalizedRowInvariants(c: CleanRecord)
    ensures var n := NormalizeRecord(c);
      && n.ratingCategory in Categories
      && ',' !in n.primaryGenre
      && (n.primaryGenre == [] || (!IsSpace(n.primaryGenre[0]) && !IsSpace(n.primaryGenre[|n.primaryGenre| - 1])))
      && n.numDirectors <= Occurrences(n.directors, ',') + 1
      && n.numCast <= Occurrences(n.castMembers, ',') + 1
      && n.numGenres <= Occurrences(n.genres, ',') + 1
      && (n.genres != Unknown && n.primaryGenre != [] ==> n.numGenres >= 1)
      && (n.durationValue.Some? ==> c.duration != [] && c.duration[0] != ' ')
  {
    if c.listedIn != Unknown && GetPrimaryGenre(c.listedIn) != [] {
      PrimaryGenreCounted(c.listedIn);
    }
  }

  /**
   * The whole script minus the file I/O: clean, then normalize. Rows are
   * only lost to deduplication, and every row gets one of the five
   * categories.
   */
  function Pipeline(rows: seq<RawRecord>, coerce: DateCoercion): (t: seq<NormalizedRecord>)
    requires KeepsLength(coerce)
    ensures |t| <= |rows|
    ensures NoDuplicates(rows) ==> |t| == |rows|
    ensures forall i :: 0 <= i < |t| ==> t[i].ratingCategory in Categories
  {
    DedupLength(rows);
    NormalizeTable(CleanTable(rows, coerce))
  }

  /** The output has one row per input row, less the exact duplicates. */
  lemma PipelineRowCount(rows: seq<RawRecord>, coerce: DateCoercion)
    requires KeepsLength(coerce)
    ensures |Pipeline(rows, coerce)| == |rows| - DuplicateCount(rows)
  {
    CleanTableRows(rows, coerce);
  }

  /**
   * Missing cells end up as sentinels with neutral derived values: a
   * missing director gives directors "unknown" and no directors, a missing
   * genre list gives primary genre "unknown" and no genres, a missing
   * rating is "not rated" in both columns, a missing duration has no value
   * and unit "unknown".
   */
  lemma PipelineMissingCells(rows: seq<RawRecord>, coerce: DateCoercion, i: nat)
    requires KeepsLength(coerce)
    requires i < |Dedup(rows)|
    ensures i < |Pipeline(rows, coerce)|
    ensures Dedup(rows)[i].director.None? ==>
      Pipeline(rows, coerce)[i].directors == Unknown && Pipeline(rows, coerce)[i].numDirectors == 0
    ensures Dedup(rows)[i].cast.None? ==>
      Pipeline(rows, coerce)[i].castMembers == Unknown && Pipeline(rows, coerce)[i].numCast == 0
    ensures Dedup(rows)[i].listedIn.None? ==>
      && Pipeline(rows, coerce)[i].genres == Unknown
      && Pipeline(rows, coerce)[i].primaryGenre == Unknown
      && Pipeline(rows, coerce)[i].numGenres == 0
    ensures Dedup(rows)[i].rating.None? ==>
      Pipeline(rows, coerce)[i].rating == NotRated && Pipeline(rows, coerce)[i].ratingCategory == NotRated
    ensures Dedup(rows)[i].duration.None? ==>
      Pipeline(rows, coerce)[i].durationValue == None && Pipeline(rows, coerce)[i].durationUnit == Unknown
    ensures Dedup(rows)[i].country.None? ==> Pipeline(rows, coerce)[i].countries == Unknown
  {
    var c := CleanTable(rows, coerce)[i];
    if c.rating == NotRated {
      ClassifyRatingExampleFill();
    }
    if c.duration == Unknown {
      DurationExampleNoNumber();
    }
  }

  /**
   * The date coercion only reaches the `date_added` column: a date that
   * fails to parse leaves every other column of its row as it would be
   * otherwise, and the row is still produced.
   */
  lemma PipelineDateOnly(rows: seq<RawRecord>, coerce1: DateCoercion, coerce2: DateCoercion, i: nat)
    requires KeepsLength(coerce1) && KeepsLength(coerce2)
    requires i < |Dedup(rows)|
    ensures i < |Pipeline(rows, coerce1)| && i < |Pipeline(rows, coerce2)|
    ensures Pipeline(rows, coerce1)[i].dateAdded == coerce1(DateColumn(Dedup(rows)))[i]
    ensures Pipeline(rows, coerce1)[i].(dateAdded := None) == Pipeline(rows, coerce2)[i].(dateAdded := None)
  {
  }

  /** A table of one row is cleaned and normalized as that row alone. */
  lemma PipelineSingleRow(raw: RawRecord, coerce: DateCoercion)
    requires KeepsLength(coerce)
    ensures Pipeline([raw], coerce) == [NormalizeRecord(FillRecord(raw, coerce([raw.dateAdded])[0]))]
  {
    assert Dedup([raw]) == [raw] by { assert [raw][..0] == []; }
    assert DateColumn([raw]) == [raw.dateAdded];
  }

  /**
   * A worked row: no director, cast "A,B", genres "Drama, Comedy", duration
   * "90 min", rating "PG".
   */
  lemma ScenarioRow(coerce: DateCoercion)
    requires KeepsLength(coerce)
    ensures var raw := RawRecord(Some("s1"), Some("Movie"), Some("T"), None, Some("A,B"), None, None,
                                 Some(2020), Some("PG"), Some("90 min"), Some("Drama, Comedy"), None);
      var out := Pipeline([raw], coerce);
      && |out| == 1
      && out[0].directors == Unknown && out[0].numDirectors == 0
      && out[0].numCast == 2
      && out[0].genres == "Drama, Comedy" && out[0].numGenres == 2 && out[0].primaryGenre == "Drama"
      && out[0].durationValue == Some(90) && out[0].durationUnit == "min"
      && out[0].ratingCategory == "teens"
  {
    var raw := RawRecord(Some("s1"), Some("Movie"), Some("T"), None, Some("A,B"), None, None,
                         Some(2020), Some("PG"), Some("90 min"), Some("Drama, Comedy"), None);
    PipelineSingleRow(raw, coerce);
    ScenarioCast();
    ScenarioGenres();
    PrimaryGenreExampleFirst();
    DurationExampleMinutes();
    ScenarioRating();
  }

  lemma ScenarioCast()
    ensures CountItems("A,B") == 2
  {
    assert !IsBlank("A") by { assert !IsSpace("A"[0]); }
    assert !IsBlank("B") by { assert !IsSpace("B"[0]); }
    CountItemsTwoPieces("A", "B");
    assert "A,B" == "A" + [','] + "B";
  }

  lemma ScenarioGenres()
    ensures CountItems("Drama, Comedy") == 2
  {
    assert !IsBlank("Drama") by { assert !IsSpace("Drama"[0]); }
    assert !IsBlank(" Comedy") by { assert !IsSpace(" Comedy"[1]); }
    CountItemsTwoPieces("Drama", " Comedy");
    assert "Drama, Comedy" == "Drama" + [','] + " Comedy";
  }

  lemma ScenarioRating()
    ensures ClassifyRating("PG") == "teens"
  {
    assert Lower("PG") == "pg";
  }
}
