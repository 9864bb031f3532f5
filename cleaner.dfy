/**
 * `clean_dataset`: drop exact duplicate rows, fill the missing cells of six
 * text columns with sentinels, and coerce `date_added` to a date.
 */
module Cleaner {
  import opened Wrappers
  import opened Records
  import opened Deduplication
  import opened FieldParsers

  /** The fill value for a missing `rating`. */
  const NotRated: string := "not rated"

  /**
   * `pd.to_datetime(column, errors='coerce')`. The date parser belongs to
   * pandas and works on the whole column (it infers one format for all the
   * rows), so it is a parameter here: it maps the column of raw cells to a
   * column of dates, with a missing date wherever a cell did not parse.
   */
  type DateCoercion = seq<Option<string>> -> seq<Option<Timestamp>>

  /** A coercion returns one date per cell. */
  ghost predicate KeepsLength(coerce: DateCoercion) {
    forall column :: |coerce(column)| == |column|
  }

  /** The `date_added` column of a table. */
  function DateColumn(rows: seq<RawRecord>): seq<Option<string>> {
    seq(|rows|, i requires 0 <= i < |rows| => rows[i].dateAdded)
  }

  /**
   * The per-row effect of the six `fillna` calls and the date coercion
   * (`date` is this row's entry of the coerced column): a missing cell of
   * `director`, `cast`, `country`, `duration` or `listed_in` becomes
   * "unknown", a missing `rating` becomes "not rated", present cells are
   * kept, and no other column changes.
   */
  function FillRecord(r: RawRecord, date: Option<Timestamp>): (c: CleanRecord)
    ensures r.director.Some? ==> c.director == r.director.value
    ensures r.director.None? ==> c.director == Unknown
    ensures r.cast.Some? ==> c.cast == r.cast.value
    ensures r.cast.None? ==> c.cast == Unknown
    ensures r.country.Some? ==> c.country == r.country.value
    ensures r.country.None? ==> c.country == Unknown
    ensures r.rating.Some? ==> c.rating == r.rating.value
    ensures r.rating.None? ==> c.rating == NotRated
    ensures r.duration.Some? ==> c.duration == r.duration.value
    ensures r.duration.None? ==> c.duration == Unknown
    ensures r.listedIn.Some? ==> c.listedIn == r.listedIn.value
    ensures r.listedIn.None? ==> c.listedIn == Unknown
    ensures c.showId == r.showId && c.kind == r.kind && c.title == r.title
    ensures c.releaseYear == r.releaseYear && c.description == r.description
    ensures c.dateAdded == date
  {
    CleanRecord(
      showId := r.showId,
      kind := r.kind,
      title := r.title,
      director := r.director.GetOr(Unknown),
      cast := r.cast.GetOr(Unknown),
      country := r.country.GetOr(Unknown),
      dateAdded := date,
      releaseYear := r.releaseYear,
      rating := r.rating.GetOr(NotRated),
      duration := r.duration.GetOr(Unknown),
      listedIn := r.listedIn.GetOr(Unknown),
      description := r.description)
  }

  /** The raw row a clean row reads back as: every filled cell present. */
  function AsRaw(c: CleanRecord, date: Option<string>): RawRecord {
    RawRecord(
      showId := c.showId,
      kind := c.kind,
      title := c.title,
      director := Some(c.director),
      cast := Some(c.cast),
      country := Some(c.country),
      dateAdded := date,
      releaseYear := c.releaseYear,
      rating := Some(c.rating),
      duration := Some(c.duration),
      listedIn := Some(c.listedIn),
      description := c.description)
  }

  /** Filling only touches missing cells: a row with the six cells present reads back unchanged. */
  lemma FillPresentRoundTrip(r: RawRecord, date: Option<Timestamp>)
    requires r.director.Some? && r.cast.Some? && r.country.Some?
    requires r.rating.Some? && r.duration.Some? && r.listedIn.Some?
    ensures AsRaw(FillRecord(r, date), r.dateAdded) == r
  {
  }

  /** Filling a clean row again changes nothing but the date. */
  lemma FillCleanRoundTrip(c: CleanRecord, raw: Option<string>, date: Option<Timestamp>)
    ensures FillRecord(AsRaw(c, raw), date) == c.(dateAdded := date)
  {
  }

  /**
   * The table `clean_dataset` returns: one row per distinct input row, so
   * never more rows than the input, and the first input row always comes
   * first, filled.
   */
  function CleanTable(rows: seq<RawRecord>, coerce: DateCoercion): (t: seq<CleanRecord>)
    requires KeepsLength(coerce)
    ensures |t| == |Dedup(rows)| <= |rows|
    ensures rows != [] ==> t != [] && t[0] == FillRecord(rows[0], coerce(DateColumn(Dedup(rows)))[0])
  {
    var unique := Dedup(rows);
    var dates := coerce(DateColumn(unique));
    seq(|unique|, i requires 0 <= i < |unique| => FillRecord(unique[i], dates[i]))
  }

  /**
   * `clean_dataset`: drop duplicates, then fill and coerce row by row. The
   * result has one row per distinct input row, in order of first
   * appearance, each the filled form of that input row.
   */
  method CleanDataset(rows: seq<RawRecord>, coerce: DateCoercion) returns (cleaned: seq<CleanRecord>)
    requires KeepsLength(coerce)
    ensures cleaned == CleanTable(rows, coerce)
    ensures |cleaned| == |Dedup(rows)| <= |rows|
    ensures forall i :: 0 <= i < |cleaned| ==>
      cleaned[i] == FillRecord(Dedup(rows)[i], coerce(DateColumn(Dedup(rows)))[i])
  {
    var unique := DropDuplicates(rows);
    var dates := coerce(DateColumn(unique));
    cleaned := [];
    for i := 0 to |unique|
      invariant |cleaned| == i
      invariant forall k :: 0 <= k < i ==> cleaned[k] == FillRecord(unique[k], dates[k])
    {
      cleaned := cleaned + [FillRecord(unique[i], dates[i])];
    }
    DedupLength(rows);
  }

  /**
   * Row accounting of the cleaned table: the duplicates are the only rows
   * removed, every input row has its (first) copy in the output, and a
   * table without duplicates keeps all its rows in order, each filled.
   */
  lemma CleanTableRows(rows: seq<RawRecord>, coerce: DateCoercion)
    requires KeepsLength(coerce)
    ensures |CleanTable(rows, coerce)| == |rows| - DuplicateCount(rows)
    ensures forall j :: 0 <= j < |rows| ==>
      exists i :: 0 <= i < |CleanTable(rows, coerce)| && Dedup(rows)[i] == rows[j]
    ensures NoDuplicates(rows) ==>
      (|CleanTable(rows, coerce)| == |rows| &&
       forall i :: 0 <= i < |rows| ==> CleanTable(rows, coerce)[i] == FillRecord(rows[i], coerce(DateColumn(rows))[i]))
  {
    DedupLength(rows);
    var unique := Dedup(rows);
    var t := CleanTable(rows, coerce);
    assert |t| == |unique|;
    CleanTableRowsPresent(rows, unique);
    if NoDuplicates(rows) {
      forall i | 0 <= i < |rows|
        ensures t[i] == FillRecord(rows[i], coerce(DateColumn(rows))[i])
      {
        CleanTableAt(rows, coerce, i);
      }
    }
  }

  /** The `i`-th cleaned row is the `i`-th distinct input row, filled with the `i`-th coerced date. */
  lemma CleanTableAt(rows: seq<RawRecord>, coerce: DateCoercion, i: nat)
    requires KeepsLength(coerce)
    requires i < |Dedup(rows)|
    ensures i < |CleanTable(rows, coerce)|
    ensures CleanTable(rows, coerce)[i] == FillRecord(Dedup(rows)[i], coerce(DateColumn(Dedup(rows)))[i])
  {
  }

  /** Every row of `rows` has a copy in `Dedup(rows)`. */
  lemma CleanTableRowsPresent(rows: seq<RawRecord>, unique: seq<RawRecord>)
    requires unique == Dedup(rows)
    ensures forall j :: 0 <= j < |rows| ==> exists i :: 0 <= i < |unique| && unique[i] == rows[j]
  {
    DedupSameRows(rows);
    forall j | 0 <= j < |rows|
      ensures exists i :: 0 <= i < |unique| && unique[i] == rows[j]
    {
      assert rows[j] in unique;
    }
  }

  /**
   * Duplicates are removed before the cells are filled, so two rows that
   * differ only in a missing cell against a cell holding the sentinel both
   * survive and are equal once cleaned.
   */
  lemma DuplicatesCanReappear(coerce: DateCoercion)
    requires KeepsLength(coerce)
    ensures var a := RawRecord(None, None, None, None, None, None, None, None, None, None, None, None);
            var b := a.(director := Some(Unknown));
            var t := CleanTable([a, b], coerce);
            |t| == 2 && t[0].(dateAdded := None) == t[1].(dateAdded := None)
  {
    var a := RawRecord(None, None, None, None, None, None, None, None, None, None, None, None);
    var b := a.(director := Some(Unknown));
    assert [a, b][..1] == [a];
    assert Dedup([a]) == [a] by { assert [a][..0] == []; }
    assert a != b;
  }
}
