/**
 * The three row shapes of the pipeline. Column names follow the catalogue
 * file (`show_id`, `type`, `director`, ...) in Dafny's camelCase; the
 * `type` column is called `kind` because `type` is a Dafny keyword.
 */
module Records {
  import opened Wrappers

  /** A `date_added` value after coercion: a pandas Timestamp as nanoseconds since the epoch. */
  type Timestamp = int

  /** One row as read from the catalogue file: every cell may be missing. */
  datatype RawRecord = RawRecord(
    showId: Option<string>,
    kind: Option<string>,
    title: Option<string>,
    director: Option<string>,
    cast: Option<string>,
    country: Option<string>,
    dateAdded: Option<string>,
    releaseYear: Option<int>,
    rating: Option<string>,
    duration: Option<string>,
    listedIn: Option<string>,
    description: Option<string>)

  /**
   * One row after `clean_dataset`: the six filled columns can no longer be
   * missing, and `dateAdded` holds the coerced date (missing when it did not parse).
   */
  datatype CleanRecord = CleanRecord(
    showId: Option<string>,
    kind: Option<string>,
    title: Option<string>,
    director: string,
    cast: string,
    country: string,
    dateAdded: Option<Timestamp>,
    releaseYear: Option<int>,
    rating: string,
    duration: string,
    listedIn: string,
    description: Option<string>)

  /** One row of the table `normalize_dataset` builds, in its column order. */
  datatype NormalizedRecord = NormalizedRecord(
    showId: Option<string>,
    kind: Option<string>,
    title: Option<string>,
    directors: string,
    numDirectors: nat,
    castMembers: string,
    numCast: nat,
    genres: string,
    numGenres: nat,
    primaryGenre: string,
    releaseYear: Option<int>,
    dateAdded: Option<Timestamp>,
    rating: string,
    ratingCategory: string,
    durationValue: Option<int>,
    durationUnit: string,
    countries: string,
    description: Option<string>)
}
