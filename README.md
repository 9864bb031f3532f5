# Netflix catalogue preprocessing, modelled in Dafny

This project models the preprocessing script `src/data_preprocessing.py` of
the Netflix Content Strategy Analyzer. The script reads the catalogue of
titles (one row per show or film) and builds an analysis table from it.
The steps are:

- `clean_dataset` drops exact duplicate rows and fills the missing cells of
  `director`, `cast`, `country`, `duration` and `listed_in` with `"unknown"`
  and of `rating` with `"not rated"`. It also coerces `date_added` to a date.
- `normalize_dataset` builds a new table with one row per cleaned row. It
  copies some columns and derives the others with four field rules:
  - `count_items` counts the items of a comma-separated list;
  - `get_primary_genre` takes the first genre;
  - `extract_duration_value` and `extract_duration_unit` split a duration
    such as `"90 min"`;
  - `classify_rating` maps a rating code onto one of five audience
    categories.

Files and modules:

| file | module | contents |
|---|---|---|
| `wrappers.dfy` | `Wrappers` | `Option`, a cell that may be missing |
| `text.dfy` | `Text` | ASCII `str.strip`, `str.lower`, `str.split`, and `int()` on decimal literals |
| `records.dfy` | `Records` | the raw, cleaned and normalized row types |
| `field_parsers.dfy` | `FieldParsers` | the five field rules and their worked examples |
| `deduplication.dfy` | `Deduplication` | `drop_duplicates` with keep-first semantics |
| `cleaner.dfy` | `Cleaner` | `clean_dataset` |
| `normalizer.dfy` | `Normalizer` | `normalize_dataset`, and the two stages composed |

A table is a `seq` of records, and a missing cell is `None`. The `type`
column is called `kind`, because `type` is a Dafny keyword. Each stage is a
method with a loop or a column-wise `apply`. Its postcondition ties the
result to a specification function (`Dedup`, `CleanTable`,
`NormalizeTable`), and lemmas prove the properties of those functions.

`extract_duration_value` and `extract_duration_unit` fail independently of
each other: `"a b"` has no value but the unit `"b"`, and `"90"` has the
value 90 but the unit `"unknown"`.

## Model

| member | source | states |
|---|---|---|
| `Text.Strip` | src/data_preprocessing.py:55 | `strip()` removes a blank prefix and a blank suffix; the result neither starts nor ends with whitespace; it is empty exactly when the input is blank |
| `Text.StripIdempotent` | src/data_preprocessing.py:65 | stripping twice equals stripping once |
| `Text.Lower` | src/data_preprocessing.py:97 | `lower()` keeps the length, leaves no upper-case letter, shifts each upper-case letter to its lower-case code and keeps every other character |
| `Text.Split` | src/data_preprocessing.py:52 | `split(sep)` gives one piece more than there are separators, and no piece holds a separator |
| `Text.JoinSplit` | src/data_preprocessing.py:52 | joining the pieces of `split` with the separator gives back the original text |
| `Text.SplitJoin` | src/data_preprocessing.py:52 | splitting a join of separator-free pieces gives back the pieces |
| `Text.ParseInt` | src/data_preprocessing.py:73 | `int()` succeeds only on an optional sign followed by at least one digit (so never on a text holding a space); plain digits and `+` digits give the decimal value of the digits, `-` digits its negation |
| `Text.ParseFormat` | src/data_preprocessing.py:73 | `int(str(n)) == n` for every integer of at most 4300 digits (the model has no digit limit) |
| `FieldParsers.CountItems` | src/data_preprocessing.py:48-57 | the sentinel `"unknown"` counts 0; no text has more items than commas plus one |
| `FieldParsers.CountItemsLoop` | src/data_preprocessing.py:48-57 | the counting loop over the comma pieces returns exactly the number of pieces that are not blank once stripped |
| `FieldParsers.CountItemsConcat` | src/data_preprocessing.py:52-57 | the count of `a,b` is the number of non-blank pieces of `a` plus that of `b`, even when a piece is the sentinel; for non-sentinel pieces it is the count of `a` plus the count of `b` |
| `FieldParsers.CountPiecesConcat` | src/data_preprocessing.py:52-57 | the non-blank pieces of `a,b` are those of `a` followed by those of `b` |
| `FieldParsers.CountPiecesSingle` | src/data_preprocessing.py:52-57 | a comma-free piece, the sentinel included, is one non-blank piece, or none when blank |
| `FieldParsers.CountItemsTwoPieces` | src/data_preprocessing.py:48-57 | two non-blank comma-free pieces around one comma count 2, whatever the pieces say |
| `FieldParsers.CountItemsFourPieces` | src/data_preprocessing.py:48-57 | four comma-free pieces joined by commas count one item per non-blank piece |
| `FieldParsers.CountPiecesThree` | src/data_preprocessing.py:52-57 | the non-blank pieces of `b,c,d` are those of `b`, `c` and `d` together |
| `FieldParsers.CountItemsSingle` | src/data_preprocessing.py:52-57 | a text without commas is one item, or none when it is blank |
| `FieldParsers.CountItemsZero` | src/data_preprocessing.py:48-57 | apart from the sentinel, the count is 0 exactly when the text holds only commas and whitespace |
| `FieldParsers.CountItemsExampleSentinel` | src/data_preprocessing.py:49-50 | `count_items("unknown") == 0` |
| `FieldParsers.CountItemsExampleEmpty` | src/data_preprocessing.py:52-57 | `""` has no items |
| `FieldParsers.CountItemsExampleBlank` | src/data_preprocessing.py:52-57 | `" , "` has no items |
| `FieldParsers.CountItemsExample` | src/data_preprocessing.py:52-57 | `"a, b,,c"` has 3 items |
| `FieldParsers.CountItemsExampleSentinelPiece` | src/data_preprocessing.py:48-57 | `"unknown,Drama"` has 2 items: the sentinel counts 0 only as the whole text |
| `FieldParsers.GetPrimaryGenre` | src/data_preprocessing.py:61-66 | the sentinel gives `"unknown"`; otherwise the result is the text before the first comma, stripped; it never holds a comma or leading or trailing whitespace |
| `FieldParsers.PrimaryGenreCounted` | src/data_preprocessing.py:65 | a non-empty primary genre is one of the items that `count_items` counts |
| `FieldParsers.PrimaryGenreOfFirst` | src/data_preprocessing.py:65 | the primary genre of `a,b` is `a` stripped, whatever follows the comma |
| `FieldParsers.PrimaryGenreExampleSentinel` | src/data_preprocessing.py:62-63 | `get_primary_genre("unknown") == "unknown"` |
| `FieldParsers.PrimaryGenreExampleFirst` | src/data_preprocessing.py:65 | `"Drama, Comedy"` gives `"Drama"` |
| `FieldParsers.PrimaryGenreExampleEmptyFirst` | src/data_preprocessing.py:65 | `",Drama"` gives `""`: an empty first piece is not skipped |
| `FieldParsers.ExtractDurationValue` | src/data_preprocessing.py:70-76 | the value is the text before the first space parsed as an integer, and missing when that text is not an integer |
| `FieldParsers.ExtractDurationUnit` | src/data_preprocessing.py:80-86 | without a space the unit is `"unknown"`; otherwise it is the lower-cased text between the first and the second space, whether or not the value parses |
| `FieldParsers.DurationWithoutSpace` | src/data_preprocessing.py:70-86 | a text without a space has the whole text parsed as its value and no unit |
| `FieldParsers.DurationOfPieces` | src/data_preprocessing.py:70-86 | for `a b` with no space in `a`, the value is `a` parsed and the unit is `b` lower-cased up to its own first space |
| `FieldParsers.DurationRoundTrip` | src/data_preprocessing.py:70-86 | extracting from `"<n> <unit>"` gives back `n` and the lower-cased unit, for every integer `n` of at most 4300 digits (the model has no digit limit) |
| `FieldParsers.DurationExampleMinutes` | src/data_preprocessing.py:70-86 | `"90 min"` gives 90 and `"min"` |
| `FieldParsers.DurationExampleSeason` | src/data_preprocessing.py:80-86 | `"1 Season"` gives 1 and `"season"` |
| `FieldParsers.ParseExample90` | src/data_preprocessing.py:73 | `int("90") == 90` |
| `FieldParsers.ParseExampleLoneSign` | src/data_preprocessing.py:73 | `int("+")` and `int("-")` are not numbers |
| `FieldParsers.NoSpacePrefix` | src/data_preprocessing.py:72 | a text without a space is its own text up to the first space |
| `FieldParsers.DurationExampleNoNumber` | src/data_preprocessing.py:70-86 | `"Season"` and `"unknown"` give no value and the unit `"unknown"` |
| `FieldParsers.DurationExampleEmpty` | src/data_preprocessing.py:70-86 | `""` gives no value and the unit `"unknown"`; `" 90 min"` gives no value |
| `FieldParsers.DurationExampleUnitWithoutValue` | src/data_preprocessing.py:70-86 | `"a b"` gives no value but the unit `"b"` |
| `FieldParsers.DurationExampleValueWithEmptyUnit` | src/data_preprocessing.py:70-86 | `"90 "` gives 90 and the unit `""` |
| `FieldParsers.DurationExampleValueWithoutUnit` | src/data_preprocessing.py:70-86 | `"90"` gives 90 and the unit `"unknown"` |
| `FieldParsers.ClassifyRating` | src/data_preprocessing.py:90-108 | the category is always one of the five; it is `kids`, `teens`, `family` or `adults` exactly when the lower-cased rating is in that list |
| `FieldParsers.RatingListsDisjoint` | src/data_preprocessing.py:92-95 | no rating code is in two lists, so the order of the tests does not matter |
| `FieldParsers.ClassifyIgnoresCase` | src/data_preprocessing.py:97 | classifying the lower-cased rating gives the same category |
| `FieldParsers.ClassifyRatingExampleTeens` | src/data_preprocessing.py:93 | `"PG-13"` is `teens` |
| `FieldParsers.ClassifyRatingExampleAdults` | src/data_preprocessing.py:94 | `"TV-MA"` is `adults` |
| `FieldParsers.ClassifyRatingExampleFamily` | src/data_preprocessing.py:95 | `"TV-G"` is `family` |
| `FieldParsers.ClassifyRatingExampleFill` | src/data_preprocessing.py:107-108 | the fill value `"not rated"` is classified as `not rated` |
| `FieldParsers.ClassifyRatingExampleOther` | src/data_preprocessing.py:107-108 | `"XYZ"` is `not rated` |
| `Deduplication.Dedup` | src/data_preprocessing.py:30 | keep-first duplicate removal only removes rows, and the first row always survives at the front |
| `Deduplication.FirstIndex` | src/data_preprocessing.py:30 | the position of the first occurrence of a row: it holds the row and no earlier position does |
| `Deduplication.DropDuplicates` | src/data_preprocessing.py:30 | one pass that remembers the rows already seen returns exactly the rows that do not equal an earlier row, in order |
| `Deduplication.DedupSameRows` | src/data_preprocessing.py:30 | every input row occurs in the output, and nothing else does |
| `Deduplication.DedupNoDuplicates` | src/data_preprocessing.py:30 | no two output rows are equal |
| `Deduplication.DedupFirstOccurrenceOrder` | src/data_preprocessing.py:30 | the output rows are in the order of their first occurrence in the input |
| `Deduplication.DedupUnique` | src/data_preprocessing.py:30 | any duplicate-free sequence with the same rows, in order of first occurrence, is the output |
| `Deduplication.DedupLength` | src/data_preprocessing.py:30 | output length plus the number of duplicates is the input length; the output is the input exactly when the input has no duplicates |
| `Deduplication.DedupIdempotent` | src/data_preprocessing.py:30 | dropping duplicates twice is dropping them once |
| `Wrappers.Option.GetOr` | src/data_preprocessing.py:33-38 | `fillna` on one cell: a present value is kept and a missing one becomes the fill value |
| `Cleaner.FillRecord` | src/data_preprocessing.py:33-41 | a missing `rating` becomes `"not rated"`; any other of the six missing cells becomes `"unknown"`; present cells are kept; `date_added` is the coerced date; no other column changes |
| `Cleaner.FillPresentRoundTrip` | src/data_preprocessing.py:33-38 | a row whose six cells are all present reads back unchanged after filling |
| `Cleaner.FillCleanRoundTrip` | src/data_preprocessing.py:33-38 | filling an already clean row changes nothing but the date |
| `Cleaner.CleanDataset` | src/data_preprocessing.py:25-44 | the cleaned table has one row per distinct input row, in order of first occurrence, each the filled form of that row with its coerced date |
| `Cleaner.CleanTable` | src/data_preprocessing.py:25-44 | the cleaned table has one row per distinct input row, never more rows than the input, and its first row is the first input row filled |
| `Cleaner.CleanTableAt` | src/data_preprocessing.py:30-41 | the `i`-th cleaned row is the `i`-th distinct input row, filled, with the `i`-th coerced date |
| `Cleaner.CleanTableRows` | src/data_preprocessing.py:30-38 | the cleaned table loses exactly the duplicate rows; every input row has its copy in it; without duplicates every row stays at its position and is that input row filled |
| `Cleaner.CleanTableRowsPresent` | src/data_preprocessing.py:30 | every input row has a copy among the distinct rows |
| `Cleaner.DuplicatesCanReappear` | src/data_preprocessing.py:30-38 | a row with a missing director and a row with the director `"unknown"` both survive and are equal once cleaned, because duplicates are dropped before filling |
| `Normalizer.NormalizeRecord` | src/data_preprocessing.py:117-153 | one normalized row: the list columns are copied under their new names, each count is at most its commas plus one, and the category is one of the five |
| `Normalizer.NormalizeTable` | src/data_preprocessing.py:117-153 | one output row per cleaned row, in the same order: each carries the identifier, type and title of the input row at its position |
| `Normalizer.Pipeline` | src/data_preprocessing.py:182-185 | clean then normalize: rows are only lost to deduplication, none when there are no duplicates, and every row gets one of the five categories |
| `Normalizer.Apply` | src/data_preprocessing.py:126 | `Series.apply` gives one result per cell, each the function applied to that cell |
| `Normalizer.NormalizeDataset` | src/data_preprocessing.py:112-158 | one output row per input row, in the same order, each the column mapping of its input row |
| `Normalizer.NormalizeTableColumns` | src/data_preprocessing.py:117-153 | the copied and renamed columns equal their sources; `num_directors`, `num_cast`, `num_genres`, `primary_genre`, `rating_category`, `duration_value` and `duration_unit` are the field rules applied to their source columns |
| `Normalizer.NormalizedRowInvariants` | src/data_preprocessing.py:126-147 | every normalized row has one of the five categories, a trimmed comma-free primary genre, counts bounded by the commas, a non-empty primary genre counted among the genres, and a duration value only when the duration text does not start with a space |
| `Normalizer.PipelineRowCount` | src/data_preprocessing.py:182-185 | the output has as many rows as the input less the exact duplicates |
| `Normalizer.PipelineMissingCells` | src/data_preprocessing.py:182-185 | a missing director gives `directors = "unknown"` and `num_directors = 0`; a missing genre list gives `genres` and `primary_genre` `"unknown"` and no genres; likewise for cast, rating, duration and country |
| `Normalizer.PipelineDateOnly` | src/data_preprocessing.py:41 | a date that fails to parse changes only `date_added` in its row; every other column is as with any other date |
| `Normalizer.PipelineSingleRow` | src/data_preprocessing.py:182-185 | a one-row table is cleaned and normalized as that row alone |
| `Normalizer.ScenarioCast` | src/data_preprocessing.py:130 | `"A,B"` has 2 cast members |
| `Normalizer.ScenarioGenres` | src/data_preprocessing.py:134 | `"Drama, Comedy"` has 2 genres |
| `Normalizer.ScenarioRating` | src/data_preprocessing.py:143 | `"PG"` is `teens` |
| `Normalizer.ScenarioRow` | src/data_preprocessing.py:182-185 | a row with no director, cast `"A,B"`, genres `"Drama, Comedy"`, duration `"90 min"` and rating `"PG"` gives directors `"unknown"`, 0 directors, 2 cast members, 2 genres, primary genre `"Drama"`, 90 `"min"` and category `teens` |

## Left out

- `load_dataset` and `save_dataset` (src/data_preprocessing.py:12-21, 162-169) are CSV file reading and writing, with their broad error handling; tables are plain values here.
- The path setup at src/data_preprocessing.py:6-8 and the `__main__` driver are configuration, orchestration and printing; `Normalizer.Pipeline` is the composition of the two stages without them.
- Every `print` is diagnostic output and has no effect on data.
- The date parser of `pd.to_datetime(..., errors='coerce')` belongs to pandas. It is a parameter mapping the `date_added` column to a column of optional timestamps of the same length. The parser infers one format for the whole column, so it is not given row by row.
- `Text.ParseInt`: Python's `int()` also accepts surrounding whitespace, underscores between digits and non-ASCII digits. The model accepts only an optional `+` or `-` followed by ASCII digits. So a first duration piece such as `"\t90"` parses in Python but not here. CPython's default limit of 4300 digits for int/str conversion (`sys.get_int_max_str_digits`) is not modelled: beyond it `int()` raises and `extract_duration_value` gives `None`, where `ExtractDurationValue` gives a value.
- `Text.ParseFormat`, `FieldParsers.DurationRoundTrip`: both hold for every integer in the model. In CPython `str(n)` and `int()` raise beyond 4300 digits, so the round trip there holds only up to that length.
- `Text.Lower`, `Text.Strip`: lower-casing and stripping are ASCII only. Unicode case mappings and Unicode whitespace such as U+00A0 are not modelled.
- Cells are typed: the text columns hold strings and `release_year` holds an integer. pandas dtypes, such as NaN in a numeric column or a non-string cell reaching `count_items`, are not modelled.
- pandas index alignment is not modelled. After `drop_duplicates` the row labels have gaps, but every column of the new table is built from the same table, so the rows line up one to one, as the sequence model assumes.
- `normalize_dataset` adds columns to an empty frame one at a time. The model computes each derived column with `Apply` and then assembles the rows, which gives the same table.
