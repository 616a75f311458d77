/**
 * The book catalogue: one row per book as read from the CSV file, and the
 * normalisation `load_data` applies to the `tags` column before anything else sees it.
 */
module Catalogue {
  import opened Text

  datatype Option<T> = None | Some(value: T)

  /** The seven emotion columns, in the order the mood selector lists them. */
  datatype Mood = Anger | Disgust | Fear | Joy | Neutral | Sadness | Surprise

  /** A book's scores in the seven emotion columns. */
  datatype MoodScores = MoodScores(
    anger: real, disgust: real, fear: real, joy: real,
    neutral: real, sadness: real, surprise: real)
  {
    /** The value in column `m`. */
    function Score(m: Mood): real {
      match m
      case Anger => anger
      case Disgust => disgust
      case Fear => fear
      case Joy => joy
      case Neutral => neutral
      case Sadness => sadness
      case Surprise => surprise
    }
  }

  /** A row as the CSV file holds it; a `tags` cell that `read_csv` reads as NaN is missing. */
  datatype CsvRow = CsvRow(
    isbn13: int, title: string, thumbnail: string, authors: string,
    averageRating: real, category: string, tags: Option<string>, moods: MoodScores)

  /** A catalogue row after loading; `category` is the `simple_categories` column. */
  datatype Book = Book(
    isbn13: int, title: string, thumbnail: string, authors: string,
    averageRating: real, category: string, tags: string, moods: MoodScores)

  /** `fillna("")` followed by `str.lower()` on one cell. */
  function NormalizeTag(t: Option<string>): (r: string)
    ensures NoUpper(r)
    ensures t.None? ==> r == ""
    ensures t.Some? ==> Lower(r) == Lower(t.value)
  {
    match t
    case None => ""
    case Some(s) => LowerIdempotent(s); Lower(s)
  }

  /** What loading promises about one row: the tag is present, lower-case and equal to the cell up to case; nothing else changes. */
  predicate LoadedFrom(b: Book, row: CsvRow) {
    && b.isbn13 == row.isbn13 && b.title == row.title && b.thumbnail == row.thumbnail
    && b.authors == row.authors && b.averageRating == row.averageRating
    && b.category == row.category && b.moods == row.moods
    && NoUpper(b.tags)
    && (row.tags.None? ==> b.tags == "")
    && (row.tags.Some? ==> Lower(b.tags) == Lower(row.tags.value))
  }

  function LoadRow(row: CsvRow): Book {
    Book(row.isbn13, row.title, row.thumbnail, row.authors, row.averageRating,
         row.category, NormalizeTag(row.tags), row.moods)
  }

  /** `load_data` after the file is read: the table with its `tags` column normalised, row for row. */
  function Load(rows: seq<CsvRow>): (catalogue: seq<Book>)
    ensures |catalogue| == |rows|
    ensures forall i :: 0 <= i < |rows| ==> LoadedFrom(catalogue[i], rows[i])
  {
    seq(|rows|, i requires 0 <= i < |rows| => LoadRow(rows[i]))
  }

  /** The facts `LoadedFrom` states fix the loaded tag: it is exactly the lowered cell. */
  lemma LoadedTagIsLowered(b: Book, row: CsvRow)
    requires LoadedFrom(b, row) && row.tags.Some?
    ensures b.tags == Lower(row.tags.value)
  {
    LowerOfNoUpper(b.tags);
  }
}
