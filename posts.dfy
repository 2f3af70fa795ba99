/**
  The data model of the post analysis: a post row, the column dtypes a frame
  can report, the frame itself, the named constants of the classification and
  the errors the analysis can raise.
*/
module Posts {

  // Column names of a posts frame.
  const ColId := "id"
  const ColTitle := "title"
  const ColPrivacy := "privacy"
  const ColLikes := "likes"
  const ColViews := "views"
  const ColComments := "comments"
  const ColTimestamp := "timestamp"

  // Thresholds of the top-post criteria; every comparison against them is strict.
  const MinNumComments: int := 10
  const MinNumViews: int := 9000
  const MaxNumTitleChars: int := 40
  const PrivacyType := "public"

  /** The dtype a frame reports for one of its columns (strings are `Object`). */
  datatype DType = Int64 | Object | Bool | Float64

  /** One post record. */
  datatype Row = Row(
    id: int,
    title: string,
    privacy: string,
    likes: int,
    views: int,
    comments: int,
    timestamp: string)

  /** A calendar date, as a day number: later dates are larger numbers. */
  type Date = int

  /**
    An in-memory posts table: the dtype of each column it has, and its rows in
    input order.
  */
  datatype Frame = Frame(columns: map<string, DType>, rows: seq<Row>)

  /** The exceptions the analysis raises. */
  datatype AnalysisError =
    | MissingColumn(column: string)
    | UnsupportedColumnType(column: string, expected: DType, actual: DType)
    | ParseError(timestamp: string)
}
