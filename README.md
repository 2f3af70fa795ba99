# Post analysis: a verified model of the classification core

This project models the analysis core of `post-analysis`. The core takes an in-memory table of social-media posts and produces three tables:

- **top posts**: public posts with more than 10 comments, more than 9000 views and a title under 40 characters;
- **other posts**: every remaining row;
- **daily top posts**: for each calendar date among the top posts, the top post with the most likes.

The model follows `Application.analyze_posts` step by step. First the frame's schema is validated (`validate_schema`). Then the boolean condition is computed per row and the frame is split with `loc[condition]` and `loc[~condition]`. Finally the top posts are grouped by date, and `groupby(...)[likes].idxmax()` with `loc` picks one row per date. All of it is pure, so every operation is a Dafny function and every property is a lemma or an `ensures` clause.

Modules, one per component:

- `Wrappers` (`wrappers.dfy`): `Option`, and a `Result` type that stands for a raised exception.
- `Posts` (`posts.dfy`): the `Row` record, the column dtypes (`DType`), the `Frame` (column dtypes plus rows), the named constants and the three exceptions. The exceptions are `MissingColumn`, `UnsupportedColumnType` and `ParseError`.
- `Schema` (`schema.dfy`): the required `(column, dtype)` pairs and the validation loop.
- `Classify` (`classify.dfy`): the top-post predicate, the mask, `loc` selection, and the partition properties.
- `Daily` (`daily.dfy`): timestamp parsing, the sorted group keys, the per-date `idxmax` fold, and the specification of the daily result.
- `Analyze` (`analyze.dfy`): the pipeline, which is fail-fast.

Modelling choices:

- **Timestamp parsing** is a parameter `parse: string -> Option<Date>`. `None` means the parser raises. A `Date` is a day number, so later dates are larger numbers.
- **Order of the schema checks.** The required pairs sit in a `frozenset`, and the order in which it is iterated depends on string hashing. So the validation takes that order as a parameter. The only condition on it is that it visits exactly the required pairs. Every property is proved for every such order.
- **Daily aggregation by position.** The daily step addresses rows by their position in the top-post table. The group keys are kept in ascending order, as `groupby` sorts them. Within a group, a row replaces the best so far only when it has strictly more likes. This gives `idxmax`'s first-occurrence tie-break. The result is proved equal to the unique position list that meets the specification `Daily.IsDailyTop`: one position per distinct date, ascending by date, each the first most-liked row of its date.
- **Orders fixed by the code.** `validate_schema` iterates a `frozenset`, so the code fixes no order for the checks, and the model fixes none either (see above). `groupby` sorts its keys, so the model returns the daily top posts in ascending date order.

## Model

| member | source | states |
|---|---|---|
| `Schema.ValidateSchema` | src/app.py:187-203 | Returns normally exactly when every required column is present with its expected dtype. Otherwise it raises the error for some required column that is absent or has another dtype. |
| `Schema.CheckColumns` | src/app.py:198-203 | Visits the pairs in order. It succeeds iff every pair conforms. On failure, the error belongs to the first non-conforming pair, and every pair before it conforms. |
| `Schema.ColumnError` | src/app.py:199-203 | The error is `MissingColumn` exactly when the column is absent; otherwise it is `UnsupportedColumnType`. Either way it names that column. An `UnsupportedColumnType` also carries the expected dtype and the column's actual dtype. |
| `Schema.CheckIgnoresOtherColumns` | src/app.py:197-203 | A column that no checked pair names does not change the outcome of the checks. |
| `Schema.ExtraColumnsIgnored` | src/app.py:197-203 | Adding a column outside the schema never changes the validation outcome or the error raised, whatever the check order. |
| `Schema.MissingColumnRaised` | src/app.py:198-200 | A required column is absent and every present required column has its dtype: validation raises `MissingColumn` for an absent required column, in every check order. |
| `Schema.UnsupportedColumnTypeRaised` | src/app.py:201-203 | All seven columns are present and exactly one has another dtype: validation raises `UnsupportedColumnType` with that column, its expected dtype and its actual dtype, in every check order. |
| `Schema.IdAndTitleOnlyIsMissingColumn` | test/test_app.py:45-50 | A frame with only `id` and `title` raises `MissingColumn`. |
| `Schema.BooleanPrivacyIsUnsupported` | test/test_app.py:52-65 | A frame whose `privacy` column is boolean raises `UnsupportedColumnType(privacy, Object, Bool)`. |
| `Classify.IsTop` | src/app.py:165-168 | The top-post criteria. It has no contract of its own: `Classify.Membership` ties it to the split and `Classify.ThresholdsAreStrict` shows the bounds are exclusive. |
| `Classify.Condition` | src/app.py:165-168 | The mask has one entry per row. That its true entries are exactly the top posts is stated by `Classify.Membership`. |
| `Classify.Negate` | src/app.py:171 | `~condition` has one entry per mask entry. `Classify.LocSplits` shows that selecting by a mask and by its negation splits the rows. |
| `Classify.Loc` | src/app.py:170-171 | `loc[mask]` selects no more rows than the input has, and only input rows. `Classify.LocSelectsMarked` and `Classify.LocSplits` say which rows. |
| `Classify.TopPosts` | src/app.py:170 | The top posts are input rows. `Classify.Membership` and `Classify.Partition` say which rows, and in what order. |
| `Classify.OtherPosts` | src/app.py:171 | The other posts are input rows. `Classify.Membership` and `Classify.Partition` say which rows, and in what order. |
| `Classify.Membership` | src/app.py:165-171 | A row is a top post iff it is an input row that is public, has more than 10 comments, more than 9000 views and a title under 40 characters. It is an other post iff it is an input row that fails one of these. |
| `Classify.Partition` | src/app.py:170-171 | The top and other posts interleave to the input. So each keeps the input's relative order, no row is dropped or duplicated, and the row counts add up. |
| `Classify.LocSplits` | src/app.py:170-171 | Selecting with a mask and with its negation splits the rows into an interleaving of the two selections. |
| `Classify.LocSelectsMarked` | src/app.py:170 | Every row that `loc[mask]` selects sits at a position where the mask is true. |
| `Classify.InterleavingConserves` | src/app.py:170-171 | An interleaving has as many rows as its two parts together, and the same multiset of rows. |
| `Classify.IdsPartition` | src/app.py:170-171 | If ids are unique, the ids of the top and other posts are disjoint, and together they are the input's ids. |
| `Classify.ThresholdsAreStrict` | src/app.py:165-168 | A row with exactly 10 comments, exactly 9000 views or a 40-character title is not a top post. |
| `Daily.ParseDates` | src/app.py:179 | Succeeds iff every timestamp parses, and then gives each row's parsed date. On failure, it raises `ParseError` for a timestamp that does not parse. |
| `Daily.InsertKey` | src/app.py:177-179 | Adding a date to an ascending key list keeps it ascending and adds exactly that date. |
| `Daily.AscendingCons` | src/app.py:177-179 | A date below every date of an ascending list can be put at its front. |
| `Daily.GroupKeys` | src/app.py:177-179 | The group keys are strictly ascending, and they are exactly the dates that occur. |
| `Daily.BestOf` | src/app.py:180 | Among the first `n` rows, there is no result iff no row has the date. Otherwise the result is a most-liked row of that date, and every earlier row of that date has strictly fewer likes. |
| `Daily.BestIn` | src/app.py:180 | For a date that occurs, gives the position of its first most-liked row. |
| `Daily.IdxMax` | src/app.py:177-180 | The positions meet `IsDailyTop`: one per distinct date, in ascending date order, each the first most-liked row of its date. |
| `Daily.CollectDailyTopPosts` | src/app.py:175-180 | Raises `ParseError` iff some timestamp does not parse, naming such a timestamp. Otherwise returns the rows at positions that meet `IsDailyTop`. |
| `Daily.FirstMaxUnique` | src/app.py:180 | A date has only one first most-liked position. |
| `Daily.AscendingHead` | src/app.py:177-179 | The head of an ascending date list is its least date, and the tail holds exactly the other dates. |
| `Daily.AscendingUnique` | src/app.py:177-179 | Two ascending date lists with the same dates are equal. |
| `Daily.DatesAtCover` | src/app.py:177-180 | The dates of the daily top positions ascend, and they are exactly the dates of the rows. |
| `Daily.DailyTopUnique` | src/app.py:177-180 | Any two position lists that meet the specification are equal, so the specification fixes the daily result. |
| `Daily.AscendingCard` | src/app.py:177-179 | An ascending date list has as many elements as distinct dates. |
| `Daily.OnePerDate` | src/app.py:177-180 | There are exactly as many daily top posts as distinct dates among the top posts. |
| `Daily.PairDailyTop` | src/app.py:180 | For two rows of one date, the position list holding only the more-liked row, or the first row on a tie, meets the specification. |
| `Daily.SameDateMostLikedWins` | src/app.py:180 | For two rows of one date, the daily top position is the more-liked one, or the first on equal likes. |
| `Daily.SameDateMostLikedRow` | src/app.py:180 | For two rows of one date, with likes 5 and 10 say, the daily top posts are only the row with more likes. |
| `Daily.DailyTopRowsProperties` | src/app.py:180 | Every daily top post is a row of the top posts. There is one per distinct date. An empty table gives no daily top posts. |
| `Daily.Pick` | src/app.py:180 | `loc` at a list of positions gives one row per position, in the order given: entry k is the row at position `p[k]`. So each is a row of the table. |
| `Daily.ParsedDateSet` | src/app.py:179 | As a set, the parsed dates are the dates of the rows' timestamps. |
| `Analyze.AnalyzePosts` | src/app.py:146-173 | If validation raises, the result is that same error and no tables are produced. The result is `Ok` iff the schema is valid and every top post's timestamp parses. When the schema is valid, any error is the `ParseError` of the daily step, passed through unchanged. A `ParseError` names the timestamp of a top post. On success, top/other are the predicate's partition of the input, and daily meets the daily-top specification over the top posts. |
| `Analyze.DailyTopIsSubsetOfTop` | src/app.py:172-180 | Every daily top post is a top post, by row and by id. There are as many as there are distinct dates among the top posts' timestamps. |
| `Analyze.TopAndOtherPartitionIds` | src/app.py:170-171 | If ids are unique, top and other posts have disjoint ids that together are the input's ids, and their row counts add up to the input's. |

## Left out

- The run loop: loading with `pd.read_csv` (`load_posts`, src/app.py:182-185), `run` and `_format_path`, and the CSV/JSON writers with their id-only projection (`__write_df`). These are file I/O around the core.
- Logging (`__log`) and the `verbose` flag. They do not change any result.
- The command-line entry point `__main__.py`. It only parses options and calls `run`.
- How `pd.to_datetime` parses timestamps, including time zones. The model takes a parser as a parameter, with two simplifications:
  - Each timestamp is parsed on its own. `pd.to_datetime` on a whole column can infer one format from its first value, so a column can raise even when every value parses alone. The model does not capture that.
  - Each timestamp gives either a date or an exception. A value that parses to NaT (such as `"NaT"`) gives a NaT group key, and `groupby` drops that row by default (src/app.py:179). Such a row then silently gets no daily top post. The model has no NaT outcome, so it does not capture that either.
- Pandas row labels. `reset_index()` renumbers the top frame, but the grouping key and the final `loc` use the original labels (src/app.py:177-180). The two agree only when the top frame's labels are already 0 to n-1. The model implements the documented intent instead: one top post per day, addressed by position in the top-post table. It does not reproduce what pandas does when the labels disagree.
- Dtype details. Dtypes are an enumeration: the platform width of `np.int` and the mapping of `np.object` are abstracted. Missing values (NaN) in columns are not modelled either, so for example a NaN title's length is not covered.
- Extra input columns. Validation accepts columns beyond the seven required ones (src/app.py:197-203), and the three result tables of `analyze_posts` carry them. A `Row` holds only the seven required fields, so the model's result rows do not carry extra columns.
- Values in columns that fail validation. Rows are typed records, so only frames whose columns carry the expected types have meaningful rows. The analysis looks at rows only after validation has succeeded.
- 64-bit integer limits on `likes`, `views` and `comments`. They are only compared, never computed with, so unbounded integers give the same results.
- Repeatability of the whole pipeline. It needs no lemma, because every operation is a function of its inputs: the same frame, parser and check order always give the same result.
- `Schema.ValidateSchema`: which error is raised when several required columns are wrong depends on the iteration order of the `frozenset`. The contract therefore promises an error for some non-conforming required column, not for one fixed column.
