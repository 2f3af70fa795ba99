/**
  The daily aggregation (`Application.__collect_daily_top_posts`): the top
  posts are grouped by the calendar date of their timestamp, the groups are
  taken in ascending date order, and for each group the first row with the
  most likes is kept (`groupby(...)[likes].idxmax()` followed by `loc`).

  Rows are addressed by their position in the table given to the aggregation.
  Parsing a timestamp to a date is done by a parser given as a parameter.
*/
module Daily {
  import opened Wrappers
  import opened Posts

  /**
    The timestamps of the rows parsed to calendar dates; fails with a
    `ParseError` for a timestamp the parser rejects.
  */
  function ParseDates(rows: seq<Row>, parse: string -> Option<Date>): (r: Result<seq<Date>, AnalysisError>)
    ensures r.Ok? <==> forall i :: 0 <= i < |rows| ==> parse(rows[i].timestamp).Some?
    ensures r.Ok? ==>
      |r.value| == |rows| &&
      forall i :: 0 <= i < |rows| ==> parse(rows[i].timestamp) == Some(r.value[i])
    ensures r.Err? ==>
      exists i :: 0 <= i < |rows| && parse(rows[i].timestamp).None? &&
        r.error == ParseError(rows[i].timestamp)
  {
    if rows == [] then Ok([])
    else match parse(rows[0].timestamp)
      case None => Err(ParseError(rows[0].timestamp))
      case Some(d) =>
        var rest := ParseDates(rows[1..], parse);
        if rest.Err? then
          assert exists i ::
            && 1 <= i < |rows|
            && parse(rows[i].timestamp).None?
            && rest.error == ParseError(rows[i].timestamp);
          Err(rest.error)
        else
          Ok([d] + rest.value)
  }

  /**
    Position `j` holds a most-liked row dated `d` among the first `n` rows,
    and every earlier row dated `d` has strictly fewer likes.
  */
  ghost predicate IsFirstMax(rows: seq<Row>, dates: seq<Date>, n: nat, d: Date, j: nat) {
    && |dates| == |rows| && n <= |rows|
    && j < n && dates[j] == d
    && (forall k :: 0 <= k < n && dates[k] == d ==> rows[k].likes <= rows[j].likes)
    && (forall k :: 0 <= k < j && dates[k] == d ==> rows[k].likes < rows[j].likes)
  }

  /**
    The specification of the daily top positions `p` of `rows`: one position
    per distinct date, in ascending date order, each the first most-liked
    row of its date.
  */
  ghost predicate IsDailyTop(rows: seq<Row>, dates: seq<Date>, p: seq<nat>) {
    && |dates| == |rows|
    && (forall k :: 0 <= k < |p| ==> p[k] < |rows|)
    && (forall k, l :: 0 <= k < l < |p| ==> dates[p[k]] < dates[p[l]])
    && (forall d :: d in dates ==> exists k :: 0 <= k < |p| && dates[p[k]] == d)
    && (forall k :: 0 <= k < |p| ==> IsFirstMax(rows, dates, |rows|, dates[p[k]], p[k]))
  }

  /** The dates are in strictly ascending order, so none occurs twice. */
  predicate StrictlyAscending(s: seq<Date>) {
    forall k, l :: 0 <= k < l < |s| ==> s[k] < s[l]
  }

  /** Adds date `d` to the ascending key list `s` unless it is already there. */
  function InsertKey(s: seq<Date>, d: Date): (r: seq<Date>)
    requires StrictlyAscending(s)
    ensures StrictlyAscending(r)
    ensures forall x :: x in r <==> x in s || x == d
  {
    if s == [] then [d]
    else
      AscendingHead(s);
      if d < s[0] then
        AscendingCons(d, s);
        [d] + s
      else if d == s[0] then s
      else
        var r' := InsertKey(s[1..], d);
        AscendingCons(s[0], r');
        [s[0]] + r'
  }

  /** A date below every date of an ascending list can be put in front of it. */
  lemma AscendingCons(x: Date, s: seq<Date>)
    requires StrictlyAscending(s)
    requires forall y :: y in s ==> x < y
    ensures StrictlyAscending([x] + s)
  {
    forall k, l | 0 <= k < l < |s| + 1
      ensures ([x] + s)[k] < ([x] + s)[l]
    {
      assert s[l - 1] in s;
    }
  }

  /** The group keys of `groupby`: the distinct dates, in ascending order. */
  function GroupKeys(dates: seq<Date>): (keys: seq<Date>)
    ensures StrictlyAscending(keys)
    ensures forall x :: x in keys <==> x in dates
  {
    if dates == [] then []
    else InsertKey(GroupKeys(dates[..|dates| - 1]), dates[|dates| - 1])
  }

  /**
    `idxmax` of the likes of the group of date `d` among the first `n` rows:
    scanning the group in order, a row replaces the best so far only when it
    has strictly more likes, so the first most-liked row is kept.
  */
  function BestOf(rows: seq<Row>, dates: seq<Date>, d: Date, n: nat): (r: Option<nat>)
    requires |dates| == |rows| && n <= |rows|
    ensures r.None? <==> forall k :: 0 <= k < n ==> dates[k] != d
    ensures r.Some? ==> IsFirstMax(rows, dates, n, d, r.value)
  {
    if n == 0 then None
    else
      var best := BestOf(rows, dates, d, n - 1);
      if dates[n - 1] != d then best
      else if best.None? || rows[n - 1].likes > rows[best.value].likes then Some(n - 1)
      else best
  }

  /**
    `groupby(date)[likes].idxmax()`: for each distinct date, in ascending
    order, the position of the first most-liked row of that date.
  */
  function IdxMax(rows: seq<Row>, dates: seq<Date>): (p: seq<nat>)
    requires |dates| == |rows|
    ensures IsDailyTop(rows, dates, p)
  {
    var keys := GroupKeys(dates);
    var p := seq(|keys|, k requires 0 <= k < |keys| => BestIn(rows, dates, keys[k]));
    assert forall k :: 0 <= k < |p| ==> dates[p[k]] == keys[k];
    forall d | d in dates
      ensures exists k :: 0 <= k < |p| && dates[p[k]] == d
    {
      var k :| 0 <= k < |keys| && keys[k] == d;
      assert dates[p[k]] == d;
    }
    p
  }

  /** The position of the first most-liked row among all rows dated `d`, a date that occurs. */
  function BestIn(rows: seq<Row>, dates: seq<Date>, d: Date): (j: nat)
    requires |dates| == |rows| && d in dates
    ensures IsFirstMax(rows, dates, |rows|, d, j)
  {
    var best := BestOf(rows, dates, d, |rows|);
    assert best.Some?;
    best.value
  }

  /** `loc[positions]`: the rows at the given positions, in the order given. */
  function Pick(rows: seq<Row>, p: seq<nat>): (out: seq<Row>)
    requires forall k :: 0 <= k < |p| ==> p[k] < |rows|
    ensures |out| == |p|
    ensures forall k :: 0 <= k < |p| ==> out[k] == rows[p[k]]
    ensures forall x :: x in out ==> x in rows
  {
    seq(|p|, k requires 0 <= k < |p| => rows[p[k]])
  }

  /** `out` holds the rows at the daily top positions of `rows`. */
  ghost predicate IsDailyTopRows(rows: seq<Row>, dates: seq<Date>, out: seq<Row>) {
    exists p :: IsDailyTop(rows, dates, p) && |out| == |p| &&
      forall k :: 0 <= k < |p| ==> out[k] == rows[p[k]]
  }

  /**
    The daily top posts of the top posts: fails with a `ParseError` exactly
    when some timestamp does not parse; otherwise one row per distinct date,
    in ascending date order, each the first most-liked row of its date.
  */
  function CollectDailyTopPosts(top: seq<Row>, parse: string -> Option<Date>): (r: Result<seq<Row>, AnalysisError>)
    ensures r.Err? <==> exists i :: 0 <= i < |top| && parse(top[i].timestamp).None?
    ensures r.Err? ==>
      exists i :: 0 <= i < |top| && parse(top[i].timestamp).None? &&
        r.error == ParseError(top[i].timestamp)
    ensures r.Ok? ==>
      ParseDates(top, parse).Ok? && IsDailyTopRows(top, ParseDates(top, parse).value, r.value)
  {
    var dates :- ParseDates(top, parse);
    var p := IdxMax(top, dates);
    Ok(Pick(top, p))
  }

  /** A date has only one first most-liked row. */
  lemma FirstMaxUnique(rows: seq<Row>, dates: seq<Date>, d: Date, j1: nat, j2: nat)
    requires IsFirstMax(rows, dates, |rows|, d, j1) && IsFirstMax(rows, dates, |rows|, d, j2)
    ensures j1 == j2
  {
  }

  /** The head of an ascending date list is its least date, and the tail holds the others. */
  lemma AscendingHead(s: seq<Date>)
    requires StrictlyAscending(s) && s != []
    ensures forall x :: x in s ==> s[0] <= x
    ensures forall x :: x in s[1..] <==> x in s && x != s[0]
  {
  }

  /** Two ascending date lists with the same dates are the same list. */
  lemma {:induction false} AscendingUnique(a: seq<Date>, b: seq<Date>)
    requires StrictlyAscending(a) && StrictlyAscending(b)
    requires forall x :: x in a <==> x in b
    ensures a == b
    decreases |a|
  {
    assert b != [] ==> b[0] in b;
    if a != [] {
      assert a[0] in a;
      AscendingHead(a);
      AscendingHead(b);
      assert a[0] == b[0];
      AscendingUnique(a[1..], b[1..]);
      assert a == [a[0]] + a[1..] && b == [b[0]] + b[1..];
    }
  }

  /** The dates of the daily top positions, in output order. */
  function DatesAt(dates: seq<Date>, p: seq<nat>): (s: seq<Date>)
    requires forall k :: 0 <= k < |p| ==> p[k] < |dates|
    ensures |s| == |p|
    ensures forall k :: 0 <= k < |p| ==> s[k] == dates[p[k]]
  {
    seq(|p|, k requires 0 <= k < |p| => dates[p[k]])
  }

  /** The dates of the daily top positions ascend and are exactly the dates of the rows. */
  lemma DatesAtCover(rows: seq<Row>, dates: seq<Date>, p: seq<nat>)
    requires IsDailyTop(rows, dates, p)
    ensures StrictlyAscending(DatesAt(dates, p))
    ensures forall x :: x in DatesAt(dates, p) <==> x in dates
  {
  }

  /**
    The daily top positions are determined by the rows: any two position
    lists meeting the specification are equal.
  */
  lemma DailyTopUnique(rows: seq<Row>, dates: seq<Date>, p: seq<nat>, q: seq<nat>)
    requires IsDailyTop(rows, dates, p) && IsDailyTop(rows, dates, q)
    ensures p == q
  {
    var a, b := DatesAt(dates, p), DatesAt(dates, q);
    DatesAtCover(rows, dates, p);
    DatesAtCover(rows, dates, q);
    AscendingUnique(a, b);
    forall k | 0 <= k < |p|
      ensures p[k] == q[k]
    {
      assert a[k] == b[k];
      FirstMaxUnique(rows, dates, dates[p[k]], p[k], q[k]);
    }
  }

  /** An ascending date list holds as many dates as it has distinct ones. */
  lemma {:induction false} AscendingCard(s: seq<Date>)
    requires StrictlyAscending(s)
    ensures |set x | x in s| == |s|
  {
    if s != [] {
      AscendingCard(s[1..]);
      assert (set x | x in s) == {s[0]} + (set x | x in s[1..]);
      assert s[0] !in (set x | x in s[1..]);
    }
  }

  /**
    The daily top holds exactly one row per distinct date: as many rows as
    the rows have distinct dates.
  */
  lemma OnePerDate(rows: seq<Row>, dates: seq<Date>, p: seq<nat>)
    requires IsDailyTop(rows, dates, p)
    ensures |p| == |set d | d in dates|
  {
    var a := DatesAt(dates, p);
    DatesAtCover(rows, dates, p);
    assert (set x | x in a) == (set d | d in dates);
    AscendingCard(a);
  }

  /** The daily top position of two rows of one date. */
  lemma PairDailyTop(r1: Row, r2: Row, d: Date, j: nat)
    requires j == if r2.likes > r1.likes then 1 else 0
    ensures IsDailyTop([r1, r2], [d, d], [j])
  {
    var rows, dates := [r1, r2], [d, d];
    var q := [j];
    assert IsFirstMax(rows, dates, |rows|, dates[q[0]], q[0]);
    assert forall i :: 0 <= i < |rows| ==> dates[q[0]] == dates[i];
  }

  /**
    Two rows of the same date: the position of the one with more likes is the
    daily top, and on equal likes the earlier one is.
  */
  lemma SameDateMostLikedWins(r1: Row, r2: Row, d: Date, p: seq<nat>)
    requires IsDailyTop([r1, r2], [d, d], p)
    ensures p == [if r2.likes > r1.likes then 1 else 0]
  {
    var j: nat := if r2.likes > r1.likes then 1 else 0;
    PairDailyTop(r1, r2, d, j);
    DailyTopUnique([r1, r2], [d, d], p, [j]);
  }

  /** The same, for the rows: the daily top of two rows of one date is the most liked, the earlier on a tie. */
  lemma SameDateMostLikedRow(r1: Row, r2: Row, d: Date, out: seq<Row>)
    requires IsDailyTopRows([r1, r2], [d, d], out)
    ensures out == [if r2.likes > r1.likes then r2 else r1]
  {
    var p :| IsDailyTop([r1, r2], [d, d], p) && |out| == |p| &&
      forall k :: 0 <= k < |p| ==> out[k] == [r1, r2][p[k]];
    SameDateMostLikedWins(r1, r2, d, p);
    assert out[0] == [r1, r2][p[0]];
  }

  /**
    The daily top posts are rows of the table they were chosen from, one per
    distinct date; an empty table has no daily top posts.
  */
  lemma DailyTopRowsProperties(rows: seq<Row>, dates: seq<Date>, out: seq<Row>)
    requires IsDailyTopRows(rows, dates, out)
    ensures forall x :: x in out ==> x in rows
    ensures |out| == |set d | d in dates|
    ensures rows == [] ==> out == []
  {
    var p :| IsDailyTop(rows, dates, p) && |out| == |p| &&
      forall k :: 0 <= k < |p| ==> out[k] == rows[p[k]];
    OnePerDate(rows, dates, p);
    assert |set d | d in dates| == |p|;
    forall x | x in out
      ensures x in rows
    {
      var k :| 0 <= k < |out| && out[k] == x;
    }
  }

  /** The parsed dates, as a set, are the dates of the rows. */
  lemma ParsedDateSet(rows: seq<Row>, parse: string -> Option<Date>)
    requires ParseDates(rows, parse).Ok?
    ensures (set d | d in ParseDates(rows, parse).value) ==
      (set x | x in rows :: parse(x.timestamp).value)
  {
  }
}
