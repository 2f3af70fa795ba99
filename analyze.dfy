/**
  The analysis pipeline (`Application.analyze_posts`): validate the schema,
  split the rows into top and other posts, and collect the daily top posts
  of the top posts. Any exception stops the pipeline with no result.
*/
module Analyze {
  import opened Wrappers
  import opened Posts
  import Schema
  import Classify
  import Daily

  /** The three frames the analysis produces. */
  datatype Analysis = Analysis(top: seq<Row>, other: seq<Row>, daily: seq<Row>)

  /**
    Analyzes a posts frame. The schema is validated first, visiting the
    required columns in `order`; a schema error is raised before anything is
    classified. Timestamps of top posts are parsed with `parse`.
  */
  function AnalyzePosts(frame: Frame, parse: string -> Option<Date>, order: seq<(string, DType)>): (r: Result<Analysis, AnalysisError>)
    requires Schema.IsIterationOrder(order)
    ensures Schema.ValidateSchema(frame.columns, order).Err? ==>
      r == Err(Schema.ValidateSchema(frame.columns, order).error)
    ensures r.Ok? <==>
      && (forall c :: c in Schema.ValidColumns ==> Schema.Conforms(frame.columns, c))
      && (forall x :: x in frame.rows && Classify.IsTop(x) ==> parse(x.timestamp).Some?)
    ensures Schema.ValidateSchema(frame.columns, order).Ok? && r.Err? ==>
      && r.error.ParseError?
      && Daily.CollectDailyTopPosts(Classify.TopPosts(frame.rows), parse) == Err(r.error)
    ensures r.Err? && r.error.ParseError? ==>
      exists x :: x in frame.rows && Classify.IsTop(x) && parse(x.timestamp).None? &&
        r.error.timestamp == x.timestamp
    ensures r.Ok? ==>
      && Classify.Interleaving(frame.rows, r.value.top, r.value.other)
      && (forall x :: x in r.value.top <==> x in frame.rows && Classify.IsTop(x))
      && (forall x :: x in r.value.other <==> x in frame.rows && !Classify.IsTop(x))
      && Daily.ParseDates(r.value.top, parse).Ok?
      && Daily.IsDailyTopRows(r.value.top, Daily.ParseDates(r.value.top, parse).value, r.value.daily)
  {
    var _ :- Schema.ValidateSchema(frame.columns, order);
    var top := Classify.TopPosts(frame.rows);
    var other := Classify.OtherPosts(frame.rows);
    Classify.Partition(frame.rows);
    Classify.Membership(frame.rows);
    var daily :- Daily.CollectDailyTopPosts(top, parse);
    Ok(Analysis(top, other, daily))
  }

  /**
    Every daily top post is a top post, by value and by id, and there is one
    per distinct date of the top posts.
  */
  lemma DailyTopIsSubsetOfTop(frame: Frame, parse: string -> Option<Date>, order: seq<(string, DType)>)
    requires Schema.IsIterationOrder(order)
    requires AnalyzePosts(frame, parse, order).Ok?
    ensures var a := AnalyzePosts(frame, parse, order).value;
      && (forall x :: x in a.daily ==> x in a.top)
      && Classify.Ids(a.daily) <= Classify.Ids(a.top)
      && |a.daily| == |set x | x in a.top :: parse(x.timestamp).value|
  {
    var a := AnalyzePosts(frame, parse, order).value;
    var dates := Daily.ParseDates(a.top, parse).value;
    Daily.DailyTopRowsProperties(a.top, dates, a.daily);
    Daily.ParsedDateSet(a.top, parse);
  }

  /** Rows with unique ids give top and other posts with disjoint ids that together are the input's ids. */
  lemma TopAndOtherPartitionIds(frame: Frame, parse: string -> Option<Date>, order: seq<(string, DType)>)
    requires Schema.IsIterationOrder(order)
    requires Classify.UniqueIds(frame.rows)
    requires AnalyzePosts(frame, parse, order).Ok?
    ensures var a := AnalyzePosts(frame, parse, order).value;
      && Classify.Ids(a.top) !! Classify.Ids(a.other)
      && Classify.Ids(a.top) + Classify.Ids(a.other) == Classify.Ids(frame.rows)
      && |a.top| + |a.other| == |frame.rows|
  {
    Classify.IdsPartition(frame.rows);
    Classify.Partition(frame.rows);
  }
}
