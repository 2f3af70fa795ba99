/**
  Schema validation of a posts frame (`Application.validate_schema`): each
  required (column, dtype) pair is checked in turn, and the first pair whose
  column is absent or has another dtype raises.
*/
module Schema {
  import opened Wrappers
  import opened Posts

  /** The required (column, dtype) pairs; strings are held in `Object` columns. */
  const ValidColumns: set<(string, DType)> := {
    (ColId, Int64),
    (ColTitle, Object),
    (ColPrivacy, Object),
    (ColLikes, Int64),
    (ColViews, Int64),
    (ColComments, Int64),
    (ColTimestamp, Object)
  }

  /** The names of the required columns. */
  const RequiredNames: set<string> :=
    {ColId, ColTitle, ColPrivacy, ColLikes, ColViews, ColComments, ColTimestamp}

  /**
    An order in which the required pairs may be visited. They are kept in a
    hash-ordered set, so any order that visits exactly these pairs is possible.
  */
  predicate IsIterationOrder(order: seq<(string, DType)>) {
    (forall c :: c in order ==> c in ValidColumns) &&
    (forall c :: c in ValidColumns ==> c in order)
  }

  /** Column `c.0` is present with dtype `c.1`. */
  predicate Conforms(columns: map<string, DType>, c: (string, DType)) {
    c.0 in columns && columns[c.0] == c.1
  }

  /** The exception raised for a required pair the frame does not conform to. */
  function ColumnError(columns: map<string, DType>, c: (string, DType)): (e: AnalysisError)
    requires !Conforms(columns, c)
    ensures e.MissingColumn? <==> c.0 !in columns
    ensures !e.ParseError? && e.column == c.0
    ensures e.UnsupportedColumnType? ==> e.expected == c.1 && e.actual == columns[c.0]
  {
    if c.0 !in columns then MissingColumn(c.0)
    else UnsupportedColumnType(c.0, c.1, columns[c.0])
  }

  /** Checks the pairs of `required` in order and fails on the first one that does not conform. */
  function CheckColumns(required: seq<(string, DType)>, columns: map<string, DType>): (r: Result<(), AnalysisError>)
    ensures r.Ok? <==> forall c :: c in required ==> Conforms(columns, c)
    ensures r.Err? ==>
      exists k :: 0 <= k < |required| && !Conforms(columns, required[k]) &&
        r.error == ColumnError(columns, required[k]) &&
        forall j :: 0 <= j < k ==> Conforms(columns, required[j])
  {
    if required == [] then Ok(())
    else if !Conforms(columns, required[0]) then Err(ColumnError(columns, required[0]))
    else
      var r := CheckColumns(required[1..], columns);
      assert forall c :: c in required <==> c == required[0] || c in required[1..];
      assert r.Err? ==>
        exists k :: 1 <= k < |required| && !Conforms(columns, required[k]) &&
          r.error == ColumnError(columns, required[k]) &&
          forall j :: 0 <= j < k ==> Conforms(columns, required[j]);
      r
  }

  /**
    Validates the columns of a frame, visiting the required pairs in `order`.
    Returns normally exactly when every required column is present with its
    dtype; otherwise raises for a required column that is absent or mistyped.
  */
  function ValidateSchema(columns: map<string, DType>, order: seq<(string, DType)>): (r: Result<(), AnalysisError>)
    requires IsIterationOrder(order)
    ensures r.Ok? <==> forall c :: c in ValidColumns ==> Conforms(columns, c)
    ensures r.Err? ==>
      exists c :: c in ValidColumns && !Conforms(columns, c) && r.error == ColumnError(columns, c)
  {
    CheckColumns(order, columns)
  }

  /** Columns the schema does not name never change the outcome of a check. */
  lemma {:induction false} CheckIgnoresOtherColumns(
    required: seq<(string, DType)>, columns: map<string, DType>, name: string, t: DType)
    requires forall c :: c in required ==> c.0 != name
    ensures CheckColumns(required, columns[name := t]) == CheckColumns(required, columns)
  {
    if required != [] {
      assert Conforms(columns[name := t], required[0]) == Conforms(columns, required[0]);
      if Conforms(columns, required[0]) {
        CheckIgnoresOtherColumns(required[1..], columns, name, t);
      }
    }
  }

  /** Extra columns never cause validation to fail, nor change which error is raised. */
  lemma ExtraColumnsIgnored(
    columns: map<string, DType>, name: string, t: DType, order: seq<(string, DType)>)
    requires IsIterationOrder(order)
    requires name !in RequiredNames
    ensures ValidateSchema(columns[name := t], order) == ValidateSchema(columns, order)
  {
    CheckIgnoresOtherColumns(order, columns, name, t);
  }

  /**
    A frame lacking a required column, whose present required columns all
    have their dtype, raises `MissingColumn` for one of the absent columns,
    whatever the order of the checks.
  */
  lemma MissingColumnRaised(columns: map<string, DType>, order: seq<(string, DType)>)
    requires IsIterationOrder(order)
    requires exists name :: name in RequiredNames && name !in columns
    requires forall c :: c in ValidColumns && c.0 in columns ==> columns[c.0] == c.1
    ensures var r := ValidateSchema(columns, order);
      r.Err? && r.error.MissingColumn? &&
      r.error.column in RequiredNames && r.error.column !in columns
  {
  }

  /**
    A frame holding all required columns, exactly one of them with another
    dtype, raises `UnsupportedColumnType` naming that column, its expected
    dtype and its actual dtype, whatever the order of the checks.
  */
  lemma UnsupportedColumnTypeRaised(
    columns: map<string, DType>, c: (string, DType), order: seq<(string, DType)>)
    requires IsIterationOrder(order)
    requires RequiredNames <= columns.Keys
    requires c in ValidColumns && columns[c.0] != c.1
    requires forall c' :: c' in ValidColumns && c' != c ==> columns[c'.0] == c'.1
    ensures ValidateSchema(columns, order) == Err(UnsupportedColumnType(c.0, c.1, columns[c.0]))
  {
  }

  /** A frame with only an `id` and a `title` column raises `MissingColumn`. */
  lemma IdAndTitleOnlyIsMissingColumn(order: seq<(string, DType)>)
    requires IsIterationOrder(order)
    ensures ValidateSchema(map[ColId := Int64, ColTitle := Object], order).Err?
    ensures ValidateSchema(map[ColId := Int64, ColTitle := Object], order).error.MissingColumn?
  {
  }

  /** A frame whose `privacy` column holds booleans raises `UnsupportedColumnType` for it. */
  lemma BooleanPrivacyIsUnsupported(order: seq<(string, DType)>)
    requires IsIterationOrder(order)
    ensures ValidateSchema(map[
      ColId := Int64, ColTitle := Object, ColPrivacy := Bool, ColLikes := Int64,
      ColViews := Int64, ColComments := Int64, ColTimestamp := Object], order) ==
      Err(UnsupportedColumnType(ColPrivacy, Object, Bool))
  {
  }
}
