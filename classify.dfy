/**
  Classification of posts (`Application.analyze_posts`): a per-row boolean
  condition, and the two selections `loc[condition]` and `loc[~condition]`
  that split the rows into top posts and other posts.
*/
module Classify {
  import opened Posts

  /** The top-post criteria: public, over 10 comments, over 9000 views, title under 40 characters. */
  predicate IsTop(r: Row) {
    && r.privacy == PrivacyType
    && r.comments > MinNumComments
    && r.views > MinNumViews
    && |r.title| < MaxNumTitleChars
  }

  /** The boolean mask `condition`: one entry per row, true for the top posts. */
  function Condition(rows: seq<Row>): (mask: seq<bool>)
    ensures |mask| == |rows|
  {
    seq(|rows|, i requires 0 <= i < |rows| => IsTop(rows[i]))
  }

  /** The element-wise negation `~mask`. */
  function Negate(mask: seq<bool>): (r: seq<bool>)
    ensures |r| == |mask|
  {
    seq(|mask|, i requires 0 <= i < |mask| => !mask[i])
  }

  /** `loc[mask]`: the rows whose mask entry is true, in their original order. */
  function Loc(rows: seq<Row>, mask: seq<bool>): (out: seq<Row>)
    requires |mask| == |rows|
    ensures |out| <= |rows|
    ensures forall x :: x in out ==> x in rows
  {
    if rows == [] then []
    else (if mask[0] then [rows[0]] else []) + Loc(rows[1..], mask[1..])
  }

  /** The rows meeting the criteria, in input order. */
  function TopPosts(rows: seq<Row>): (top: seq<Row>)
    ensures forall x :: x in top ==> x in rows
  {
    Loc(rows, Condition(rows))
  }

  /** The remaining rows, in input order. */
  function OtherPosts(rows: seq<Row>): (other: seq<Row>)
    ensures forall x :: x in other ==> x in rows
  {
    Loc(rows, Negate(Condition(rows)))
  }

  /**
    `s` is an interleaving of `a` and `b`: every element of `s` is taken, in
    order, from the front of either `a` or `b`, and together they are used up.
  */
  ghost predicate Interleaving(s: seq<Row>, a: seq<Row>, b: seq<Row>)
    decreases |s|
  {
    if s == [] then a == [] && b == []
    else
      || (a != [] && a[0] == s[0] && Interleaving(s[1..], a[1..], b))
      || (b != [] && b[0] == s[0] && Interleaving(s[1..], a, b[1..]))
  }

  /** An interleaving neither drops nor duplicates an element. */
  lemma {:induction false} InterleavingConserves(s: seq<Row>, a: seq<Row>, b: seq<Row>)
    requires Interleaving(s, a, b)
    ensures |s| == |a| + |b|
    ensures multiset(s) == multiset(a) + multiset(b)
    decreases |s|
  {
    if s != [] {
      if a != [] && a[0] == s[0] && Interleaving(s[1..], a[1..], b) {
        InterleavingConserves(s[1..], a[1..], b);
        assert s == [s[0]] + s[1..] && a == [a[0]] + a[1..];
      } else {
        InterleavingConserves(s[1..], a, b[1..]);
        assert s == [s[0]] + s[1..] && b == [b[0]] + b[1..];
      }
    }
  }

  /** Selecting by a mask and by its negation splits the rows, keeping their order. */
  lemma {:induction false} LocSplits(rows: seq<Row>, mask: seq<bool>)
    requires |mask| == |rows|
    ensures Interleaving(rows, Loc(rows, mask), Loc(rows, Negate(mask)))
  {
    if rows != [] {
      var a, b := Loc(rows, mask), Loc(rows, Negate(mask));
      assert Negate(mask)[1..] == Negate(mask[1..]);
      LocSplits(rows[1..], mask[1..]);
      if mask[0] {
        assert a[0] == rows[0] && a[1..] == Loc(rows[1..], mask[1..]);
        assert b == Loc(rows[1..], Negate(mask[1..]));
      } else {
        assert b[0] == rows[0] && b[1..] == Loc(rows[1..], Negate(mask[1..]));
        assert a == Loc(rows[1..], mask[1..]);
      }
    }
  }

  /** Every selected row sits at a position whose mask entry is true. */
  lemma {:induction false} LocSelectsMarked(rows: seq<Row>, mask: seq<bool>)
    requires |mask| == |rows|
    ensures forall x :: x in Loc(rows, mask) ==>
      exists i :: 0 <= i < |rows| && mask[i] && rows[i] == x
  {
    if rows != [] {
      LocSelectsMarked(rows[1..], mask[1..]);
      forall x | x in Loc(rows, mask)
        ensures exists i :: 0 <= i < |rows| && mask[i] && rows[i] == x
      {
        if x !in Loc(rows[1..], mask[1..]) {
          assert mask[0] && rows[0] == x;
        } else {
          var i :| 0 <= i < |rows| - 1 && mask[1..][i] && rows[1..][i] == x;
          assert mask[i + 1] && rows[i + 1] == x;
        }
      }
    }
  }

  /**
    The top posts and the other posts interleave to the input: every row is
    in exactly one of them, none is added or duplicated, and each keeps the
    input's relative order.
  */
  lemma Partition(rows: seq<Row>)
    ensures Interleaving(rows, TopPosts(rows), OtherPosts(rows))
    ensures |TopPosts(rows)| + |OtherPosts(rows)| == |rows|
    ensures multiset(TopPosts(rows)) + multiset(OtherPosts(rows)) == multiset(rows)
  {
    LocSplits(rows, Condition(rows));
    InterleavingConserves(rows, TopPosts(rows), OtherPosts(rows));
  }

  /** A row is a top post exactly when it is an input row meeting the criteria, and an other post exactly when it is one failing them. */
  lemma Membership(rows: seq<Row>)
    ensures forall x :: x in TopPosts(rows) <==> x in rows && IsTop(x)
    ensures forall x :: x in OtherPosts(rows) <==> x in rows && !IsTop(x)
  {
    var top, other := TopPosts(rows), OtherPosts(rows);
    Partition(rows);
    LocSelectsMarked(rows, Condition(rows));
    LocSelectsMarked(rows, Negate(Condition(rows)));
    forall x | x in rows
      ensures x in top || x in other
    {
      assert x in multiset(rows);
    }
  }

  /** The ids of the rows of a table. */
  function Ids(rows: seq<Row>): set<int> {
    set r | r in rows :: r.id
  }

  /** No two rows share an id. */
  predicate UniqueIds(rows: seq<Row>) {
    forall i, j :: 0 <= i < j < |rows| ==> rows[i].id != rows[j].id
  }

  /** By id, the top and other posts are disjoint and together give the input's ids. */
  lemma IdsPartition(rows: seq<Row>)
    requires UniqueIds(rows)
    ensures Ids(TopPosts(rows)) !! Ids(OtherPosts(rows))
    ensures Ids(TopPosts(rows)) + Ids(OtherPosts(rows)) == Ids(rows)
  {
    Membership(rows);
    var top, other := TopPosts(rows), OtherPosts(rows);
    forall a, b | a in top && b in other
      ensures a.id != b.id
    {
      assert a != b;
    }
  }

  /** The thresholds are exclusive: a row exactly at one of them is never a top post. */
  lemma ThresholdsAreStrict(r: Row)
    requires r.comments == MinNumComments || r.views == MinNumViews || |r.title| == MaxNumTitleChars
    ensures !IsTop(r)
  {
  }
}
