/**
  The loader's cleaning of a freshly read post table (`load_tweets_csv`):
  deduplicate by `tweet_id` keeping the first occurrence, drop rows missing
  `text`, `impressions` or `likes`, keep rows with positive impressions,
  and add each absent optional column with its default. Every step runs
  only when the column it looks at is present.
 */
module DataUtils {
  import opened Wrappers
  import opened Tables

  /** Columns whose missing cells make a row unusable, in the order they are checked. */
  const RequiredColumns: seq<Column> := [Text, Impressions, Likes]

  /** Columns added with a default when the file lacks them, in the order they are added. */
  const OptionalColumns: seq<Column> :=
    [MediaType, Hashtags, Replies, Retweets, ProfileVisits, FollowersAtPost, IsReply, IsThread]

  /** The optional columns whose default is the number 0; the others default to "". */
  const NumericOptionalColumns: set<Column> :=
    {Replies, Retweets, ProfileVisits, FollowersAtPost, IsReply, IsThread}

  function DefaultValue(c: Column): Value {
    if c in NumericOptionalColumns then IntValue(0) else TextValue("")
  }

  // ---------------------------------------------------------------- dedup

  /** The first row of `rows` whose id is `id`, if any. */
  function FirstWithId(rows: seq<Row>, id: Option<int>): Option<Row> {
    if rows == [] then None
    else if rows[0].tweetId == id then Some(rows[0])
    else FirstWithId(rows[1..], id)
  }

  /**
    `drop_duplicates(subset=['tweet_id'])` after the ids in `seen` have been
    met: a row is kept when its id is neither in `seen` nor on an earlier row.
   */
  function Dedup(rows: seq<Row>, seen: set<Option<int>>): (kept: seq<Row>)
    ensures Subseq(kept, rows)
    ensures forall k :: 0 <= k < |kept| ==> kept[k].tweetId !in seen
  {
    if rows == [] then []
    else if rows[0].tweetId in seen then Dedup(rows[1..], seen)
    else [rows[0]] + Dedup(rows[1..], seen + {rows[0].tweetId})
  }

  /** The deduplication, one row at a time, remembering the ids already kept. */
  method DropDuplicateIds(rows: seq<Row>) returns (kept: seq<Row>)
    ensures kept == Dedup(rows, {})
  {
    kept := [];
    var seen: set<Option<int>> := {};
    var i := 0;
    while i < |rows|
      invariant 0 <= i <= |rows|
      invariant kept + Dedup(rows[i..], seen) == Dedup(rows, {})
    {
      assert rows[i..][0] == rows[i] && rows[i..][1..] == rows[i + 1..];
      if rows[i].tweetId !in seen {
        kept := kept + [rows[i]];
        seen := seen + {rows[i].tweetId};
      }
      i := i + 1;
    }
  }

  /** No two kept rows share an id. */
  lemma {:induction false} DedupUnique(rows: seq<Row>, seen: set<Option<int>>)
    ensures UniqueIds(Dedup(rows, seen))
  {
    if rows != [] && rows[0].tweetId in seen {
      DedupUnique(rows[1..], seen);
    } else if rows != [] {
      var rest := Dedup(rows[1..], seen + {rows[0].tweetId});
      DedupUnique(rows[1..], seen + {rows[0].tweetId});
      var kept := Dedup(rows, seen);
      forall i, j | 0 <= i < j < |kept| ensures kept[i].tweetId != kept[j].tweetId {
        assert kept[j] == rest[j - 1];
        if i > 0 { assert kept[i] == rest[i - 1]; }
      }
    }
  }

  /** Every kept row is the first row of the input carrying its id. */
  lemma {:induction false} DedupKeepsFirst(rows: seq<Row>, seen: set<Option<int>>)
    ensures forall r :: r in Dedup(rows, seen) ==> FirstWithId(rows, r.tweetId) == Some(r)
  {
    if rows != [] && rows[0].tweetId in seen {
      DedupKeepsFirst(rows[1..], seen);
      forall r | r in Dedup(rows, seen) ensures FirstWithId(rows, r.tweetId) == Some(r) {
        var k :| 0 <= k < |Dedup(rows, seen)| && Dedup(rows, seen)[k] == r;
        assert r.tweetId != rows[0].tweetId;
      }
    } else if rows != [] {
      var s := seen + {rows[0].tweetId};
      DedupKeepsFirst(rows[1..], s);
      forall r | r in Dedup(rows, seen) ensures FirstWithId(rows, r.tweetId) == Some(r) {
        if r != rows[0] {
          assert r in Dedup(rows[1..], s);
          var k :| 0 <= k < |Dedup(rows[1..], s)| && Dedup(rows[1..], s)[k] == r;
          assert r.tweetId != rows[0].tweetId;
        }
      }
    }
  }

  /** Every id of the input that is not in `seen` keeps its first row. */
  lemma {:induction false} DedupKeepsEveryId(rows: seq<Row>, seen: set<Option<int>>, id: Option<int>)
    requires id !in seen && FirstWithId(rows, id).Some?
    ensures FirstWithId(rows, id).value in Dedup(rows, seen)
  {
    if rows[0].tweetId != id {
      if rows[0].tweetId in seen {
        DedupKeepsEveryId(rows[1..], seen, id);
      } else {
        DedupKeepsEveryId(rows[1..], seen + {rows[0].tweetId}, id);
      }
    }
  }

  /** Rows whose ids are already unique (and unseen) are all kept. */
  lemma {:induction false} DedupOfUnique(rows: seq<Row>, seen: set<Option<int>>)
    requires UniqueIds(rows)
    requires forall k :: 0 <= k < |rows| ==> rows[k].tweetId !in seen
    ensures Dedup(rows, seen) == rows
  {
    if rows != [] {
      var s := seen + {rows[0].tweetId};
      forall k | 0 <= k < |rows[1..]| ensures rows[1..][k].tweetId !in s {
        assert rows[1..][k] == rows[k + 1];
      }
      assert UniqueIds(rows[1..]) by {
        forall i, j | 0 <= i < j < |rows[1..]| ensures rows[1..][i].tweetId != rows[1..][j].tweetId {
          assert rows[1..][i] == rows[i + 1] && rows[1..][j] == rows[j + 1];
        }
      }
      DedupOfUnique(rows[1..], s);
    }
  }

  // -------------------------------------------------------------- filters

  function DedupStage(t: Table): Table {
    if TweetId in t.columns then Table(t.columns, Dedup(t.rows, {})) else t
  }

  /** The mask `df[col].notna()`. */
  function HasValue(c: Column): Row -> bool {
    r => Cell(r, c).Some?
  }

  /** `df.dropna(subset=[c])`, when `c` is a column. */
  function DropMissing(t: Table, c: Column): Table {
    if c in t.columns then Table(t.columns, KeepIf(t.rows, HasValue(c))) else t
  }

  /** The drops for `cs`, one column after the other. */
  function DropMissingEach(t: Table, cs: seq<Column>): Table
    decreases |cs|
  {
    if cs == [] then t else DropMissing(DropMissingEach(t, cs[..|cs| - 1]), cs[|cs| - 1])
  }

  /** The mask `df['impressions'] > 0`; a missing count compares false. */
  function PositiveImpressions(r: Row): bool {
    r.impressions.Some? && r.impressions.value > 0
  }

  function KeepPositive(t: Table): Table {
    if Impressions in t.columns then Table(t.columns, KeepIf(t.rows, PositiveImpressions)) else t
  }

  /** The row filters of the loader, before any column is added. */
  function Sanitize(t: Table): Table {
    KeepPositive(DropMissingEach(DedupStage(t), RequiredColumns))
  }

  // -------------------------------------------------------------- defaults

  /** Row `r` with column `c` set to its default, `df[c] = 0` or `df[c] = ""`. */
  function WithDefault(r: Row, c: Column): Row {
    match c
    case MediaType => r.(mediaType := Some(""))
    case Hashtags => r.(hashtags := Some(""))
    case Replies => r.(replies := Some(0))
    case Retweets => r.(retweets := Some(0))
    case ProfileVisits => r.(profileVisits := Some(0))
    case FollowersAtPost => r.(followersAtPost := Some(0))
    case IsReply => r.(isReply := Some(0))
    case IsThread => r.(isThread := Some(0))
    case _ => r
  }

  function DefaultRows(rows: seq<Row>, c: Column): (filled: seq<Row>)
    ensures |filled| == |rows|
    ensures forall k :: 0 <= k < |rows| ==> filled[k] == WithDefault(rows[k], c)
  {
    if rows == [] then [] else [WithDefault(rows[0], c)] + DefaultRows(rows[1..], c)
  }

  /** Adds column `c`, with its default in every row, unless it is present. */
  function FillColumn(t: Table, c: Column): Table {
    if c in t.columns then t else Table(t.columns + {c}, DefaultRows(t.rows, c))
  }

  function FillEach(t: Table, cs: seq<Column>): Table
    decreases |cs|
  {
    if cs == [] then t else FillColumn(FillEach(t, cs[..|cs| - 1]), cs[|cs| - 1])
  }

  /** The loader's output for a table read from a file. */
  function Clean(t: Table): Table {
    FillEach(Sanitize(t), OptionalColumns)
  }

  /** The loop dropping rows with a missing text, impressions or likes cell. */
  method DropMissingRequired(t: Table) returns (df: Table)
    ensures df == DropMissingEach(t, RequiredColumns)
  {
    df := t;
    for i := 0 to |RequiredColumns|
      invariant df == DropMissingEach(t, RequiredColumns[..i])
    {
      var col := RequiredColumns[i];
      if col in df.columns {
        df := Table(df.columns, KeepIf(df.rows, HasValue(col)));
      }
      assert RequiredColumns[..i + 1][..i] == RequiredColumns[..i];
    }
    assert RequiredColumns[..|RequiredColumns|] == RequiredColumns;
  }

  /** The loop adding each absent optional column with its default. */
  method FillOptional(t: Table) returns (df: Table)
    ensures df == FillEach(t, OptionalColumns)
  {
    df := t;
    for i := 0 to |OptionalColumns|
      invariant df == FillEach(t, OptionalColumns[..i])
    {
      var col := OptionalColumns[i];
      if col !in df.columns {
        df := Table(df.columns + {col}, DefaultRows(df.rows, col));
      }
      assert OptionalColumns[..i + 1][..i] == OptionalColumns[..i];
    }
    assert OptionalColumns[..|OptionalColumns|] == OptionalColumns;
  }

  /**
    `load_tweets_csv` from the point the file has been read: the table is
    reassigned by each cleaning step in turn.
   */
  method LoadTweets(raw: Table) returns (df: Table)
    ensures df == Clean(raw)
  {
    df := raw;
    // The timestamp column arrives already parsed, so its conversion changes nothing.
    if TweetId in df.columns {
      var kept := DropDuplicateIds(df.rows);
      df := Table(df.columns, kept);
    }
    df := DropMissingRequired(df);
    if Impressions in df.columns {
      df := Table(df.columns, KeepIf(df.rows, PositiveImpressions));
    }
    df := FillOptional(df);
  }

  // -------------------------------------------------------------- properties

  /**
    What the row filters guarantee: unique ids when there is an id column,
    no missing required cell in a present required column, and positive
    impressions when there is an impressions column.
   */
  predicate IsSanitized(t: Table) {
    IdsUnique(t) && RequiredPresent(t) && ImpressionsPositive(t)
  }

  predicate IdsUnique(t: Table) {
    TweetId in t.columns ==> UniqueIds(t.rows)
  }

  predicate RequiredPresent(t: Table) {
    forall k, c :: 0 <= k < |t.rows| && c in RequiredColumns && c in t.columns ==> Cell(t.rows[k], c).Some?
  }

  predicate ImpressionsPositive(t: Table) {
    Impressions in t.columns ==> forall k :: 0 <= k < |t.rows| ==> PositiveImpressions(t.rows[k])
  }

  lemma {:induction false} DropMissingEachKeeps(t: Table, cs: seq<Column>)
    ensures DropMissingEach(t, cs).columns == t.columns
    ensures Subseq(DropMissingEach(t, cs).rows, t.rows)
    ensures forall r, c :: r in DropMissingEach(t, cs).rows && c in cs && c in t.columns ==> Cell(r, c).Some?
    decreases |cs|
  {
    if cs == [] {
      SubseqRefl(t.rows);
    } else {
      var init := cs[..|cs| - 1];
      var c := cs[|cs| - 1];
      var prev := DropMissingEach(t, init);
      var cur := DropMissingEach(t, cs);
      DropMissingEachKeeps(t, init);
      assert cur == DropMissing(prev, c);
      if c in prev.columns {
        SubseqTransitive(cur.rows, prev.rows, t.rows);
      } else {
        SubseqRefl(prev.rows);
      }
      SubseqElements(cur.rows, prev.rows);
      forall r, d | r in cur.rows && d in cs && d in t.columns ensures Cell(r, d).Some? {
        if d == c {
          var k :| 0 <= k < |cur.rows| && cur.rows[k] == r;
          assert HasValue(c)(cur.rows[k]);
        } else {
          assert d in init;
        }
      }
    }
  }

  /** The row filters keep rows in order, and leave them satisfying `IsSanitized`. */
  lemma SanitizeKeeps(t: Table)
    ensures Sanitize(t).columns == t.columns
    ensures Subseq(Sanitize(t).rows, t.rows)
    ensures IsSanitized(Sanitize(t))
    ensures TweetId in t.columns ==>
      forall r :: r in Sanitize(t).rows ==> FirstWithId(t.rows, r.tweetId) == Some(r)
  {
    var d := DedupStage(t);
    if TweetId in t.columns {
      DedupUnique(t.rows, {});
      DedupKeepsFirst(t.rows, {});
    } else {
      SubseqRefl(t.rows);
    }
    var m := DropMissingEach(d, RequiredColumns);
    DropMissingEachKeeps(d, RequiredColumns);
    var s := Sanitize(t);
    assert s == KeepPositive(m);
    if Impressions in m.columns {
      SubseqTransitive(s.rows, m.rows, d.rows);
    } else {
      SubseqRefl(m.rows);
    }
    SubseqTransitive(s.rows, d.rows, t.rows);
    SubseqElements(s.rows, m.rows);
    SubseqElements(s.rows, d.rows);
    if TweetId in t.columns {
      SubseqUniqueIds(s.rows, d.rows);
    }
    forall k, c | 0 <= k < |s.rows| && c in RequiredColumns && c in s.columns
      ensures Cell(s.rows[k], c).Some?
    {
      assert s.rows[k] in m.rows;
    }
  }

  /** Dropping missing cells keeps every row that has all the listed cells. */
  lemma {:induction false} DropMissingEachRetains(t: Table, cs: seq<Column>, r: Row)
    requires r in t.rows
    requires forall c :: c in cs && c in t.columns ==> Cell(r, c).Some?
    ensures r in DropMissingEach(t, cs).rows
    decreases |cs|
  {
    if cs != [] {
      var init := cs[..|cs| - 1];
      var c := cs[|cs| - 1];
      var prev := DropMissingEach(t, init);
      DropMissingEachKeeps(t, init);
      DropMissingEachRetains(t, init, r);
      if c in prev.columns {
        var k :| 0 <= k < |prev.rows| && prev.rows[k] == r;
        assert HasValue(c)(prev.rows[k]);
      }
    }
  }

  /**
    The row filters' verdict on one row of `t`: it is the first row with its
    id, it has every required cell, and its impressions are positive (each
    part only when `t` has that column).
   */
  predicate PassesFilters(t: Table, r: Row) {
    && (TweetId in t.columns ==> FirstWithId(t.rows, r.tweetId) == Some(r))
    && (forall c :: c in RequiredColumns && c in t.columns ==> Cell(r, c).Some?)
    && (Impressions in t.columns ==> PositiveImpressions(r))
  }

  /** Every row that passes the filters survives them. */
  lemma SanitizeRetains(t: Table, r: Row)
    requires r in t.rows && PassesFilters(t, r)
    ensures r in Sanitize(t).rows
  {
    var d := DedupStage(t);
    if TweetId in t.columns {
      DedupKeepsEveryId(t.rows, {}, r.tweetId);
    }
    assert r in d.rows;
    DropMissingEachRetains(d, RequiredColumns, r);
    var m := DropMissingEach(d, RequiredColumns);
    DropMissingEachKeeps(d, RequiredColumns);
    if Impressions in m.columns {
      var k :| 0 <= k < |m.rows| && m.rows[k] == r;
      assert PositiveImpressions(m.rows[k]);
    }
  }

  /** A row survives the filters exactly when it is a row of `t` that passes them. */
  lemma SanitizeSurvivors(t: Table, r: Row)
    ensures r in Sanitize(t).rows <==> r in t.rows && PassesFilters(t, r)
  {
    if r in t.rows && PassesFilters(t, r) {
      SanitizeRetains(t, r);
    }
    if r in Sanitize(t).rows {
      var s := Sanitize(t);
      SanitizeKeeps(t);
      SubseqElements(s.rows, t.rows);
      var k :| 0 <= k < |s.rows| && s.rows[k] == r;
      assert forall c :: c in RequiredColumns && c in t.columns ==> Cell(s.rows[k], c).Some?;
    }
  }

  lemma {:induction false} DropMissingEachNoop(t: Table, cs: seq<Column>)
    requires forall k, c :: 0 <= k < |t.rows| && c in cs && c in t.columns ==> Cell(t.rows[k], c).Some?
    ensures DropMissingEach(t, cs) == t
    decreases |cs|
  {
    if cs != [] {
      DropMissingEachNoop(t, cs[..|cs| - 1]);
      var c := cs[|cs| - 1];
      if c in t.columns {
        KeepIfAll(t.rows, HasValue(c));
      }
    }
  }

  /** On a table that already satisfies `IsSanitized` the filters drop nothing. */
  lemma SanitizeFixpoint(t: Table)
    requires IsSanitized(t)
    ensures Sanitize(t) == t
  {
    if TweetId in t.columns {
      DedupOfUnique(t.rows, {});
    }
    DropMissingEachNoop(t, RequiredColumns);
    if Impressions in t.columns {
      KeepIfAll(t.rows, PositiveImpressions);
    }
  }

  lemma WithDefaultCell(r: Row, c: Column, d: Column)
    requires c in OptionalColumns
    ensures Cell(WithDefault(r, c), d) == if d == c then Some(DefaultValue(c)) else Cell(r, d)
  {
  }

  lemma FillColumnCells(t: Table, c: Column, k: int, d: Column)
    requires c in OptionalColumns && 0 <= k < |t.rows|
    ensures |FillColumn(t, c).rows| == |t.rows|
    ensures Cell(FillColumn(t, c).rows[k], d)
      == if d == c && c !in t.columns then Some(DefaultValue(c)) else Cell(t.rows[k], d)
  {
    if c !in t.columns {
      WithDefaultCell(t.rows[k], c, d);
    }
  }

  /** Filling columns `cs` adds exactly the absent ones and keeps the row count. */
  lemma {:induction false} FillEachColumns(t: Table, cs: seq<Column>)
    ensures forall c :: c in FillEach(t, cs).columns <==> c in t.columns || c in cs
    ensures |FillEach(t, cs).rows| == |t.rows|
    decreases |cs|
  {
    if cs != [] {
      var init := cs[..|cs| - 1];
      assert cs == init + [cs[|cs| - 1]];
      FillEachColumns(t, init);
    }
  }

  /** One cell after filling columns `cs`: the default if its column was added, otherwise unchanged. */
  lemma {:induction false} FillEachCell(t: Table, cs: seq<Column>, k: int, d: Column)
    requires forall c :: c in cs ==> c in OptionalColumns
    requires 0 <= k < |t.rows|
    ensures |FillEach(t, cs).rows| == |t.rows|
    ensures Cell(FillEach(t, cs).rows[k], d)
      == if d in cs && d !in t.columns then Some(DefaultValue(d)) else Cell(t.rows[k], d)
    decreases |cs|
  {
    FillEachColumns(t, cs);
    if cs != [] {
      var init := cs[..|cs| - 1];
      var c := cs[|cs| - 1];
      assert cs == init + [c];
      assert forall x :: x in init ==> x in cs;
      FillEachCell(t, init, k, d);
      FillEachColumns(t, init);
      FillColumnCells(FillEach(t, init), c, k, d);
      assert (d in cs) == (d in init || d == c);
    }
  }

  /**
    Filling columns `cs` adds exactly the absent ones, each with its default
    in every row, and changes no other cell.
   */
  lemma {:induction false} FillEachCells(t: Table, cs: seq<Column>)
    requires forall c :: c in cs ==> c in OptionalColumns
    ensures |FillEach(t, cs).rows| == |t.rows|
    ensures forall k, c {:trigger Cell(FillEach(t, cs).rows[k], c)} :: 0 <= k < |t.rows| ==>
      Cell(FillEach(t, cs).rows[k], c)
        == if c in cs && c !in t.columns then Some(DefaultValue(c)) else Cell(t.rows[k], c)
  {
    FillEachColumns(t, cs);
    forall k, c | 0 <= k < |t.rows|
      ensures Cell(FillEach(t, cs).rows[k], c)
        == if c in cs && c !in t.columns then Some(DefaultValue(c)) else Cell(t.rows[k], c)
    {
      FillEachCell(t, cs, k, c);
    }
  }

  /** Setting an optional column leaves the id, the impressions and the required cells alone. */
  lemma WithDefaultKeeps(r: Row, c: Column)
    requires c in OptionalColumns
    ensures WithDefault(r, c).tweetId == r.tweetId
    ensures WithDefault(r, c).impressions == r.impressions
    ensures forall d :: d in RequiredColumns ==> Cell(WithDefault(r, c), d) == Cell(r, d)
  {
  }

  /** Adding one optional column leaves the ids, impressions and required cells of every row alone. */
  lemma FillColumnKeeps(prev: Table, c: Column)
    requires c in OptionalColumns
    ensures FillColumn(prev, c).columns == prev.columns + {c}
    ensures |FillColumn(prev, c).rows| == |prev.rows|
    ensures forall k :: 0 <= k < |prev.rows| ==>
      && FillColumn(prev, c).rows[k].tweetId == prev.rows[k].tweetId
      && FillColumn(prev, c).rows[k].impressions == prev.rows[k].impressions
      && forall d :: d in RequiredColumns ==> Cell(FillColumn(prev, c).rows[k], d) == Cell(prev.rows[k], d)
  {
    var next := FillColumn(prev, c);
    if c !in prev.columns {
      forall k | 0 <= k < |prev.rows|
        ensures next.rows[k].tweetId == prev.rows[k].tweetId
        ensures next.rows[k].impressions == prev.rows[k].impressions
        ensures forall d :: d in RequiredColumns ==> Cell(next.rows[k], d) == Cell(prev.rows[k], d)
      {
        assert next.rows[k] == WithDefault(prev.rows[k], c);
        WithDefaultKeeps(prev.rows[k], c);
      }
    }
  }

  lemma FillColumnIdsUnique(prev: Table, c: Column)
    requires c in OptionalColumns
    requires IdsUnique(prev)
    ensures IdsUnique(FillColumn(prev, c))
  {
    if c !in prev.columns && TweetId in prev.columns {
      var rows := DefaultRows(prev.rows, c);
      forall i, j | 0 <= i < j < |rows| ensures rows[i].tweetId != rows[j].tweetId {
        WithDefaultKeeps(prev.rows[i], c);
        WithDefaultKeeps(prev.rows[j], c);
      }
    }
  }

  lemma FillColumnRequiredPresent(prev: Table, c: Column)
    requires c in OptionalColumns
    requires RequiredPresent(prev)
    ensures RequiredPresent(FillColumn(prev, c))
  {
    if c !in prev.columns {
      var rows := DefaultRows(prev.rows, c);
      forall k, d | 0 <= k < |rows| && d in RequiredColumns && d in prev.columns + {c}
        ensures Cell(rows[k], d).Some?
      {
        WithDefaultKeeps(prev.rows[k], c);
      }
    }
  }

  lemma FillColumnImpressionsPositive(prev: Table, c: Column)
    requires c in OptionalColumns
    requires ImpressionsPositive(prev)
    ensures ImpressionsPositive(FillColumn(prev, c))
  {
    if c !in prev.columns {
      FillColumnKeeps(prev, c);
    }
  }

  /** Adding one optional column keeps every guarantee of the row filters. */
  lemma FillColumnSanitized(prev: Table, c: Column)
    requires c in OptionalColumns
    requires IsSanitized(prev)
    ensures IsSanitized(FillColumn(prev, c))
  {
    FillColumnIdsUnique(prev, c);
    FillColumnRequiredPresent(prev, c);
    FillColumnImpressionsPositive(prev, c);
  }

  /** Adding optional columns keeps every guarantee of the row filters. */
  lemma {:induction false} FillEachSanitized(t: Table, cs: seq<Column>)
    requires forall c :: c in cs ==> c in OptionalColumns
    requires IsSanitized(t)
    ensures IsSanitized(FillEach(t, cs))
    decreases |cs|
  {
    if cs != [] {
      var init := cs[..|cs| - 1];
      assert forall d :: d in init ==> d in cs;
      FillEachSanitized(t, init);
      assert cs[|cs| - 1] in cs;
      FillColumnSanitized(FillEach(t, init), cs[|cs| - 1]);
    }
  }

  lemma {:induction false} FillEachPresent(t: Table, cs: seq<Column>)
    requires forall c :: c in cs ==> c in t.columns
    ensures FillEach(t, cs) == t
    decreases |cs|
  {
    if cs != [] {
      FillEachPresent(t, cs[..|cs| - 1]);
    }
  }

  /**
    The loader's output rows are the surviving input rows, in input order,
    with every absent optional column added at its default (0, or "" for
    `media_type` and `hashtags`) and every other cell as it was.
   */
  lemma CleanKeepsCells(t: Table)
    ensures forall c :: c in Clean(t).columns <==> c in t.columns || c in OptionalColumns
    ensures Subseq(Sanitize(t).rows, t.rows)
    ensures |Clean(t).rows| == |Sanitize(t).rows|
    ensures forall k, c :: 0 <= k < |Sanitize(t).rows| ==>
      Cell(Clean(t).rows[k], c)
        == if c in OptionalColumns && c !in t.columns then Some(DefaultValue(c))
           else Cell(Sanitize(t).rows[k], c)
  {
    SanitizeKeeps(t);
    FillEachColumns(Sanitize(t), OptionalColumns);
    FillEachCells(Sanitize(t), OptionalColumns);
  }

  /** One cell of the loader's output. */
  lemma CleanCell(raw: Table, k: int, c: Column)
    requires 0 <= k < |Clean(raw).rows|
    ensures |Sanitize(raw).rows| == |Clean(raw).rows|
    ensures Cell(Clean(raw).rows[k], c)
      == if c in OptionalColumns && c !in raw.columns then Some(DefaultValue(c))
         else Cell(Sanitize(raw).rows[k], c)
  {
    var s := Sanitize(raw);
    SanitizeKeeps(raw);
    FillEachColumns(s, OptionalColumns);
    FillEachCells(s, OptionalColumns);
    assert Cell(FillEach(s, OptionalColumns).rows[k], c)
      == if c in OptionalColumns && c !in s.columns then Some(DefaultValue(c)) else Cell(s.rows[k], c);
  }

  /** The loader's output satisfies `IsSanitized` and has every optional column. */
  lemma CleanIsSanitized(t: Table)
    ensures IsSanitized(Clean(t))
    ensures forall c :: c in OptionalColumns ==> c in Clean(t).columns
  {
    SanitizeKeeps(t);
    FillEachColumns(Sanitize(t), OptionalColumns);
    FillEachCells(Sanitize(t), OptionalColumns);
    FillEachSanitized(Sanitize(t), OptionalColumns);
  }

  /** Cleaning the loader's output again changes nothing. */
  lemma CleanIdempotent(t: Table)
    ensures Clean(Clean(t)) == Clean(t)
  {
    CleanIsSanitized(t);
    SanitizeFixpoint(Clean(t));
    FillEachPresent(Clean(t), OptionalColumns);
  }

  /** Every row that survives is the first row of the input with its id. */
  lemma CleanKeepsFirstOccurrence(t: Table)
    requires TweetId in t.columns
    ensures |Clean(t).rows| == |Sanitize(t).rows|
    ensures forall k :: 0 <= k < |Clean(t).rows| ==>
      Clean(t).rows[k].tweetId == Sanitize(t).rows[k].tweetId
      && FirstWithId(t.rows, Sanitize(t).rows[k].tweetId) == Some(Sanitize(t).rows[k])
  {
    CleanKeepsCells(t);
    SanitizeKeeps(t);
    forall k | 0 <= k < |Clean(t).rows|
      ensures Clean(t).rows[k].tweetId == Sanitize(t).rows[k].tweetId
    {
      assert Cell(Clean(t).rows[k], TweetId) == Cell(Sanitize(t).rows[k], TweetId);
    }
  }

  /**
    Deduplication comes before the missing-value drop: when the first row
    with some id lacks a required value, no row with that id survives, even
    if a later duplicate is complete.
   */
  lemma IncompleteFirstOccurrenceLosesId(t: Table, first: Row, c: Column)
    requires TweetId in t.columns
    requires FirstWithId(t.rows, first.tweetId) == Some(first)
    requires c in RequiredColumns && c in t.columns && Cell(first, c) == None
    ensures forall k :: 0 <= k < |Clean(t).rows| ==> Clean(t).rows[k].tweetId != first.tweetId
  {
    CleanKeepsFirstOccurrence(t);
    SanitizeKeeps(t);
    var s := Sanitize(t);
    forall k | 0 <= k < |Clean(t).rows| ensures Clean(t).rows[k].tweetId != first.tweetId {
      assert s.rows[k] in s.rows;
      assert Cell(s.rows[k], c).Some?;
    }
  }
}
