/**
  Per-post features and the engagement-score label (`add_features`), and
  the fixed feature-column order handed to the model (`get_feature_target`).
 */
module Features {
  import opened Wrappers
  import opened Calendar
  import opened Text
  import opened Tables
  import opened DataUtils

  /**
    The sentiment scorer (TextBlob polarity), left abstract: `None` stands
    for the scorer raising an exception.
   */
  type Scorer = string -> Option<real>

  /** The derived columns of one post. `hour` and `weekday` are NaN (`None`) for a NaT timestamp. */
  datatype Features = Features(
    hour: Option<int>,
    weekday: Option<int>,
    textLength: nat,
    wordCount: nat,
    hashtagCount: nat,
    hasMedia: int,
    sentiment: real,
    engagementScore: real)

  /** A table with its derived columns, row for row. */
  datatype Featured = Featured(table: Table, features: seq<Features>)

  /** A value, or the `KeyError` raised on reading an absent column. */
  datatype Result<T> = Ok(value: T) | MissingColumn(column: Column)

  /** The columns `add_features` reads without checking, in the order it reads them. */
  const FeatureInputs: seq<Column> := [Timestamp, Text, Hashtags, MediaType, Likes, Impressions]

  /** The first column of `order` that is not in `cols`. */
  function FirstAbsent(cols: set<Column>, order: seq<Column>): (r: Option<Column>)
    ensures r.None? <==> forall c :: c in order ==> c in cols
    ensures r.Some? ==> r.value in order && r.value !in cols
    ensures r.Some? ==>
      exists i :: 0 <= i < |order| && order[i] == r.value && (forall j :: 0 <= j < i ==> order[j] in cols)
  {
    if order == [] then None
    else if order[0] !in cols then Some(order[0])
    else FirstAbsent(cols, order[1..])
  }

  /** Columns known to be present can be skipped when looking for the first absent one. */
  lemma {:induction false} FirstAbsentAfter(cols: set<Column>, order: seq<Column>, i: nat)
    requires i <= |order|
    requires forall j :: 0 <= j < i ==> order[j] in cols
    ensures FirstAbsent(cols, order) == FirstAbsent(cols, order[i..])
  {
    if i > 0 {
      FirstAbsentAfter(cols, order[1..], i - 1);
      assert order[1..][i - 1..] == order[i..];
    }
  }

  /** `timestamp.dt.hour`. */
  function HourOf(ts: Option<DateTime>): (h: Option<int>)
    ensures h.Some? <==> ts.Some?
    ensures h.Some? ==> 0 <= h.value <= 23
  {
    if ts.Some? then Some(ts.value.time.hour) else None
  }

  /** `timestamp.dt.weekday`, 0 = Monday. */
  function WeekdayOf(ts: Option<DateTime>): (w: Option<int>)
    ensures w.Some? <==> ts.Some?
    ensures w.Some? ==> 0 <= w.value <= 6
  {
    if ts.Some? then Some(Weekday(ts.value.date)) else None
  }

  /** `astype(str)` on the text column: a missing text becomes the string "nan". */
  function AsText(v: Option<string>): string {
    v.GetOr("nan")
  }

  /** `0 if x == '' else len(str(x).split(','))`. */
  function HashtagCount(hashtags: string): (n: nat)
    ensures n == 0 <==> hashtags == ""
    ensures hashtags != "" ==> n == Count(hashtags, ',') + 1
  {
    if hashtags == "" then 0 else |Split(hashtags, ',')|
  }

  /** `(media_type != 'none').astype(int)`. */
  function HasMedia(mediaType: string): (b: int)
    ensures b == 0 || b == 1
    ensures b == 1 <==> mediaType != "none"
  {
    if mediaType != "none" then 1 else 0
  }

  /** `get_sentiment`: the scorer's polarity, or 0.0 when the scorer raises. */
  function Sentiment(score: Scorer, text: string): (s: real)
    ensures score(text).Some? ==> s == score(text).value
    ensures score(text).None? ==> s == 0.0
  {
    match score(text)
    case Some(p) => p
    case None => 0.0
  }

  /**
    `(likes + replies + retweets) / impressions`, with the infinite and NaN
    results replaced by 0: a missing operand or zero impressions gives 0.
   */
  function EngagementScore(likes: Option<int>, replies: Option<int>, retweets: Option<int>,
                           impressions: Option<int>): (s: real)
    ensures likes.None? || replies.None? || retweets.None? || impressions.None? || impressions.value == 0
      ==> s == 0.0
    ensures likes.Some? && replies.Some? && retweets.Some? && impressions.Some? && impressions.value != 0
      ==> s * impressions.value as real == (likes.value + replies.value + retweets.value) as real
  {
    if likes.None? || replies.None? || retweets.None? || impressions.None? || impressions.value == 0 then 0.0
    else (likes.value + replies.value + retweets.value) as real / impressions.value as real
  }

  /**
    The row as `add_features` leaves it: text as a string, hashtags filled
    with "", media type filled with "none", and replies and retweets
    added as 0 when the table has no such column.
   */
  function Prepare(r: Row, cols: set<Column>): Row {
    r.(text := Some(AsText(r.text)),
       hashtags := Some(r.hashtags.GetOr("")),
       mediaType := Some(r.mediaType.GetOr("none")),
       replies := ZeroCounts(r, cols).replies,
       retweets := ZeroCounts(r, cols).retweets)
  }

  /** The derived columns of row `r` of a table with columns `cols`. */
  function Derive(r: Row, cols: set<Column>, score: Scorer): Features {
    var p := Prepare(r, cols);
    var text := AsText(p.text);
    Features(
      HourOf(p.timestamp),
      WeekdayOf(p.timestamp),
      |text|,
      WordCount(text),
      HashtagCount(p.hashtags.GetOr("")),
      HasMedia(p.mediaType.GetOr("none")),
      Sentiment(score, text),
      EngagementScore(p.likes, p.replies, p.retweets, p.impressions))
  }

  /** `add_features` as a value: the first absent input column, or the featured copy. */
  function Featurize(df: Table, score: Scorer): (out: Result<Featured>)
    ensures out.Ok? <==> forall c :: c in FeatureInputs ==> c in df.columns
    ensures out.MissingColumn? ==> out.column in FeatureInputs && out.column !in df.columns
    ensures out.Ok? ==>
      && out.value.table.columns == df.columns + {Replies, Retweets}
      && |out.value.table.rows| == |out.value.features| == |df.rows|
      && forall k, c :: 0 <= k < |df.rows| && c !in {Text, Hashtags, MediaType, Replies, Retweets}
           ==> Cell(out.value.table.rows[k], c) == Cell(df.rows[k], c)
  {
    match FirstAbsent(df.columns, FeatureInputs)
    case Some(c) => MissingColumn(c)
    case None =>
      Ok(Featured(
        Table(df.columns + {Replies, Retweets},
              seq(|df.rows|, k requires 0 <= k < |df.rows| => Prepare(df.rows[k], df.columns))),
        seq(|df.rows|, k requires 0 <= k < |df.rows| => Derive(df.rows[k], df.columns, score))))
  }

  /** Replies and retweets count as 0 in a table that has no such column. */
  function ZeroCounts(r: Row, cols: set<Column>): Row {
    r.(replies := if Replies in cols then r.replies else Some(0),
       retweets := if Retweets in cols then r.retweets else Some(0))
  }

  /** The loop of `add_features` that adds each absent count column, filled with 0. */
  method AddMissingCounts(cols: set<Column>, rows: seq<Row>) returns (cols': set<Column>, rows': seq<Row>)
    ensures cols' == cols + {Replies, Retweets}
    ensures |rows'| == |rows|
    ensures forall k :: 0 <= k < |rows| ==> rows'[k] == ZeroCounts(rows[k], cols)
  {
    cols', rows' := cols, rows;
    var n := |rows|;
    var counts := [Replies, Retweets];
    for i := 0 to |counts|
      invariant |rows'| == n
      invariant cols' == cols + (set j | 0 <= j < i :: counts[j])
      invariant forall k :: 0 <= k < n ==> rows'[k] == rows[k].(
        replies := if 0 < i && Replies !in cols then Some(0) else rows[k].replies,
        retweets := if 1 < i && Retweets !in cols then Some(0) else rows[k].retweets)
    {
      var col := counts[i];
      if col !in cols' {
        if col == Replies {
          rows' := seq(n, k requires 0 <= k < n => rows'[k].(replies := Some(0)));
        } else {
          rows' := seq(n, k requires 0 <= k < n => rows'[k].(retweets := Some(0)));
        }
      }
      cols' := cols' + {col};
    }
    assert (set j | 0 <= j < 2 :: counts[j]) == {Replies, Retweets} by {
      assert counts[0] == Replies && counts[1] == Retweets;
    }
  }

  /** A featured table whose every row is the prepared and derived input row is the one `Featurize` gives. */
  lemma FeaturizeFromRows(df: Table, score: Scorer, ft: Featured)
    requires forall c :: c in FeatureInputs ==> c in df.columns
    requires ft.table.columns == df.columns + {Replies, Retweets}
    requires |ft.table.rows| == |ft.features| == |df.rows|
    requires forall k :: 0 <= k < |df.rows| ==>
      ft.table.rows[k] == Prepare(df.rows[k], df.columns) && ft.features[k] == Derive(df.rows[k], df.columns, score)
    ensures Featurize(df, score) == Ok(ft)
  {
    var spec := Featurize(df, score);
    assert spec.Ok?;
    assert ft.table.rows == spec.value.table.rows;
    assert ft.features == spec.value.features;
  }

  /**
    The engagement stage of `add_features`: absent count columns added as
    0, then the label of each row; reading an absent likes or impressions
    column is an error.
   */
  method AddEngagement(cols: set<Column>, rows: seq<Row>)
    returns (out: Result<(set<Column>, seq<Row>, seq<real>)>)
    ensures Likes !in cols ==> out == MissingColumn(Likes)
    ensures Likes in cols && Impressions !in cols ==> out == MissingColumn(Impressions)
    ensures Likes in cols && Impressions in cols ==>
      && out.Ok?
      && out.value.0 == cols + {Replies, Retweets}
      && |out.value.1| == |rows| && |out.value.2| == |rows|
      && forall k :: 0 <= k < |rows| ==>
           var z := ZeroCounts(rows[k], cols);
           out.value.1[k] == z && out.value.2[k] == EngagementScore(z.likes, z.replies, z.retweets, z.impressions)
  {
    var cols', rows' := AddMissingCounts(cols, rows);
    if Likes !in cols' {
      return MissingColumn(Likes);
    }
    if Impressions !in cols' {
      return MissingColumn(Impressions);
    }
    var n := |rows'|;
    var engagement := seq(n, k requires 0 <= k < n =>
      EngagementScore(rows'[k].likes, rows'[k].replies, rows'[k].retweets, rows'[k].impressions));
    out := Ok((cols', rows', engagement));
  }

  /**
    `add_features`: works on a copy of the table, assigning the derived
    columns one after the other; reading an absent column is an error.
   */
  method AddFeatures(df: Table, score: Scorer) returns (out: Result<Featured>)
    ensures out == Featurize(df, score)
  {
    var cols, rows := df.columns, df.rows;
    var n := |rows|;
    if Timestamp !in cols {
      return MissingColumn(Timestamp);
    }
    var hour := seq(n, k requires 0 <= k < n => HourOf(rows[k].timestamp));
    var weekday := seq(n, k requires 0 <= k < n => WeekdayOf(rows[k].timestamp));
    if Text !in cols {
      FirstAbsentAfter(df.columns, FeatureInputs, 1);
      return MissingColumn(Text);
    }
    rows := seq(n, k requires 0 <= k < n => rows[k].(text := Some(AsText(rows[k].text))));
    var textLength := seq(n, k requires 0 <= k < n => |AsText(rows[k].text)|);
    var wordCount := seq(n, k requires 0 <= k < n => WordCount(AsText(rows[k].text)));
    if Hashtags !in cols {
      FirstAbsentAfter(df.columns, FeatureInputs, 2);
      return MissingColumn(Hashtags);
    }
    rows := seq(n, k requires 0 <= k < n => rows[k].(hashtags := Some(rows[k].hashtags.GetOr(""))));
    var hashtagCount := seq(n, k requires 0 <= k < n => HashtagCount(rows[k].hashtags.GetOr("")));
    if MediaType !in cols {
      FirstAbsentAfter(df.columns, FeatureInputs, 3);
      return MissingColumn(MediaType);
    }
    rows := seq(n, k requires 0 <= k < n => rows[k].(mediaType := Some(rows[k].mediaType.GetOr("none"))));
    var hasMedia := seq(n, k requires 0 <= k < n => HasMedia(rows[k].mediaType.GetOr("none")));
    var sentiment := seq(n, k requires 0 <= k < n => Sentiment(score, AsText(rows[k].text)));
    ghost var filled := rows;
    var stage := AddEngagement(cols, rows);
    if stage.MissingColumn? {
      FirstAbsentAfter(df.columns, FeatureInputs, if stage.column == Likes then 4 else 5);
      return MissingColumn(stage.column);
    }
    var engagement;
    cols, rows, engagement := stage.value.0, stage.value.1, stage.value.2;
    var features := seq(n, k requires 0 <= k < n => Features(
      hour[k], weekday[k], textLength[k], wordCount[k], hashtagCount[k], hasMedia[k],
      sentiment[k], engagement[k]));
    out := Ok(Featured(Table(cols, rows), features));
    FirstAbsentAfter(df.columns, FeatureInputs, 6);
    forall k | 0 <= k < n
      ensures rows[k] == Prepare(df.rows[k], df.columns)
      ensures features[k] == Derive(df.rows[k], df.columns, score)
    {
      var r := df.rows[k];
      assert filled[k] == r.(text := Some(AsText(r.text)), hashtags := Some(r.hashtags.GetOr("")),
                             mediaType := Some(r.mediaType.GetOr("none")));
      assert rows[k] == ZeroCounts(filled[k], df.columns);
    }
    FeaturizeFromRows(df, score, Featured(Table(cols, rows), features));
  }

  /** The feature columns, in the order the model consumes them. */
  const FeatureColumns: seq<string> :=
    ["hour", "weekday", "text_length", "word_count", "hashtag_count", "has_media", "sentiment"]

  function IntFeature(v: Option<int>): Option<real> {
    if v.Some? then Some(v.value as real) else None
  }

  /** One row of the feature matrix, in `FeatureColumns` order (NaN as `None`). */
  function Vector(f: Features): (v: seq<Option<real>>)
    ensures |v| == |FeatureColumns|
  {
    [IntFeature(f.hour), IntFeature(f.weekday), Some(f.textLength as real), Some(f.wordCount as real),
     Some(f.hashtagCount as real), Some(f.hasMedia as real), Some(f.sentiment)]
  }

  /** `get_feature_target`: the feature matrix `X`, the label `y` and the column names. */
  function FeatureTarget(ft: Featured): (r: (seq<seq<Option<real>>>, seq<real>, seq<string>))
    ensures |r.0| == |r.1| == |ft.features|
    ensures r.2 == FeatureColumns
    ensures forall k :: 0 <= k < |ft.features| ==>
      |r.0[k]| == |FeatureColumns|
      && r.0[k][0] == IntFeature(ft.features[k].hour)
      && r.0[k][1] == IntFeature(ft.features[k].weekday)
      && r.0[k][2] == Some(ft.features[k].textLength as real)
      && r.0[k][3] == Some(ft.features[k].wordCount as real)
      && r.0[k][4] == Some(ft.features[k].hashtagCount as real)
      && r.0[k][5] == Some(ft.features[k].hasMedia as real)
      && r.0[k][6] == Some(ft.features[k].sentiment)
      && r.1[k] == ft.features[k].engagementScore
  {
    (seq(|ft.features|, k requires 0 <= k < |ft.features| => Vector(ft.features[k])),
     seq(|ft.features|, k requires 0 <= k < |ft.features| => ft.features[k].engagementScore),
     FeatureColumns)
  }

  // ------------------------------------------------------------ properties

  /** Tags joined with commas are counted one by one. */
  lemma HashtagCountJoin(tags: seq<string>)
    requires tags != [] && Join(tags, ',') != ""
    requires forall k :: 0 <= k < |tags| ==> ',' !in tags[k]
    ensures HashtagCount(Join(tags, ',')) == |tags|
  {
    SplitJoin(tags, ',');
  }

  /** What each derived column of a row means. */
  lemma DeriveProperties(r: Row, cols: set<Column>, score: Scorer)
    ensures var f := Derive(r, cols, score);
      && (f.hour.Some? <==> r.timestamp.Some?)
      && (f.hour.Some? ==> 0 <= f.hour.value <= 23 && f.hour.value == r.timestamp.value.time.hour)
      && (f.weekday.Some? <==> r.timestamp.Some?)
      && (f.weekday.Some? ==> f.weekday.value == Weekday(r.timestamp.value.date))
      && f.textLength == |AsText(r.text)|
      && f.wordCount <= f.textLength
      && (f.wordCount == 0 <==> AllSpace(AsText(r.text)))
      && (f.hashtagCount == 0 <==> r.hashtags.None? || r.hashtags == Some(""))
      && (f.hasMedia == 0 <==> r.mediaType.None? || r.mediaType == Some("none"))
      && (f.hasMedia == 0 || f.hasMedia == 1)
  {
    WordCountBound(AsText(r.text));
    WordCountZeroIff(AsText(r.text));
  }

  /** The label is never negative when the counts are not and impressions are positive. */
  lemma EngagementNonNegative(likes: Option<int>, replies: Option<int>, retweets: Option<int>,
                              impressions: Option<int>)
    requires likes.Some? ==> likes.value >= 0
    requires replies.Some? ==> replies.value >= 0
    requires retweets.Some? ==> retweets.value >= 0
    requires impressions.Some? ==> impressions.value > 0
    ensures EngagementScore(likes, replies, retweets, impressions) >= 0.0
  {
    var s := EngagementScore(likes, replies, retweets, impressions);
    if likes.Some? && replies.Some? && retweets.Some? && impressions.Some? {
      var imp := impressions.value as real;
      assert s * imp >= 0.0;
    }
  }

  /**
    A post "hi" with 1000 impressions, 50 likes, 10 replies, 5 retweets,
    no media and no hashtags scores 0.065 and has two characters, one
    word, no hashtags and no media.
   */
  lemma SampleRecord(r: Row, cols: set<Column>, score: Scorer)
    requires r.impressions == Some(1000) && r.likes == Some(50) && r.replies == Some(10) && r.retweets == Some(5)
    requires r.text == Some("hi") && r.mediaType == Some("none") && r.hashtags == Some("")
    requires Replies in cols && Retweets in cols
    ensures var f := Derive(r, cols, score);
      && f.engagementScore == 0.065
      && f.textLength == 2 && f.wordCount == 1
      && f.hashtagCount == 0 && f.hasMedia == 0
  {
    var text := AsText(r.text);
    assert !IsSpace(text[0]) && !IsSpace(text[1]);
    assert RunLength(text) == 2 by {
      assert RunLength(text[1..]) == 1 by { assert text[1..][1..] == []; }
    }
    assert text[2..] == [];
  }

  /**
    A table without reply and retweet columns scores each post as if those
    columns were present and 0.
   */
  lemma AbsentCountsScoreAsZero(r: Row, cols: set<Column>, score: Scorer)
    requires Replies !in cols && Retweets !in cols
    ensures Derive(r, cols, score)
      == Derive(r.(replies := Some(0), retweets := Some(0)), cols + {Replies, Retweets}, score)
  {
  }

  /** The count columns are never missing once `add_features` has run. */
  lemma FeaturizedCounts(df: Table, score: Scorer)
    requires Featurize(df, score).Ok?
    ensures forall k :: 0 <= k < |df.rows| ==>
      var p := Featurize(df, score).value.table.rows[k];
      && p.replies == (if Replies in df.columns then df.rows[k].replies else Some(0))
      && p.retweets == (if Retweets in df.columns then df.rows[k].retweets else Some(0))
      && p.text == Some(AsText(df.rows[k].text))
      && p.hashtags == Some(df.rows[k].hashtags.GetOr(""))
      && p.mediaType == Some(df.rows[k].mediaType.GetOr("none"))
  {
  }

  /** No negative count in any row of the file. */
  predicate NonNegativeCounts(rows: seq<Row>) {
    forall k :: 0 <= k < |rows| ==>
      rows[k].likes.GetOr(0) >= 0 && rows[k].replies.GetOr(0) >= 0 && rows[k].retweets.GetOr(0) >= 0
  }

  /** The input fields `add_features` reads that the loader never fills in. */
  lemma CleanRowKept(raw: Table, k: int)
    requires 0 <= k < |Clean(raw).rows|
    ensures |Sanitize(raw).rows| == |Clean(raw).rows|
    ensures var r, s := Clean(raw).rows[k], Sanitize(raw).rows[k];
      && r.timestamp == s.timestamp && r.text == s.text
      && r.likes == s.likes && r.impressions == s.impressions
  {
    CleanCell(raw, k, Text);
    var r, s := Clean(raw).rows[k], Sanitize(raw).rows[k];
    assert r.timestamp == s.timestamp && r.text == s.text by {
      CleanCell(raw, k, Timestamp);
    }
    assert r.likes == s.likes && r.impressions == s.impressions by {
      CleanCell(raw, k, Likes);
      CleanCell(raw, k, Impressions);
    }
  }

  /** The count fields of a loaded row: 0 when the file has no such column. */
  lemma CleanRowCounts(raw: Table, k: int)
    requires 0 <= k < |Clean(raw).rows|
    ensures |Sanitize(raw).rows| == |Clean(raw).rows|
    ensures var r, s := Clean(raw).rows[k], Sanitize(raw).rows[k];
      && r.replies == (if Replies in raw.columns then s.replies else Some(0))
      && r.retweets == (if Retweets in raw.columns then s.retweets else Some(0))
  {
    CleanCell(raw, k, Replies);
    CleanCell(raw, k, Retweets);
  }

  /** The media and hashtag fields of a loaded row: "" when the file has no such column. */
  lemma CleanRowTags(raw: Table, k: int)
    requires 0 <= k < |Clean(raw).rows|
    ensures |Sanitize(raw).rows| == |Clean(raw).rows|
    ensures var r, s := Clean(raw).rows[k], Sanitize(raw).rows[k];
      && r.mediaType == (if MediaType in raw.columns then s.mediaType else Some(""))
      && r.hashtags == (if Hashtags in raw.columns then s.hashtags else Some(""))
  {
    CleanCell(raw, k, MediaType);
    CleanCell(raw, k, Hashtags);
  }

  /** A row of the loader's output, field by field, against the sanitized row it comes from. */
  lemma CleanRow(raw: Table, k: int)
    requires 0 <= k < |Clean(raw).rows|
    ensures |Sanitize(raw).rows| == |Clean(raw).rows|
    ensures var r, s := Clean(raw).rows[k], Sanitize(raw).rows[k];
      && r.timestamp == s.timestamp && r.text == s.text
      && r.likes == s.likes && r.impressions == s.impressions
      && r.replies == (if Replies in raw.columns then s.replies else Some(0))
      && r.retweets == (if Retweets in raw.columns then s.retweets else Some(0))
      && r.mediaType == (if MediaType in raw.columns then s.mediaType else Some(""))
      && r.hashtags == (if Hashtags in raw.columns then s.hashtags else Some(""))
  {
    CleanRowKept(raw, k);
    CleanRowCounts(raw, k);
    CleanRowTags(raw, k);
  }

  /** The loader keeps the file's columns, so `add_features` finds its inputs. */
  lemma LoadedHasInputs(raw: Table)
    requires Timestamp in raw.columns && Text in raw.columns && Likes in raw.columns && Impressions in raw.columns
    ensures forall c :: c in FeatureInputs ==> c in Clean(raw).columns
  {
    CleanKeepsCells(raw);
  }

  /** A row of the loader's output has positive impressions and no negative count. */
  lemma LoadedRowCounts(raw: Table, k: int)
    requires Impressions in raw.columns
    requires NonNegativeCounts(raw.rows)
    requires 0 <= k < |Clean(raw).rows|
    ensures var r := Clean(raw).rows[k];
      && PositiveImpressions(r)
      && r.likes.GetOr(0) >= 0 && r.replies.GetOr(0) >= 0 && r.retweets.GetOr(0) >= 0
  {
    var s := Sanitize(raw);
    CleanRow(raw, k);
    SanitizeKeeps(raw);
    assert PositiveImpressions(s.rows[k]);
    SubseqElements(s.rows, raw.rows);
    assert s.rows[k] in raw.rows;
    var m :| 0 <= m < |raw.rows| && raw.rows[m] == s.rows[k];
  }

  /**
    The loader's output always has the columns `add_features` needs when
    the file has a timestamp, text, likes and impressions, and every post
    then gets a non-negative label.
   */
  lemma LoadedTableFeaturizes(raw: Table, score: Scorer)
    requires Timestamp in raw.columns && Text in raw.columns && Likes in raw.columns && Impressions in raw.columns
    requires NonNegativeCounts(raw.rows)
    ensures Featurize(Clean(raw), score).Ok?
    ensures |Featurize(Clean(raw), score).value.features| == |Clean(raw).rows|
    ensures forall k :: 0 <= k < |Clean(raw).rows| ==>
      Featurize(Clean(raw), score).value.features[k].engagementScore >= 0.0
  {
    var t := Clean(raw);
    LoadedHasInputs(raw);
    forall k | 0 <= k < |t.rows|
      ensures Featurize(t, score).value.features[k].engagementScore >= 0.0
    {
      LoadedRowCounts(raw, k);
      var p := Prepare(t.rows[k], t.columns);
      EngagementNonNegative(p.likes, p.replies, p.retweets, p.impressions);
    }
  }

  /**
    A file without a `media_type` column is loaded with "" in that column,
    which `add_features` counts as media: every post gets `has_media` 1.
    Likewise a file without `hashtags` gives every post no hashtags.
   */
  lemma LoadedDefaultsFeatures(raw: Table, score: Scorer)
    requires Featurize(Clean(raw), score).Ok?
    ensures MediaType !in raw.columns ==> forall k :: 0 <= k < |Clean(raw).rows| ==>
      Featurize(Clean(raw), score).value.features[k].hasMedia == 1
    ensures Hashtags !in raw.columns ==> forall k :: 0 <= k < |Clean(raw).rows| ==>
      Featurize(Clean(raw), score).value.features[k].hashtagCount == 0
  {
    var t := Clean(raw);
    forall k | 0 <= k < |t.rows|
      ensures MediaType !in raw.columns ==> Featurize(t, score).value.features[k].hasMedia == 1
      ensures Hashtags !in raw.columns ==> Featurize(t, score).value.features[k].hashtagCount == 0
    {
      CleanRow(raw, k);
    }
  }
}
