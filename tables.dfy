/**
  The post table as the loader and the feature code see it: a set of
  columns that are present, and rows whose cells are optional. A column
  that is absent from the table is not in `columns`; a cell that is
  missing in a present column (pandas NaN / NaT) is `None`.
 */
module Tables {
  import opened Wrappers
  import opened Calendar

  datatype Column =
    | TweetId | Timestamp | Text | Impressions | Likes | Replies | Retweets
    | ProfileVisits | FollowersAtPost | MediaType | Hashtags | IsReply | IsThread

  /** One historical post. */
  datatype Row = Row(
    tweetId: Option<int>,
    timestamp: Option<DateTime>,
    text: Option<string>,
    impressions: Option<int>,
    likes: Option<int>,
    replies: Option<int>,
    retweets: Option<int>,
    profileVisits: Option<int>,
    followersAtPost: Option<int>,
    mediaType: Option<string>,
    hashtags: Option<string>,
    isReply: Option<int>,
    isThread: Option<int>)

  datatype Table = Table(columns: set<Column>, rows: seq<Row>)

  /** The value of a cell, whatever its column's type. */
  datatype Value = IntValue(i: int) | TextValue(s: string) | TimeValue(t: DateTime)

  function IntCell(v: Option<int>): Option<Value> {
    if v.Some? then Some(IntValue(v.value)) else None
  }

  function TextCell(v: Option<string>): Option<Value> {
    if v.Some? then Some(TextValue(v.value)) else None
  }

  /** The cell of row `r` in column `c`: `df.loc[r, c]`. */
  function Cell(r: Row, c: Column): Option<Value> {
    match c
    case TweetId => IntCell(r.tweetId)
    case Timestamp => if r.timestamp.Some? then Some(TimeValue(r.timestamp.value)) else None
    case Text => TextCell(r.text)
    case Impressions => IntCell(r.impressions)
    case Likes => IntCell(r.likes)
    case Replies => IntCell(r.replies)
    case Retweets => IntCell(r.retweets)
    case ProfileVisits => IntCell(r.profileVisits)
    case FollowersAtPost => IntCell(r.followersAtPost)
    case MediaType => TextCell(r.mediaType)
    case Hashtags => TextCell(r.hashtags)
    case IsReply => IntCell(r.isReply)
    case IsThread => IntCell(r.isThread)
  }

  /** `xs` is `ys` with some elements left out, the rest in their original order. */
  ghost predicate Subseq<T>(xs: seq<T>, ys: seq<T>)
    decreases |ys|
  {
    xs == [] || (ys != [] && ((xs[0] == ys[0] && Subseq(xs[1..], ys[1..])) || Subseq(xs, ys[1..])))
  }

  lemma {:induction false} SubseqRefl<T>(xs: seq<T>)
    ensures Subseq(xs, xs)
  {
    if xs != [] {
      SubseqRefl(xs[1..]);
    }
  }

  lemma {:induction false} SubseqTransitive<T>(a: seq<T>, b: seq<T>, c: seq<T>)
    requires Subseq(a, b) && Subseq(b, c)
    ensures Subseq(a, c)
    decreases |c|
  {
    if a != [] {
      assert b != [] && c != [];
      if b[0] == c[0] && Subseq(b[1..], c[1..]) {
        if a[0] == b[0] && Subseq(a[1..], b[1..]) {
          SubseqTransitive(a[1..], b[1..], c[1..]);
        } else {
          SubseqTransitive(a, b[1..], c[1..]);
        }
      } else {
        SubseqTransitive(a, b, c[1..]);
      }
    }
  }

  lemma {:induction false} SubseqElements<T>(xs: seq<T>, ys: seq<T>)
    requires Subseq(xs, ys)
    ensures forall x :: x in xs ==> x in ys
    decreases |ys|
  {
    if xs != [] {
      if xs[0] == ys[0] && Subseq(xs[1..], ys[1..]) {
        SubseqElements(xs[1..], ys[1..]);
        forall x | x in xs ensures x in ys {
          if x != xs[0] { assert x in xs[1..]; }
        }
      } else {
        SubseqElements(xs, ys[1..]);
      }
    }
  }

  /** The rows of `rows` that satisfy `p`, in order (`df[mask]`). */
  function KeepIf(rows: seq<Row>, p: Row -> bool): (kept: seq<Row>)
    ensures forall k :: 0 <= k < |kept| ==> p(kept[k])
    ensures Subseq(kept, rows)
    ensures forall k :: 0 <= k < |rows| && p(rows[k]) ==> rows[k] in kept
    ensures forall r :: multiset(kept)[r] == if p(r) then multiset(rows)[r] else 0
  {
    if rows == [] then []
    else
      assert rows == [rows[0]] + rows[1..];
      assert forall k :: 0 < k < |rows| ==> rows[k] == rows[1..][k - 1];
      if p(rows[0]) then [rows[0]] + KeepIf(rows[1..], p)
      else KeepIf(rows[1..], p)
  }

  /** A mask that holds everywhere drops nothing. */
  lemma {:induction false} KeepIfAll(rows: seq<Row>, p: Row -> bool)
    requires forall k :: 0 <= k < |rows| ==> p(rows[k])
    ensures KeepIf(rows, p) == rows
  {
    if rows != [] {
      assert p(rows[0]);
      KeepIfAll(rows[1..], p);
    }
  }

  /** No two rows share a `tweet_id` (a missing id counts as one value, as in pandas). */
  predicate UniqueIds(rows: seq<Row>) {
    forall i, j :: 0 <= i < j < |rows| ==> rows[i].tweetId != rows[j].tweetId
  }

  /** Leaving rows out keeps ids unique. */
  lemma {:induction false} SubseqUniqueIds(xs: seq<Row>, ys: seq<Row>)
    requires Subseq(xs, ys) && UniqueIds(ys)
    ensures UniqueIds(xs)
    decreases |ys|
  {
    if xs != [] {
      assert UniqueIds(ys[1..]) by {
        forall i, j | 0 <= i < j < |ys[1..]| ensures ys[1..][i].tweetId != ys[1..][j].tweetId {
          assert ys[1..][i] == ys[i + 1] && ys[1..][j] == ys[j + 1];
        }
      }
      if xs[0] == ys[0] && Subseq(xs[1..], ys[1..]) {
        SubseqUniqueIds(xs[1..], ys[1..]);
        SubseqElements(xs[1..], ys[1..]);
        forall i, j | 0 <= i < j < |xs| ensures xs[i].tweetId != xs[j].tweetId {
          if i == 0 {
            assert xs[j] == xs[1..][j - 1];
            assert xs[j] in ys[1..];
            var m :| 0 <= m < |ys[1..]| && ys[1..][m] == xs[j];
            assert ys[m + 1] == xs[j];
          } else {
            assert xs[i] == xs[1..][i - 1] && xs[j] == xs[1..][j - 1];
          }
        }
      } else {
        SubseqUniqueIds(xs, ys[1..]);
      }
    }
  }
}
