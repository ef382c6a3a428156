/**
  The dashboard's draft-post form: the feature vector it builds from the
  form's fields and hands to the trained model, and how that vector
  compares with the features `add_features` derives for a stored post.
 */
module Dashboard {
  import opened Wrappers
  import opened Calendar
  import opened Text
  import opened Tables
  import opened Features

  /** The media choices of the form's select box, in display order. */
  const MediaOptions: seq<string> := ["none", "image", "video", "link", "gif"]

  /** The draft form: text, planned date and time, comma-separated hashtags, media choice. */
  datatype Draft = Draft(text: string, date: CivilDate, time: CivilTime, hashtags: string, media: string)

  /** The form as it first appears, for a given current date. */
  function DefaultDraft(today: CivilDate): (d: Draft)
    ensures d.media in MediaOptions
  {
    Draft("Trying out a new AI tool for Twitter analytics 🚀", today, Time(21, 0, 0, 0),
          "ai,growth", MediaOptions[1])
  }

  /**
    The draft's hashtag count: none when the field is blank after
    stripping whitespace, otherwise the number of comma-separated pieces.
   */
  function DraftHashtagCount(hashtags: string): (n: nat)
    ensures n == 0 <==> AllSpace(hashtags)
    ensures !AllSpace(hashtags) ==> n == Count(hashtags, ',') + 1
  {
    StripEmptyIff(hashtags);
    if Strip(hashtags) == "" then 0 else |Split(hashtags, ',')|
  }

  /** `0 if media_option == "none" else 1`. */
  function DraftHasMedia(media: string): (b: int)
    ensures b == 0 || b == 1
    ensures b == 0 <==> media == "none"
  {
    if media == "none" then 0 else 1
  }

  /** The column names of a one-row frame, in order. */
  function Keys(frame: seq<(string, real)>): seq<string> {
    seq(|frame|, i requires 0 <= i < |frame| => frame[i].0)
  }

  /** A one-row frame with the given values under the feature-matrix column names. */
  function Frame(values: seq<real>): (frame: seq<(string, real)>)
    requires |values| == |FeatureColumns|
    ensures |frame| == |FeatureColumns|
    ensures Keys(frame) == FeatureColumns
    ensures forall i :: 0 <= i < |frame| ==> frame[i].1 == values[i]
  {
    seq(|values|, i requires 0 <= i < |values| => (FeatureColumns[i], values[i]))
  }

  /**
    The one-row frame `X_new` built from a draft. The scorer is called
    without a fallback here, so when it raises there is no vector (`None`).
   */
  function DraftVector(d: Draft, score: Scorer): (v: Option<seq<(string, real)>>)
    ensures v.Some? <==> score(d.text).Some?
    ensures v.Some? ==>
      && |v.value| == |FeatureColumns|
      && Keys(v.value) == FeatureColumns
  {
    match score(d.text)
    case None => None
    case Some(polarity) =>
      Some(Frame([d.time.hour as real, Weekday(d.date) as real, |d.text| as real,
                  WordCount(d.text) as real, DraftHashtagCount(d.hashtags) as real,
                  DraftHasMedia(d.media) as real, polarity]))
  }

  /** The value the draft's frame holds under each feature name. */
  lemma DraftVectorValues(d: Draft, score: Scorer)
    requires score(d.text).Some?
    ensures var v := DraftVector(d, score).value;
      && v[0].1 == d.time.hour as real
      && v[1].1 == Weekday(d.date) as real
      && v[2].1 == |d.text| as real
      && v[3].1 == WordCount(d.text) as real
      && v[4].1 == DraftHashtagCount(d.hashtags) as real
      && v[5].1 == DraftHasMedia(d.media) as real
      && v[6].1 == score(d.text).value
  {
  }

  /** A stored post with the draft's fields, as the loader would hold it. */
  function AsStoredRow(d: Draft, base: Row): Row {
    base.(timestamp := Some(DateTime(d.date, d.time)), text := Some(d.text),
          hashtags := Some(d.hashtags), mediaType := Some(d.media))
  }

  /** Whitespace holds no commas. */
  lemma {:induction false} AllSpaceNoComma(s: string)
    requires AllSpace(s)
    ensures Count(s, ',') == 0
  {
    if s != [] {
      assert IsSpace(s[0]);
      assert AllSpace(s[1..]) by {
        forall i | 0 <= i < |s[1..]| ensures IsSpace(s[1..][i]) { assert s[1..][i] == s[i + 1]; }
      }
      AllSpaceNoComma(s[1..]);
    }
  }

  /**
    The draft's hashtag rule and the training rule agree exactly when the
    field is empty or holds something other than whitespace; on a
    whitespace-only field the draft counts 0 and training counts 1.
   */
  lemma HashtagRulesAgree(hashtags: string)
    ensures DraftHashtagCount(hashtags) == HashtagCount(hashtags) <==> hashtags == "" || !AllSpace(hashtags)
    ensures hashtags != "" && AllSpace(hashtags) ==> DraftHashtagCount(hashtags) == 0 && HashtagCount(hashtags) == 1
  {
    if hashtags != "" && AllSpace(hashtags) {
      AllSpaceNoComma(hashtags);
    }
  }

  /** The features `add_features` derives for the stored copy of a draft. */
  lemma StoredDraftFeatures(d: Draft, score: Scorer, base: Row, cols: set<Column>)
    requires score(d.text).Some?
    ensures var f := Derive(AsStoredRow(d, base), cols, score);
      && f.hour == Some(d.time.hour)
      && f.weekday == Some(Weekday(d.date))
      && f.textLength == |d.text|
      && f.wordCount == WordCount(d.text)
      && f.hashtagCount == HashtagCount(d.hashtags)
      && f.hasMedia == HasMedia(d.media)
      && f.sentiment == score(d.text).value
  {
  }

  /** Outside `hashtag_count`, the draft's vector is the training feature row of the same post. */
  lemma DraftMatchesOffHashtags(d: Draft, score: Scorer, base: Row, cols: set<Column>)
    requires score(d.text).Some?
    ensures var v, f := DraftVector(d, score).value, Vector(Derive(AsStoredRow(d, base), cols, score));
      && f[0] == Some(v[0].1) && f[1] == Some(v[1].1) && f[2] == Some(v[2].1)
      && f[3] == Some(v[3].1) && f[5] == Some(v[5].1) && f[6] == Some(v[6].1)
  {
    DraftVectorValues(d, score);
  }

  /** In `hashtag_count` they agree exactly when the field is empty or not whitespace-only. */
  lemma DraftHashtagsMatch(d: Draft, score: Scorer, base: Row, cols: set<Column>)
    requires score(d.text).Some?
    ensures var v, f := DraftVector(d, score).value, Vector(Derive(AsStoredRow(d, base), cols, score));
      f[4] == Some(v[4].1) <==> d.hashtags == "" || !AllSpace(d.hashtags)
  {
    var v := DraftVector(d, score).value;
    var feat := Derive(AsStoredRow(d, base), cols, score);
    var f := Vector(feat);
    StoredDraftFeatures(d, score, base, cols);
    DraftVectorValues(d, score);
    var a, b := feat.hashtagCount, DraftHashtagCount(d.hashtags);
    assert f[4] == Some(a as real) && v[4].1 == b as real;
    assert f[4] == Some(v[4].1) <==> a == b;
    HashtagRulesAgree(d.hashtags);
  }

  /** The values of a one-row frame, as feature-matrix cells. */
  function Cells(frame: seq<(string, real)>): (cells: seq<Option<real>>)
    ensures |cells| == |frame|
    ensures forall i :: 0 <= i < |frame| ==> cells[i] == Some(frame[i].1)
  {
    seq(|frame|, i requires 0 <= i < |frame| => Some(frame[i].1))
  }

  /**
    A feature row and a seven-column frame that agree in every column but
    `hashtag_count` are equal exactly when they agree there too.
   */
  lemma CellsAgreeOutsideHashtags(f: seq<Option<real>>, v: seq<(string, real)>)
    requires |f| == 7 && |v| == 7
    requires f[0] == Some(v[0].1) && f[1] == Some(v[1].1) && f[2] == Some(v[2].1)
    requires f[3] == Some(v[3].1) && f[5] == Some(v[5].1) && f[6] == Some(v[6].1)
    ensures f == Cells(v) <==> f[4] == Some(v[4].1)
  {
    var c := Cells(v);
    if f[4] == Some(v[4].1) {
      assert c == [c[0], c[1], c[2], c[3], c[4], c[5], c[6]];
      assert f == [f[0], f[1], f[2], f[3], f[4], f[5], f[6]];
    }
  }

  /**
    The draft's vector is the feature row `add_features` derives for the
    same post in every column but `hashtag_count`, and is that whole row
    exactly when the hashtag field is empty or not whitespace-only.
   */
  lemma DraftMatchesTraining(d: Draft, score: Scorer, base: Row, cols: set<Column>)
    requires score(d.text).Some?
    ensures var v, f := DraftVector(d, score).value, Vector(Derive(AsStoredRow(d, base), cols, score));
      && f[0] == Some(v[0].1) && f[1] == Some(v[1].1) && f[2] == Some(v[2].1)
      && f[3] == Some(v[3].1) && f[5] == Some(v[5].1) && f[6] == Some(v[6].1)
      && (f == Cells(v) <==> d.hashtags == "" || !AllSpace(d.hashtags))
  {
    var v, f := DraftVector(d, score).value, Vector(Derive(AsStoredRow(d, base), cols, score));
    DraftMatchesOffHashtags(d, score, base, cols);
    DraftHashtagsMatch(d, score, base, cols);
    CellsAgreeOutsideHashtags(f, v);
  }

  /** Every media choice of the form agrees with the training rule. */
  lemma DraftMediaMatchesTraining(media: string)
    ensures DraftHasMedia(media) == HasMedia(media)
  {
  }

  /** The hashtags field " " shows the difference: the draft counts 0, training counts 1. */
  lemma BlankHashtagsDiverge()
    ensures DraftHashtagCount(" ") == 0
    ensures HashtagCount(" ") == 1
  {
    assert AllSpace(" ") by { assert IsSpace(" "[0]); }
    AllSpaceNoComma(" ");
  }

  /** The draft vector with the hashtag count computed as in training. */
  function AlignedDraftVector(d: Draft, score: Scorer): (v: Option<seq<(string, real)>>)
    ensures v.Some? <==> score(d.text).Some?
    ensures v.Some? ==>
      && |v.value| == |FeatureColumns|
      && Keys(v.value) == FeatureColumns
  {
    match score(d.text)
    case None => None
    case Some(polarity) =>
      Some(Frame([d.time.hour as real, Weekday(d.date) as real, |d.text| as real,
                  WordCount(d.text) as real, HashtagCount(d.hashtags) as real,
                  DraftHasMedia(d.media) as real, polarity]))
  }

  /** The aligned draft vector is always the training feature row of the same post. */
  lemma AlignedDraftMatchesTraining(d: Draft, score: Scorer, base: Row, cols: set<Column>)
    requires score(d.text).Some?
    ensures AlignedDraftVector(d, score).Some?
    ensures Vector(Derive(AsStoredRow(d, base), cols, score)) == Cells(AlignedDraftVector(d, score).value)
  {
    var v, f := AlignedDraftVector(d, score).value, Vector(Derive(AsStoredRow(d, base), cols, score));
    var c := Cells(v);
    assert c == [c[0], c[1], c[2], c[3], c[4], c[5], c[6]];
  }

  /** The default hashtags field holds one comma. */
  lemma DefaultHashtagCommas()
    ensures Count("ai,growth", ',') == 1
  {
  }

  /** The default hashtags field holds two hashtags. */
  lemma DefaultHashtagCount(h: string)
    requires h == "ai,growth"
    ensures DraftHashtagCount(h) == 2
  {
    assert !AllSpace(h) by { assert !IsSpace(h[0]); }
    DefaultHashtagCommas();
  }

  /** The default form: 9pm, two hashtags, an image, 48 characters. */
  lemma DefaultDraftFeatures(today: CivilDate, score: Scorer)
    requires score(DefaultDraft(today).text).Some?
    ensures var v := DraftVector(DefaultDraft(today), score).value;
      v[0].1 == 21.0 && v[2].1 == 48.0 && v[4].1 == 2.0 && v[5].1 == 1.0
  {
    var d := DefaultDraft(today);
    DraftVectorValues(d, score);
    DefaultHashtagCount(d.hashtags);
  }
}
