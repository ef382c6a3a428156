# Engagement-score pipeline of twitter-creator-analytics, modelled in Dafny

twitter-creator-analytics trains a model that predicts a post's engagement score
from seven features. This project models three parts of it and proves their properties:

- **Loader** (`load_tweets_csv`). It cleans a table of past posts. It removes
  duplicate `tweet_id`s, keeping the first. It drops rows missing `text`,
  `impressions` or `likes`. It keeps only rows with positive impressions.
  It adds each absent optional column with a default of 0 or `""`. Every step
  runs only when the column it reads is present.
- **Feature derivation** (`add_features`, `get_feature_target`). It derives
  each post's hour, weekday, text length, word count, hashtag count, media
  flag and sentiment. The label is `(likes + replies + retweets) / impressions`.
  The features and the label are given to the model in a fixed column order.
- **Draft vector.** The dashboard computes the same seven features for a
  draft post before prediction.

Files:

- `wrappers.dfy`: the `Option` type.
- `calendar.dfy`: civil dates and Python's `weekday()`, which counts days
  from 0001-01-01 as Python's `toordinal` does.
- `text.dfy`: `str.split()`, `str.split(",")` and `str.strip()`. `str.split(",")`
  has its inverse, `Join`; `str.split()` is shown to recover the words of any
  whitespace layout.
- `tables.dfy`: the table.
  - A column absent from the table is not in `columns`.
  - A missing cell in a present column (NaN/NaT) is `None`.
  - `Cell` reads any column uniformly.
- `data_utils.dfy`: the loader.
  - `LoadTweets` is the loader as written. It reassigns `df` step by step;
    the loops over the two column lists are the methods `DropMissingRequired`
    and `FillOptional`.
  - It is proved equal to the function `Clean`, and the properties are proved
    about `Clean`.
- `features.dfy`: `add_features` and `get_feature_target`.
  - `AddFeatures` assigns the columns one after another, with the
    engagement stage in `AddEngagement`. It is proved equal to the function
    `Featurize`.
  - Reading an absent column is the pandas `KeyError`, modelled as
    `MissingColumn`.
- `dashboard.dfy`: the draft vector and its agreement with training.

Tables are values, so `add_features` working on a copy (`df.copy()`) shows in the
model as a function that returns a new table and cannot change its argument.

## Model

| member | source | states |
|---|---|---|
| Calendar.Weekday | app/features.py:12 | the weekday of a civil date is in 0..6 |
| Calendar.NextDayWeekday | app/features.py:12 | from each day to the next, the weekday advances by one modulo 7 |
| Calendar.DaysBeforeYearAgrees | app/features.py:12 | Python's closed-form count of the days before a year equals the sum of the lengths of the earlier years |
| Calendar.DaysBeforeMonthAgrees | app/features.py:12 | Python's cumulative month table equals the sum of the lengths of the earlier months of the year |
| Calendar.FirstDayOrdinal | app/features.py:12 | 0001-01-01 is day number 1 |
| Calendar.FirstDayIsMonday | app/features.py:12 | 0001-01-01 has weekday 0, so 0 is Monday |
| Calendar.NextDayOrdinal | app/features.py:12 | consecutive calendar days, across month and year ends, have consecutive day numbers |
| Text.Words | app/features.py:17 | every whitespace token is non-empty and holds no whitespace |
| Text.WordsInterleave | app/features.py:17 | words laid out between whitespace gaps (inner gaps non-empty) split back into exactly those words: each token is a maximal non-whitespace run |
| Text.WordsConcat | app/features.py:17 | the tokens, concatenated, are exactly the non-whitespace characters of the text, in order |
| Text.WordCountZeroIff | app/features.py:17 | the word count is 0 exactly when the text is empty or all whitespace |
| Text.WordCountBound | app/features.py:16-17 | the word count never exceeds the text length |
| Text.Split | app/features.py:22 | splitting on ',' gives one more piece than there are commas, and no piece holds a comma |
| Text.JoinSplit | app/features.py:22 | joining the pieces with ',' gives back the original string |
| Text.SplitJoin | app/features.py:22 | splitting the join of comma-free pieces gives back the pieces |
| Text.TrimStart | app/dashboard.py:151 | removes exactly a leading run of whitespace, and the rest does not start with whitespace |
| Text.TrimEnd | app/dashboard.py:151 | removes exactly a trailing run of whitespace, and the rest does not end with whitespace |
| Text.StripEmptyIff | app/dashboard.py:151 | `strip()` gives "" exactly when the string is empty or all whitespace |
| Tables.KeepIf | app/data_utils.py:24 | a mask keeps exactly the rows that satisfy it, in their original order: every satisfying row is kept, as often as it occurs, and no other |
| Tables.KeepIfAll | app/data_utils.py:24 | a mask that holds for every row keeps the table unchanged |
| DataUtils.Dedup | app/data_utils.py:15 | the kept rows are a subsequence of the input, and none has an id already seen |
| DataUtils.DropDuplicateIds | app/data_utils.py:15 | a loop over the rows that keeps each id's first row computes `Dedup(rows, {})` |
| DataUtils.DedupUnique | app/data_utils.py:14-15 | after deduplication no two rows share a `tweet_id` |
| DataUtils.DedupKeepsFirst | app/data_utils.py:14-15 | every kept row is the first row of the input with its id |
| DataUtils.DedupKeepsEveryId | app/data_utils.py:14-15 | the first row of each id not seen earlier is kept |
| DataUtils.DedupOfUnique | app/data_utils.py:14-15 | rows whose ids are already unique pass unchanged |
| DataUtils.DefaultRows | app/data_utils.py:32-34 | adding a column puts its default in every row and changes nothing else |
| DataUtils.LoadTweets | app/data_utils.py:10-36 | the loader's steps, applied in order, compute `Clean(raw)` |
| DataUtils.DropMissingRequired | app/data_utils.py:18-20 | the loop over text, impressions and likes drops, in turn, the rows missing each present one |
| DataUtils.FillOptional | app/data_utils.py:27-34 | the loop over the eight optional columns adds, in turn, each absent one with its default |
| DataUtils.DropMissingEachKeeps | app/data_utils.py:18-20 | the missing-value drops keep the columns and a subsequence of the rows, and no kept row misses a present required column |
| DataUtils.DropMissingEachRetains | app/data_utils.py:18-20 | the missing-value drops keep every row that has a cell in each listed column the table has |
| DataUtils.SanitizeRetains | app/data_utils.py:14-24 | every row that is the first of its id, has its required cells and has positive impressions survives the row filters |
| DataUtils.SanitizeSurvivors | app/data_utils.py:14-24 | a row survives the row filters if and only if it is an input row that passes all three of them |
| DataUtils.SanitizeKeeps | app/data_utils.py:14-24 | the row filters keep a subsequence of the input, with unique ids, required cells filled and positive impressions, and each kept row is the first of its id |
| DataUtils.SanitizeFixpoint | app/data_utils.py:14-24 | a table that satisfies what the filters guarantee passes them unchanged; with no `tweet_id` column, duplicate ids are not removed |
| DataUtils.WithDefaultCell | app/data_utils.py:29-34 | filling one optional column sets that cell to its default and leaves every other cell unchanged |
| DataUtils.FillColumnCells | app/data_utils.py:29-34 | a column already present is not overwritten; an absent one gets its default in each row |
| DataUtils.FillEachColumns | app/data_utils.py:27-34 | after the fill loop, the columns are the old ones plus the filled ones, and the row count is unchanged |
| DataUtils.FillEachCells | app/data_utils.py:27-34 | after the fill loop, every cell is its old value or, for an added column, its default |
| DataUtils.FillColumnSanitized | app/data_utils.py:29-34 | adding one optional column keeps ids unique, required cells filled and impressions positive |
| DataUtils.FillEachSanitized | app/data_utils.py:27-34 | adding default columns keeps the filters' guarantees |
| DataUtils.FillEachPresent | app/data_utils.py:29 | the fill loop changes nothing when every column is present |
| DataUtils.CleanKeepsCells | app/data_utils.py:14-34 | the loader's rows come from the input in order; each cell is the input's value, or the default for an absent optional column |
| DataUtils.CleanIsSanitized | app/data_utils.py:14-34 | the loader's output has unique ids, filled required cells and positive impressions, and all eight optional columns |
| DataUtils.CleanIdempotent | app/data_utils.py:14-34 | loading the loader's output again changes nothing |
| DataUtils.CleanKeepsFirstOccurrence | app/data_utils.py:14-15 | with an id column, every output row keeps the id of the first input row with that id |
| DataUtils.IncompleteFirstOccurrenceLosesId | app/data_utils.py:14-20 | if an id's first row lacks a required value, no row with that id survives, even when a later duplicate is complete |
| Features.FirstAbsent | app/features.py:11-44 | finds an absent column exactly when one of the listed columns is absent, and it is the first absent one in the listed order |
| Features.HourOf | app/features.py:11 | the hour is present exactly when the timestamp is, and is in 0..23 |
| Features.WeekdayOf | app/features.py:12 | the weekday is present exactly when the timestamp is, and is in 0..6 |
| Features.HashtagCount | app/features.py:21-23 | the count is 0 exactly for "", and otherwise one more than the number of commas |
| Features.HashtagCountJoin | app/features.py:22 | a non-empty list of comma-free tags whose join with ',' is not empty is counted one per tag (the single empty tag joins to "", which counts 0) |
| Features.HasMedia | app/features.py:27 | the flag is 0 or 1, and is 1 exactly when the media type is not "none" |
| Features.Sentiment | app/features.py:30-36 | the scorer's polarity when it succeeds, 0.0 when it raises |
| Features.EngagementScore | app/features.py:43-49 | score times impressions equals likes + replies + retweets; a missing operand or zero impressions gives 0 |
| Features.EngagementNonNegative | app/features.py:43-49 | with non-negative counts and positive impressions the score is not negative |
| Features.SampleRecord | app/features.py:15-49 | a post "hi" with 1000 impressions, 50 likes, 10 replies and 5 retweets, no hashtags and no media, gets score 0.065, length 2, one word, no hashtags and no media |
| Features.AbsentCountsScoreAsZero | app/features.py:39-41 | a table without reply and retweet columns gives each post the features of the same post with both counts 0 |
| Features.AddMissingCounts | app/features.py:39-41 | the loop adds `replies` and `retweets` as 0 in every row where the column is absent, and changes nothing else |
| Features.Featurize | app/features.py:8-49 | succeeds exactly when the six read columns are present, and otherwise names an absent one; gives one feature row per input row, adds the count columns, and leaves every cell but text, hashtags, media and the counts unchanged |
| Features.AddEngagement | app/features.py:38-49 | an absent likes or impressions column is the error, likes first; otherwise the count columns are added as 0 where absent and each row's label is its engagement score |
| Features.AddFeatures | app/features.py:4-51 | assigning the columns one by one, with the error at the first absent column read, computes `Featurize` |
| Features.FeaturizedCounts | app/features.py:15-41 | after `add_features`, replies and retweets are the input's or 0, text is the input's as a string, hashtags are the input's or "", and media is the input's or "none" |
| Features.DeriveProperties | app/features.py:11-27 | per post: hour and weekday come from the timestamp; length is the text's length; word count ≤ length, and is 0 exactly for blank text; hashtag count is 0 exactly for missing or ""; `has_media` is 0 exactly for missing or "none" |
| Features.Vector | app/features.py:57-67 | a feature row has exactly one value per feature column |
| Features.FeatureTarget | app/features.py:53-69 | X holds each post's seven features in the order hour, weekday, text_length, word_count, hashtag_count, has_media, sentiment; y is its engagement score; the names are returned in that order |
| DataUtils.CleanCell | app/data_utils.py:27-34 | one cell of the loader's output: its default if the column was added, otherwise the sanitized value |
| Features.CleanRow | app/data_utils.py:27-34 | the fields of the loader's output row that `add_features` reads, against the sanitized row |
| Features.LoadedRowCounts | app/data_utils.py:17-24 | when the file has an impressions column and no negative count, every row the loader keeps has positive impressions and non-negative likes, replies and retweets (without an impressions column the positivity filter is skipped) |
| Features.LoadedTableFeaturizes | app/features.py:8-49 | on any loaded file with timestamp, text, likes and impressions, and no negative counts, `add_features` succeeds and every label is non-negative |
| Features.LoadedDefaultsFeatures | app/data_utils.py:34 | a file without `media_type` is loaded with "", so every post gets `has_media` 1; a file without `hashtags` gives every post 0 hashtags |
| Dashboard.DefaultDraft | app/dashboard.py:124-142 | the form's initial media choice is one of the five options |
| Dashboard.DraftHashtagCount | app/dashboard.py:151-154 | the draft count is 0 exactly when the field is blank, and otherwise one more than the number of commas |
| Dashboard.DraftHasMedia | app/dashboard.py:156 | the draft flag is 0 or 1, and is 0 exactly for "none" |
| Dashboard.DraftVector | app/dashboard.py:144-167 | the draft frame exists exactly when the scorer succeeds, and has the seven feature columns in the training order |
| Dashboard.HashtagRulesAgree | app/dashboard.py:151-154 | the draft and training hashtag rules agree exactly when the field is empty or not all whitespace; on a whitespace-only field the draft gives 0 and training gives 1 |
| Dashboard.StoredDraftFeatures | app/dashboard.py:145-157 | training's features for a stored post with the draft's fields: the planned hour and weekday, the same length and word count, the training hashtag and media rules, and the polarity |
| Dashboard.DraftMatchesOffHashtags | app/dashboard.py:145-157 | for the same post, every draft column except `hashtag_count` equals the training feature |
| Dashboard.DraftHashtagsMatch | app/dashboard.py:151-154 | the two `hashtag_count` values agree exactly when the field is empty or not whitespace-only |
| Dashboard.DraftMatchesTraining | app/dashboard.py:144-167 | a draft's vector equals the training feature row of the same post, in order, exactly when the hashtag field is empty or not whitespace-only; every other column always agrees |
| Dashboard.DraftMediaMatchesTraining | app/dashboard.py:156 | for every media choice, the draft media flag equals the training one |
| Dashboard.BlankHashtagsDiverge | app/dashboard.py:151 | for the field " ", the draft counts 0 hashtags and training counts 1 |
| Dashboard.AlignedDraftVector | app/dashboard.py:144-167 | the draft frame with training's hashtag rule: present exactly when the scorer succeeds, with the seven feature columns in the training order |
| Dashboard.AlignedDraftMatchesTraining | app/dashboard.py:144-167 | the aligned draft vector always equals the training feature row of the same post |
| Dashboard.DefaultHashtagCount | app/dashboard.py:130-133 | the initial hashtags field "ai,growth" counts 2 hashtags |
| Dashboard.DefaultDraftFeatures | app/dashboard.py:124-156 | the initial form's vector has hour 21, length 48, 2 hashtags and media 1 |

## Left out

- Reading the CSV file (`pd.read_csv`) and parsing timestamps (`pd.to_datetime`). The loader starts from an already-read table whose timestamps are parsed civil date-times. The timestamp conversion at app/data_utils.py:10-11 therefore changes nothing in the model.
- Time zones: timestamps are naive date-times.
- TextBlob polarity is a foreign library. It is the scorer parameter: `Some(p)` when it succeeds, `None` when it raises. Only the fallback and the dashboard's missing fallback are modelled.
- Floating point. Counts are unbounded integers and the score is an exact `real` quotient. NaN and NaT are `None`. The infinities from dividing by zero impressions are the 0 they are replaced with.
- `astype(str)` of a non-string text cell. The text column holds strings; only a missing text becomes "nan".
- Column order in the data frame. The model keeps the set of present columns; only the feature columns given to the model have an order, and that order is modelled.
- The Streamlit UI, file upload, charts, and the group-by insight tables in app/dashboard.py. These are presentation code and pandas aggregation.
- `model.predict`: the draft frame is the model's input, and the trained regressor is not part of this model.
- app/models.py (training with scikit-learn, persistence with joblib) and generate_tweets.py (random synthetic data). Both are external numerics or I/O.
- An absent `media_type` column is filled with "" (app/data_utils.py:34), not "none". `add_features` counts "" as media, so every post of such a file gets `has_media` 1, while a missing cell in a present column becomes "none" (app/features.py:26) and gives 0. `Features.LoadedDefaultsFeatures` states the consequence.
- Dashboard.DefaultDraft: the current date (`dt.date.today()`) is a parameter, and only the initial media choice is stated in its contract; the other initial values are stated by `Dashboard.DefaultDraftFeatures`.

## Findings

| source | as written | input that shows it | evidently intended | confidence | as-written member | corrected member |
|---|---|---|---|---|---|---|
| app/dashboard.py:151 | The draft counts no hashtags when the field is blank after `strip()`. Training (app/features.py:22) counts none only for the exact empty string. | hashtag field " ": the draft gives 0, training gives 1 | the draft uses the same hashtag rule as training, so its features are those the model was trained on | medium, not executed | Dashboard.BlankHashtagsDiverge | Dashboard.AlignedDraftVector |
