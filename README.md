# nmc-box core, modelled in Dafny

This project models the small self-contained transformations of the
conference application (a FastAPI backend, an Elasticsearch ingestion script
and a React frontend) and proves what they promise:

- **Recommendation ranking** (`generate_recommendations`): the liked ids that
  have an embedding, the preference vector `alpha * mean`, the neighbour
  positions mapped back to submission ids, the exploration reordering,
  truncation to `n_recommend + 1` and hydration into abstracts
  (`recommendationutils.dfy`).
- **Backend request shaping** (`backend/api.py`): the pagination-link builder
  and page arithmetic, the like/dislike update of the per-edition preference
  document (a `PreferenceStore` class whose method rewrites its map), the
  field whitelist of `update_abstract` and the amount guard of
  `update_payment` (`api.dfy`).
- **Submission helpers** (`backend/utils/submission_utils.py`): reshaping
  search hits, the one-day agenda window and its sort, the start/end time
  filter and affiliation suggestions (`submissionutils.dfy`).
- **Ingestion** (`scripts/es_index.py`): the URL obfuscation (the standard
  base64 of section 4 of RFC 4648, then a left rotation by nine), the meeting
  service of a URL, the `urls` list of a row, document shaping and the
  accepted-submission flattening (`esindex.dfy`, `base64.dfy`).
- **Frontend utilities**: the base64 rotation decoder and `flat`
  (`common.dfy`), colour parsing and formatting (`color.dfy`), the stored
  form of the selected available times (`timepickerhelpers.dfy`),
  react-select conversions (`reactselecthelpers.dfy`), the available-time
  picker's merge and slot toggle (`availabletimepicker.dfy`,
  `eachdateblock.dfy`), the academy slot lookup (`syllabus.dfy`) and the
  abstract browser's query string and vote toggling (`abstractbrowser.dfy`).

Helper modules: `wrappers.dfy` (Option/Result), `strings.dfy` (split/join,
decimal and hex digits, ASCII lower-casing), `seqs.dfy` (Python/JavaScript
slicing, first-occurrence dedupe, an insertion sort of strings and multiset lemmas),
`values.dfy` (JSON-like values, records, and `Time`, which is a minute or
`NaT`).

Loops in the source are methods proved against a specification function
(`QueryParamsBuilder`, `GetAgenda`, `FilterStartEnd`, `ConvertEsResponses`,
`GenerateUrls`, `GenerateRows`, `ReadSubmissions`, `ToHex`, `JoinParams`).
The properties are then lemmas about those functions. Exceptions the source
raises, and the HTTP statuses it answers with, are `Result` values.

Two details of `generate_recommendations` are modelled exactly as written:

- With `abstract_info` (backend/utils/recommendation_utils.py:65), it does
  one lookup per id and keeps a missing record as `None`.
- It truncates to `n_recommend + 1` ids (line 63), one more than asked for.

## Model

| member | source | states |
|---|---|---|
| RecommendationUtils.EmbeddingOf | backend/utils/recommendation_utils.py:32 | an id has an embedding exactly when some row of the edition carries it |
| RecommendationUtils.KeptIds | backend/utils/recommendation_utils.py:35-39 | the kept ids are a subsequence of the liked ids, each with an embedding |
| RecommendationUtils.KeptIdsExact | backend/utils/recommendation_utils.py:35-39 | an id is kept exactly when it was liked and has an embedding, and then as often as it was liked, so repeated likes each count in the mean |
| RecommendationUtils.PrefVector | backend/utils/recommendation_utils.py:40-44 | the preference vector has the embedding dimension |
| RecommendationUtils.PrefVectorOfEqualEmbeddings | backend/utils/recommendation_utils.py:40-44 | each component is alpha times the mean of that component: equal embeddings e give alpha·e |
| RecommendationUtils.MapIndices | backend/utils/recommendation_utils.py:57-61 | mapping positions never yields more ids than positions |
| RecommendationUtils.MapIndicesInOrder | backend/utils/recommendation_utils.py:57-61 | in-range positions map, in order, to the ids at those positions; out-of-range positions are dropped |
| RecommendationUtils.MapIndicesAppend | backend/utils/recommendation_utils.py:57-61 | mapping distributes over concatenation of position lists |
| RecommendationUtils.MapIndicesPermuted | backend/utils/recommendation_utils.py:53-61 | reordering the positions only reorders the ids (same multiset) |
| RecommendationUtils.TruncateKeepsPrefix | backend/utils/recommendation_utils.py:62-63 | a positive count keeps a prefix of min(len, n+1) ids; None or 0 keeps everything |
| RecommendationUtils.QueriesPreferenceVector | backend/utils/recommendation_utils.py:32-45 | a successful call had a known edition, some kept id, vectors of one dimension, and queried alpha·mean |
| RecommendationUtils.IdsFollowNeighbours | backend/utils/recommendation_utils.py:45-61 | without exploration or truncation, the ids follow the neighbour order with unmapped positions dropped |
| RecommendationUtils.ExplorationReorders | backend/utils/recommendation_utils.py:49-61 | with a draw that is a permutation, exploration returns the same ids in another order |
| RecommendationUtils.HydratesEachId | backend/utils/recommendation_utils.py:65-69 | with abstract_info, one lookup per recommended id, in the same order |
| Api.Given | backend/api.py:336-338 | only pairs with a value are used, never more than given |
| Api.BuildQuery | backend/api.py:322-343 | None exactly when both page numbers are set and current >= total; without kvs the base is returned |
| Api.AppendedForm | backend/api.py:336-341 | no given value leaves the base; otherwise one '?' (or '&' if the base has '?') and the pairs joined by '&' |
| Api.QueryParamsBuilder | backend/api.py:329-341 | the builder's loop computes BuildQuery |
| Api.TruncDivProperties | backend/api.py:400-401 | int(a / b) truncates: floor division on non-negatives, odd in each operand |
| Api.Paging | backend/api.py:399-401 | the page meta is computed unless the limit is zero (division by zero) |
| Api.PageHoldsSkip | backend/api.py:400 | the current page is the one holding item `skip` |
| Api.PastLastPageIsPastTheEnd | backend/api.py:406-416 | the empty past-the-end answer is given only when skip lies beyond every submission |
| Api.PageDataWindow | backend/api.py:456 | a page holds at most `limit` submissions, those from position `skip` on |
| Api.NoNextOnLastPage | backend/api.py:444-454 | the next link is None exactly on and past the last page |
| Api.Liked | backend/api.py:298-299 | the liked list is duplicate-free and holds the previous ids and the new one |
| Api.Disliked | backend/api.py:311-312 | the disliked list is duplicate-free and holds the previous ids except the removed one |
| Api.LikeAddsId | backend/api.py:290-306 | a like succeeds, changes only that user's voted edition, and leaves it duplicate-free with old ids plus the new one |
| Api.DislikeRemovesId | backend/api.py:307-317 | a dislike without a document answers 404; otherwise only the voted edition changes, losing the id |
| Api.OtherActionsRejected | backend/api.py:282-319 | any other action answers 400 (401 without a token) and writes nothing |
| Api.PreferenceStore.UpdateUserVotes | backend/api.py:268-319 | the handler's status and the new preference collection are VoteEffect of the old one |
| Api.Whitelisted | backend/api.py:696-712 | the keys kept are exactly the submitted keys among the ten whitelisted ones, each with its submitted value |
| Api.OrganizerFieldsDropped | backend/api.py:696-712 | times, url, track and status never pass the whitelist |
| Api.UpdateAbstractOutcome | backend/api.py:684-719 | a missing token, a missing user document or an edition missing from the configuration is a server error; an edition without a table answers 400; otherwise the update goes through |
| Api.UpdateAbstractSendsWhitelist | backend/api.py:684-719 | what is sent has only whitelisted keys, with a signed-in presenter's names from their document |
| Api.PaymentGuard | backend/api.py:756-763 | the request passes exactly when a body is sent with an amount in {500,…,3000}; otherwise 401 |
| Api.RejectedBeforeStore | backend/api.py:756-769 | a rejected amount is answered 401 whatever the caller and the stored payment |
| Api.CheckAnswersStored | backend/api.py:768-772 | "check" answers the stored payment, or a waiting one of the requested amount |
| Api.PaymentAsWrittenChargesUsd | backend/api.py:746-832 | as written, a signed-in caller's "create" with an accepted amount opens a payment intent for that amount in USD, and "set" records the payment with currency USD, whatever currency the body names |
| Api.PaymentFixedChargesBodyCurrency | backend/api.py:746-832 | with the currency read from the body, "create" and "set" use the body's currency, and every other answer is the route's as written |
| Api.CurrencyAsWrittenIgnoresBody | backend/api.py:761 | a body asking for EUR is charged in USD as written, and in EUR with the fix |
| SubmissionUtils.Reshape | backend/utils/submission_utils.py:37-39 | a hit's document gets score = _score and submission_id = _id, other fields unchanged |
| SubmissionUtils.ConvertEsResponses | backend/utils/submission_utils.py:30-41 | one reshaped document per hit, same length and order |
| SubmissionUtils.AgendaFilter | backend/utils/submission_utils.py:119-137 | the agenda is never longer than the scan |
| SubmissionUtils.SortKeys | backend/utils/submission_utils.py:140 | every sort key is the parsed start time of its record, NaT included; it raises exactly when some record has a missing or unparseable start |
| SubmissionUtils.GetAgenda | backend/utils/submission_utils.py:105-141 | the agenda loop and sort compute Agenda |
| SubmissionUtils.StepKeepsOnlyTimed | backend/utils/submission_utils.py:122-125 | a kept hit had, and still has, both start and end time |
| SubmissionUtils.StepWithoutStart | backend/utils/submission_utils.py:136-137 | without a start, a timed hit is kept unchanged |
| SubmissionUtils.StepInDay | backend/utils/submission_utils.py:129-135 | with a start, a hit is kept exactly when it lies in [start, start + 1 day − 1 min], with ISO times |
| SubmissionUtils.AgendaFromHits | backend/utils/submission_utils.py:119-137 | every agenda entry is what the loop body made of some hit |
| SubmissionUtils.AgendaKeepsHits | backend/utils/submission_utils.py:119-137 | every hit the loop body keeps is in the agenda |
| SubmissionUtils.AgendaOnlyTimed | backend/utils/submission_utils.py:122-125 | the agenda holds only hits with both times |
| SubmissionUtils.AgendaWithinDay | backend/utils/submission_utils.py:129-135 | with a start, the agenda is exactly the in-day hits |
| SubmissionUtils.SortByStartPermutes | backend/utils/submission_utils.py:140 | the sort only reorders the keyed records |
| SubmissionUtils.SortByStartSorted | backend/utils/submission_utils.py:140 | with every key a time, the sorted keys are non-decreasing |
| SubmissionUtils.SortByStartStable | backend/utils/submission_utils.py:140 | the sort is stable: the records with any one key keep their order |
| SubmissionUtils.AgendaSorted | backend/utils/submission_utils.py:139-140 | the sorted agenda is a permutation of the kept hits, ascending by start time when every start is a time |
| SubmissionUtils.AgendaSortStable | backend/utils/submission_utils.py:139-140 | hits with the same start, NaT included, keep their scan order |
| SubmissionUtils.AgendaWithStartSorts | backend/utils/submission_utils.py:129-140 | with a start, sorting never fails and orders by start when the clock reads its ISO output back |
| SubmissionUtils.FilterStartEnd | backend/utils/submission_utils.py:144-171 | the filter computes TimeFilter; both bounds empty returns the input |
| SubmissionUtils.WindowFilterExact | backend/utils/submission_utils.py:164-171 | no hit raised, and the result is Within: every hit with start >= lo and end <= hi, as often as it occurs, in order |
| SubmissionUtils.NaTBoundKeepsNothing | backend/utils/submission_utils.py:156-171 | a bound that parses to NaT keeps no hit |
| SubmissionUtils.EmptyStringBoundKeepsNothing | backend/utils/submission_utils.py:152-171 | one empty bound beside a real one keeps no hit |
| SubmissionUtils.SuggestionNames | backend/utils/submission_utils.py:83 | one name per hit, in order; a hit without Name raises |
| SubmissionUtils.AffiliationsDeduplicated | backend/utils/submission_utils.py:83-84 | suggestions are duplicate-free, complete, in first-occurrence order |
| Base64.EncodeLength | scripts/es_index.py:127 | standard base64 output is 4·⌈n/3⌉ characters long |
| Base64.DecodeEncode | frontend/src/utils/common.js:3-15 | atob of btoa gives the bytes back (RFC 4648 section 4 alphabet and padding) |
| EsIndex.EncodeUrlAsciiOnly | scripts/es_index.py:122-128 | the encoding succeeds exactly for ASCII URLs |
| EsIndex.EncodeUrlMatchesFrontend | scripts/es_index.py:122-128 | the script's encoder equals encodeBase64(url, 9), and the frontend decodes it back |
| EsIndex.UrlTypeNone | scripts/es_index.py:140-154 | no type exactly when the lower-cased URL contains none of the five patterns |
| EsIndex.UrlTypeIgnoresCase | scripts/es_index.py:142 | the type does not depend on letter case |
| EsIndex.UrlTypePriority | scripts/es_index.py:143-148 | patterns are checked in priority order YouTube, Crowdcast, Zoom |
| EsIndex.FilledKeys | scripts/es_index.py:160-162 | the filled URL fields, in key order |
| EsIndex.UrlsOf | scripts/es_index.py:159-165 | never more entries than keys |
| EsIndex.GenerateUrls | scripts/es_index.py:157-165 | the loop computes UrlsOf over keys_url |
| EsIndex.UrlsFollowFilledKeys | scripts/es_index.py:157-165 | one entry per filled field, in key order, each holding its type and encoded URL |
| EsIndex.AtMostFourUrls | scripts/es_index.py:157-165 | at most four URLs per row |
| EsIndex.ProjectedKeepsListed | scripts/es_index.py:179-180 | with a key list, exactly the row's listed keys whose value is not NaN remain, each with the row's value; without one the row is untouched |
| EsIndex.WithTimesKeepsKeys | scripts/es_index.py:181-187 | converting the time fields keeps the row's keys |
| EsIndex.ConvertTimes | scripts/es_index.py:181-187 | the loop over the time fields computes WithTimes |
| EsIndex.WithoutUrlKeysExact | scripts/es_index.py:192 | no URL field remains; every other field keeps its value |
| EsIndex.GenerateRow | scripts/es_index.py:178-196 | the row-shaping steps compute RowDoc |
| EsIndex.RowDocs | scripts/es_index.py:168-196 | one document per row when no row raises |
| EsIndex.RowDocsEach | scripts/es_index.py:168-196 | each document is the one RowDoc gives for its own row |
| EsIndex.GenerateRows | scripts/es_index.py:168-196 | the generator's documents are RowDocs; the first raising row stops it |
| EsIndex.RowDocShape | scripts/es_index.py:188-196 | a document has no URL field, a string submission_id, `_id` = row[id], and only listed keys plus urls |
| EsIndex.WithUrlsHasList | scripts/es_index.py:189-191 | a non-empty URL list is stored under "urls" |
| EsIndex.FilledUrlGivesList | scripts/es_index.py:189-191 | a filled URL field always gives the document a urls list |
| EsIndex.Flattened | scripts/es_index.py:227-231 | each flattened submission has submission_id = record id |
| EsIndex.FlattenedKeys | scripts/es_index.py:227-231 | with a key list only table keys survive, so never submission_status |
| EsIndex.ReadAsWrittenDropsAll | scripts/es_index.py:227-235 | as written, a key list with the filter on returns nothing |
| EsIndex.ReadAsWrittenLosesAccepted | scripts/es_index.py:227-235 | a concrete accepted record lost by the code as written |
| EsIndex.ReadSubmissionsSpec | scripts/es_index.py:225-238 | without the filter the length is preserved; never longer than the input |
| EsIndex.ReadSubmissions | scripts/es_index.py:217-238 | the corrected loop computes ReadSubmissionsSpec |
| EsIndex.ReadAllFlattened | scripts/es_index.py:236-237 | without the filter every record is flattened, in order |
| EsIndex.ReadAcceptedOnly | scripts/es_index.py:232-235 | with the filter, the outputs are the accepted records' flattenings in table order, one per accepted record, as the independent front-to-back filter AcceptedFlattened gives |
| EsIndex.KeyListContentIgnored | scripts/es_index.py:227-228 | only whether a key list is passed matters, not its content |
| Common.Latin1Bytes | frontend/src/utils/common.js:4 | btoa accepts exactly strings below U+0100, one byte per character |
| Common.BytesToLatin1 | frontend/src/utils/common.js:13 | atob's result has one character per byte |
| Common.UnrotateRotate | frontend/src/utils/common.js:5-12 | the decoder's right rotation undoes the encoder's left rotation for every n |
| Common.DecodeEncodeBase64 | frontend/src/utils/common.js:3-15 | decodeBase64(encodeBase64(s, n), n) == s for every n, including n beyond the length |
| Common.LongRotationIsIdentity | frontend/src/utils/common.js:5-12 | rotation by n at or beyond the length is the identity in both directions |
| Common.EncodeWithLongRotation | frontend/src/utils/common.js:3-8 | with n at or beyond the base64 length, encoding is plain btoa |
| Common.DecodeWithLongRotation | frontend/src/utils/common.js:10-15 | with n at or beyond the input length, decoding is plain atob |
| Common.FlatFoldAccumulates | frontend/src/utils/common.js:18-20 | the reduce appends to whatever accumulator it starts from |
| Common.FlatIsLeaves | frontend/src/utils/common.js:18-20 | flat lists the leaves left to right, depth first |
| Common.FlatHasNoArrays | frontend/src/utils/common.js:18-20 | flat's output contains no arrays |
| Common.FlatOfFlatIsIdentity | frontend/src/utils/common.js:18-20 | flat of an array without nested arrays is the identity |
| Common.FlatIdempotent | frontend/src/utils/common.js:18-20 | flattening twice is flattening once |
| Common.FlatAppend | frontend/src/utils/common.js:18-20 | flat distributes over concatenation |
| Color.MatchColor | frontend/src/utils/color.js:16 | a hex match has 3 to 8 hex digits |
| Color.MatchRgbBody | frontend/src/utils/color.js:16 | an rgb match has 1–3 digit channels and a well-formed alpha |
| Color.MatchRgbBodyComplete | frontend/src/utils/color.js:16 | every body `r,\s?g\s?,b\s?(,a)?)` with 1–3 digit channels, optional single spaces and an optional well-formed alpha matches, with exactly those groups |
| Color.ParseRgbComplete | frontend/src/utils/color.js:14-42 | `rgb(` or `rgba(` followed by such a body parses to the decimal channels, with the alpha's value or 1 when it is absent |
| Color.DoubleDigits | frontend/src/utils/color.js:49 | each digit appears twice, in place |
| Color.FullHex | frontend/src/utils/color.js:46-63 | five or seven digits give null; otherwise eight hex digits |
| Color.ParseHex | frontend/src/utils/color.js:45-72 | the hex branch fails exactly for five or seven digits |
| Color.ShortHexDoubles | frontend/src/utils/color.js:48-50 | 3/4 digits parse as their doubled 6/8 |
| Color.ParseGrey | frontend/src/utils/color.js:48-50 | "#ccc" parses to the opaque grey 17·c on every channel |
| Color.SixDigitsOpaque | frontend/src/utils/color.js:61-63 | six digits get alpha 1 |
| Color.OddHexLengthsRejected | frontend/src/utils/color.js:56-59 | hex lengths 5 and 7 return null |
| Color.AlphaValue | frontend/src/utils/color.js:37 | a matched alpha lies in [0, 1] |
| Color.HexChannelsInRange | frontend/src/utils/color.js:65-70 | hex channels lie in 0..255, alpha in [0, 1] |
| Color.ParsedColorInRange | frontend/src/utils/color.js:14-76 | every parsed alpha is in [0, 1]; hex channels 0..255, rgb channels 0..999 |
| Color.ObjectColor | frontend/src/utils/color.js:106-114 | an object passes exactly with own r, g, b, a, integer channels and a number (NaN included) as alpha, which it keeps |
| Color.Format | frontend/src/utils/color.js:99-126 | null throws a TypeError; otherwise format returns a string exactly for a parseable string or a well-formed object |
| Color.FormatObject | frontend/src/utils/color.js:106-125 | a colour object with integer channels is formatted as rgba(r,g,b,a), NaN alpha included |
| Color.FormatNaNAlpha | frontend/src/utils/color.js:110-125 | an object with a NaN alpha is formatted with "NaN" as its alpha |
| Color.ToHex | frontend/src/utils/color.js:131-135 | the padding loop computes PadToTwo of n.toString(16) |
| Color.PadToTwoOfChannel | frontend/src/utils/color.js:131-135 | a channel in 0..255 becomes exactly two hex digits holding its value |
| Color.HexFormatterRoundTrip | frontend/src/utils/color.js:129-142 | hexFormatter writes #rrggbb, which parses back to the same opaque colour |
| Color.ParseBlack | frontend/src/utils/color.js:163 | "#000" parses to opaque black |
| Color.ParseWhite | frontend/src/utils/color.js:163 | "#fff" parses to opaque white |
| Color.ContrastBlackIff | frontend/src/utils/color.js:152-164 | contrast never throws; it is null iff parse fails; black iff 299r+587g+114b >= 128000, white otherwise |
| Color.Scaler | frontend/src/utils/color.js:181-193 | the scaled channel is clamped to [0,255] and otherwise rounded |
| Color.ScaledColor | frontend/src/utils/color.js:195-200 | every channel lies in [0,255] and alpha is unchanged |
| Color.ScaleClamps | frontend/src/utils/color.js:173-201 | scale never throws, fails only on an unparseable colour and writes the clamped channels |
| Color.TransparentizeRange | frontend/src/utils/color.js:208-225 | never throws; an unparseable colour or a finite alpha outside [0,1] gives null; otherwise only the alpha is replaced |
| Color.TransparentizeNaN | frontend/src/utils/color.js:216-224 | a NaN alpha passes the range test and is written as "NaN" |
| TimePickerHelpers.FlatOfTimeLists | frontend/src/utils/timePickerHelpers.js:7 | flat of the time lists is their concatenation |
| TimePickerHelpers.NonEmpty | frontend/src/utils/timePickerHelpers.js:8 | empty strings are dropped, every other one kept |
| TimePickerHelpers.NonEmptyKeepsRest | frontend/src/utils/timePickerHelpers.js:8 | the result is the input in order with every empty string taken out and every other string kept as often as it occurs |
| TimePickerHelpers.SerializedPieces | frontend/src/utils/timePickerHelpers.js:5-10 | the joined pieces are sorted, non-empty, and a permutation of all non-empty times |
| TimePickerHelpers.SerializeSplits | frontend/src/utils/timePickerHelpers.js:5-10 | splitting the serialised form at ';' gives back the sorted pieces |
| TimePickerHelpers.Deserialize | frontend/src/utils/timePickerHelpers.js:12-38 | a falsy (empty) string gives [] |
| TimePickerHelpers.GroupDates | frontend/src/utils/timePickerHelpers.js:14-36 | the groups' dates are the pieces' date keys, deduplicated in first-appearance order |
| TimePickerHelpers.DeserializeDates | frontend/src/utils/timePickerHelpers.js:12-38 | each date appears once, in order of first appearance |
| TimePickerHelpers.GroupTimes | frontend/src/utils/timePickerHelpers.js:14-36 | every group holds exactly the pieces with its date, in input order |
| TimePickerHelpers.GroupKeepsPieces | frontend/src/utils/timePickerHelpers.js:14-36 | grouping keeps the multiset of pieces, so the total count |
| TimePickerHelpers.SerializeDeserialize | frontend/src/utils/timePickerHelpers.js:5-38 | serialize(deserialize(s)) == s for sorted non-empty pieces |
| ReactSelectHelpers.OptionsToSaveFormat | frontend/src/utils/reactSelectHelpers.js:3-10 | arrays map element-wise to .value, preserving length; one option to its value |
| ReactSelectHelpers.SaveFormatToOptions | frontend/src/utils/reactSelectHelpers.js:12-19 | each value becomes {value, label} with both equal to it |
| ReactSelectHelpers.SaveRoundTrip | frontend/src/utils/reactSelectHelpers.js:3-19 | optionsToSaveFormat(saveFormatToOptions(v)) == v |
| ReactSelectHelpers.OptionsRoundTrip | frontend/src/utils/reactSelectHelpers.js:3-19 | options whose labels equal their values survive the opposite round trip |
| AvailableTimePicker.FindDate | frontend/src/components/AvailableTimePicker/index.js:50-51 | the first entry with that date, or none when no entry has it |
| AvailableTimePicker.DropEmpty | frontend/src/components/AvailableTimePicker/index.js:73 | exactly the entries with a non-empty time list remain |
| AvailableTimePicker.DropEmptyKeepsRest | frontend/src/components/AvailableTimePicker/index.js:73 | the surviving entries keep their order, and each entry with times survives as often as it occurs while no empty one does |
| AvailableTimePicker.PlaceReplacesInPlace | frontend/src/components/AvailableTimePicker/index.js:54-62 | an existing date's entry is replaced in place; others unchanged |
| AvailableTimePicker.PlaceAppendsNewDate | frontend/src/components/AvailableTimePicker/index.js:63-71 | a new date is appended at the end |
| AvailableTimePicker.MergeHasNoEmpty | frontend/src/components/AvailableTimePicker/index.js:73 | no entry with an empty time list survives |
| AvailableTimePicker.MergeContents | frontend/src/components/AvailableTimePicker/index.js:49-76 | the date holds the update; every other entry is an old one; every old non-empty entry of another date survives |
| AvailableTimePicker.DropEmptyKeepsUnique | frontend/src/components/AvailableTimePicker/index.js:73 | filtering keeps dates distinct |
| AvailableTimePicker.MergeKeepsDatesUnique | frontend/src/components/AvailableTimePicker/index.js:50-73 | the merge keeps one entry per date |
| Seqs.RemoveKeepsRest | frontend/src/components/AvailableTimePicker/EachDateBlock.js:142 | filtering one value out keeps every other value in order and as often as it occurs |
| EachDateBlock.Toggle | frontend/src/components/AvailableTimePicker/EachDateBlock.js:139-147 | a selected value loses all occurrences while the other values keep their order and counts; an unselected one is appended |
| EachDateBlock.ToggleTwice | frontend/src/components/AvailableTimePicker/EachDateBlock.js:139-147 | toggling an absent value twice restores the list |
| EachDateBlock.ToggleFlips | frontend/src/components/AvailableTimePicker/EachDateBlock.js:141-145 | toggling flips whether the value is selected |
| EachDateBlock.DisabledOutsideRange | frontend/src/components/AvailableTimePicker/EachDateBlock.js:126-131 | a slot is disabled iff outside the half-open [lo, hi) |
| EachDateBlock.EnabledIsConvex | frontend/src/components/AvailableTimePicker/EachDateBlock.js:126-131 | a slot between two enabled slots is enabled |
| Syllabus.IsInRangeHalfOpen | frontend/src/pages/academy/syllabus.js:47 | isInRange is lo <= x < hi |
| Syllabus.FindSlot | frontend/src/pages/academy/syllabus.js:50 | find returns the first slot whose range holds x, or none |
| Syllabus.SlotRangesDisjoint | frontend/src/pages/academy/syllabus.js:28-44 | the three slot ranges are pairwise disjoint |
| Syllabus.SlotRangesCover | frontend/src/pages/academy/syllabus.js:28-44 | the ranges together cover exactly [-16, 16) |
| Syllabus.GetSlotIsCoveringSlot | frontend/src/pages/academy/syllabus.js:49-57 | a slot number exactly for offsets in [-16,16) hours, the unique covering one; '' otherwise |
| AbstractBrowser.AddParamAppends | frontend/src/pages/abstract-browser.js:57-58 | on a string with '?', addParam appends '&' and the parameter |
| AbstractBrowser.AddParamStarts | frontend/src/pages/abstract-browser.js:57-58 | on a string without '?', addParam returns '?' and the parameter |
| AbstractBrowser.AddParamsJoins | frontend/src/pages/abstract-browser.js:408-411 | the forEach builds ?k1=v1&k2=v2… |
| AbstractBrowser.JoinParams | frontend/src/pages/abstract-browser.js:408-411 | the loop computes AddParams |
| AbstractBrowser.SetEntryLookup | frontend/src/pages/abstract-browser.js:374-400 | after Map.set the key reads its new value; other keys unchanged |
| AbstractBrowser.DeleteEntryLookup | frontend/src/pages/abstract-browser.js:404-405 | after Map.delete the key is gone; other keys unchanged |
| AbstractBrowser.ParamMap.Set | frontend/src/pages/abstract-browser.js:377 | Map.set keeps an existing key's place, appends a new one |
| AbstractBrowser.ParamMap.Delete | frontend/src/pages/abstract-browser.js:405 | Map.delete removes the key's entry |
| AbstractBrowser.CollectParams | frontend/src/pages/abstract-browser.js:374-406 | the effect's Map ends with FetchEntries |
| AbstractBrowser.FetchParams | frontend/src/pages/abstract-browser.js:367-411 | no request when exactly one time is set; otherwise the query string of the entries |
| AbstractBrowser.BaseEntriesShape | frontend/src/pages/abstract-browser.js:374-396 | view, q, then both times when both are set |
| AbstractBrowser.FinishEntriesLookup | frontend/src/pages/abstract-browser.js:398-406 | your-votes adds sort=true; q is dropped outside the default view |
| AbstractBrowser.FetchEntriesContent | frontend/src/pages/abstract-browser.js:374-406 | view first; q exactly in the default view; sort exactly for your-votes; times exactly when both set |
| AbstractBrowser.AfterVote | frontend/src/pages/abstract-browser.js:688-700 | voting on a liked id removes it and keeps the other ids in order with their counts; on an unliked id appends it |
| AbstractBrowser.RevertAsWrittenDuplicates | frontend/src/pages/abstract-browser.js:713-722 | as written, a failed dislike of "a" in ["a"] gives ["a","a"] |
| AbstractBrowser.RevertAsWrittenDislikeWrong | frontend/src/pages/abstract-browser.js:713-722 | as written, a failed dislike never restores the list |
| AbstractBrowser.RevertAsWrittenLikeRestores | frontend/src/pages/abstract-browser.js:714-718 | a failed like, reverted by filtering, restores the list |
| AbstractBrowser.RevertRestores | frontend/src/pages/abstract-browser.js:713-722 | the corrected revert restores the list shown before the click |

## Left out

- The nearest-neighbour search (`kneighbors`) is a function parameter. The
  random draw of exploration mode is a `shuffle` parameter, and the lemmas
  require it to be a permutation. The inverse-distance weights
  `1 / (d + 1e-3)` and the fixed seed are not modelled: they only bias the
  order.
- `get_abstract` and every store (Elasticsearch, Airtable, Firestore) are
  parameters or plain values: hits, records and the preference map. Store
  write failures answered with 404 are not modelled.
- RecommendationUtils.PrefVectorOfEqualEmbeddings: it states the mean only
  for equal embeddings. The general component formula is the definition of
  `PrefVector`. Embeddings are exact reals, not floats.
- Time parsing and formatting (`pd.to_datetime`, `convert_utc`,
  `isoformat`) is a `Clock` parameter. A time is a whole minute or `NaT`, and
  `NaT` compares false. moment-timezone date keys are a `dateKey` parameter.
  Slot times in the picker are minutes.
- `encodeURI`, `encodeURIComponent`, `selectedDatetimeToISO` and
  JavaScript's number-to-string conversion are parameters. Python's `str()`
  of a non-string value is also a parameter.
- SubmissionUtils.SortKeys: with NaT keys, the order is that of a stable
  insertion sort whose comparisons with NaT are false. CPython's list sort
  (run detection, binary insertion, merging) can place NaT-keyed records
  elsewhere, so with NaT keys the model promises only a permutation and the
  order within equal keys.
- SubmissionUtils.AgendaStep: the clock does not tell naive from aware
  timestamps. Comparing a naive `pd.to_datetime` of a hit with the aware
  `convert_utc` start (line 132), or sorting a mix of both (line 140), raises
  `TypeError` in pandas; the model compares them as times and does not raise.
- Api.LikeAddsId: `list(set(...))` lists ids in hash order. The model lists
  them in first-occurrence order, so the contract speaks only of membership
  and the absence of duplicates.
- The Stripe and SendGrid calls of `update_payment` beyond the guard and the
  "check" answer are left out: "create" and "set" are only an outcome naming
  the call with its amount and currency.
- `get_abstracts` is modelled only for its page arithmetic, the slicing and
  the links. The search queries are left out.
- EsIndex.UrlType lower-cases ASCII letters only. Python's full Unicode
  lower-casing is not modelled. A non-ASCII URL makes the encoding raise
  anyway.
- The switch to the default view that the abstract browser makes when a
  search is typed is left out. It is a React state change that takes effect
  on the next render.
- Sorting in `serializeSelectedDatetime` compares characters. JavaScript
  compares UTF-16 code units, which differs only outside the Basic
  Multilingual Plane; ISO times are ASCII.
- Colour alpha is a real. The hex alpha rounding is written exactly
  (`round(ah / 255 * 100) / 100`, which never falls on a half). The
  floating-point `parseFloat` of an rgba alpha is exact decimal arithmetic.
- React rendering, logging, the console report of `getSlot`,
  the duplicate picker in the abstract-submission page and the remaining
  routes are left out.

## Findings

| source | as written | input that shows it | evidently intended | confidence | as-written member | corrected member |
|---|---|---|---|---|---|---|
| scripts/es_index.py:227-235 | with a key list, the status is looked up in the projected dict, and `submission_status` is not a table key | one record with `submission_status: "Accepted"`, keys = keys_airtable, filter on: the result is [] | check the status of the record's own fields | high (not executed) | EsIndex.ReadAsWrittenLosesAccepted | EsIndex.ReadAcceptedOnly |
| frontend/src/pages/abstract-browser.js:719-722 | a failed dislike appends the id to the list captured at click time, which still holds it | preferences ["a"], dislike "a" fails: ["a", "a"] | restore the list shown before the click | high (not executed) | AbstractBrowser.RevertAsWrittenDislikeWrong | AbstractBrowser.RevertRestores |
| backend/api.py:761 | `payload.get("USD", "USD")` reads a key the body never has | a body with currency "EUR": charged in USD | `payload.get("currency", "USD")` | medium (not executed) | Api.CurrencyAsWrittenIgnoresBody | Api.PaymentFixedChargesBodyCurrency |
