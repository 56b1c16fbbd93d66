/**
 * The ingestion script: obfuscating meeting URLs, naming their service,
 * building the `urls` list of a row, shaping rows into index documents
 * and flattening the submissions read from the table.
 */
module EsIndex {
  import opened Wrappers
  import opened Strings
  import opened Seqs
  import opened Values
  import Base64
  import Common

  /** The rotation applied after base64, shared with the frontend decoder. */
  const MagicNumber: int := 9

  /** Why shaping a row raises. */
  datatype RowError =
    | NotAscii      // `url.encode("ascii")` raises
    | NotAString    // `.strip()` on a field that is not a string
    | MissingId     // `row[id]` raises `KeyError`

  // ---------------------------------------------------------------------
  // encode_base64
  // ---------------------------------------------------------------------

  predicate IsAscii(s: string) {
    forall i :: 0 <= i < |s| ==> s[i] as int < 128
  }

  /** `encode_base64(url)`: the base64 text of the ASCII bytes, its first nine characters moved to the end. */
  function EncodeUrl(url: string): Result<string, RowError> {
    if !IsAscii(url) then Err(NotAscii)
    else
      var b64 := Base64.Encode(Common.Latin1Bytes(url).value);
      Ok(Slice(b64, MagicNumber, |b64|) + Slice(b64, 0, MagicNumber))
  }

  /** The encoding succeeds exactly for ASCII text; anything else raises. */
  lemma EncodeUrlAsciiOnly(url: string)
    ensures EncodeUrl(url).Ok? <==> IsAscii(url)
    ensures !IsAscii(url) ==> EncodeUrl(url) == Err(NotAscii)
  {
  }

  /** The script's encoder and the frontend's `encodeBase64(url, 9)` agree, and the frontend decodes it back. */
  lemma EncodeUrlMatchesFrontend(url: string)
    requires IsAscii(url)
    ensures Common.EncodeBase64(url, Common.MagicNumber) == Some(EncodeUrl(url).value)
    ensures Common.DecodeBase64(EncodeUrl(url).value, Common.MagicNumber) == Some(url)
  {
    Common.DecodeEncodeBase64(url, Common.MagicNumber);
  }

  // ---------------------------------------------------------------------
  // get_url_type
  // ---------------------------------------------------------------------

  /** The meeting service a URL points to, by the first pattern its lower-cased text contains. */
  function UrlType(url: string): Option<string> {
    var u := AsciiLower(url);
    if Contains(u, "youtu") then Some("YouTube")
    else if Contains(u, "crowdcast") then Some("Crowdcast")
    else if Contains(u, "zoom") then Some("Zoom")
    else if Contains(u, "meet.google") then Some("Google Meet")
    else if Contains(u, "teams.microsoft") then Some("Microsoft Teams")
    else None
  }

  /** No type exactly when the lower-cased URL contains none of the five patterns. */
  lemma UrlTypeNone(url: string)
    ensures UrlType(url).None? <==>
      !Contains(AsciiLower(url), "youtu") && !Contains(AsciiLower(url), "crowdcast") && !Contains(AsciiLower(url), "zoom")
      && !Contains(AsciiLower(url), "meet.google") && !Contains(AsciiLower(url), "teams.microsoft")
  {
  }

  /** The type does not depend on letter case. */
  lemma UrlTypeIgnoresCase(url: string)
    ensures UrlType(AsciiLower(url)) == UrlType(url)
  {
    AsciiLowerIdempotent(url);
  }

  /** Earlier patterns win: a YouTube link stays YouTube whatever else it mentions. */
  lemma UrlTypePriority(url: string)
    ensures Contains(AsciiLower(url), "youtu") ==> UrlType(url) == Some("YouTube")
    ensures !Contains(AsciiLower(url), "youtu") && Contains(AsciiLower(url), "crowdcast") ==> UrlType(url) == Some("Crowdcast")
    ensures !Contains(AsciiLower(url), "youtu") && !Contains(AsciiLower(url), "crowdcast") && Contains(AsciiLower(url), "zoom")
      ==> UrlType(url) == Some("Zoom")
  {
  }

  // ---------------------------------------------------------------------
  // generate_urls
  // ---------------------------------------------------------------------

  /** Every field that may hold a URL, in the order they are listed. */
  const KeysUrl: seq<string> := ["url", "zoom_url", "youtube_url", "crowdcast_url"]

  /** `row.get(k, "")` when it is a string; `None` when `.strip()` would raise. */
  function FieldText(row: Record, k: string): Option<string> {
    if k !in row then Some("") else if row[k].Str? then Some(row[k].s) else None
  }

  /** The field holds a string that is not blank. */
  predicate Filled(row: Record, k: string) {
    FieldText(row, k).Some? && !IsBlank(FieldText(row, k).value)
  }

  /** The keys whose field is filled, in order. */
  function FilledKeys(row: Record, keys: seq<string>): (r: seq<string>)
    ensures Subsequence(r, keys)
    ensures forall i :: 0 <= i < |r| ==> Filled(row, r[i])
  {
    if keys == [] then []
    else
      var front := FilledKeys(row, keys[..|keys| - 1]);
      var k := keys[|keys| - 1];
      if Filled(row, k) then front + [k] else front
  }

  /** The entry for one filled URL field. */
  function UrlEntryOf(url: string): Result<UrlEntry, RowError> {
    var encoded :- EncodeUrl(url);
    Ok(UrlEntry(UrlType(url), encoded))
  }

  /** The loop of `generate_urls` over `keys`. */
  function UrlsOf(row: Record, keys: seq<string>): (r: Result<seq<UrlEntry>, RowError>)
    ensures r.Ok? ==> |r.value| <= |keys|
  {
    if keys == [] then Ok([])
    else
      var urls :- UrlsOf(row, keys[..|keys| - 1]);
      var k := keys[|keys| - 1];
      var text := FieldText(row, k);
      if text.None? then Err(NotAString)
      else if IsBlank(text.value) then Ok(urls)
      else
        var entry :- UrlEntryOf(text.value);
        Ok(urls + [entry])
  }

  lemma {:induction false} UrlsErrPersists(row: Record, keys: seq<string>, n: nat)
    requires n <= |keys| && UrlsOf(row, keys[..n]).Err?
    ensures UrlsOf(row, keys) == UrlsOf(row, keys[..n])
    decreases |keys| - n
  {
    if n < |keys| {
      assert keys[..n + 1][..n] == keys[..n];
      UrlsErrPersists(row, keys, n + 1);
    } else {
      assert keys[..n] == keys;
    }
  }

  /** One more key: the loop body of `generate_urls`, once. */
  lemma UrlsSnoc(row: Record, front: seq<string>, k: string)
    ensures UrlsOf(row, front).Err? ==> UrlsOf(row, front + [k]) == UrlsOf(row, front)
    ensures UrlsOf(row, front).Ok? && FieldText(row, k).None? ==> UrlsOf(row, front + [k]) == Err(NotAString)
    ensures UrlsOf(row, front).Ok? && FieldText(row, k).Some? && IsBlank(FieldText(row, k).value) ==>
      UrlsOf(row, front + [k]) == UrlsOf(row, front)
    ensures UrlsOf(row, front).Ok? && Filled(row, k) ==>
      UrlsOf(row, front + [k]) ==
        if UrlEntryOf(FieldText(row, k).value).Err? then Err(UrlEntryOf(FieldText(row, k).value).error)
        else Ok(UrlsOf(row, front).value + [UrlEntryOf(FieldText(row, k).value).value])
  {
    assert (front + [k])[..|front + [k]| - 1] == front;
  }

  /** `generate_urls(row)`. */
  method GenerateUrls(row: Record) returns (r: Result<seq<UrlEntry>, RowError>)
    ensures r == UrlsOf(row, KeysUrl)
  {
    var urls: seq<UrlEntry> := [];
    var i := 0;
    while i < |KeysUrl|
      invariant 0 <= i <= |KeysUrl|
      invariant UrlsOf(row, KeysUrl[..i]) == Ok(urls)
    {
      assert KeysUrl[..i + 1] == KeysUrl[..i] + [KeysUrl[i]];
      UrlsSnoc(row, KeysUrl[..i], KeysUrl[i]);
      var url := FieldText(row, KeysUrl[i]);
      if url.None? {
        UrlsErrPersists(row, KeysUrl, i + 1);
        return Err(NotAString);
      }
      if !IsBlank(url.value) {
        var entry := UrlEntryOf(url.value);
        if entry.Err? {
          UrlsErrPersists(row, KeysUrl, i + 1);
          return Err(entry.error);
        }
        urls := urls + [entry.value];
      }
      i := i + 1;
    }
    assert KeysUrl[..|KeysUrl|] == KeysUrl;
    r := Ok(urls);
  }

  /**
   * The list has one entry per filled field, in the order of the keys; each
   * entry names the field's service and holds its encoded URL.
   */
  lemma {:induction false} UrlsFollowFilledKeys(row: Record, keys: seq<string>)
    requires UrlsOf(row, keys).Ok?
    ensures |UrlsOf(row, keys).value| == |FilledKeys(row, keys)|
    ensures forall i :: 0 <= i < |FilledKeys(row, keys)| ==>
      UrlEntryOf(FieldText(row, FilledKeys(row, keys)[i]).value) == Ok(UrlsOf(row, keys).value[i])
    ensures forall k :: k in keys && Filled(row, k) ==> k in FilledKeys(row, keys)
  {
    if keys != [] {
      var front, k := keys[..|keys| - 1], keys[|keys| - 1];
      assert keys == front + [k];
      UrlsStep(row, front, k);
      UrlsFollowFilledKeys(row, front);
      UrlsEntriesExtend(row, front, k);
    }
    FilledKeysComplete(row, keys);
  }

  /** The entry-by-entry correspondence survives one more key. */
  lemma UrlsEntriesExtend(row: Record, front: seq<string>, k: string)
    requires UrlsOf(row, front + [k]).Ok? && UrlsOf(row, front).Ok?
    requires |UrlsOf(row, front).value| == |FilledKeys(row, front)|
    requires forall i :: 0 <= i < |FilledKeys(row, front)| ==>
      UrlEntryOf(FieldText(row, FilledKeys(row, front)[i]).value) == Ok(UrlsOf(row, front).value[i])
    ensures |UrlsOf(row, front + [k]).value| == |FilledKeys(row, front + [k])|
    ensures forall i :: 0 <= i < |FilledKeys(row, front + [k])| ==>
      UrlEntryOf(FieldText(row, FilledKeys(row, front + [k])[i]).value) == Ok(UrlsOf(row, front + [k]).value[i])
  {
    UrlsStep(row, front, k);
    var fu, fk := UrlsOf(row, front).value, FilledKeys(row, front);
    if Filled(row, k) {
      var e := UrlEntryOf(FieldText(row, k).value).value;
      var us, fs := fu + [e], fk + [k];
      assert UrlsOf(row, front + [k]).value == us && FilledKeys(row, front + [k]) == fs;
      forall i | 0 <= i < |fs| ensures UrlEntryOf(FieldText(row, fs[i]).value) == Ok(us[i]) {
        if i < |fk| {
          assert fs[i] == fk[i] && us[i] == fu[i];
        } else {
          assert fs[i] == k && us[i] == e;
        }
      }
    }
  }

  /** Every filled key is kept. */
  lemma {:induction false} FilledKeysComplete(row: Record, keys: seq<string>)
    ensures forall k :: k in keys && Filled(row, k) ==> k in FilledKeys(row, keys)
  {
    if keys != [] {
      var front, last := keys[..|keys| - 1], keys[|keys| - 1];
      assert keys == front + [last];
      FilledKeysComplete(row, front);
    }
  }

  /** How one more key extends both the URL list and the filled keys. */
  lemma UrlsStep(row: Record, front: seq<string>, k: string)
    requires UrlsOf(row, front + [k]).Ok?
    ensures UrlsOf(row, front).Ok?
    ensures Filled(row, k) ==> (
      && FilledKeys(row, front + [k]) == FilledKeys(row, front) + [k]
      && UrlEntryOf(FieldText(row, k).value).Ok?
      && UrlsOf(row, front + [k]) == Ok(UrlsOf(row, front).value + [UrlEntryOf(FieldText(row, k).value).value]))
    ensures !Filled(row, k) ==> (
      && FilledKeys(row, front + [k]) == FilledKeys(row, front)
      && UrlsOf(row, front + [k]) == UrlsOf(row, front))
  {
    assert (front + [k])[..|front + [k]| - 1] == front;
  }

  /** At most four URLs come out of a row. */
  lemma AtMostFourUrls(row: Record)
    requires UrlsOf(row, KeysUrl).Ok?
    ensures |UrlsOf(row, KeysUrl).value| <= 4
  {
  }

  // ---------------------------------------------------------------------
  // generate_rows
  // ---------------------------------------------------------------------

  /** One document for the bulk indexer. */
  datatype Doc = Doc(index: string, rowType: string, id: Value, source: Record)

  /** `{k: v for k, v in row.items() if k in keys and v is not np.nan}`, when a key list is given. */
  function Projected(row: Record, keys: Option<seq<string>>): (r: Record)
  {
    if keys.None? then row else map k | k in row && k in keys.value && row[k] != NaN :: row[k]
  }

  /**
   * With a key list, exactly the row's listed keys that are not NaN remain,
   * each with the row's value; without one, the row is untouched.
   */
  lemma ProjectedKeepsListed(row: Record, keys: Option<seq<string>>)
    ensures keys.None? ==> Projected(row, keys) == row
    ensures keys.Some? ==> Projected(row, keys).Keys <= set k | k in keys.value
    ensures keys.Some? ==> Projected(row, keys).Keys == set k | k in row && k in keys.value && row[k] != NaN
    ensures forall k :: k in Projected(row, keys) ==> k in row && Projected(row, keys)[k] == row[k]
    ensures keys.Some? ==> forall k :: k in Projected(row, keys) ==> Projected(row, keys)[k] != NaN
  {
  }

  /** The `try` block for one time field: a parsed time becomes its ISO text, a failure leaves the row alone. */
  function WithTime(row: Record, k: string, clock: Clock): Record {
    if k !in row then row
    else
      match clock.parse(row[k])
      case None => row
      case Some(NaT) => row[k := Str("NaT")]
      case Some(At(m)) => row[k := Str(clock.iso(m))]
  }

  /** The loop over `["starttime", "endtime"]`. */
  function WithTimes(row: Record, ks: seq<string>, clock: Clock): Record {
    if ks == [] then row else WithTime(WithTimes(row, ks[..|ks| - 1], clock), ks[|ks| - 1], clock)
  }

  /** Converting the time fields rewrites values only: the row keeps its keys. */
  lemma {:induction false} WithTimesKeepsKeys(row: Record, ks: seq<string>, clock: Clock)
    ensures WithTimes(row, ks, clock).Keys == row.Keys
  {
    if ks != [] {
      WithTimesKeepsKeys(row, ks[..|ks| - 1], clock);
    }
  }

  const TimeKeys: seq<string> := ["starttime", "endtime"]

  /** The row without any URL field. */
  function WithoutUrlKeys(row: Record): Record {
    map k | k in row && k !in KeysUrl :: row[k]
  }

  /** No URL field remains; every other field is kept with its value. */
  lemma WithoutUrlKeysExact(row: Record)
    ensures forall k :: k in KeysUrl ==> k !in WithoutUrlKeys(row)
    ensures forall k :: k in row && k !in KeysUrl ==> k in WithoutUrlKeys(row) && WithoutUrlKeys(row)[k] == row[k]
  {
  }

  /** The row after its `urls` list is added and its URL fields dropped. */
  function WithUrls(row: Record, urls: seq<UrlEntry>): Record {
    WithoutUrlKeys(if |urls| > 0 then row["urls" := Urls(urls)] else row)
  }

  /** `submission_id` cast to a string when present. */
  function WithStringId(row: Record, show: Value -> string): Record {
    if "submission_id" in row then row["submission_id" := Str(PyStr(row["submission_id"], show))] else row
  }

  /** The document `generate_rows` yields for one row. */
  function RowDoc(row: Record, index: string, rowType: string, id: string, keys: Option<seq<string>>, clock: Clock, show: Value -> string)
    : Result<Doc, RowError>
  {
    var timed := WithTimes(Projected(row, keys), TimeKeys, clock);
    var urls :- UrlsOf(timed, KeysUrl);
    var source := WithStringId(WithUrls(timed, urls), show);
    if id !in source then Err(MissingId) else Ok(Doc(index, rowType, source[id], source))
  }


  /** The `try` loop over the time fields of one row. */
  method ConvertTimes(row0: Record, clock: Clock) returns (row: Record)
    ensures row == WithTimes(row0, TimeKeys, clock)
  {
    row := row0;
    var t := 0;
    while t < |TimeKeys|
      invariant 0 <= t <= |TimeKeys|
      invariant row == WithTimes(row0, TimeKeys[..t], clock)
    {
      assert TimeKeys[..t + 1][..t] == TimeKeys[..t];
      var k := TimeKeys[t];
      if k in row {
        var dt := clock.parse(row[k]);
        if dt.Some? {
          row := row[k := if dt.value.NaT? then Str("NaT") else Str(clock.iso(dt.value.minute))];
        }
      }
      t := t + 1;
    }
    assert TimeKeys[..|TimeKeys|] == TimeKeys;
  }

  /** The body of `generate_rows` for one row, changing the row step by step. */
  method GenerateRow(row0: Record, index: string, rowType: string, id: string, keys: Option<seq<string>>, clock: Clock, show: Value -> string)
    returns (r: Result<Doc, RowError>)
    ensures r == DocOf(index, rowType, id, keys, clock, show)(row0)
  {
    var row := row0;
    if keys.Some? {
      row := map k | k in row && k in keys.value && row[k] != NaN :: row[k];
    }
    row := ConvertTimes(row, clock);
    var urls := GenerateUrls(row);
    if urls.Err? {
      return Err(urls.error);
    }
    if |urls.value| > 0 {
      row := row["urls" := Urls(urls.value)];
    }
    row := map k | k in row && k !in KeysUrl :: row[k];
    if "submission_id" in row {
      row := row["submission_id" := Str(PyStr(row["submission_id"], show))];
    }
    if id !in row {
      return Err(MissingId);
    }
    r := Ok(Doc(index, rowType, row[id], row));
  }

  /** The documents of all rows, in order; the first row that raises stops the generator. */
  /** `generate_rows` with its settings fixed: one row to its document or to the error it raises. */
  function DocOf(index: string, rowType: string, id: string, keys: Option<seq<string>>, clock: Clock, show: Value -> string)
    : Record -> Result<Doc, RowError>
  {
    row => RowDoc(row, index, rowType, id, keys, clock, show)
  }

  /** The documents `gen` yields for `rows`, or the error of the first row that raises. */
  function RowDocs(rows: seq<Record>, gen: Record -> Result<Doc, RowError>): (r: Result<seq<Doc>, RowError>)
    ensures r.Ok? ==> |r.value| == |rows|
  {
    if rows == [] then Ok([])
    else
      var front :- RowDocs(rows[..|rows| - 1], gen);
      var doc :- gen(rows[|rows| - 1]);
      Ok(front + [doc])
  }

  /** When no row raises, each document is the one its own row gives. */
  lemma {:induction false} RowDocsEach(rows: seq<Record>, gen: Record -> Result<Doc, RowError>)
    requires RowDocs(rows, gen).Ok?
    ensures forall i :: 0 <= i < |rows| ==> gen(rows[i]) == Ok(RowDocs(rows, gen).value[i])
  {
    if rows != [] {
      var front := rows[..|rows| - 1];
      RowDocsEach(front, gen);
      var docs, fdocs := RowDocs(rows, gen).value, RowDocs(front, gen).value;
      assert docs == fdocs + [gen(rows[|rows| - 1]).value];
      forall i | 0 <= i < |rows| ensures gen(rows[i]) == Ok(docs[i]) {
        if i < |front| {
          assert rows[i] == front[i] && docs[i] == fdocs[i];
        }
      }
    }
  }

  /** Once a row has raised, the rows after it change nothing. */
  lemma {:induction false} RowDocsErrPersists(rows: seq<Record>, n: nat, gen: Record -> Result<Doc, RowError>)
    requires n <= |rows| && RowDocs(rows[..n], gen).Err?
    ensures RowDocs(rows, gen) == RowDocs(rows[..n], gen)
    decreases |rows| - n
  {
    if n < |rows| {
      assert rows[..n + 1][..n] == rows[..n];
      RowDocsErrPersists(rows, n + 1, gen);
    } else {
      assert rows[..n] == rows;
    }
  }

  /** The generator: documents are yielded in row order until a row raises. */
  method GenerateRows(rows: seq<Record>, index: string, rowType: string, id: string, keys: Option<seq<string>>, clock: Clock, show: Value -> string)
    returns (r: Result<seq<Doc>, RowError>)
    ensures r == RowDocs(rows, DocOf(index, rowType, id, keys, clock, show))
  {
    var gen := DocOf(index, rowType, id, keys, clock, show);
    var docs: seq<Doc> := [];
    var i := 0;
    while i < |rows|
      invariant 0 <= i <= |rows|
      invariant RowDocs(rows[..i], gen) == Ok(docs)
    {
      assert rows[..i + 1][..i] == rows[..i];
      var doc := GenerateRow(rows[i], index, rowType, id, keys, clock, show);
      if doc.Err? {
        RowDocsErrPersists(rows, i + 1, gen);
        return Err(doc.error);
      }
      docs := docs + [doc.value];
      i := i + 1;
    }
    assert rows[..|rows|] == rows;
    r := Ok(docs);
  }

  /**
   * An emitted document has no URL field, a string `submission_id` when it
   * has one, a `urls` list when some URL field was filled, and with a key list
   * no field outside it besides `urls`.
   */
  lemma RowDocShape(row: Record, index: string, rowType: string, id: string, keys: Option<seq<string>>, clock: Clock, show: Value -> string)
    requires RowDoc(row, index, rowType, id, keys, clock, show).Ok?
    ensures var d := RowDoc(row, index, rowType, id, keys, clock, show).value;
      && (forall k :: k in KeysUrl ==> k !in d.source)
      && ("submission_id" in d.source ==> d.source["submission_id"].Str?)
      && d.id == d.source[id]
      && (keys.Some? ==> d.source.Keys <= (set k | k in keys.value) + {"urls"})
  {
    var projected := Projected(row, keys);
    var timed := WithTimes(projected, TimeKeys, clock);
    var urls := UrlsOf(timed, KeysUrl).value;
    var d := RowDoc(row, index, rowType, id, keys, clock, show).value;
    ProjectedKeepsListed(row, keys);
    WithTimesKeepsKeys(projected, TimeKeys, clock);
    WithoutUrlKeysExact(if |urls| > 0 then timed["urls" := Urls(urls)] else timed);
    assert "urls" !in KeysUrl;
    assert "submission_id" !in KeysUrl;
  }

  /** A filled URL field always gives the document a `urls` list. */
  lemma FilledUrlGivesList(row: Record, index: string, rowType: string, id: string, keys: Option<seq<string>>, clock: Clock, show: Value -> string)
    requires RowDoc(row, index, rowType, id, keys, clock, show).Ok?
    requires exists k :: k in KeysUrl && Filled(WithTimes(Projected(row, keys), TimeKeys, clock), k)
    ensures "urls" in RowDoc(row, index, rowType, id, keys, clock, show).value.source
  {
    var timed := WithTimes(Projected(row, keys), TimeKeys, clock);
    RowDocSource(row, index, rowType, id, keys, clock, show);
    var k :| k in KeysUrl && Filled(timed, k);
    UrlsFollowFilledKeys(timed, KeysUrl);
    assert k in FilledKeys(timed, KeysUrl);
    var urls := UrlsOf(timed, KeysUrl).value;
    assert |urls| > 0;
    WithUrlsHasList(timed, urls);
  }

  lemma WithUrlsHasList(row: Record, urls: seq<UrlEntry>)
    requires |urls| > 0
    ensures "urls" in WithUrls(row, urls)
  {
    assert "urls" !in KeysUrl;
  }

  /** A document's source is the timed row with its URL list and string id. */
  lemma RowDocSource(row: Record, index: string, rowType: string, id: string, keys: Option<seq<string>>, clock: Clock, show: Value -> string)
    requires RowDoc(row, index, rowType, id, keys, clock, show).Ok?
    ensures var timed := WithTimes(Projected(row, keys), TimeKeys, clock);
      && UrlsOf(timed, KeysUrl).Ok?
      && RowDoc(row, index, rowType, id, keys, clock, show).value.source.Keys
         == WithStringId(WithUrls(timed, UrlsOf(timed, KeysUrl).value), show).Keys
  {
  }

  // ---------------------------------------------------------------------
  // read_submissions
  // ---------------------------------------------------------------------

  /** A table record: its `id` and its `fields`. */
  datatype AirtableRecord = AirtableRecord(id: string, fields: Record)

  /** The table fields the index is interested in. */
  const KeysAirtable: seq<string> := [
    "submission_id", "title", "abstract", "fullname", "coauthors", "institution",
    "theme", "talk_format", "starttime", "endtime", "url", "track", "arxiv"
  ]

  /** The flattened submission: the fields, projected onto the table keys when a key list is passed, and its id. */
  function Flattened(s: AirtableRecord, keys: Option<seq<string>>): (d: Record)
    ensures "submission_id" in d && d["submission_id"] == Str(s.id)
  {
    var fields := if keys.Some? then map k | k in s.fields && k in KeysAirtable :: s.fields[k] else s.fields;
    fields["submission_id" := Str(s.id)]
  }

  /** With a key list, only the table's own keys survive; the status field is not one of them. */
  lemma FlattenedKeys(s: AirtableRecord, keys: Option<seq<string>>)
    requires keys.Some?
    ensures Flattened(s, keys).Keys <= set k | k in KeysAirtable
    ensures "submission_status" !in Flattened(s, keys)
  {
    assert "submission_id" in KeysAirtable;
  }

  /** `d.get("submission_status") == "Accepted"`. */
  predicate IsAccepted(d: Record) {
    "submission_status" in d && d["submission_status"] == Str("Accepted")
  }

  /** `read_submissions` as written: the status is looked up in the projected dict. */
  function ReadAsWritten(subs: seq<AirtableRecord>, keys: Option<seq<string>>, filterAccepted: bool): seq<Record> {
    if subs == [] then []
    else
      var front := ReadAsWritten(subs[..|subs| - 1], keys, filterAccepted);
      var d := Flattened(subs[|subs| - 1], keys);
      if !filterAccepted || IsAccepted(d) then front + [d] else front
  }

  /** With a key list and the filter on, nothing survives: the status is not a table key. */
  lemma {:induction false} ReadAsWrittenDropsAll(subs: seq<AirtableRecord>, keys: seq<string>)
    ensures ReadAsWritten(subs, Some(keys), true) == []
  {
    if subs != [] {
      ReadAsWrittenDropsAll(subs[..|subs| - 1], keys);
      var d := Flattened(subs[|subs| - 1], Some(keys));
      assert "submission_status" !in KeysAirtable;
      assert !IsAccepted(d);
    }
  }

  /** A concrete table holding one accepted submission, lost by the code as written. */
  lemma ReadAsWrittenLosesAccepted()
    ensures var s := AirtableRecord("rec1", map["title" := Str("T"), "submission_status" := Str("Accepted")]);
      ReadAsWritten([s], Some(KeysAirtable), true) == []
  {
    var s := AirtableRecord("rec1", map["title" := Str("T"), "submission_status" := Str("Accepted")]);
    ReadAsWrittenDropsAll([s], KeysAirtable);
  }

  /** `read_submissions` with the status checked on the record's own fields. */
  function ReadSubmissionsSpec(subs: seq<AirtableRecord>, keys: Option<seq<string>>, filterAccepted: bool): (r: seq<Record>)
    ensures |r| <= |subs|
    ensures !filterAccepted ==> |r| == |subs|
  {
    if subs == [] then []
    else
      var front := ReadSubmissionsSpec(subs[..|subs| - 1], keys, filterAccepted);
      var s := subs[|subs| - 1];
      if !filterAccepted || IsAccepted(s.fields) then front + [Flattened(s, keys)] else front
  }

  /** The loop of `read_submissions`, corrected. */
  method ReadSubmissions(subs: seq<AirtableRecord>, keys: Option<seq<string>>, filterAccepted: bool) returns (flattened: seq<Record>)
    ensures flattened == ReadSubmissionsSpec(subs, keys, filterAccepted)
  {
    flattened := [];
    var i := 0;
    while i < |subs|
      invariant 0 <= i <= |subs|
      invariant flattened == ReadSubmissionsSpec(subs[..i], keys, filterAccepted)
    {
      assert subs[..i + 1][..i] == subs[..i];
      var submission := subs[i];
      var d := Flattened(submission, keys);
      if filterAccepted {
        if IsAccepted(submission.fields) {
          flattened := flattened + [d];
        }
      } else {
        flattened := flattened + [d];
      }
      i := i + 1;
    }
    assert subs[..|subs|] == subs;
  }

  /** Without the filter every record is flattened in order, each carrying its record id. */
  lemma {:induction false} ReadAllFlattened(subs: seq<AirtableRecord>, keys: Option<seq<string>>)
    ensures forall i :: 0 <= i < |subs| ==> ReadSubmissionsSpec(subs, keys, false)[i] == Flattened(subs[i], keys)
  {
    if subs != [] {
      ReadAllFlattened(subs[..|subs| - 1], keys);
    }
  }

  /**
   * With the filter every output is an accepted record, every accepted record
   * is output, and the outputs are the accepted records' flattenings in table
   * order, one per accepted record.
   */
  lemma ReadAcceptedOnly(subs: seq<AirtableRecord>, keys: Option<seq<string>>)
    ensures forall d :: d in ReadSubmissionsSpec(subs, keys, true) ==>
      exists j :: 0 <= j < |subs| && IsAccepted(subs[j].fields) && d == Flattened(subs[j], keys)
    ensures forall j :: 0 <= j < |subs| && IsAccepted(subs[j].fields) ==>
      Flattened(subs[j], keys) in ReadSubmissionsSpec(subs, keys, true)
    ensures ReadSubmissionsSpec(subs, keys, true) == AcceptedFlattened(subs, keys)
  {
    ReadAcceptedSound(subs, keys);
    ReadAcceptedComplete(subs, keys);
    ReadAcceptedExact(subs, keys);
  }

  /** What one record contributes to the filtered read: its flattening when accepted, nothing otherwise. */
  function AcceptedPart(s: AirtableRecord, keys: Option<seq<string>>): seq<Record> {
    if IsAccepted(s.fields) then [Flattened(s, keys)] else []
  }

  /** The accepted records flattened, front to back: an independent statement of the filtered read. */
  function AcceptedFlattened(subs: seq<AirtableRecord>, keys: Option<seq<string>>): seq<Record> {
    if subs == [] then [] else AcceptedPart(subs[0], keys) + AcceptedFlattened(subs[1..], keys)
  }

  /** Adding a record at the back adds its part at the back. */
  lemma {:induction false} AcceptedFlattenedSnoc(subs: seq<AirtableRecord>, s: AirtableRecord, keys: Option<seq<string>>)
    ensures AcceptedFlattened(subs + [s], keys) == AcceptedFlattened(subs, keys) + AcceptedPart(s, keys)
  {
    if subs == [] {
      assert subs + [s] == [s];
      assert [s][1..] == [];
    } else {
      var head, last := AcceptedPart(subs[0], keys), AcceptedPart(s, keys);
      AcceptedFlattenedSnoc(subs[1..], s, keys);
      assert AcceptedFlattened(subs + [s], keys) == head + AcceptedFlattened(subs[1..] + [s], keys) by {
        assert (subs + [s])[0] == subs[0] && (subs + [s])[1..] == subs[1..] + [s];
      }
      assert head + (AcceptedFlattened(subs[1..], keys) + last) == (head + AcceptedFlattened(subs[1..], keys)) + last;
    }
  }

  lemma {:induction false} ReadAcceptedExact(subs: seq<AirtableRecord>, keys: Option<seq<string>>)
    ensures ReadSubmissionsSpec(subs, keys, true) == AcceptedFlattened(subs, keys)
  {
    if subs != [] {
      var front, last := subs[..|subs| - 1], subs[|subs| - 1];
      ReadAcceptedExact(front, keys);
      AcceptedFlattenedSnoc(front, last, keys);
      assert subs == front + [last];
    }
  }

  lemma {:induction false} ReadAcceptedSound(subs: seq<AirtableRecord>, keys: Option<seq<string>>)
    ensures forall d :: d in ReadSubmissionsSpec(subs, keys, true) ==>
      exists j :: 0 <= j < |subs| && IsAccepted(subs[j].fields) && d == Flattened(subs[j], keys)
  {
    if subs != [] {
      var front, last := subs[..|subs| - 1], subs[|subs| - 1];
      ReadAcceptedSound(front, keys);
      var r, fr := ReadSubmissionsSpec(subs, keys, true), ReadSubmissionsSpec(front, keys, true);
      assert r == if IsAccepted(last.fields) then fr + [Flattened(last, keys)] else fr;
      forall d | d in r ensures exists j :: 0 <= j < |subs| && IsAccepted(subs[j].fields) && d == Flattened(subs[j], keys) {
        if d in fr {
          var j :| 0 <= j < |front| && IsAccepted(front[j].fields) && d == Flattened(front[j], keys);
          assert subs[j] == front[j];
        } else {
          assert IsAccepted(subs[|subs| - 1].fields) && d == Flattened(subs[|subs| - 1], keys);
        }
      }
    }
  }

  lemma {:induction false} ReadAcceptedComplete(subs: seq<AirtableRecord>, keys: Option<seq<string>>)
    ensures forall j :: 0 <= j < |subs| && IsAccepted(subs[j].fields) ==>
      Flattened(subs[j], keys) in ReadSubmissionsSpec(subs, keys, true)
  {
    if subs != [] {
      var front, last := subs[..|subs| - 1], subs[|subs| - 1];
      ReadAcceptedComplete(front, keys);
      var r, fr := ReadSubmissionsSpec(subs, keys, true), ReadSubmissionsSpec(front, keys, true);
      assert r == if IsAccepted(last.fields) then fr + [Flattened(last, keys)] else fr;
      forall j | 0 <= j < |subs| && IsAccepted(subs[j].fields) ensures Flattened(subs[j], keys) in r {
        if j < |front| {
          assert subs[j] == front[j];
        }
      }
    }
  }

  /** Only whether a key list is passed matters: its content is never read. */
  lemma KeyListContentIgnored(s: AirtableRecord, a: seq<string>, b: seq<string>)
    ensures Flattened(s, Some(a)) == Flattened(s, Some(b))
  {
  }
}
