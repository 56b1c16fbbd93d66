/**
 * The request shaping of the backend API: the pagination-link builder, the
 * page arithmetic of the abstract listing, the like/dislike update of a
 * user's per-edition preferences, the field whitelist of an abstract
 * update and the amount guard of the payment route.
 */
module Api {
  import opened Wrappers
  import opened Strings
  import opened Seqs
  import opened Values

  /** The HTTP status a handler answers with; `Ok200` is a handler returning normally. */
  datatype Status = Ok200 | BadRequest400 | Unauthorized401 | NotFound404 | ServerError500

  /** What `get_user_info` yields: no verified token, or a token whose `user_id` may be missing. */
  datatype Caller = Anonymous | SignedIn(userId: Option<string>)

  // ---------------------------------------------------------------------
  // query_params_builder
  // ---------------------------------------------------------------------

  /** The pairs whose value is not `None`, in order, as `(key, str(value))`. */
  function Given(kvs: seq<(string, Option<string>)>): (r: seq<(string, string)>)
    ensures |r| <= |kvs|
  {
    if kvs == [] then []
    else
      var front := Given(kvs[..|kvs| - 1]);
      var (k, v) := kvs[|kvs| - 1];
      if v.None? then front else front + [(k, v.value)]
  }

  /** The loop of the builder: each given pair appended with '?' while none is present, '&' after. */
  function Appended(base: string, kvs: seq<(string, Option<string>)>): string {
    if kvs == [] then base
    else
      var b := Appended(base, kvs[..|kvs| - 1]);
      var (k, v) := kvs[|kvs| - 1];
      if v.None? then b else b + [if '?' in b then '&' else '?'] + PairText((k, v.value))
  }

  /** `query_params_builder(current_page, total_pages)(base_endpoint, kvs)`. */
  function BuildQuery(currentPage: Option<int>, totalPages: Option<int>, base: string, kvs: Option<seq<(string, Option<string>)>>)
    : (r: Option<string>)
    ensures r.None? <==> currentPage.Some? && totalPages.Some? && currentPage.value >= totalPages.value
    ensures r.Some? && kvs.None? ==> r.value == base
  {
    if currentPage.Some? && totalPages.Some? && currentPage.value >= totalPages.value then None
    else if kvs.None? then Some(base)
    else Some(Appended(base, kvs.value))
  }

  /**
   * The builder leaves the base alone when no value is given; otherwise it adds
   * one separator, '?' unless the base already holds one, and the given pairs
   * joined by '&'.
   */
  lemma {:induction false} AppendedForm(base: string, kvs: seq<(string, Option<string>)>)
    ensures Given(kvs) == [] ==> Appended(base, kvs) == base
    ensures Given(kvs) != [] ==>
      Appended(base, kvs) == base + [if '?' in base then '&' else '?'] + Join(PairTexts(Given(kvs)), '&')
  {
    if kvs != [] {
      var front := kvs[..|kvs| - 1];
      var (k, v) := kvs[|kvs| - 1];
      AppendedForm(base, front);
      if v.Some? {
        var text := PairText((k, v.value));
        assert Given(kvs) == Given(front) + [(k, v.value)];
        assert PairTexts(Given(kvs)) == PairTexts(Given(front)) + [text];
        if Given(front) == [] {
          assert PairTexts(Given(kvs)) == [text];
        } else {
          AppendedSnoc(base, PairTexts(Given(front)), text);
        }
      }
    }
  }

  /** One more pair after at least one: the separator is '&' and the joined text grows by it. */
  lemma AppendedSnoc(base: string, texts: seq<string>, text: string)
    requires texts != []
    ensures var sep := if '?' in base then '&' else '?';
      var b := base + [sep] + Join(texts, '&');
      b + [if '?' in b then '&' else '?'] + text == base + [sep] + Join(texts + [text], '&')
  {
    var sep := if '?' in base then '&' else '?';
    var b := base + [sep] + Join(texts, '&');
    assert b[|base|] == sep;
    assert '?' in b by {
      if '?' in base {
        var i :| 0 <= i < |base| && base[i] == '?';
        assert b[i] == '?';
      }
    }
    JoinSnoc(texts, text, '&');
  }

  /** The builder as the source writes it: an early `None`, then the loop over `kvs`. */
  method QueryParamsBuilder(currentPage: Option<int>, totalPages: Option<int>, base: string, kvs: Option<seq<(string, Option<string>)>>)
    returns (r: Option<string>)
    ensures r == BuildQuery(currentPage, totalPages, base, kvs)
  {
    if currentPage.Some? && totalPages.Some? {
      if currentPage.value >= totalPages.value {
        return None;
      }
    }
    var baseEndpoint := base;
    if kvs.Some? {
      var pairs := kvs.value;
      var i := 0;
      while i < |pairs|
        invariant 0 <= i <= |pairs|
        invariant baseEndpoint == Appended(base, pairs[..i])
      {
        assert pairs[..i + 1][..i] == pairs[..i];
        var (k, v) := pairs[i];
        if v.Some? {
          var separator := if '?' !in baseEndpoint then '?' else '&';
          baseEndpoint := baseEndpoint + [separator] + PairText((k, v.value));
        }
        i := i + 1;
      }
      assert pairs[..|pairs|] == pairs;
    }
    r := Some(baseEndpoint);
  }

  // ---------------------------------------------------------------------
  // Pagination of the abstract listing
  // ---------------------------------------------------------------------

  /** Python's `int(a / b)`: the quotient truncated toward zero. */
  function TruncDiv(a: int, b: int): int
    requires b != 0
  {
    var m := (if a < 0 then -a else a) / (if b < 0 then -b else b);
    if (a < 0) == (b < 0) then m else -m
  }

  /** Truncation agrees with floor division on non-negative operands and flips sign with either operand. */
  lemma TruncDivProperties(a: int, b: int)
    requires b != 0
    ensures a >= 0 && b > 0 ==> TruncDiv(a, b) == a / b
    ensures TruncDiv(-a, b) == -TruncDiv(a, b)
    ensures TruncDiv(a, -b) == -TruncDiv(a, b)
  {
    var na, nb := if a < 0 then -a else a, if b < 0 then -b else b;
    var m := na / nb;
    assert TruncDiv(a, b) == if (a < 0) == (b < 0) then m else -m;
    if a == 0 {
      assert m == 0;
    } else {
      assert TruncDiv(-a, b) == if (-a < 0) == (b < 0) then m else -m;
      assert TruncDiv(a, -b) == if (a < 0) == (-b < 0) then m else -m;
    }
  }

  /** The `meta` block of a listing: `currentPage`, `totalPage` and `pageSize`. */
  datatype PageMeta = PageMeta(currentPage: int, totalPage: int, pageSize: int)

  /** `int(skip / page_size) + 1` and `int(n / page_size) + 1`; a zero limit divides by zero. */
  function Paging(skip: int, limit: int, nSubmissions: nat): (r: Result<PageMeta, Status>)
    ensures r.Err? <==> limit == 0
  {
    if limit == 0 then Err(ServerError500)
    else Ok(PageMeta(TruncDiv(skip, limit) + 1, TruncDiv(nSubmissions, limit) + 1, limit))
  }

  /** `submissions[skip : skip + limit]`. */
  function PageData<T>(submissions: seq<T>, skip: int, limit: int): seq<T> {
    Slice(submissions, skip, skip + limit)
  }

  /** For a non-negative skip, the current page is the one holding item `skip`. */
  lemma PageHoldsSkip(skip: nat, limit: int, n: nat)
    requires limit > 0
    ensures Paging(skip, limit, n).Ok?
    ensures (Paging(skip, limit, n).value.currentPage - 1) * limit <= skip < Paging(skip, limit, n).value.currentPage * limit
  {
    TruncDivProperties(skip, limit);
  }

  /** The empty page past the last one is answered only when `skip` lies beyond every submission. */
  lemma PastLastPageIsPastTheEnd(skip: nat, limit: int, n: nat)
    requires limit > 0
    requires Paging(skip, limit, n).value.currentPage > Paging(skip, limit, n).value.totalPage
    ensures skip > n
  {
    TruncDivProperties(skip, limit);
    TruncDivProperties(n, limit);
    var c, t := skip / limit, n / limit;
    assert c >= t + 1;
    FloorBounds(skip, limit);
    FloorBounds(n, limit);
    MulMono(t + 1, c, limit);
  }

  /** Floor division brackets its dividend: `(a / b) * b <= a < (a / b + 1) * b`. */
  lemma FloorBounds(a: nat, b: int)
    requires b > 0
    ensures (a / b) * b <= a < (a / b + 1) * b
  {
    assert a == (a / b) * b + a % b;
  }

  lemma MulMono(x: int, y: int, b: int)
    requires x <= y && b > 0
    ensures x * b <= y * b
  {
    assert y * b - x * b == (y - x) * b;
  }

  /** A page holds at most `limit` submissions, those from position `skip` on. */
  lemma PageDataWindow<T>(submissions: seq<T>, skip: nat, limit: nat)
    ensures |PageData(submissions, skip, limit)| <= limit
    ensures forall i :: 0 <= i < |PageData(submissions, skip, limit)| ==>
      skip + i < |submissions| && PageData(submissions, skip, limit)[i] == submissions[skip + i]
  {
    SliceNonNegative(submissions, skip, skip + limit);
  }

  /** The `next` link is `None` on the last page and past it. */
  lemma NoNextOnLastPage(skip: int, limit: int, n: nat, base: string, kvs: Option<seq<(string, Option<string>)>>)
    requires Paging(skip, limit, n).Ok?
    ensures var m := Paging(skip, limit, n).value;
      BuildQuery(Some(m.currentPage), Some(m.totalPage), base, kvs).None? <==> m.currentPage >= m.totalPage
  {
  }

  // ---------------------------------------------------------------------
  // update_user_votes
  // ---------------------------------------------------------------------

  /** A user's preference document: edition to liked submission ids. */
  type Prefs = map<string, seq<string>>

  /** `user_preference.get(edition, [])`. */
  function EditionIds(pref: Prefs, edition: string): seq<string> {
    if edition in pref then pref[edition] else []
  }

  /** `list(set([*current_pref, submission_id]))`, the set listed in first-occurrence order. */
  function Liked(current: seq<string>, id: string): (r: seq<string>)
    ensures NoDuplicates(r)
    ensures forall x :: x in r <==> x in current || x == id
  {
    var r := Dedupe(current + [id]);
    assert forall x :: x in current + [id] <==> x in current || x == id;
    r
  }

  /** `list(set(current_pref) - set([submission_id]))`, listed in first-occurrence order. */
  function Disliked(current: seq<string>, id: string): (r: seq<string>)
    ensures NoDuplicates(r)
    ensures forall x :: x in r <==> x in current && x != id
  {
    Dedupe(Remove(current, id))
  }

  /**
   * The status and the preference collection after `update_user_votes`:
   * a first like creates the document, a later like merges the edition's
   * new list into it, a dislike rewrites the edition's list.
   */
  function VoteEffect(docs: map<string, Prefs>, caller: Caller, edition: string, id: string, action: string)
    : (Status, map<string, Prefs>)
  {
    if caller.Anonymous? then (Unauthorized401, docs)
    else if caller.userId.None? || (action != "like" && action != "dislike") then (BadRequest400, docs)
    else
      var u := caller.userId.value;
      if u !in docs then
        if action == "like" then (Ok200, docs[u := map[edition := [id]]]) else (NotFound404, docs)
      else if action == "like" then
        (Ok200, docs[u := docs[u][edition := Liked(EditionIds(docs[u], edition), id)]])
      else
        (Ok200, docs[u := docs[u][edition := Disliked(EditionIds(docs[u], edition), id)]])
  }

  /** Only this user's document changes, and in it only the voted edition. */
  predicate OnlyEditionChanged(before: map<string, Prefs>, after: map<string, Prefs>, u: string, edition: string) {
    && after.Keys == before.Keys + {u}
    && (forall v :: v in before && v != u ==> after[v] == before[v])
    && after[u].Keys == (if u in before then before[u].Keys else {}) + {edition}
    && (u in before ==> forall e :: e in before[u] && e != edition ==> after[u][e] == before[u][e])
  }

  /** A like leaves the edition's list duplicate-free, holding the previous ids and the new one. */
  lemma LikeAddsId(docs: map<string, Prefs>, u: string, edition: string, id: string)
    ensures VoteEffect(docs, SignedIn(Some(u)), edition, id, "like").0 == Ok200
    ensures OnlyEditionChanged(docs, VoteEffect(docs, SignedIn(Some(u)), edition, id, "like").1, u, edition)
    ensures var ids := VoteEffect(docs, SignedIn(Some(u)), edition, id, "like").1[u][edition];
      NoDuplicates(ids)
      && forall x :: x in ids <==> x == id || (u in docs && x in EditionIds(docs[u], edition))
  {
  }

  /** A dislike removes the id from the edition's list; a user without a document gets 404. */
  lemma DislikeRemovesId(docs: map<string, Prefs>, u: string, edition: string, id: string)
    ensures u !in docs ==> VoteEffect(docs, SignedIn(Some(u)), edition, id, "dislike") == (NotFound404, docs)
    ensures u in docs ==> VoteEffect(docs, SignedIn(Some(u)), edition, id, "dislike").0 == Ok200
    ensures u in docs ==> OnlyEditionChanged(docs, VoteEffect(docs, SignedIn(Some(u)), edition, id, "dislike").1, u, edition)
    ensures u in docs ==> var ids := VoteEffect(docs, SignedIn(Some(u)), edition, id, "dislike").1[u][edition];
      NoDuplicates(ids) && forall x :: x in ids <==> x != id && x in EditionIds(docs[u], edition)
  {
  }

  /** Any other action is a bad request, and nothing is written. */
  lemma OtherActionsRejected(docs: map<string, Prefs>, caller: Caller, edition: string, id: string, action: string)
    requires action != "like" && action != "dislike"
    ensures VoteEffect(docs, caller, edition, id, action).1 == docs
    ensures VoteEffect(docs, caller, edition, id, action).0 == if caller.Anonymous? then Unauthorized401 else BadRequest400
  {
  }

  /** The preference collection, keyed by user id. */
  class PreferenceStore {
    var docs: map<string, Prefs>

    constructor(initial: map<string, Prefs>)
      ensures docs == initial
    {
      docs := initial;
    }

    /** `update_user_votes`: read the user's document, update the edition's list, write it back. */
    method UpdateUserVotes(caller: Caller, edition: string, id: string, action: string) returns (status: Status)
      modifies this
      ensures (status, docs) == VoteEffect(old(docs), caller, edition, id, action)
    {
      if caller.Anonymous? {
        return Unauthorized401;
      }
      var userId := caller.userId;
      var userPreference: Option<Prefs> := if userId.Some? && userId.value in docs then Some(docs[userId.value]) else None;
      if action == "like" && userId.Some? {
        if userPreference.None? {
          docs := docs[userId.value := map[edition := [id]]];
        } else {
          var currentPref := EditionIds(userPreference.value, edition);
          var updatePref := Liked(currentPref, id);
          docs := docs[userId.value := userPreference.value[edition := updatePref]];
        }
        return Ok200;
      } else if action == "dislike" && userId.Some? {
        if userPreference.None? {
          return NotFound404;
        }
        var currentPref := EditionIds(userPreference.value, edition);
        var updated := userPreference.value[edition := Disliked(currentPref, id)];
        docs := docs[userId.value := updated];
        return Ok200;
      } else {
        return BadRequest400;
      }
    }
  }

  // ---------------------------------------------------------------------
  // update_abstract
  // ---------------------------------------------------------------------

  /** The ten fields a presenter may update. */
  const UpdatableKeys: set<string> := {
    "title", "abstract", "firstname", "lastname", "email",
    "coauthors", "institution", "talk_format", "arxiv", "available_dt"
  }

  /** The dict comprehension over the whitelist. */
  function Whitelisted(submission: Record): (r: Record)
    ensures r.Keys == submission.Keys * UpdatableKeys
    ensures forall k :: k in r ==> r[k] == submission[k]
  {
    map k | k in submission && k in UpdatableKeys :: submission[k]
  }

  /** The fields the organisers set never pass the whitelist. */
  lemma OrganizerFieldsDropped(submission: Record)
    ensures "starttime" !in Whitelisted(submission)
    ensures "endtime" !in Whitelisted(submission)
    ensures "url" !in Whitelisted(submission)
    ensures "track" !in Whitelisted(submission)
    ensures "submission_status" !in Whitelisted(submission)
  {
  }

  /** `user.get(key, "")`. */
  function FieldOr(user: Record, key: string): Value {
    if key in user then user[key] else Str("")
  }

  /**
   * The fields `update_abstract` sends to the table: the caller's names
   * from their user document, then the whitelist. `None.get` raises for a
   * caller without a token or a user without a document, and so does
   * `es_config["editions"][edition]` for an edition missing from the
   * configuration (`editions` maps each configured edition to its
   * `airtable_id`); an edition without a table answers 400.
   */
  function UpdateAbstract(caller: Caller, submission: Record, user: Option<Record>,
                          editions: map<string, Option<string>>, edition: string): (r: Result<Record, Status>)
  {
    if caller.Anonymous? then Err(ServerError500)
    else if caller.userId.Some? && user.None? then Err(ServerError500)
    else
      var named := if caller.userId.Some?
        then submission["firstname" := FieldOr(user.value, "firstname")]["lastname" := FieldOr(user.value, "lastname")]
        else submission;
      if edition !in editions then Err(ServerError500)
      else if editions[edition].None? then Err(BadRequest400)
      else Ok(Whitelisted(named))
  }

  /**
   * The outcomes of `update_abstract`: a server error for a missing token,
   * a missing user document or an unknown edition, 400 for an edition
   * without a table, and otherwise the update.
   */
  lemma UpdateAbstractOutcome(caller: Caller, submission: Record, user: Option<Record>,
                              editions: map<string, Option<string>>, edition: string)
    ensures var r := UpdateAbstract(caller, submission, user, editions, edition);
      && (r == Err(ServerError500) <==>
            caller.Anonymous? || (caller.userId.Some? && user.None?) || edition !in editions)
      && (r == Err(BadRequest400) <==>
            caller.SignedIn? && !(caller.userId.Some? && user.None?) && edition in editions && editions[edition].None?)
      && (r.Ok? <==>
            caller.SignedIn? && !(caller.userId.Some? && user.None?) && edition in editions && editions[edition].Some?)
  {
  }

  /** What is sent holds only whitelisted fields, with a signed-in presenter's names from their document. */
  lemma UpdateAbstractSendsWhitelist(caller: Caller, submission: Record, user: Option<Record>,
                                     editions: map<string, Option<string>>, edition: string)
    requires UpdateAbstract(caller, submission, user, editions, edition).Ok?
    ensures UpdateAbstract(caller, submission, user, editions, edition).value.Keys <= UpdatableKeys
    ensures caller.userId.Some? ==>
      UpdateAbstract(caller, submission, user, editions, edition).value["firstname"] == FieldOr(user.value, "firstname")
      && UpdateAbstract(caller, submission, user, editions, edition).value["lastname"] == FieldOr(user.value, "lastname")
  {
  }

  // ---------------------------------------------------------------------
  // update_payment
  // ---------------------------------------------------------------------

  /** The amounts, in cents, a payment may take. */
  const AmountOptions: seq<int> := [500, 1000, 1500, 2000, 2500, 3000]

  /** The request body of the payment route. */
  datatype PaymentPayload = PaymentPayload(currency: string, amount: int, clientSecret: Option<string>)

  /** The checks before any store access: a body must be sent, with one of the amount options. */
  function PaymentGuard(payload: Option<PaymentPayload>): (r: Result<int, Status>)
    ensures r.Ok? <==> payload.Some? && payload.value.amount in AmountOptions
    ensures r.Ok? ==> r.value == payload.value.amount && r.value % 500 == 0 && 500 <= r.value <= 3000
    ensures r.Err? ==> r.error == Unauthorized401
  {
    if payload.None? then Err(Unauthorized401)
    else if payload.value.amount !in AmountOptions then Err(Unauthorized401)
    else Ok(payload.value.amount)
  }

  /** `payload.get("USD", "USD")`: the body has no key `USD`, so this is always "USD". */
  function CurrencyAsWritten(payload: PaymentPayload): string {
    "USD"
  }

  /** The currency the body names, as the variable's name and its use intend. */
  function Currency(payload: PaymentPayload): string {
    payload.currency
  }

  /** What the payment route goes on to do. */
  datatype PaymentOutcome =
    | Rejected(status: Status)
    | Checked(doc: Record)                                  // the stored payment, or a waiting one
    | ToStripe(option: string, amount: int, currency: string)  // "create" opens a payment intent in `currency`; "set" records `currency` in the payment document
    | Waived

  /**
   * `update_payment`, given the caller, their stored payment document and how
   * the currency is read from the body: the amount guard, then
   * `user_info.get` (raising for a caller without a token), then the option.
   */
  function PaymentRoute(payload: Option<PaymentPayload>, option: string, caller: Caller, stored: Option<Record>,
                        currency: PaymentPayload -> string): PaymentOutcome {
    match PaymentGuard(payload)
    case Err(status) => Rejected(status)
    case Ok(amount) =>
      if caller.Anonymous? then Rejected(ServerError500)
      else if option == "check" then
        Checked(if stored.Some? then stored.value else map["payment_status" := Str("wait"), "amount" := Int(amount)])
      else if option == "create" || option == "set" then ToStripe(option, amount, currency(payload.value))
      else if option == "waive" then Waived
      else Rejected(NotFound404)
  }

  /** The route as written. */
  function Payment(payload: Option<PaymentPayload>, option: string, caller: Caller, stored: Option<Record>): PaymentOutcome {
    PaymentRoute(payload, option, caller, stored, CurrencyAsWritten)
  }

  /** The route with the currency read from the body. */
  function PaymentFixed(payload: Option<PaymentPayload>, option: string, caller: Caller, stored: Option<Record>): PaymentOutcome {
    PaymentRoute(payload, option, caller, stored, Currency)
  }

  /**
   * As written, a signed-in caller's "create" with an accepted amount opens an
   * intent in US dollars, and "set" records US dollars in the payment document,
   * whatever the body asks.
   */
  lemma PaymentAsWrittenChargesUsd(payload: PaymentPayload, option: string, userId: Option<string>, stored: Option<Record>)
    requires payload.amount in AmountOptions && (option == "create" || option == "set")
    ensures Payment(Some(payload), option, SignedIn(userId), stored) == ToStripe(option, payload.amount, "USD")
  {
  }

  /**
   * With the fix, the charge is in the currency the body names, and the fix
   * changes nothing else: every other answer is the route's as written.
   */
  lemma PaymentFixedChargesBodyCurrency(payload: Option<PaymentPayload>, option: string, caller: Caller, stored: Option<Record>)
    ensures PaymentFixed(payload, option, caller, stored).ToStripe? <==> Payment(payload, option, caller, stored).ToStripe?
    ensures PaymentFixed(payload, option, caller, stored).ToStripe? ==>
      PaymentFixed(payload, option, caller, stored)
        == Payment(payload, option, caller, stored).(currency := payload.value.currency)
    ensures !PaymentFixed(payload, option, caller, stored).ToStripe? ==>
      PaymentFixed(payload, option, caller, stored) == Payment(payload, option, caller, stored)
  {
  }

  /** A body asking for euros is charged in dollars as written, and in euros with the fix. */
  lemma CurrencyAsWrittenIgnoresBody()
    ensures Payment(Some(PaymentPayload("EUR", 1500, None)), "create", SignedIn(None), None) == ToStripe("create", 1500, "USD")
    ensures PaymentFixed(Some(PaymentPayload("EUR", 1500, None)), "create", SignedIn(None), None) == ToStripe("create", 1500, "EUR")
  {
  }

  /** A rejected amount is answered without looking at the caller or the store, whatever they hold. */
  lemma RejectedBeforeStore(payload: Option<PaymentPayload>, option: string, c1: Caller, c2: Caller, s1: Option<Record>, s2: Option<Record>)
    requires payload.Some? ==> payload.value.amount !in AmountOptions
    ensures Payment(payload, option, c1, s1) == Payment(payload, option, c2, s2) == Rejected(Unauthorized401)
  {
  }

  /** With an accepted amount, "check" answers the stored document, or a waiting payment of that amount when none is stored. */
  lemma CheckAnswersStored(payload: PaymentPayload, userId: Option<string>, stored: Option<Record>)
    requires payload.amount in AmountOptions
    ensures stored.Some? ==> Payment(Some(payload), "check", SignedIn(userId), stored) == Checked(stored.value)
    ensures stored.None? ==>
      Payment(Some(payload), "check", SignedIn(userId), stored) == Checked(map["payment_status" := Str("wait"), "amount" := Int(payload.amount)])
  {
  }
}
