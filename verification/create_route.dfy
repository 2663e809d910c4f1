/** `POST /poll`: validate the question and the normalized options, then create the poll. */
module CreateRoute {
  import opened JsString
  import opened Wrappers
  import opened PollSchema
  import opened OptionList
  import opened Tally
  import opened ShareUrl
  import opened Ledger

  const QuestionMaxLength := 300
  const OptionMaxLength := 120
  const MinOptions := 2
  const MaxOptions := 10

  /** The request body after `String(req.body.question || "")`; `options` is `None`
      when `req.body.options` is not an array, otherwise each entry already coerced by
      `String(rawOption || "")`. */
  datatype CreateRequest = CreateRequest(question: string, options: Option<seq<string>>)

  datatype CreateError = QuestionRequired | QuestionTooLong | TooFewOptions | TooManyOptions | OptionTooLong

  datatype CreateResponse =
    | Created(pollId: PollId, shareUrl: string)
    | Rejected(error: CreateError)
    /** `Poll.create` threw a ValidationError. */
    | SchemaRejected
    /** The insert collided with an existing `_id`. */
    | DuplicateId

  /** HTTP status, including the error handler's mapping of a ValidationError to 400. */
  function CreateStatus(r: CreateResponse): (status: int)
    ensures status == 201 <==> r.Created?
    ensures status == 400 <==> r.Rejected? || r.SchemaRejected?
    ensures status == 500 <==> r.DuplicateId?
  {
    match r
    case Created(_, _) => 201
    case Rejected(_) => 400
    case SchemaRejected => 400
    case DuplicateId => 500
  }

  datatype CreateOutcome = CreateOutcome(response: CreateResponse, store: Store)

  predicate SomeOptionTooLong(options: seq<PollOption>) {
    exists k :: 0 <= k < |options| && |options[k].text| > OptionMaxLength
  }

  /** The route's checks, in the order it makes them. */
  function CheckCreate(question: string, options: seq<PollOption>): Option<CreateError> {
    if question == "" then Some(QuestionRequired)
    else if |question| > QuestionMaxLength then Some(QuestionTooLong)
    else if |options| < MinOptions then Some(TooFewOptions)
    else if |options| > MaxOptions then Some(TooManyOptions)
    else if SomeOptionTooLong(options) then Some(OptionTooLong)
    else None
  }

  /** `POST /poll` against store `s`. `newId` is the `_id` Mongoose generates
      for the new document, `baseUrl` the configured (or request-derived) base URL,
      `lower` the case mapping used for option dedup. */
  function CreatePoll(s: Store, req: CreateRequest, newId: PollId, baseUrl: string, lower: LowerCase): (out: CreateOutcome)
    // The validations, in order; the first that fails decides the 400 response.
    ensures Trim(req.question) == "" ==> out.response == Rejected(QuestionRequired)
    ensures Trim(req.question) != "" && |Trim(req.question)| > QuestionMaxLength ==>
      out.response == Rejected(QuestionTooLong)
    ensures ValidQuestion(Trim(req.question)) && |NormalizeOptions(req.options, lower)| < MinOptions ==>
      out.response == Rejected(TooFewOptions)
    ensures ValidQuestion(Trim(req.question)) && |NormalizeOptions(req.options, lower)| > MaxOptions ==>
      out.response == Rejected(TooManyOptions)
    ensures
      && ValidQuestion(Trim(req.question))
      && MinOptions <= |NormalizeOptions(req.options, lower)| <= MaxOptions
      && SomeOptionTooLong(NormalizeOptions(req.options, lower))
      ==> out.response == Rejected(OptionTooLong)
    // Every rejection leaves the store as it was; the schema never rejects what the route admits.
    ensures !out.response.Created? ==> out.store == s
    ensures out.response != SchemaRejected
    ensures out.response == DuplicateId <==> CheckCreate(Trim(req.question), NormalizeOptions(req.options, lower)).None? && newId in s
    ensures out.response.Created? <==> CheckCreate(Trim(req.question), NormalizeOptions(req.options, lower)).None? && newId !in s
    // A created poll is fresh, schema-valid, has the normalized options with zero votes, and no voters.
    ensures out.response.Created? ==>
      && newId !in s
      && out.response.pollId == newId
      && out.store == s[newId := Poll(Trim(req.question), NormalizeOptions(req.options, lower), [], [])]
      && ValidPoll(out.store[newId])
      && MinOptions <= |out.store[newId].options| <= MaxOptions
      && TotalVotes(out.store[newId].options) == 0
      && out.response.shareUrl == PollShareUrl(baseUrl, newId)
  {
    var question := Trim(req.question);
    var options := NormalizeOptions(req.options, lower);
    match CheckCreate(question, options)
    case Some(e) => CreateOutcome(Rejected(e), s)
    case None =>
      if newId in s then CreateOutcome(DuplicateId, s)
      else
        AdmittedIsValid(question, options, req.options, lower);
        match PollSchema.Create(question, options)
        case None => CreateOutcome(SchemaRejected, s)
        case Some(p) => CreateOutcome(Created(newId, PollShareUrl(baseUrl, newId)), s[newId := p])
  }

  /** What a creation's status code says about the request and the store: 201 exactly
      when the new id was free and is now stored, 400 exactly when one of the route's
      checks failed, 500 exactly when the checks passed but the id was already taken. */
  lemma CreateStatusMeaning(s: Store, req: CreateRequest, newId: PollId, baseUrl: string, lower: LowerCase)
    ensures CreateStatus(CreatePoll(s, req, newId, baseUrl, lower).response) == 201 <==>
      newId !in s && newId in CreatePoll(s, req, newId, baseUrl, lower).store
    ensures CreateStatus(CreatePoll(s, req, newId, baseUrl, lower).response) == 400 <==>
      CheckCreate(Trim(req.question), NormalizeOptions(req.options, lower)).Some?
    ensures CreateStatus(CreatePoll(s, req, newId, baseUrl, lower).response) == 500 <==>
      CheckCreate(Trim(req.question), NormalizeOptions(req.options, lower)).None? && newId in s
  {
  }

  /** What the route admits satisfies the schema, so `Poll.create` stores it unchanged. */
  lemma AdmittedIsValid(question: string, options: seq<PollOption>, raw: Option<seq<string>>, lower: LowerCase)
    requires IsTrimmed(question)
    requires options == NormalizeOptions(raw, lower)
    requires CheckCreate(question, options).None?
    ensures ValidPoll(Poll(question, options, [], []))
    ensures PollSchema.Create(question, options) == Some(Poll(question, options, [], []))
  {
    if raw.Some? {
      NormalizeOptionsDistinct(raw.value, lower, options);
    }
    assert ValidPoll(Poll(question, options, [], []));
    CreateAcceptsValid(question, options);
  }

  /** Creating a poll keeps every stored poll schema-valid and consistent. */
  lemma CreatePreservesValidStore(s: Store, req: CreateRequest, newId: PollId, baseUrl: string, lower: LowerCase)
    requires ValidStore(s)
    ensures ValidStore(CreatePoll(s, req, newId, baseUrl, lower).store)
  {
    var out := CreatePoll(s, req, newId, baseUrl, lower);
    if out.response.Created? {
      var p := out.store[newId];
      FreshPollConsistent(p);
      ValidStoreUpdate(s, newId, p);
    }
  }

  /** A creation attempt keeps every stored poll and adds at most the new identifier,
      with no voters yet. */
  lemma CreateKeepsOthers(s: Store, req: CreateRequest, newId: PollId, baseUrl: string, lower: LowerCase)
    ensures
      var out := CreatePoll(s, req, newId, baseUrl, lower);
      && (forall id :: id in s ==> id in out.store && out.store[id] == s[id])
      && (forall id :: id in out.store && id !in s ==> id == newId && out.store[id].voterIps == [])
  {
    var out := CreatePoll(s, req, newId, baseUrl, lower);
    var p := Poll(Trim(req.question), NormalizeOptions(req.options, lower), [], []);
    assert out.store == s || (newId !in s && out.store == s[newId := p]);
    MapInsertShape(s, out.store, newId, p);
  }

  /** The store is unchanged, or gains exactly one voterless poll under a fresh key. */
  lemma MapInsertShape(s: Store, s': Store, newId: PollId, p: Poll)
    requires p.voterIps == []
    requires s' == s || (newId !in s && s' == s[newId := p])
    ensures forall id :: id in s ==> id in s' && s'[id] == s[id]
    ensures forall id :: id in s' && id !in s ==> id == newId && s'[id].voterIps == []
  {
  }

  /** The store after a creation attempt: unchanged, or extended by one valid, consistent
      poll under an identifier it did not hold. */
  lemma CreateStoreShape(s: Store, req: CreateRequest, newId: PollId, baseUrl: string, lower: LowerCase)
    requires ValidStore(s)
    ensures
      var out := CreatePoll(s, req, newId, baseUrl, lower);
      && ValidStore(out.store)
      && (forall id :: id in s ==> id in out.store && out.store[id] == s[id])
      && (forall id :: id in out.store && id !in s ==> id == newId && out.store[id].voterIps == [])
  {
    CreatePreservesValidStore(s, req, newId, baseUrl, lower);
    CreateKeepsOthers(s, req, newId, baseUrl, lower);
  }
}
