/** `POST /poll/:id/vote`: validate the request, then record the vote with one
    conditional, atomic update of the poll document. */
module VoteRoute {
  import opened JsString
  import opened Wrappers
  import opened PollSchema
  import opened Tally
  import opened ClientIp
  import opened Rooms
  import opened Ledger

  const TokenMaxLength := 128

  /** The event name of a tally broadcast. */
  const UpdateEvent := "poll:update"

  /** How the route reads the `:id` path segment, left as parameters of the model:
      `valid` is `mongoose.isValidObjectId`, and `cast` is Mongoose's cast of a valid id
      string to the `_id` it denotes, which is the key the store is searched by. The two
      need not agree on spelling: hex digits are case-insensitive, so several spellings
      cast to one `_id`. */
  datatype ObjectIds = ObjectIds(valid: string -> bool, cast: string -> PollId)

  /** A vote request: the `:id` path segment, `Number(req.body.optionIndex)` when it is
      an integer (`None` otherwise), `String(req.body.voterToken || "")` before trimming,
      and the request metadata the client address comes from. */
  datatype VoteRequest = VoteRequest(id: string, optionIndex: Option<int>, voterToken: string, client: RequestInfo)

  datatype VoteError =
    | InvalidPollId
    | OptionIndexNotInteger
    | TokenRequired
    | TokenTooLong
    | PollNotFound
    | InvalidOptionIndex
    | AlreadyVoted

  datatype VoteResponse = Voted(payload: Payload) | VoteRejected(error: VoteError)

  /** The HTTP status of a vote response: 200 exactly for a recorded vote, 404 exactly
      for a missing poll, 409 exactly for a reused identity, 400 for every other refusal. */
  function VoteStatus(r: VoteResponse): (status: int)
    ensures status == 200 <==> r.Voted?
    ensures status == 404 <==> r == VoteRejected(PollNotFound)
    ensures status == 409 <==> r == VoteRejected(AlreadyVoted)
    ensures r.VoteRejected? && r.error != PollNotFound && r.error != AlreadyVoted ==> status == 400
  {
    match r
    case Voted(_) => 200
    case VoteRejected(e) =>
      match e
      case PollNotFound => 404
      case AlreadyVoted => 409
      case _ => 400
  }

  /** One `io.to(room).emit(event, payload)`. */
  datatype Emit = Emit(room: string, event: string, payload: Payload)

  datatype VoteOutcome = VoteOutcome(response: VoteResponse, store: Store, emit: Option<Emit>)

  /** `$addToSet`: append unless already present. */
  function AddToSet(xs: seq<string>, x: string): (r: seq<string>)
    ensures x in r && forall y :: y in xs ==> y in r
    ensures x in xs ==> r == xs
    ensures x !in xs ==> r == xs + [x]
  {
    if x in xs then xs else xs + [x]
  }

  /** The document filter's identity condition: neither identity has voted on `p`. */
  predicate NotYetVoted(p: Poll, ip: string, token: string) {
    ip !in p.voterIps && token !in p.voterTokens
  }

  /** The update document: `$inc` the chosen option's counter and `$addToSet` both identities. */
  function ApplyVote(p: Poll, i: nat, ip: string, token: string): (r: Poll)
    requires i < |p.options|
    ensures r.question == p.question && |r.options| == |p.options|
    ensures TotalVotes(r.options) == TotalVotes(p.options) + 1
    ensures !NotYetVoted(r, ip, token)
    ensures NotYetVoted(p, ip, token) ==> r.voterIps == p.voterIps + [ip] && r.voterTokens == p.voterTokens + [token]
  {
    TotalVotesIncrement(p.options, i);
    p.(options := IncrementAt(p.options, i),
       voterIps := AddToSet(p.voterIps, ip),
       voterTokens := AddToSet(p.voterTokens, token))
  }

  datatype UpdateResult = UpdateResult(updated: Option<Poll>, store: Store)

  /** `Poll.findOneAndUpdate({_id: id, voterIps: {$ne: ip}, voterTokens: {$ne: token}},
      {$inc, $addToSet}, {new: true})`: the guard and the mutation are one store transition.
      The route only issues it with an index that is in range for the poll it read. */
  function FindOneAndUpdate(s: Store, id: PollId, i: nat, ip: string, token: string): (r: UpdateResult)
    requires id in s ==> i < |s[id].options|
    ensures r.updated.Some? <==> id in s && NotYetVoted(s[id], ip, token)
    ensures r.updated.None? ==> r.store == s
    ensures r.updated.Some? ==>
      && r.store == s[id := r.updated.value]
      && r.updated.value.question == s[id].question
      && |r.updated.value.options| == |s[id].options|
      && r.updated.value.options[i].votes == s[id].options[i].votes + 1
      && r.updated.value.options[i].text == s[id].options[i].text
      && (forall k :: 0 <= k < |s[id].options| && k != i ==> r.updated.value.options[k] == s[id].options[k])
      && r.updated.value.voterIps == s[id].voterIps + [ip]
      && r.updated.value.voterTokens == s[id].voterTokens + [token]
  {
    if id in s && NotYetVoted(s[id], ip, token) then
      var p := ApplyVote(s[id], i, ip, token);
      TotalVotesIncrement(s[id].options, i);
      UpdateResult(Some(p), s[id := p])
    else
      UpdateResult(None, s)
  }

  /** After a failed conditional update, `Poll.exists({_id: id})` decides between 404 and 409. */
  function ClassifyFailure(s: Store, id: PollId): (e: VoteError)
    ensures e == PollNotFound <==> id !in s
    ensures e == AlreadyVoted <==> id in s
  {
    if id !in s then PollNotFound else AlreadyVoted
  }

  /** The route's checks before the update, in order; `None` exactly when the id is a
      valid ObjectId, the index is an integer within the stored poll's options, and the
      trimmed token is non-empty and at most 128 characters. */
  function PreCheck(s: Store, req: VoteRequest, ids: ObjectIds): (r: Option<VoteError>)
    ensures r.None? <==>
      && ids.valid(req.id)
      && req.optionIndex.Some?
      && 0 < |Trim(req.voterToken)| <= TokenMaxLength
      && ids.cast(req.id) in s
      && 0 <= req.optionIndex.value < |s[ids.cast(req.id)].options|
    ensures r.Some? && r.value == PollNotFound ==> ids.cast(req.id) !in s
  {
    var token := Trim(req.voterToken);
    var key := ids.cast(req.id);
    if !ids.valid(req.id) then Some(InvalidPollId)
    else if req.optionIndex.None? then Some(OptionIndexNotInteger)
    else if token == "" then Some(TokenRequired)
    else if |token| > TokenMaxLength then Some(TokenTooLong)
    else if key !in s then Some(PollNotFound)
    else if req.optionIndex.value < 0 || req.optionIndex.value >= |s[key].options| then Some(InvalidOptionIndex)
    else None
  }

  /** `POST /poll/:id/vote` against store `s`. */
  function Vote(s: Store, req: VoteRequest, ids: ObjectIds): (out: VoteOutcome)
    // Rejections before the update, in the order the route checks them.
    ensures !ids.valid(req.id) ==> out.response == VoteRejected(InvalidPollId)
    ensures ids.valid(req.id) && req.optionIndex.None? ==> out.response == VoteRejected(OptionIndexNotInteger)
    ensures ids.valid(req.id) && req.optionIndex.Some? && Trim(req.voterToken) == "" ==>
      out.response == VoteRejected(TokenRequired)
    ensures ids.valid(req.id) && req.optionIndex.Some? && |Trim(req.voterToken)| > TokenMaxLength ==>
      out.response == VoteRejected(TokenTooLong)
    ensures
      && ids.valid(req.id) && req.optionIndex.Some?
      && Trim(req.voterToken) != "" && |Trim(req.voterToken)| <= TokenMaxLength
      ==> (ids.cast(req.id) !in s <==> out.response == VoteRejected(PollNotFound))
    ensures
      && ids.valid(req.id) && req.optionIndex.Some?
      && Trim(req.voterToken) != "" && |Trim(req.voterToken)| <= TokenMaxLength
      && ids.cast(req.id) in s
      ==> (out.response == VoteRejected(InvalidOptionIndex) <==>
           !(0 <= req.optionIndex.value < |s[ids.cast(req.id)].options|))
    // The dedup guard: past validation, the vote is recorded iff neither identity has voted.
    ensures PreCheck(s, req, ids).None? ==>
      (out.response.Voted? <==> NotYetVoted(s[ids.cast(req.id)], GetClientIp(req.client), Trim(req.voterToken)))
    ensures PreCheck(s, req, ids).None? && !NotYetVoted(s[ids.cast(req.id)], GetClientIp(req.client), Trim(req.voterToken)) ==>
      out.response == VoteRejected(AlreadyVoted)
    // A rejection changes nothing and emits nothing.
    ensures !out.response.Voted? ==> out.store == s && out.emit == None
    // A success changes exactly one option counter of exactly one poll and records both identities.
    ensures out.response.Voted? ==>
      && PreCheck(s, req, ids).None?
      && var i := req.optionIndex.value;
      && ids.cast(req.id) in out.store
      && var p := s[ids.cast(req.id)];
      && var p' := out.store[ids.cast(req.id)];
      && out.store == s[ids.cast(req.id) := p']
      && p'.question == p.question
      && |p'.options| == |p.options|
      && p'.options[i].votes == p.options[i].votes + 1
      && p'.options[i].text == p.options[i].text
      && (forall k :: 0 <= k < |p.options| && k != i ==> p'.options[k] == p.options[k])
      && GetClientIp(req.client) in p'.voterIps
      && Trim(req.voterToken) in p'.voterTokens
      && TotalVotes(p'.options) == TotalVotes(p.options) + 1
    // The broadcast is the response body. Its room is named after the path segment as sent,
    // while the payload carries the stored `_id`.
    ensures out.response.Voted? ==>
      && out.emit == Some(Emit(RoomName(req.id), UpdateEvent, out.response.payload))
      && out.response.payload.pollId == ids.cast(req.id)
      && out.response.payload.options == out.store[ids.cast(req.id)].options
      && out.response.payload.totalVotes == TotalVotes(out.store[ids.cast(req.id)].options)
  {
    match PreCheck(s, req, ids)
    case Some(e) => VoteOutcome(VoteRejected(e), s, None)
    case None =>
      var ip := GetClientIp(req.client);
      var token := Trim(req.voterToken);
      var i := req.optionIndex.value;
      var key := ids.cast(req.id);
      var r := FindOneAndUpdate(s, key, i, ip, token);
      match r.updated
      case None => VoteOutcome(VoteRejected(ClassifyFailure(r.store, key)), r.store, None)
      case Some(updated) =>
        TotalVotesIncrement(s[key].options, i);
        var payload := PollPayload(key, updated);
        VoteOutcome(Voted(payload), r.store, Some(Emit(RoomName(req.id), UpdateEvent, payload)))
  }

  /** Applying a vote whose identities are both new keeps a poll schema-valid and consistent. */
  lemma ApplyVotePreserves(p: Poll, i: nat, ip: string, token: string)
    requires i < |p.options|
    requires ValidPoll(p) && Consistent(p) && NotYetVoted(p, ip, token)
    ensures ValidPoll(ApplyVote(p, i, ip, token)) && Consistent(ApplyVote(p, i, ip, token))
  {
    var p' := ApplyVote(p, i, ip, token);
    TotalVotesIncrement(p.options, i);
    AppendFresh(p.voterIps, ip);
    AppendFresh(p.voterTokens, token);
    assert ValidOption(p.options[i]);
    assert ValidPoll(p') by {
      forall k | 0 <= k < |p'.options| ensures ValidOption(p'.options[k]) {
        if k != i {
          assert p'.options[k] == p.options[k];
        }
      }
    }
  }

  /** The store after a vote attempt is either unchanged or the conditional update applied
      to the voted poll. */
  lemma VoteStoreShape(s: Store, req: VoteRequest, ids: ObjectIds)
    ensures
      var out := Vote(s, req, ids);
      || (!out.response.Voted? && out.store == s)
      || (&& out.response.Voted?
          && PreCheck(s, req, ids).None?
          && NotYetVoted(s[ids.cast(req.id)], GetClientIp(req.client), Trim(req.voterToken))
          && out.store == s[ids.cast(req.id) := ApplyVote(s[ids.cast(req.id)], req.optionIndex.value, GetClientIp(req.client), Trim(req.voterToken))])
  {
  }

  /** A vote attempt, accepted or not, keeps every poll schema-valid and keeps the
      ledger invariant; in particular an accepted vote leaves every count non-negative. */
  lemma VotePreservesValidStore(s: Store, req: VoteRequest, ids: ObjectIds)
    requires ValidStore(s)
    ensures ValidStore(Vote(s, req, ids).store)
  {
    VoteStoreShape(s, req, ids);
    var out := Vote(s, req, ids);
    if out.response.Voted? {
      ApplyVotePreserves(s[ids.cast(req.id)], req.optionIndex.value, GetClientIp(req.client), Trim(req.voterToken));
      ValidStoreUpdate(s, ids.cast(req.id), out.store[ids.cast(req.id)]);
    }
  }

  /** Once a vote from an identity is accepted on a poll, any later attempt on that poll
      that reuses its address or its token is refused: each identity counts once. */
  lemma SameIdentityVotesOnce(s: Store, first: VoteRequest, second: VoteRequest, ids: ObjectIds)
    requires Vote(s, first, ids).response.Voted?
    requires ids.cast(second.id) == ids.cast(first.id)
    requires GetClientIp(second.client) == GetClientIp(first.client) || Trim(second.voterToken) == Trim(first.voterToken)
    ensures !Vote(Vote(s, first, ids).store, second, ids).response.Voted?
  {
  }

  /** A request that passes validation and whose identities are both new is recorded
      by the conditional update and nothing else. */
  lemma VoteAccepted(s: Store, req: VoteRequest, ids: ObjectIds)
    requires PreCheck(s, req, ids).None?
    requires NotYetVoted(s[ids.cast(req.id)], GetClientIp(req.client), Trim(req.voterToken))
    ensures Vote(s, req, ids).response.Voted?
    ensures Vote(s, req, ids).store
      == s[ids.cast(req.id) := ApplyVote(s[ids.cast(req.id)], req.optionIndex.value, GetClientIp(req.client), Trim(req.voterToken))]
  {
    VoteStoreShape(s, req, ids);
  }

  /** A request that passes validation but reuses an identity is refused with 409. */
  lemma VoteRefused(s: Store, req: VoteRequest, ids: ObjectIds)
    requires PreCheck(s, req, ids).None?
    requires !NotYetVoted(s[ids.cast(req.id)], GetClientIp(req.client), Trim(req.voterToken))
    ensures Vote(s, req, ids) == VoteOutcome(VoteRejected(AlreadyVoted), s, None)
  {
  }

  /** What a vote's status code says about the request and the store: 200 exactly when
      the store changed; 409 exactly when validation passed but an identity had already
      voted on the poll; 404 exactly when the poll the segment casts to is not stored
      although the earlier checks passed. */
  lemma VoteStatusMeaning(s: Store, req: VoteRequest, ids: ObjectIds)
    ensures VoteStatus(Vote(s, req, ids).response) == 200 <==> Vote(s, req, ids).store != s
    ensures VoteStatus(Vote(s, req, ids).response) == 409 <==>
      PreCheck(s, req, ids).None? && !NotYetVoted(s[ids.cast(req.id)], GetClientIp(req.client), Trim(req.voterToken))
    ensures VoteStatus(Vote(s, req, ids).response) == 404 <==>
      && ids.valid(req.id) && req.optionIndex.Some?
      && 0 < |Trim(req.voterToken)| <= TokenMaxLength
      && ids.cast(req.id) !in s
  {
    var out := Vote(s, req, ids);
    if out.response.Voted? {
      var key := ids.cast(req.id);
      VoteStoreShape(s, req, ids);
      assert |out.store[key].voterIps| == |s[key].voterIps| + 1;
    }
  }

  /** Two voters with distinct identities both pick the first option of a fresh two-option
      poll; the first then retries. The two updates succeed, leaving the tally at 2 and 0;
      the retry matches nothing, is classified as 409, and leaves the store unchanged. */
  lemma TwoVotersThenRetry(id: PollId, question: string, a: string, b: string,
                           ip1: string, token1: string, ip2: string, token2: string)
    requires ip1 != ip2 && token1 != token2
    ensures
      var s0 := map[id := Poll(question, [PollOption(a, 0), PollOption(b, 0)], [], [])];
      var r1 := FindOneAndUpdate(s0, id, 0, ip1, token1);
      var r2 := FindOneAndUpdate(r1.store, id, 0, ip2, token2);
      var r3 := FindOneAndUpdate(r2.store, id, 0, ip1, token1);
      && r1.updated.Some? && r2.updated.Some?
      && r2.store[id].options == [PollOption(a, 2), PollOption(b, 0)]
      && TotalVotes(r2.store[id].options) == 2
      && r3.updated.None? && r3.store == r2.store
      && ClassifyFailure(r3.store, id) == AlreadyVoted
  {
    var s0 := map[id := Poll(question, [PollOption(a, 0), PollOption(b, 0)], [], [])];
    var s1 := map[id := Poll(question, [PollOption(a, 1), PollOption(b, 0)], [ip1], [token1])];
    var s2 := map[id := Poll(question, [PollOption(a, 2), PollOption(b, 0)], [ip1, ip2], [token1, token2])];
    assert IncrementAt(s0[id].options, 0) == s1[id].options;
    assert ApplyVote(s0[id], 0, ip1, token1) == s1[id];
    assert s0[id := s1[id]] == s1;
    assert IncrementAt(s1[id].options, 0) == s2[id].options;
    assert ApplyVote(s1[id], 0, ip2, token2) == s2[id];
    assert s1[id := s2[id]] == s2;
    TotalVotesOfTwo(PollOption(a, 2), PollOption(b, 0));
  }
}
