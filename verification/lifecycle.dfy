/** The whole service as one state machine: polls are created, votes are recorded,
    sockets join poll rooms, and accepted votes are broadcast to the poll's room. */
module Lifecycle {
  import opened JsString
  import opened Wrappers
  import opened PollSchema
  import opened Tally
  import opened OptionList
  import opened CreateRoute
  import opened VoteRoute
  import opened Rooms
  import opened ClientIp
  import opened Ledger

  datatype Server = Server(store: Store, rooms: RoomMap)

  /** The two environment functions the routes depend on. */
  datatype Env = Env(ids: ObjectIds, lower: LowerCase)

  datatype Event =
    | CreateEvent(create: CreateRequest, newId: PollId, baseUrl: string)
    | VoteEvent(vote: VoteRequest)
    | JoinEvent(socket: SocketId, arg: JoinArg)

  /** One `poll:update` emission, with the sockets that are in its room at that moment. */
  datatype Delivery = Delivery(recipients: set<SocketId>, event: string, payload: Payload)

  /** What an event produced that a client can see. A vote records its poll (the stored
      `_id` its path segment casts to), the identity pair derived from the request, the
      response, and the broadcast if any. */
  datatype Observed =
    | CreateObserved(created: CreateResponse)
    | VoteObserved(id: PollId, ip: string, token: string, response: VoteResponse, delivery: Option<Delivery>)
    | JoinObserved

  datatype StepResult = StepResult(server: Server, observed: Observed)

  function Initial(): Server {
    Server(map[], map[])
  }

  function Step(sv: Server, ev: Event, env: Env): StepResult {
    match ev
    case CreateEvent(create, newId, baseUrl) =>
      var out := CreatePoll(sv.store, create, newId, baseUrl, env.lower);
      StepResult(sv.(store := out.store), CreateObserved(out.response))
    case VoteEvent(vote) =>
      var out := Vote(sv.store, vote, env.ids);
      var delivery :=
        match out.emit
        case None => None
        case Some(e) => Some(Delivery(Members(sv.rooms, e.room), e.event, e.payload));
      StepResult(
        sv.(store := out.store),
        VoteObserved(env.ids.cast(vote.id), GetClientIp(vote.client), Trim(vote.voterToken), out.response, delivery))
    case JoinEvent(socket, arg) =>
      StepResult(sv.(rooms := Join(sv.rooms, socket, arg)), JoinObserved)
  }

  datatype RunResult = RunResult(server: Server, trace: seq<Observed>)

  /** The events applied one after another; the trace holds what each produced. */
  function Run(sv: Server, evs: seq<Event>, env: Env): (r: RunResult)
    ensures |r.trace| == |evs|
  {
    if |evs| == 0 then RunResult(sv, [])
    else
      var prev := Run(sv, evs[..|evs| - 1], env);
      var st := Step(prev.server, evs[|evs| - 1], env);
      RunResult(st.server, prev.trace + [st.observed])
  }

  predicate AcceptedOn(o: Observed, id: PollId) {
    o.VoteObserved? && o.id == id && o.response.Voted?
  }

  /** The number of accepted votes on poll `id` in a trace. */
  function AcceptedCount(trace: seq<Observed>, id: PollId): nat {
    if |trace| == 0 then 0
    else AcceptedCount(trace[..|trace| - 1], id) + (if AcceptedOn(trace[|trace| - 1], id) then 1 else 0)
  }

  /** What holds after every run from the initial state. */
  ghost predicate RunInvariant(sv: Server, trace: seq<Observed>) {
    && ValidStore(sv.store)
    && (forall id :: id !in sv.store ==> AcceptedCount(trace, id) == 0)
    && (forall id :: id in sv.store ==> |sv.store[id].voterIps| == AcceptedCount(trace, id))
    && (forall k :: 0 <= k < |trace| && trace[k].VoteObserved? && trace[k].response.Voted? ==>
          && trace[k].id in sv.store
          && trace[k].ip in sv.store[trace[k].id].voterIps
          && trace[k].token in sv.store[trace[k].id].voterTokens)
  }

  /** A vote step that is accepted was accepted by the conditional update: neither identity
      had voted on that poll in the state it ran against. */
  lemma AcceptedStepWasFresh(sv: Server, ev: Event, env: Env)
    requires Step(sv, ev, env).observed.VoteObserved?
    requires Step(sv, ev, env).observed.response.Voted?
    ensures ev.VoteEvent?
    ensures Step(sv, ev, env).observed.id in sv.store
    ensures NotYetVoted(sv.store[Step(sv, ev, env).observed.id], Step(sv, ev, env).observed.ip, Step(sv, ev, env).observed.token)
  {
  }

  lemma AppendObserved(trace: seq<Observed>, o: Observed)
    ensures forall id :: AcceptedCount(trace + [o], id) == AcceptedCount(trace, id) + (if AcceptedOn(o, id) then 1 else 0)
    ensures forall k :: 0 <= k < |trace| ==> (trace + [o])[k] == trace[k]
  {
    assert (trace + [o])[..|trace + [o]| - 1] == trace;
  }

  /** A step that accepts no vote and at most adds polls without voters keeps the invariant. */
  lemma QuietStepPreserves(sv: Server, trace: seq<Observed>, sv': Server, o: Observed)
    requires RunInvariant(sv, trace)
    requires !(o.VoteObserved? && o.response.Voted?)
    requires ValidStore(sv'.store)
    requires forall id :: id in sv.store ==> id in sv'.store && sv'.store[id] == sv.store[id]
    requires forall id :: id in sv'.store && id !in sv.store ==> sv'.store[id].voterIps == []
    ensures RunInvariant(sv', trace + [o])
  {
    AppendObserved(trace, o);
  }

  /** A step that accepts a vote on `o.id`, appending its identities to that poll only,
      keeps the invariant. */
  lemma AcceptingStepPreserves(sv: Server, trace: seq<Observed>, sv': Server, o: Observed)
    requires RunInvariant(sv, trace)
    requires o.VoteObserved? && o.response.Voted?
    requires ValidStore(sv'.store)
    requires o.id in sv.store && o.id in sv'.store
    requires sv'.store == sv.store[o.id := sv'.store[o.id]]
    requires sv'.store[o.id].voterIps == sv.store[o.id].voterIps + [o.ip]
    requires sv'.store[o.id].voterTokens == sv.store[o.id].voterTokens + [o.token]
    ensures RunInvariant(sv', trace + [o])
  {
    AppendObserved(trace, o);
    var trace' := trace + [o];
    forall k | 0 <= k < |trace'| && trace'[k].VoteObserved? && trace'[k].response.Voted?
      ensures trace'[k].id in sv'.store
      ensures trace'[k].ip in sv'.store[trace'[k].id].voterIps
      ensures trace'[k].token in sv'.store[trace'[k].id].voterTokens
    {
      if k < |trace| {
        assert trace'[k] == trace[k];
      }
    }
  }

  lemma CreateStepPreserves(sv: Server, trace: seq<Observed>, create: CreateRequest, newId: PollId, baseUrl: string, env: Env)
    requires RunInvariant(sv, trace)
    ensures RunInvariant(Step(sv, CreateEvent(create, newId, baseUrl), env).server,
                         trace + [Step(sv, CreateEvent(create, newId, baseUrl), env).observed])
  {
    var st := Step(sv, CreateEvent(create, newId, baseUrl), env);
    CreateStoreShape(sv.store, create, newId, baseUrl, env.lower);
    QuietStepPreserves(sv, trace, st.server, st.observed);
  }

  lemma VoteStepPreserves(sv: Server, trace: seq<Observed>, vote: VoteRequest, env: Env)
    requires RunInvariant(sv, trace)
    ensures RunInvariant(Step(sv, VoteEvent(vote), env).server, trace + [Step(sv, VoteEvent(vote), env).observed])
  {
    var st := Step(sv, VoteEvent(vote), env);
    VoteStoreShape(sv.store, vote, env.ids);
    VotePreservesValidStore(sv.store, vote, env.ids);
    if st.observed.response.Voted? {
      AcceptingStepPreserves(sv, trace, st.server, st.observed);
    } else {
      QuietStepPreserves(sv, trace, st.server, st.observed);
    }
  }

  lemma JoinStepPreserves(sv: Server, trace: seq<Observed>, socket: SocketId, arg: JoinArg, env: Env)
    requires RunInvariant(sv, trace)
    ensures RunInvariant(Step(sv, JoinEvent(socket, arg), env).server, trace + [JoinObserved])
  {
    QuietStepPreserves(sv, trace, Step(sv, JoinEvent(socket, arg), env).server, JoinObserved);
  }

  lemma StepPreservesInvariant(sv: Server, trace: seq<Observed>, ev: Event, env: Env)
    requires RunInvariant(sv, trace)
    ensures RunInvariant(Step(sv, ev, env).server, trace + [Step(sv, ev, env).observed])
  {
    match ev
    case CreateEvent(create, newId, baseUrl) => CreateStepPreserves(sv, trace, create, newId, baseUrl, env);
    case VoteEvent(vote) => VoteStepPreserves(sv, trace, vote, env);
    case JoinEvent(socket, arg) => JoinStepPreserves(sv, trace, socket, arg, env);
  }

  /** Starting from the empty service, every sequence of creations, vote attempts and joins
      keeps every poll schema-valid with `totalVotes == |voterIps| == |voterTokens|`, and
      that number is the count of accepted votes on the poll. */
  lemma {:induction false} RunKeepsInvariant(evs: seq<Event>, env: Env)
    ensures RunInvariant(Run(Initial(), evs, env).server, Run(Initial(), evs, env).trace)
    ensures forall id :: id in Run(Initial(), evs, env).server.store ==>
      && TotalVotes(Run(Initial(), evs, env).server.store[id].options) == AcceptedCount(Run(Initial(), evs, env).trace, id)
      && |Run(Initial(), evs, env).server.store[id].voterTokens| == AcceptedCount(Run(Initial(), evs, env).trace, id)
  {
    if |evs| > 0 {
      RunKeepsInvariant(evs[..|evs| - 1], env);
      var prev := Run(Initial(), evs[..|evs| - 1], env);
      StepPreservesInvariant(prev.server, prev.trace, evs[|evs| - 1], env);
    }
  }

  /** The trace entry of event `j` is what that event produced from the state reached
      by the events before it. */
  lemma {:induction false} RunPrefix(sv: Server, evs: seq<Event>, env: Env, j: nat)
    requires j < |evs|
    ensures Run(sv, evs, env).trace[j] == Step(Run(sv, evs[..j], env).server, evs[j], env).observed
    ensures Run(sv, evs, env).trace[..j] == Run(sv, evs[..j], env).trace
  {
    if j < |evs| - 1 {
      var shorter := evs[..|evs| - 1];
      RunPrefix(sv, shorter, env, j);
      assert shorter[..j] == evs[..j];
      assert shorter[j] == evs[j];
    } else {
      assert evs[..|evs| - 1] == evs[..j];
    }
  }

  /** Exactly once per identity: two accepted votes on the same poll never share an
      address or a token, whatever else happens in between. */
  lemma ExactlyOncePerIdentity(evs: seq<Event>, env: Env, i: nat, j: nat)
    requires i < j < |evs|
    requires Run(Initial(), evs, env).trace[i].VoteObserved? && Run(Initial(), evs, env).trace[i].response.Voted?
    requires Run(Initial(), evs, env).trace[j].VoteObserved? && Run(Initial(), evs, env).trace[j].response.Voted?
    requires Run(Initial(), evs, env).trace[i].id == Run(Initial(), evs, env).trace[j].id
    ensures Run(Initial(), evs, env).trace[i].ip != Run(Initial(), evs, env).trace[j].ip
    ensures Run(Initial(), evs, env).trace[i].token != Run(Initial(), evs, env).trace[j].token
  {
    var trace := Run(Initial(), evs, env).trace;
    var before := Run(Initial(), evs[..j], env);
    RunPrefix(Initial(), evs, env, j);
    RunKeepsInvariant(evs[..j], env);
    assert before.trace[i] == trace[i];
    AcceptedStepWasFresh(before.server, evs[j], env);
  }

  /** Broadcast correctness of one vote attempt: a broadcast happens iff the vote was
      accepted; it carries exactly the response body; and a socket receives it iff it is
      in the room of the voted poll. */
  lemma VoteBroadcast(sv: Server, vote: VoteRequest, env: Env, socket: SocketId)
    ensures
      var o := Step(sv, VoteEvent(vote), env).observed;
      && (o.delivery.Some? <==> o.response.Voted?)
      && (o.delivery.Some? ==>
            && o.delivery.value.payload == o.response.payload
            && o.delivery.value.event == UpdateEvent
            && o.delivery.value.payload.totalVotes == TotalVotes(o.delivery.value.payload.options)
            && (socket in o.delivery.value.recipients <==> RoomName(vote.id) in RoomsOf(sv.rooms, socket)))
  {
  }

  /** No step takes a socket out of a room. */
  lemma StepKeepsRooms(sv: Server, ev: Event, env: Env, socket: SocketId)
    ensures RoomsOf(sv.rooms, socket) <= RoomsOf(Step(sv, ev, env).server.rooms, socket)
  {
  }

  lemma {:induction false} RunKeepsRooms(sv: Server, evs: seq<Event>, env: Env, k: nat, socket: SocketId)
    requires k <= |evs|
    ensures RoomsOf(Run(sv, evs[..k], env).server.rooms, socket) <= RoomsOf(Run(sv, evs, env).server.rooms, socket)
    decreases |evs| - k
  {
    if k < |evs| {
      var shorter := evs[..|evs| - 1];
      assert evs[..k] == shorter[..k];
      RunKeepsRooms(sv, shorter, env, k, socket);
      StepKeepsRooms(Run(sv, shorter, env).server, evs[|evs| - 1], env, socket);
    } else {
      assert evs[..k] == evs;
    }
  }

  lemma RunSnoc(sv: Server, evs: seq<Event>, env: Env, n: nat)
    requires n < |evs|
    ensures Run(sv, evs[..n + 1], env).server == Step(Run(sv, evs[..n], env).server, evs[n], env).server
  {
    assert evs[..n + 1][..n] == evs[..n];
  }

  lemma JoinStepJoins(sv: Server, socket: SocketId, id: PollId, env: Env)
    requires id != ""
    ensures RoomName(id) in RoomsOf(Step(sv, JoinEvent(socket, JoinString(id)), env).server.rooms, socket)
  {
  }

  /** Once a socket has joined a poll's room it stays in it. */
  lemma JoinPersists(evs: seq<Event>, env: Env, k: nat, j: nat, socket: SocketId, id: PollId)
    requires k < j <= |evs|
    requires evs[k] == JoinEvent(socket, JoinString(id)) && id != ""
    ensures RoomName(id) in RoomsOf(Run(Initial(), evs[..j], env).server.rooms, socket)
  {
    RunSnoc(Initial(), evs, env, k);
    JoinStepJoins(Run(Initial(), evs[..k], env).server, socket, id, env);
    assert evs[..j][..k + 1] == evs[..k + 1];
    RunKeepsRooms(Initial(), evs[..j], env, k + 1, socket);
  }

  /** A socket that joined with the string `id` receives every later accepted vote whose
      path segment is that same string. */
  lemma JoinedSocketReceivesUpdates(evs: seq<Event>, env: Env, k: nat, j: nat, socket: SocketId, id: PollId)
    requires k < j < |evs|
    requires evs[k] == JoinEvent(socket, JoinString(id)) && id != ""
    requires evs[j].VoteEvent? && evs[j].vote.id == id
    requires Run(Initial(), evs, env).trace[j].VoteObserved? && Run(Initial(), evs, env).trace[j].response.Voted?
    ensures Run(Initial(), evs, env).trace[j].delivery.Some?
    ensures socket in Run(Initial(), evs, env).trace[j].delivery.value.recipients
  {
    var before := Run(Initial(), evs[..j], env).server;
    RunPrefix(Initial(), evs, env, j);
    JoinPersists(evs, env, k, j, socket, id);
    VoteBroadcast(before, evs[j].vote, env, socket);
  }

  /** Event `ev` is a `poll:join` by `socket` with a non-empty string naming `room`. */
  predicate JoinsRoom(ev: Event, socket: SocketId, room: string) {
    && ev.JoinEvent? && ev.socket == socket
    && ev.arg.JoinString? && ev.arg.pollId != ""
    && room == RoomName(ev.arg.pollId)
  }

  /** Provenance of room membership: every room a socket is in after a run from the
      initial state was entered by an earlier `poll:join` of that socket. */
  lemma {:induction false} RoomsFromJoins(evs: seq<Event>, env: Env, socket: SocketId, room: string)
    requires room in RoomsOf(Run(Initial(), evs, env).server.rooms, socket)
    ensures exists k :: 0 <= k < |evs| && JoinsRoom(evs[k], socket, room)
    decreases |evs|
  {
    if |evs| == 0 {
      assert false;
    } else {
      var n := |evs| - 1;
      var prev := Run(Initial(), evs[..n], env).server;
      if room in RoomsOf(prev.rooms, socket) {
        RoomsFromJoins(evs[..n], env, socket, room);
        var k :| 0 <= k < n && JoinsRoom(evs[..n][k], socket, room);
        assert evs[k] == evs[..n][k];
      } else {
        assert JoinsRoom(evs[n], socket, room);
      }
    }
  }

  /** The converse of `JoinedSocketReceivesUpdates`: a socket that receives the broadcast
      of a vote sent with path segment `id` joined with exactly that string earlier in
      the run. Nothing emitted for one poll reaches a socket that joined only others. */
  lemma OnlyJoinedSocketsReceive(evs: seq<Event>, env: Env, j: nat, socket: SocketId)
    requires j < |evs| && evs[j].VoteEvent?
    requires Run(Initial(), evs, env).trace[j].VoteObserved?
    requires Run(Initial(), evs, env).trace[j].delivery.Some?
    requires socket in Run(Initial(), evs, env).trace[j].delivery.value.recipients
    ensures exists k :: 0 <= k < j && evs[k] == JoinEvent(socket, JoinString(evs[j].vote.id))
  {
    var before := Run(Initial(), evs[..j], env).server;
    var id := evs[j].vote.id;
    RunPrefix(Initial(), evs, env, j);
    VoteBroadcast(before, evs[j].vote, env, socket);
    RoomsFromJoins(evs[..j], env, socket, RoomName(id));
    var k :| 0 <= k < j && JoinsRoom(evs[..j][k], socket, RoomName(id));
    assert evs[k] == evs[..j][k];
    RoomNameInjective(evs[k].arg.pollId, id);
    assert evs[k] == JoinEvent(socket, JoinString(id));
  }

  /** A vote whose path segment is another spelling of the stored `_id` is counted, but its
      broadcast misses a socket whose only room is the one named after the stored `_id`,
      which is the id the poll page joins with. */
  lemma OtherSpellingMissesViewers(sv: Server, vote: VoteRequest, env: Env, socket: SocketId)
    requires Step(sv, VoteEvent(vote), env).observed.response.Voted?
    requires vote.id != env.ids.cast(vote.id)
    requires RoomsOf(sv.rooms, socket) == {RoomName(env.ids.cast(vote.id))}
    ensures Step(sv, VoteEvent(vote), env).observed.delivery.Some?
    ensures socket !in Step(sv, VoteEvent(vote), env).observed.delivery.value.recipients
  {
    VoteBroadcast(sv, vote, env, socket);
    if RoomName(vote.id) == RoomName(env.ids.cast(vote.id)) {
      RoomNameInjective(vote.id, env.ids.cast(vote.id));
    }
  }
}
