/**
 * The browser's refresh-once-and-retry-once client, and the same client composed with the
 * token table while other sessions use the server.
 */
module AuthClient {
  import opened Wrappers
  import opened RefreshTokens
  import opened RefreshRuns

  type RequestId = nat
  type FlightId = nat

  /** A response, as `isAuthExpiry` classifies it: a 401 that means the access token is dead, or anything else. */
  datatype Reply = Answered | AccessExpired

  datatype Phase =
    | FirstSent
    | AwaitingRefresh(flight: FlightId)
    | RetrySent
    | Returned
    | SessionExpired

  datatype Request = Request(phase: Phase, sends: nat)

  /** A refresh call on the wire: the cookie it carried, and the server's answer once there is one. */
  datatype Flight = Flight(presented: TokenId, answer: Option<Outcome>)

  datatype Client = Client(
    requests: map<RequestId, Request>, inflight: Option<FlightId>, flights: map<FlightId, Flight>,
    nextFlight: FlightId, cookie: TokenId, hasAccessToken: bool)

  function SetRequest(c: Client, r: RequestId, q: Request): Client {
    c.(requests := c.requests[r := q])
  }

  /** Join the refresh that is under way, or start one with the cookie of this moment. */
  function SilentRefresh(c: Client): (Client, FlightId) {
    if c.inflight.Some? then (c, c.inflight.value)
    else
      var id := c.nextFlight;
      (c.(inflight := Some(id), nextFlight := id + 1, flights := c.flights[id := Flight(c.cookie, None)]), id)
  }

  function OnStart(c: Client, r: RequestId): Client {
    SetRequest(c, r, Request(FirstSent, 1))
  }

  predicate ExpectsReply(c: Client, r: RequestId) {
    r in c.requests && (c.requests[r].phase.FirstSent? || c.requests[r].phase.RetrySent?)
  }

  function OnReply(c: Client, r: RequestId, reply: Reply): Client
    requires ExpectsReply(c, r)
  {
    var q := c.requests[r];
    if reply.Answered? then SetRequest(c, r, q.(phase := Returned))
    else if q.phase.FirstSent? then
      var (c', id) := SilentRefresh(c);
      SetRequest(c', r, q.(phase := AwaitingRefresh(id)))
    else SetRequest(c, r, q.(phase := SessionExpired)).(hasAccessToken := false)
  }

  /** What a settled refresh makes of a request that waited for it. */
  function Resume(q: Request, id: FlightId, ok: bool): Request {
    if q.phase != AwaitingRefresh(id) then q
    else if ok then Request(RetrySent, q.sends + 1)
    else q.(phase := SessionExpired)
  }

  predicate CanSettle(c: Client, id: FlightId) {
    id in c.flights && c.flights[id].answer.Some?
  }

  /** The response arrives: the cookie moves on, the slot is freed, and every waiter resumes. */
  function OnSettle(c: Client, id: FlightId): Client
    requires CanSettle(c, id)
  {
    var answer := c.flights[id].answer.value;
    c.(requests := map r | r in c.requests :: Resume(c.requests[r], id, answer.Issued?),
       inflight := None,
       flights := c.flights - {id},
       cookie := if answer.Issued? then answer.id else c.cookie,
       hasAccessToken := answer.Issued?)
  }

  /** The module as the page runs it: its variables change in place. */
  class AuthModule {
    var state: Client

    constructor (cookie: TokenId)
      ensures state == Client(map[], None, map[], 0, cookie, false)
    {
      state := Client(map[], None, map[], 0, cookie, false);
    }

    method StartRefresh() returns (id: FlightId)
      modifies this
      ensures (state, id) == SilentRefresh(old(state))
    {
      if state.inflight.Some? { return state.inflight.value; }
      id := state.nextFlight;
      var flight := Flight(state.cookie, None);
      state := state.(flights := state.flights[id := flight]);
      state := state.(inflight := Some(id));
      state := state.(nextFlight := id + 1);
    }

    method ReceiveReply(r: RequestId, reply: Reply)
      requires ExpectsReply(state, r)
      modifies this
      ensures state == OnReply(old(state), r, reply)
    {
      var q := state.requests[r];
      if reply.Answered? {
        state := SetRequest(state, r, q.(phase := Returned));
        return;
      }
      if q.phase.FirstSent? {
        var id := StartRefresh();
        state := SetRequest(state, r, q.(phase := AwaitingRefresh(id)));
        return;
      }
      state := state.(hasAccessToken := false);
      state := SetRequest(state, r, q.(phase := SessionExpired));
    }

    method SettleRefresh(id: FlightId)
      requires CanSettle(state, id)
      modifies this
      ensures state == OnSettle(old(state), id)
    {
      var answer := state.flights[id].answer.value;
      if answer.Issued? {
        state := state.(cookie := answer.id);
      }
      state := state.(hasAccessToken := answer.Issued?, flights := state.flights - {id});
      state := state.(inflight := None);
      var left := state.requests.Keys;
      ghost var before := state.requests;
      while left != {}
        invariant left <= before.Keys && state.requests.Keys == before.Keys
        invariant forall r :: r in before ==>
                                state.requests[r] == if r in left then before[r]
                                                     else Resume(before[r], id, answer.Issued?)
        invariant state ==
                  old(state).(requests := state.requests, inflight := None, flights := old(state).flights - {id},
                                       cookie := if answer.Issued? then answer.id else old(state).cookie,
                                       hasAccessToken := answer.Issued?)
      {
        var r :| r in left;
        state := SetRequest(state, r, Resume(state.requests[r], id, answer.Issued?));
        left := left - {r};
      }
    }
  }

  // ── the client and the server together ───────────────────────────────────

  datatype World = World(rows: seq<Token>, client: Client)

  datatype Event =
    | Start(r: RequestId)
    | ReplyTo(r: RequestId, reply: Reply)
    | ServeRefresh(flight: FlightId, now: int, dbNow: int)
    | Settle(flight: FlightId)
    | PageLoad // the page asks for a refresh without any request waiting for it
    | Elsewhere(op: Operation)

  function Refreshing(w: World, flight: FlightId, now: int, dbNow: int): (seq<Token>, Outcome)
    requires flight in w.client.flights
  {
    ApplyRotate(w.rows, Rotate(w.client.flights[flight].presented, now, dbNow))
  }

  /** One step. Other sessions do what they like, except present a token of family `f`. */
  ghost predicate WorldStep(f: FamilyId, w: World, e: Event, w': World) {
    match e
    case Start(r) => r !in w.client.requests && w' == w.(client := OnStart(w.client, r))
    case ReplyTo(r, reply) => ExpectsReply(w.client, r) && w' == w.(client := OnReply(w.client, r, reply))
    case ServeRefresh(id, now, dbNow) =>
      && id in w.client.flights && w.client.flights[id].answer.None?
      && var (rows', out) := Refreshing(w, id, now, dbNow);
         w' == World(rows', w.client.(flights := w.client.flights[id := w.client.flights[id].(answer := Some(out))]))
    case Settle(id) => CanSettle(w.client, id) && w' == w.(client := OnSettle(w.client, id))
    case PageLoad => w' == w.(client := SilentRefresh(w.client).0)
    case Elsewhere(op) =>
      && !(op.Rotate? && op.presented < |w.rows| && w.rows[op.presented].family == f)
      && w'.client == w.client
      && exists out :: Step(w.rows, op, w'.rows, out)
  }

  function LastOf(rows: seq<Token>, f: FamilyId): TokenId
    requires Chain(rows, f) != []
  {
    Chain(rows, f)[|Chain(rows, f)| - 1]
  }

  /** A page that has just logged in, or reloaded: it holds the last token of its family. */
  ghost predicate Fresh(f: FamilyId, w: World) {
    && Sound(w.rows) && Chain(w.rows, f) != []
    && w.client.requests == map[] && w.client.inflight.None? && w.client.flights == map[]
    && w.client.cookie == LastOf(w.rows, f)
  }

  ghost predicate IsRun(f: FamilyId, ws: seq<World>, es: seq<Event>) {
    && |ws| == |es| + 1
    && Fresh(f, ws[0])
    && forall k :: 0 <= k < |es| ==> WorldStep(f, ws[k], es[k], ws[k + 1])
  }

  /** At most one refresh is on the wire, and it is the one every waiter waits for. */
  predicate SingleFlight(c: Client) {
    && c.flights.Keys == (if c.inflight.Some? then {c.inflight.value} else {})
    && (c.inflight.Some? ==> c.inflight.value < c.nextFlight)
    && forall r :: r in c.requests && c.requests[r].phase.AwaitingRefresh? ==>
                     c.inflight == Some(c.requests[r].phase.flight)
  }

  predicate SentAtMostTwice(c: Client) {
    forall r :: r in c.requests ==>
                  match c.requests[r].phase
                  case FirstSent => c.requests[r].sends == 1
                  case AwaitingRefresh(_) => c.requests[r].sends == 1
                  case RetrySent => c.requests[r].sends == 2
                  case _ => 1 <= c.requests[r].sends <= 2
  }

  /** The page holds the last token of its family, unless the next one is on its way to it. */
  ghost predicate HoldsLast(f: FamilyId, w: World) {
    && Chain(w.rows, f) != []
    && (w.client.inflight.None? ==> w.client.cookie == LastOf(w.rows, f))
    && forall id :: id in w.client.flights ==>
                      && w.client.flights[id].presented == w.client.cookie
                      && match w.client.flights[id].answer
                         case Some(Issued(token, _)) => token == LastOf(w.rows, f)
                         case _ => w.client.cookie == LastOf(w.rows, f)
  }

  ghost predicate Inv(f: FamilyId, w: World) {
    Sound(w.rows) && SingleFlight(w.client) && SentAtMostTwice(w.client) && HoldsLast(f, w)
  }

  /** The end that the login row of the family set. */
  function FamilyEnd(rows: seq<Token>, f: FamilyId): int
    requires Chain(rows, f) != []
  {
    rows[Chain(rows, f)[0]].familyExpiresAt
  }

  /** What the server says to the last token of a family: never that it has been rotated away. */
  function LastAnswer(rows: seq<Token>, f: FamilyId, now: int): Outcome
    requires Chain(rows, f) != []
  {
    var r := rows[LastOf(rows, f)];
    if r.familyExpiresAt <= now then Expired
    else if r.revokedAt.Some? then Reused
    else if r.expiresAt <= now then Expired
    else Issued(|rows|, f)
  }

  lemma PresentLastAnswer(rows: seq<Token>, f: FamilyId, op: Operation)
    requires Sound(rows) && Chain(rows, f) != [] && op.Rotate? && op.presented == LastOf(rows, f)
    ensures rows[op.presented].family == f && ApplyRotate(rows, op).1 == LastAnswer(rows, f, op.now)
  {
    AnswersByPlace(rows, op, |Chain(rows, f)| - 1);
  }

  lemma PresentLast(rows: seq<Token>, f: FamilyId, op: Operation)
    requires Sound(rows) && Chain(rows, f) != [] && op.Rotate? && op.presented == LastOf(rows, f)
    ensures var (rows', out) := ApplyRotate(rows, op);
            && out == LastAnswer(rows, f, op.now)
            && Chain(rows', f) != []
            && LastOf(rows', f) == if out.Issued? then out.id else LastOf(rows, f)
  {
    PresentLastAnswer(rows, f, op);
    RotateEffect(rows, op);
  }

  /** Rotating a token of another family leaves this family's rows in place. */
  lemma RotateElsewhere(rows: seq<Token>, op: Operation, f: FamilyId)
    requires op.Rotate? && (op.presented < |rows| ==> rows[op.presented].family != f)
    ensures Chain(ApplyRotate(rows, op).0, f) == Chain(rows, f)
  {
    if op.presented < |rows| {
      var row := rows[op.presented];
      match DecideReuse(op.now, row, SuccessorFacts(rows, op.presented)) {
        case AllowRotate => ChainAppend(rows, SuccessorRow(row, op.presented, op.now, op.dbNow), f);
        case RevokeFamily => RevokeKeepsDead(rows, InFamily(row.family), op.now, f);
        case _ =>
      }
    }
  }

  /** Whatever happens elsewhere, the family keeps its last token. */
  lemma ElsewhereKeepsLast(rows: seq<Token>, op: Operation, rows': seq<Token>, out: Outcome, f: FamilyId)
    requires Step(rows, op, rows', out) && Chain(rows, f) != []
    requires !(op.Rotate? && op.presented < |rows| && rows[op.presented].family == f)
    ensures Chain(rows', f) == Chain(rows, f)
  {
    match op {
      case Login(user, family, now, _) =>
        var evicted :| IsEviction(ByFamily(rows, user, now), LIVE_FAMILY_CAP, evicted)
                       && rows' == AfterEviction(rows, evicted, now) + [LoginRow(op)];
        if evicted.Some? { RevokeKeepsDead(rows, InFamily(evicted.value), now, f); }
        ChainAppend(AfterEviction(rows, evicted, now), LoginRow(op), f);
        assert rows[Chain(rows, f)[0]].family == f;
      case Rotate(_, _, _) =>
        RotateElsewhere(rows, op, f);
      case RevokeOne(user, family, now) =>
        RevokeKeepsDead(rows, (r: Token) => r.user == user && r.family == family, now, f);
      case RevokeAll(user, now) =>
        RevokeKeepsDead(rows, (r: Token) => r.user == user, now, f);
      case RevokeAllExcept(user, spare, now) =>
        RevokeKeepsDead(rows, (r: Token) => r.user == user && r.family != spare, now, f);
    }
  }

  lemma ReplyKeepsClient(c: Client, r: RequestId, reply: Reply)
    requires SingleFlight(c) && SentAtMostTwice(c) && ExpectsReply(c, r)
    ensures SingleFlight(OnReply(c, r, reply)) && SentAtMostTwice(OnReply(c, r, reply))
  {
  }

  lemma SettleKeepsClient(c: Client, id: FlightId)
    requires SingleFlight(c) && SentAtMostTwice(c) && CanSettle(c, id)
    ensures SingleFlight(OnSettle(c, id)) && SentAtMostTwice(OnSettle(c, id))
  {
    assert c.inflight == Some(id);
  }

  lemma ReplyKeepsLast(f: FamilyId, w: World, r: RequestId, reply: Reply)
    requires SingleFlight(w.client) && HoldsLast(f, w) && ExpectsReply(w.client, r)
    ensures HoldsLast(f, w.(client := OnReply(w.client, r, reply)))
  {
  }

  lemma SettleKeepsLast(f: FamilyId, w: World, id: FlightId)
    requires SingleFlight(w.client) && HoldsLast(f, w) && CanSettle(w.client, id)
    ensures HoldsLast(f, w.(client := OnSettle(w.client, id)))
  {
    assert w.client.inflight == Some(id);
  }

  lemma ClientStepKeeps(f: FamilyId, w: World, e: Event, w': World)
    requires Inv(f, w) && WorldStep(f, w, e, w') && (e.Start? || e.ReplyTo? || e.Settle? || e.PageLoad?)
    ensures Inv(f, w')
  {
    match e {
      case ReplyTo(r, reply) =>
        ReplyKeepsClient(w.client, r, reply);
        ReplyKeepsLast(f, w, r, reply);
      case Settle(id) =>
        SettleKeepsClient(w.client, id);
        SettleKeepsLast(f, w, id);
      case Start(_) =>
      case PageLoad =>
    }
  }

  lemma ServerStepKeeps(f: FamilyId, w: World, e: Event, w': World)
    requires Inv(f, w) && WorldStep(f, w, e, w') && (e.ServeRefresh? || e.Elsewhere?)
    ensures Inv(f, w')
  {
    if e.ServeRefresh? {
      var op := Rotate(w.client.flights[e.flight].presented, e.now, e.dbNow);
      PresentLast(w.rows, f, op);
      StepKeepsSound(w.rows, op, w'.rows, ApplyRotate(w.rows, op).1);
    } else {
      var out :| Step(w.rows, e.op, w'.rows, out);
      ElsewhereKeepsLast(w.rows, e.op, w'.rows, out, f);
      StepKeepsSound(w.rows, e.op, w'.rows, out);
    }
  }

  lemma StepKeeps(f: FamilyId, w: World, e: Event, w': World)
    requires Inv(f, w) && WorldStep(f, w, e, w')
    ensures Inv(f, w')
  {
    if e.ServeRefresh? || e.Elsewhere? {
      ServerStepKeeps(f, w, e, w');
    } else {
      ClientStepKeeps(f, w, e, w');
    }
  }

  lemma FreshHoldsLast(f: FamilyId, w: World)
    requires Fresh(f, w)
    ensures Inv(f, w)
  {
  }

  lemma {:induction false} AlwaysInv(f: FamilyId, ws: seq<World>, es: seq<Event>, k: nat)
    requires IsRun(f, ws, es) && k <= |es|
    ensures Inv(f, ws[k])
  {
    if k > 0 {
      AlwaysInv(f, ws, es, k - 1);
      StepKeeps(f, ws[k - 1], es[k - 1], ws[k]);
    } else {
      FreshHoldsLast(f, ws[0]);
    }
  }

  /**
   * However many requests overlap, each is sent at most twice and at most one refresh is on the wire;
   * the server never answers it with benign retry, and answers with a revocation exactly when
   * somebody else had already revoked the family and the family has not ended.
   */
  lemma SoleHolderIsNeverReused(f: FamilyId, ws: seq<World>, es: seq<Event>, k: nat)
    requires IsRun(f, ws, es) && k < |es|
    ensures SentAtMostTwice(ws[k].client) && |ws[k].client.flights| <= 1
    ensures es[k].ServeRefresh? ==>
              && es[k].flight in ws[k].client.flights
              && var out := Refreshing(ws[k], es[k].flight, es[k].now, es[k].dbNow).1;
                 && (out.Issued? || out.Expired? || out.Reused?)
                 && Chain(ws[k].rows, f) != []
                 && (out.Reused? <==> AllRevoked(ws[k].rows, f) && es[k].now < FamilyEnd(ws[k].rows, f))
  {
    AlwaysInv(f, ws, es, k);
    assert WorldStep(f, ws[k], es[k], ws[k + 1]);
    if es[k].ServeRefresh? {
      PresentLast(ws[k].rows, f, Rotate(ws[k].client.flights[es[k].flight].presented, es[k].now, es[k].dbNow));
      FamilyAlike(ws[k].rows, f);
    }
  }

  lemma FamilyAlike(rows: seq<Token>, f: FamilyId)
    requires Sound(rows) && Chain(rows, f) != []
    ensures rows[LastOf(rows, f)].revokedAt.Some? <==> AllRevoked(rows, f)
    ensures rows[LastOf(rows, f)].familyExpiresAt == FamilyEnd(rows, f)
  {
  }

  lemma RefreshKeepsUnrevoked(rows: seq<Token>, f: FamilyId, op: Operation)
    requires Sound(rows) && Chain(rows, f) != [] && !AllRevoked(rows, f)
    requires op.Rotate? && op.presented == LastOf(rows, f)
    ensures !AllRevoked(ApplyRotate(rows, op).0, f)
  {
    PresentLast(rows, f, op);
    FamilyAlike(rows, f);
    RotateEffect(rows, op);
    var rows' := ApplyRotate(rows, op).0;
    var i :| 0 <= i < |rows| && rows[i].family == f && rows[i].revokedAt.None?;
    assert rows <= rows';
    assert rows'[i] == rows[i];
  }

  /** Nobody revokes the family elsewhere in the first `k` steps. */
  ghost predicate NotRevokedElsewhere(f: FamilyId, ws: seq<World>, es: seq<Event>, k: nat)
    requires |ws| == |es| + 1 && k <= |es|
  {
    && !AllRevoked(ws[0].rows, f)
    && forall j :: 0 <= j < k && es[j].Elsewhere? && !AllRevoked(ws[j].rows, f) ==> !AllRevoked(ws[j + 1].rows, f)
  }

  /** Without a revocation from elsewhere the family is never revoked: the client never causes one. */
  lemma {:induction false} ClientNeverRevokes(f: FamilyId, ws: seq<World>, es: seq<Event>, k: nat)
    requires IsRun(f, ws, es) && k <= |es| && NotRevokedElsewhere(f, ws, es, k)
    ensures !AllRevoked(ws[k].rows, f)
  {
    if k > 0 {
      ClientNeverRevokes(f, ws, es, k - 1);
      assert WorldStep(f, ws[k - 1], es[k - 1], ws[k]);
      if es[k - 1].ServeRefresh? {
        AlwaysInv(f, ws, es, k - 1);
        RefreshKeepsUnrevoked(ws[k - 1].rows, f,
                              Rotate(ws[k - 1].client.flights[es[k - 1].flight].presented,
                                     es[k - 1].now, es[k - 1].dbNow));
      }
    }
  }

  /** So as long as nobody else revokes the family, every refresh rotates or meets an ordinary expiry. */
  lemma SoleHolderRotatesOrExpires(f: FamilyId, ws: seq<World>, es: seq<Event>, k: nat)
    requires IsRun(f, ws, es) && k < |es| && NotRevokedElsewhere(f, ws, es, k) && es[k].ServeRefresh?
    ensures es[k].flight in ws[k].client.flights
    ensures var out := Refreshing(ws[k], es[k].flight, es[k].now, es[k].dbNow).1; out.Issued? || out.Expired?
  {
    SoleHolderIsNeverReused(f, ws, es, k);
    ClientNeverRevokes(f, ws, es, k);
  }

  // ── the one way to the reuse answer ──────────────────────────────────────

  /** A page that has just logged in, to a table with no other row. */
  function JustLoggedIn(user: UserId, f: FamilyId, now: int, dbNow: int): World {
    World([LoginRow(Login(user, f, now, dbNow))], Client(map[], None, map[], 0, 0, false))
  }

  lemma JustLoggedInIsFresh(user: UserId, f: FamilyId, now: int, dbNow: int)
    ensures var w := JustLoggedIn(user, f, now, dbNow); Fresh(f, w) && Chain(w.rows, f) == [0]
  {
    var w := JustLoggedIn(user, f, now, dbNow);
    assert w.rows[..0] == [];
    assert forall g :: Chain(w.rows, g) == if g == f then [0] else [];
    forall g ensures IsLinear(w.rows, g) {
      assert forall k :: 0 <= k < |Chain(w.rows, g)| ==> LinksBack(w.rows, Chain(w.rows, g), k);
    }
  }

  /** Another session revokes the page's family while a request is under way, and the request's refresh is answered. */
  function RevokedMeanwhile(w: World, user: UserId, f: FamilyId, now: int): (seq<World>, seq<Event>) {
    var w1 := w.(client := OnStart(w.client, 0));
    var w2 := w1.(rows := RevokeWhere(w.rows, (r: Token) => r.user == user && r.family == f, now));
    var w3 := w2.(client := SetRequest(SilentRefresh(w1.client).0, 0,
        Request(AwaitingRefresh(w.client.nextFlight), 1)));
    var (rows, out) := ApplyRotate(w3.rows, Rotate(w.client.cookie, now, now));
    var flight := Flight(w.client.cookie, Some(out));
    var w4 := World(rows, w3.client.(flights := w3.client.flights[w.client.nextFlight := flight]));
    ([w, w1, w2, w3, w4],
     [Start(0), Elsewhere(RevokeOne(user, f, now)), ReplyTo(0, AccessExpired),
      ServeRefresh(w.client.nextFlight, now, now)])
  }

  lemma RevokedMeanwhileIsRun(f: FamilyId, w: World, user: UserId, now: int)
    requires Fresh(f, w)
    ensures var (ws, es) := RevokedMeanwhile(w, user, f, now); IsRun(f, ws, es)
  {
    var (ws, es) := RevokedMeanwhile(w, user, f, now);
    assert WorldStep(f, ws[0], es[0], ws[1]);
    assert Step(ws[1].rows, es[1].op, ws[2].rows, Done);
    assert WorldStep(f, ws[1], es[1], ws[2]);
    assert WorldStep(f, ws[2], es[2], ws[3]);
    assert WorldStep(f, ws[3], es[3], ws[4]);
  }

  /**
   * A sole holder does get the reuse answer: after every login, when another session revokes the
   * family before it ends and the page refreshes.
   */
  lemma RevokedElsewhereIsReused(user: UserId, f: FamilyId, login: int, dbNow: int, now: int)
    requires now < login + 7_776_000_000
    ensures var (ws, es) := RevokedMeanwhile(JustLoggedIn(user, f, login, dbNow), user, f, now);
            && IsRun(f, ws, es) && es[3].ServeRefresh? && es[3].flight in ws[3].client.flights
            && Refreshing(ws[3], es[3].flight, es[3].now, es[3].dbNow).1 == Reused
  {
    var w := JustLoggedIn(user, f, login, dbNow);
    var (ws, es) := RevokedMeanwhile(w, user, f, now);
    JustLoggedInIsFresh(user, f, login, dbNow);
    RevokedMeanwhileIsRun(f, w, user, now);
    SoleHolderIsNeverReused(f, ws, es, 3);
    RevokeKeepsDead(w.rows, (r: Token) => r.user == user && r.family == f, now, f);
  }
}
