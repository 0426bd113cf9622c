/**
 * The life of one request through every run of the client: when it is sent again, when it is given up,
 * and that nothing else ever happens to it.
 */
module AuthClientRuns {
  import opened Wrappers
  import opened RefreshTokens
  import opened RefreshRuns
  import opened AuthClient

  predicate Waits(c: Client, r: RequestId, id: FlightId) {
    r in c.requests && c.requests[r].phase == AwaitingRefresh(id)
  }

  predicate Has(c: Client, r: RequestId, phase: Phase, sends: nat) {
    r in c.requests && c.requests[r] == Request(phase, sends)
  }

  predicate Unchanged(c: Client, c': Client, r: RequestId) {
    (r in c.requests <==> r in c'.requests) && (r in c.requests ==> c'.requests[r] == c.requests[r])
  }

  predicate Happens(c: Client, e: Event) {
    && (e.ReplyTo? ==> ExpectsReply(c, e.r))
    && (e.Settle? ==> CanSettle(c, e.flight))
  }

  /** What one event does to one request, in full. */
  predicate Lives(c: Client, e: Event, c': Client, r: RequestId)
    requires Happens(c, e)
  {
    if e == Start(r) then Has(c', r, FirstSent, 1)
    else if e == ReplyTo(r, Answered) then Has(c', r, Returned, c.requests[r].sends)
    else if e == ReplyTo(r, AccessExpired) && Has(c, r, FirstSent, 1) then
      && c'.inflight.Some? && Has(c', r, AwaitingRefresh(c'.inflight.value), 1)
      && c'.inflight.value in c'.flights && c'.flights[c'.inflight.value].presented == c'.cookie
      && c'.cookie == c.cookie && (c.inflight.Some? ==> c'.inflight == c.inflight)
    else if e == ReplyTo(r, AccessExpired) then Has(c', r, SessionExpired, 2) && !c'.hasAccessToken
    else if e.Settle? && Waits(c, r, e.flight) then
      match c.flights[e.flight].answer.value
      case Issued(token, _) => Has(c', r, RetrySent, 2) && c'.hasAccessToken && c'.cookie == token
      case _ => Has(c', r, SessionExpired, 1) && !c'.hasAccessToken && c'.cookie == c.cookie
    else Unchanged(c, c', r)
  }

  lemma StepLives(f: FamilyId, w: World, e: Event, w': World, r: RequestId)
    requires Inv(f, w) && WorldStep(f, w, e, w')
    ensures Happens(w.client, e) && Lives(w.client, e, w'.client, r)
  {
  }

  /** Every event of every run does to every request exactly what `Lives` says. */
  lemma RequestLives(f: FamilyId, ws: seq<World>, es: seq<Event>, k: nat, r: RequestId)
    requires IsRun(f, ws, es) && k < |es|
    ensures Happens(ws[k].client, es[k]) && Lives(ws[k].client, es[k], ws[k + 1].client, r)
    ensures SentAtMostTwice(ws[k].client)
  {
    AlwaysInv(f, ws, es, k);
    assert WorldStep(f, ws[k], es[k], ws[k + 1]);
    StepLives(f, ws[k], es[k], ws[k + 1], r);
  }

  // ── waiting ──────────────────────────────────────────────────────────────

  lemma {:induction false} StillWaits(f: FamilyId, ws: seq<World>, es: seq<Event>, j: nat, k: nat, r: RequestId)
    requires IsRun(f, ws, es) && j <= k <= |es|
    requires r in ws[j].client.requests && ws[j].client.requests[r].phase.AwaitingRefresh?
    requires forall i :: j <= i < k ==> !es[i].Settle?
    ensures Unchanged(ws[j].client, ws[k].client, r)
  {
    if j < k {
      StillWaits(f, ws, es, j, k - 1, r);
      RequestLives(f, ws, es, k - 1, r);
      StartsOnce(f, ws, es, k - 1);
    }
  }

  lemma StartsOnce(f: FamilyId, ws: seq<World>, es: seq<Event>, k: nat)
    requires IsRun(f, ws, es) && k < |es|
    ensures es[k].Start? ==> es[k].r !in ws[k].client.requests
  {
    assert WorldStep(f, ws[k], es[k], ws[k + 1]);
  }

  /** The server gave the answer that the client sees. */
  lemma {:induction false} AnswerWasServed(f: FamilyId, ws: seq<World>, es: seq<Event>, k: nat, id: FlightId)
    returns (i: nat)
    requires IsRun(f, ws, es) && k <= |es| && CanSettle(ws[k].client, id)
    ensures i < k && es[i].ServeRefresh? && es[i].flight == id && id in ws[i].client.flights
    ensures Refreshing(ws[i], id, es[i].now, es[i].dbNow).1 == ws[k].client.flights[id].answer.value
  {
    assert WorldStep(f, ws[k - 1], es[k - 1], ws[k]);
    if es[k - 1].ServeRefresh? && es[k - 1].flight == id {
      i := k - 1;
    } else {
      i := AnswerWasServed(f, ws, es, k - 1, id);
    }
  }

  /**
   * Whoever waits for a refresh waits until it settles, and then is sent once more if the server rotated the
   * token, and otherwise gives the session up.
   */
  lemma WaiterFollowsRefresh(f: FamilyId, ws: seq<World>, es: seq<Event>, j: nat, k: nat, r: RequestId)
    returns (i: nat)
    requires IsRun(f, ws, es) && j <= k < |es| && es[k].Settle?
    requires r in ws[j].client.requests && ws[j].client.requests[r].phase.AwaitingRefresh?
    requires forall i :: j <= i < k ==> !es[i].Settle?
    ensures Waits(ws[k].client, r, es[k].flight)
    ensures i < k && es[i].ServeRefresh? && es[i].flight == es[k].flight && es[i].flight in ws[i].client.flights
    ensures match Refreshing(ws[i], es[i].flight, es[i].now, es[i].dbNow).1
            case Issued(token, _) =>
              && Has(ws[k + 1].client, r, RetrySent, 2)
              && ws[k + 1].client.hasAccessToken && ws[k + 1].client.cookie == token
            case _ => Has(ws[k + 1].client, r, SessionExpired, 1) && !ws[k + 1].client.hasAccessToken
  {
    StillWaits(f, ws, es, j, k, r);
    AlwaysInv(f, ws, es, k);
    RequestLives(f, ws, es, k, r);
    i := AnswerWasServed(f, ws, es, k, es[k].flight);
  }

  // ── why a request stands where it stands ─────────────────────────────────

  /** The refresh that `r` waited for settles, with a new token or without. */
  predicate Resumes(c: Client, e: Event, r: RequestId, rotated: bool) {
    && e.Settle? && CanSettle(c, e.flight) && Waits(c, r, e.flight)
    && (c.flights[e.flight].answer.value.Issued? <==> rotated)
  }

  predicate IsRefused(c: Client, e: Event, r: RequestId) {
    e == ReplyTo(r, AccessExpired) && Has(c, r, RetrySent, 2)
  }

  lemma StepExpires(c: Client, e: Event, c': Client, r: RequestId)
    requires Happens(c, e) && Lives(c, e, c', r) && SentAtMostTwice(c)
    requires r in c'.requests && c'.requests[r].phase.SessionExpired?
    ensures Resumes(c, e, r, false) || IsRefused(c, e, r)
            || (r in c.requests && c.requests[r].phase.SessionExpired?)
  {
  }

  lemma StepSendsAgain(c: Client, e: Event, c': Client, r: RequestId)
    requires Happens(c, e) && Lives(c, e, c', r) && SentAtMostTwice(c)
    requires r in c'.requests && c'.requests[r].sends == 2
    ensures Resumes(c, e, r, true) || (r in c.requests && c.requests[r].sends == 2)
  {
  }

  lemma StepReturns(c: Client, e: Event, c': Client, r: RequestId)
    requires Happens(c, e) && Lives(c, e, c', r)
    requires r in c'.requests && c'.requests[r].phase.Returned?
    ensures e == ReplyTo(r, Answered) || (r in c.requests && c.requests[r].phase.Returned?)
  {
  }

  lemma NothingAtFirst(f: FamilyId, ws: seq<World>, es: seq<Event>)
    requires IsRun(f, ws, es)
    ensures ws[0].client.requests == map[]
  {
  }

  /** A request gives the session up only when its refresh failed or its second attempt was refused. */
  lemma {:induction false} WhyExpired(f: FamilyId, ws: seq<World>, es: seq<Event>, k: nat, r: RequestId)
    returns (i: nat)
    requires IsRun(f, ws, es) && k <= |es|
    requires r in ws[k].client.requests && ws[k].client.requests[r].phase.SessionExpired?
    ensures i < k && (Resumes(ws[i].client, es[i], r, false) || IsRefused(ws[i].client, es[i], r))
  {
    NothingAtFirst(f, ws, es);
    i := k - 1;
    RequestLives(f, ws, es, i, r);
    StepExpires(ws[i].client, es[i], ws[k].client, r);
    if r in ws[i].client.requests && ws[i].client.requests[r].phase.SessionExpired? {
      i := WhyExpired(f, ws, es, k - 1, r);
    }
  }

  /** A request is sent a second time only after a refresh that it waited for gave a new token. */
  lemma {:induction false} WhySentAgain(f: FamilyId, ws: seq<World>, es: seq<Event>, k: nat, r: RequestId)
    returns (i: nat)
    requires IsRun(f, ws, es) && k <= |es|
    requires r in ws[k].client.requests && ws[k].client.requests[r].sends == 2
    ensures i < k && Resumes(ws[i].client, es[i], r, true)
  {
    NothingAtFirst(f, ws, es);
    i := k - 1;
    RequestLives(f, ws, es, i, r);
    StepSendsAgain(ws[i].client, es[i], ws[k].client, r);
    if r in ws[i].client.requests && ws[i].client.requests[r].sends == 2 {
      i := WhySentAgain(f, ws, es, k - 1, r);
    }
  }

  /** A caller gets a response only when the server answered that very request. */
  lemma {:induction false} WhyReturned(f: FamilyId, ws: seq<World>, es: seq<Event>, k: nat, r: RequestId)
    returns (i: nat)
    requires IsRun(f, ws, es) && k <= |es|
    requires r in ws[k].client.requests && ws[k].client.requests[r].phase.Returned?
    ensures i < k && es[i] == ReplyTo(r, Answered)
  {
    NothingAtFirst(f, ws, es);
    i := k - 1;
    RequestLives(f, ws, es, i, r);
    StepReturns(ws[i].client, es[i], ws[k].client, r);
    if r in ws[i].client.requests && ws[i].client.requests[r].phase.Returned? {
      i := WhyReturned(f, ws, es, k - 1, r);
    }
  }
}
