/** The refresh-token table: what logins, rotations and revocations do to it. */
module RefreshTokens {
  import opened Wrappers

  type UserId = nat
  type FamilyId = nat
  type TokenId = nat // position in the table, which only grows

  const REUSE_LEEWAY_MS := 60_000
  const DAY_MS := 24 * 60 * 60 * 1000
  const REFRESH_TOKEN_TTL_MS := 60 * DAY_MS
  const FAMILY_LIFETIME_CAP_MS := 90 * DAY_MS
  const LIVE_FAMILY_CAP := 20

  /** `createdAt` is the database's clock; the other instants are the service's. */
  datatype Token = Token(
    user: UserId, family: FamilyId, rotatedFrom: Option<TokenId>,
    createdAt: int, expiresAt: int, familyExpiresAt: int, revokedAt: Option<int>)

  predicate IsLive(r: Token, now: int) {
    r.revokedAt.None? && now < r.expiresAt && now < r.familyExpiresAt
  }

  // ── the reuse decision ───────────────────────────────────────────────────

  datatype ReuseAction = AllowRotate | RevokeFamily | RejectExpired | RejectBenignRetry

  datatype Successor = Successor(createdAt: int, isCurrent: bool)

  function DecideReuse(now: int, presented: Token, successor: Option<Successor>): ReuseAction {
    if presented.familyExpiresAt <= now then RejectExpired
    else if presented.revokedAt.Some? then RevokeFamily
    else if presented.expiresAt <= now then RejectExpired
    else if successor.Some? then
      if successor.value.isCurrent && now - successor.value.createdAt <= REUSE_LEEWAY_MS then RejectBenignRetry
      else RevokeFamily
    else AllowRotate
  }

  /** The row with `rotatedFrom == id`, at or after position `from`. */
  function FindSuccessor(rows: seq<Token>, id: TokenId, from: nat := 0): (r: Option<TokenId>)
    requires from <= |rows|
    ensures r.Some? ==> from <= r.value < |rows| && rows[r.value].rotatedFrom == Some(id)
    ensures r.None? ==> forall k :: from <= k < |rows| ==> rows[k].rotatedFrom != Some(id)
    decreases |rows| - from
  {
    if from == |rows| then None
    else if rows[from].rotatedFrom == Some(id) then Some(from)
    else FindSuccessor(rows, id, from + 1)
  }

  function SuccessorFacts(rows: seq<Token>, id: TokenId): Option<Successor> {
    var s := FindSuccessor(rows, id);
    if s.None? then None
    else
      var row := rows[s.value];
      Some(Successor(row.createdAt, row.revokedAt.None? && FindSuccessor(rows, s.value).None?))
  }

  // ── the live-family cap ──────────────────────────────────────────────────

  /** Each family with a live row of `user`, with the earliest creation among those rows. */
  function ByFamily(rows: seq<Token>, user: UserId, now: int): map<FamilyId, int> {
    if rows == [] then map[]
    else
      var n := |rows| - 1;
      var before := ByFamily(rows[..n], user, now);
      var r := rows[n];
      if r.user != user || !IsLive(r, now) then before
      else if r.family in before && before[r.family] <= r.createdAt then before
      else before[r.family := r.createdAt]
  }

  predicate OlderOrSame(m: map<FamilyId, int>, f: FamilyId, g: FamilyId)
    requires f in m && g in m
  {
    m[f] < m[g] || (m[f] == m[g] && f <= g)
  }

  ghost predicate IsOldest(m: map<FamilyId, int>, f: FamilyId) {
    f in m && forall g :: g in m ==> OlderOrSame(m, f, g)
  }

  /** The family a new login must push out, if the live ones have used up the cap. */
  ghost predicate IsEviction(m: map<FamilyId, int>, cap: nat, evicted: Option<FamilyId>) {
    if |m| < cap then evicted.None? else evicted.Some? && IsOldest(m, evicted.value)
  }

  lemma OldestIsUnique(m: map<FamilyId, int>, f: FamilyId, g: FamilyId)
    requires IsOldest(m, f) && IsOldest(m, g)
    ensures f == g
  {
  }

  // ── the operations ───────────────────────────────────────────────────────

  datatype Operation =
    | Login(user: UserId, family: FamilyId, now: int, dbNow: int)
    | Rotate(presented: TokenId, now: int, dbNow: int)
    | RevokeOne(user: UserId, family: FamilyId, now: int)
    | RevokeAll(user: UserId, now: int)
    | RevokeAllExcept(user: UserId, spare: FamilyId, now: int)

  /** What the service finds out; the caller sees every refusal as the same error. */
  datatype Outcome =
    | Issued(id: TokenId, family: FamilyId)
    | Expired
    | BenignRetry
    | Reused
    | Unknown
    | Done

  /** `updateMany` over the rows of `scope` that are not revoked yet. */
  function RevokeWhere(rows: seq<Token>, scope: Token -> bool, now: int): seq<Token> {
    seq(|rows|, i requires 0 <= i < |rows| =>
      if scope(rows[i]) && rows[i].revokedAt.None? then rows[i].(revokedAt := Some(now)) else rows[i])
  }

  function InFamily(f: FamilyId): Token -> bool {
    (r: Token) => r.family == f
  }

  function LoginRow(op: Operation): Token
    requires op.Login?
  {
    Token(op.user, op.family, None, op.dbNow, op.now + REFRESH_TOKEN_TTL_MS, op.now + FAMILY_LIFETIME_CAP_MS, None)
  }

  function SuccessorRow(presented: Token, id: TokenId, now: int, dbNow: int): Token {
    Token(presented.user, presented.family, Some(id), dbNow, now + REFRESH_TOKEN_TTL_MS,
        presented.familyExpiresAt, None)
  }

  function AfterEviction(rows: seq<Token>, evicted: Option<FamilyId>, now: int): seq<Token> {
    if evicted.None? then rows else RevokeWhere(rows, InFamily(evicted.value), now)
  }

  function ApplyRotate(rows: seq<Token>, op: Operation): (seq<Token>, Outcome)
    requires op.Rotate?
  {
    if op.presented >= |rows| then (rows, Unknown)
    else
      var row := rows[op.presented];
      match DecideReuse(op.now, row, SuccessorFacts(rows, op.presented))
      case AllowRotate =>
        (rows + [SuccessorRow(row, op.presented, op.now, op.dbNow)], Issued(|rows|, row.family))
      case RevokeFamily => (RevokeWhere(rows, InFamily(row.family), op.now), Reused)
      case RejectExpired => (rows, Expired)
      case RejectBenignRetry => (rows, BenignRetry)
  }

  /** One committed transaction. A login's family id is fresh. */
  ghost predicate Step(rows: seq<Token>, op: Operation, rows': seq<Token>, out: Outcome) {
    match op
    case Login(user, family, now, _) =>
      && (forall i :: 0 <= i < |rows| ==> rows[i].family != family)
      && out == Issued(|rows|, family)
      && exists evicted :: IsEviction(ByFamily(rows, user, now), LIVE_FAMILY_CAP, evicted)
                           && rows' == AfterEviction(rows, evicted, now) + [LoginRow(op)]
    case Rotate(_, _, _) => (rows', out) == ApplyRotate(rows, op)
    case RevokeOne(user, family, now) =>
      rows' == RevokeWhere(rows, (r: Token) => r.user == user && r.family == family, now) && out == Done
    case RevokeAll(user, now) =>
      rows' == RevokeWhere(rows, (r: Token) => r.user == user, now) && out == Done
    case RevokeAllExcept(user, spare, now) =>
      rows' == RevokeWhere(rows, (r: Token) => r.user == user && r.family != spare, now) && out == Done
  }
}
