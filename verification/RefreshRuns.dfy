/** What every run of logins, rotations and revocations keeps. */
module RefreshRuns {
  import opened Wrappers
  import opened RefreshTokens

  /** The rows of a family, oldest first. */
  function Chain(rows: seq<Token>, f: FamilyId): (c: seq<TokenId>)
    ensures forall k :: 0 <= k < |c| ==> c[k] < |rows| && rows[c[k]].family == f
    ensures forall j, k :: 0 <= j < k < |c| ==> c[j] < c[k]
  {
    if rows == [] then []
    else
      var n := |rows| - 1;
      Chain(rows[..n], f) + if rows[n].family == f then [n] else []
  }

  lemma {:induction false} ChainHas(rows: seq<Token>, f: FamilyId, id: TokenId)
    requires id < |rows|
    ensures id in Chain(rows, f) <==> rows[id].family == f
  {
    var n := |rows| - 1;
    if id < n {
      ChainHas(rows[..n], f, id);
    }
  }

  /** The `k`-th row of the chain `c` comes from the one before it, or from a login. */
  predicate LinksBack(rows: seq<Token>, c: seq<TokenId>, k: nat) {
    && k < |c| && c[k] < |rows|
    && if k == 0 then rows[c[k]].rotatedFrom.None? else rows[c[k]].rotatedFrom == Some(c[k - 1])
  }

  /** A family starts at its login row, and each later row was rotated from the one before it. */
  ghost predicate IsLinear(rows: seq<Token>, f: FamilyId) {
    var c := Chain(rows, f);
    forall k :: 0 <= k < |c| ==> LinksBack(rows, c, k)
  }

  /** The rows of a family share their user and their end, and are all revoked or all not. */
  ghost predicate IsUniform(rows: seq<Token>) {
    forall i, j :: 0 <= i < |rows| && 0 <= j < |rows| && rows[i].family == rows[j].family ==>
                     && rows[i].user == rows[j].user
                     && rows[i].familyExpiresAt == rows[j].familyExpiresAt
                     && (rows[i].revokedAt.None? <==> rows[j].revokedAt.None?)
  }

  ghost predicate Sound(rows: seq<Token>) {
    IsUniform(rows) && forall f :: IsLinear(rows, f)
  }

  /** The table after a run of operations, each with its result. */
  datatype History = History(ops: seq<Operation>, tables: seq<seq<Token>>, outcomes: seq<Outcome>)

  ghost predicate IsStep(h: History, k: nat) {
    && k < |h.ops| && k < |h.outcomes| && k + 1 < |h.tables|
    && Step(h.tables[k], h.ops[k], h.tables[k + 1], h.outcomes[k])
  }

  ghost predicate IsHistory(h: History) {
    && |h.tables| == |h.ops| + 1
    && |h.outcomes| == |h.ops|
    && h.tables[0] == []
    && forall k :: 0 <= k < |h.ops| ==> IsStep(h, k)
  }

  /** Two tables whose rows agree except for revocations. */
  ghost predicate SameButRevoked(rows: seq<Token>, rows': seq<Token>) {
    && |rows| == |rows'|
    && forall i :: 0 <= i < |rows| ==>
                     && rows'[i] == rows[i].(revokedAt := rows'[i].revokedAt)
                     && (rows[i].revokedAt.Some? ==> rows'[i] == rows[i])
  }

  lemma {:induction false} ChainIgnoresRevocation(rows: seq<Token>, rows': seq<Token>, f: FamilyId)
    requires SameButRevoked(rows, rows')
    ensures Chain(rows', f) == Chain(rows, f)
  {
    if rows != [] {
      ChainIgnoresRevocation(rows[..|rows| - 1], rows'[..|rows| - 1], f);
    }
  }

  lemma ChainAppend(rows: seq<Token>, r: Token, f: FamilyId)
    ensures Chain(rows + [r], f) == Chain(rows, f) + if r.family == f then [|rows|] else []
  {
    assert (rows + [r])[..|rows|] == rows;
  }

  lemma RevokeKeepsLinear(rows: seq<Token>, scope: Token -> bool, now: int)
    ensures SameButRevoked(rows, RevokeWhere(rows, scope, now))
    ensures (forall f :: IsLinear(rows, f)) ==> forall f :: IsLinear(RevokeWhere(rows, scope, now), f)
  {
    var rows' := RevokeWhere(rows, scope, now);
    forall f | IsLinear(rows, f)
      ensures IsLinear(rows', f)
    {
      ChainIgnoresRevocation(rows, rows', f);
      forall k | 0 <= k < |Chain(rows', f)|
        ensures LinksBack(rows', Chain(rows', f), k)
      {
        assert LinksBack(rows, Chain(rows, f), k);
      }
    }
  }

  /** A revocation that treats the rows of a family alike keeps the table sound. */
  lemma RevokeKeepsSound(rows: seq<Token>, scope: Token -> bool, now: int)
    requires Sound(rows)
    requires forall i, j :: 0 <= i < |rows| && 0 <= j < |rows| && rows[i].family == rows[j].family ==>
                              scope(rows[i]) == scope(rows[j])
    ensures Sound(RevokeWhere(rows, scope, now))
  {
    RevokeKeepsLinear(rows, scope, now);
  }

  /** Where a row stands in its family, and which row that makes its predecessor. */
  lemma PlaceOf(rows: seq<Token>, id: TokenId) returns (k: nat)
    requires id < |rows| && IsLinear(rows, rows[id].family)
    ensures var c := Chain(rows, rows[id].family);
            k < |c| && c[k] == id && LinksBack(rows, c, k)
  {
    var c := Chain(rows, rows[id].family);
    ChainHas(rows, rows[id].family, id);
    k :| 0 <= k < |c| && c[k] == id;
  }

  lemma NextInFamily(rows: seq<Token>, f: FamilyId, k: nat)
    requires IsLinear(rows, f) && k + 1 < |Chain(rows, f)|
    ensures rows[Chain(rows, f)[k + 1]].rotatedFrom == Some(Chain(rows, f)[k])
  {
    assert LinksBack(rows, Chain(rows, f), k + 1);
  }

  /** A row without a successor is the last of its family. */
  lemma UnrotatedIsLast(rows: seq<Token>, id: TokenId)
    requires id < |rows| && IsLinear(rows, rows[id].family) && FindSuccessor(rows, id).None?
    ensures var c := Chain(rows, rows[id].family); c != [] && c[|c| - 1] == id
  {
    var f := rows[id].family;
    var k := PlaceOf(rows, id);
    if k + 1 < |Chain(rows, f)| {
      NextInFamily(rows, f, k);
      assert false;
    }
  }

  lemma AppendKeepsLinear(rows: seq<Token>, r: Token, f: FamilyId)
    requires IsLinear(rows, f)
    requires r.family == f ==> var c := Chain(rows, f);
                               r.rotatedFrom == if c == [] then None else Some(c[|c| - 1])
    ensures IsLinear(rows + [r], f)
  {
    ChainAppend(rows, r, f);
    var c, c' := Chain(rows, f), Chain(rows + [r], f);
    forall k | 0 <= k < |c'|
      ensures LinksBack(rows + [r], c', k)
    {
      if k < |c| {
        assert LinksBack(rows, c, k);
        assert c'[k] == c[k] && (k > 0 ==> c'[k - 1] == c[k - 1]);
      } else {
        assert c'[k] == |rows| && (k > 0 ==> c'[k - 1] == c[k - 1]);
      }
    }
  }

  lemma LoginKeepsSound(rows: seq<Token>, r: Token)
    requires Sound(rows) && r.rotatedFrom.None?
    requires forall i :: 0 <= i < |rows| ==> rows[i].family != r.family
    ensures Sound(rows + [r])
  {
    forall f ensures IsLinear(rows + [r], f) {
      assert IsLinear(rows, f);
      assert Chain(rows, f) != [] ==> rows[Chain(rows, f)[0]].family == f;
      AppendKeepsLinear(rows, r, f);
    }
  }

  lemma SuccessorIsNext(rows: seq<Token>, r: Token, id: TokenId)
    requires id < |rows| && IsLinear(rows, rows[id].family) && FindSuccessor(rows, id).None?
    requires r.family == rows[id].family && r.rotatedFrom == Some(id)
    ensures IsLinear(rows + [r], r.family)
  {
    UnrotatedIsLast(rows, id);
    AppendKeepsLinear(rows, r, r.family);
  }

  lemma SuccessorKeepsLinear(rows: seq<Token>, r: Token, id: TokenId)
    requires (forall f :: IsLinear(rows, f)) && id < |rows| && FindSuccessor(rows, id).None?
    requires r.family == rows[id].family && r.rotatedFrom == Some(id)
    ensures forall f :: IsLinear(rows + [r], f)
  {
    forall f ensures IsLinear(rows + [r], f) {
      assert IsLinear(rows, f);
      if f == r.family {
        SuccessorIsNext(rows, r, id);
      } else {
        AppendKeepsLinear(rows, r, f);
      }
    }
  }

  lemma RotationKeepsSound(rows: seq<Token>, id: TokenId, now: int, dbNow: int)
    requires Sound(rows) && id < |rows| && FindSuccessor(rows, id).None? && rows[id].revokedAt.None?
    ensures Sound(rows + [SuccessorRow(rows[id], id, now, dbNow)])
  {
    var r := SuccessorRow(rows[id], id, now, dbNow);
    SuccessorKeepsLinear(rows, r, id);
    AppendKeepsUniform(rows, r, id);
  }

  lemma AppendKeepsUniform(rows: seq<Token>, r: Token, id: TokenId)
    requires IsUniform(rows) && id < |rows|
    requires r.family == rows[id].family && r.user == rows[id].user
    requires r.familyExpiresAt == rows[id].familyExpiresAt && r.revokedAt.None? && rows[id].revokedAt.None?
    ensures IsUniform(rows + [r])
  {
  }

  lemma StepKeepsSound(rows: seq<Token>, op: Operation, rows': seq<Token>, out: Outcome)
    requires Sound(rows) && Step(rows, op, rows', out)
    ensures Sound(rows')
  {
    match op {
      case Login(user, family, now, _) =>
        var evicted :| IsEviction(ByFamily(rows, user, now), LIVE_FAMILY_CAP, evicted)
                       && rows' == AfterEviction(rows, evicted, now) + [LoginRow(op)];
        if evicted.Some? { RevokeKeepsSound(rows, InFamily(evicted.value), now); }
        LoginKeepsSound(AfterEviction(rows, evicted, now), LoginRow(op));
      case Rotate(id, now, dbNow) =>
        if id < |rows| {
          match DecideReuse(now, rows[id], SuccessorFacts(rows, id)) {
            case AllowRotate => RotationKeepsSound(rows, id, now, dbNow);
            case RevokeFamily => RevokeKeepsSound(rows, InFamily(rows[id].family), now);
            case _ =>
          }
        }
      case RevokeOne(user, family, now) =>
        RevokeKeepsSound(rows, (r: Token) => r.user == user && r.family == family, now);
      case RevokeAll(user, now) =>
        RevokeKeepsSound(rows, (r: Token) => r.user == user, now);
      case RevokeAllExcept(user, spare, now) =>
        RevokeKeepsSound(rows, (r: Token) => r.user == user && r.family != spare, now);
    }
  }

  /** Every reachable table is sound: each family is one chain, uniform in user, end and revocation. */
  lemma {:induction false} AlwaysSound(h: History, k: nat)
    requires IsHistory(h) && k <= |h.ops|
    ensures Sound(h.tables[k])
  {
    if k > 0 {
      AlwaysSound(h, k - 1);
      assert IsStep(h, k - 1);
      StepKeepsSound(h.tables[k - 1], h.ops[k - 1], h.tables[k], h.outcomes[k - 1]);
    }
  }

  /** No token ever has two successors. */
  lemma AtMostOneSuccessor(rows: seq<Token>, i: TokenId, j: TokenId)
    requires Sound(rows) && i < j < |rows|
    ensures rows[i].rotatedFrom.Some? ==> rows[i].rotatedFrom.value < i && rows[i].rotatedFrom != rows[j].rotatedFrom
    ensures rows[i].rotatedFrom.Some? ==> rows[rows[i].rotatedFrom.value].family == rows[i].family
  {
    var k := PlaceOf(rows, i);
    var l := PlaceOf(rows, j);
  }

  // ── what a presented token gets, by its place in its family ──────────────

  /** The answer to presenting the `k`-th token of the chain `c`. */
  function AnswerByPlace(rows: seq<Token>, c: seq<TokenId>, k: nat, now: int): Outcome
    requires k < |c| && forall j :: 0 <= j < |c| ==> c[j] < |rows|
  {
    var r := rows[c[k]];
    if r.familyExpiresAt <= now then Expired
    else if r.revokedAt.Some? then Reused
    else if r.expiresAt <= now then Expired
    else if k + 1 == |c| then Issued(|rows|, r.family)
    else if k + 2 == |c| && now - rows[c[k + 1]].createdAt <= 60_000 then BenignRetry
    else Reused
  }

  predicate AllRevoked(rows: seq<Token>, f: FamilyId) {
    forall i :: 0 <= i < |rows| && rows[i].family == f ==> rows[i].revokedAt.Some?
  }

  lemma SuccessorByPlace(rows: seq<Token>, f: FamilyId, k: nat)
    requires Sound(rows) && k < |Chain(rows, f)|
    ensures var c := Chain(rows, f);
            FindSuccessor(rows, c[k]) == if k + 1 < |c| then Some(c[k + 1]) else None
  {
    var c := Chain(rows, f);
    var s := FindSuccessor(rows, c[k]);
    assert IsLinear(rows, f);
    if k + 1 < |c| {
      NextInFamily(rows, f, k);
      if s.value < c[k + 1] { AtMostOneSuccessor(rows, s.value, c[k + 1]); }
      if s.value > c[k + 1] { AtMostOneSuccessor(rows, c[k + 1], s.value); }
    } else if s.Some? {
      var g := rows[s.value].family;
      assert IsLinear(rows, g);
      var l := PlaceOf(rows, s.value);
    }
  }

  lemma FactsByPlace(rows: seq<Token>, f: FamilyId, k: nat)
    requires Sound(rows) && k < |Chain(rows, f)|
    ensures var c := Chain(rows, f);
            && (k + 1 == |c| ==> SuccessorFacts(rows, c[k]).None?)
            && (k + 1 < |c| && rows[c[k]].revokedAt.None? ==>
                  SuccessorFacts(rows, c[k]) == Some(Successor(rows[c[k + 1]].createdAt, k + 2 == |c|)))
  {
    SuccessorByPlace(rows, f, k);
    if k + 1 < |Chain(rows, f)| { SuccessorByPlace(rows, f, k + 1); }
  }

  lemma AnswersByPlace(rows: seq<Token>, op: Operation, k: nat)
    requires Sound(rows) && op.Rotate? && op.presented < |rows|
    requires var c := Chain(rows, rows[op.presented].family); k < |c| && c[k] == op.presented
    ensures ApplyRotate(rows, op).1 == AnswerByPlace(rows, Chain(rows, rows[op.presented].family), k, op.now)
  {
    FactsByPlace(rows, rows[op.presented].family, k);
  }

  lemma RevokeFamilyEffect(rows: seq<Token>, f: FamilyId, now: int)
    ensures var rows' := RevokeWhere(rows, InFamily(f), now);
            AllRevoked(rows', f) && Chain(rows', f) == Chain(rows, f) && SameButRevoked(rows, rows')
  {
    ChainIgnoresRevocation(rows, RevokeWhere(rows, InFamily(f), now), f);
  }

  /** What a rotation leaves of the presented token's family. */
  lemma RotateEffect(rows: seq<Token>, op: Operation)
    requires op.Rotate? && op.presented < |rows|
    ensures var f := rows[op.presented].family;
            var (rows', out) := ApplyRotate(rows, op);
            match out
            case Issued(id, g) => g == f && id == |rows| && Chain(rows', f) == Chain(rows, f) + [id] && rows <= rows'
            case Reused => AllRevoked(rows', f) && Chain(rows', f) == Chain(rows, f) && SameButRevoked(rows, rows')
            case _ => rows' == rows
  {
    var row := rows[op.presented];
    match DecideReuse(op.now, row, SuccessorFacts(rows, op.presented)) {
      case AllowRotate => ChainAppend(rows, SuccessorRow(row, op.presented, op.now, op.dbNow), row.family);
      case RevokeFamily => RevokeFamilyEffect(rows, row.family, op.now);
      case _ =>
    }
  }

  /**
   * Before the family ends, a revoked token, and an unexpired one that has been rotated away and is
   * not the immediate predecessor of the last within the leeway, revoke the whole family; only the
   * last token of a family that is not revoked rotates.
   */
  lemma RotateByPlace(h: History, n: nat, k: nat)
    requires IsHistory(h) && n < |h.ops| && h.ops[n].Rotate? && h.ops[n].presented < |h.tables[n]|
    requires var c := Chain(h.tables[n], h.tables[n][h.ops[n].presented].family);
             k < |c| && c[k] == h.ops[n].presented
    ensures var f := h.tables[n][h.ops[n].presented].family;
            && h.outcomes[n] == AnswerByPlace(h.tables[n], Chain(h.tables[n], f), k, h.ops[n].now)
            && (h.outcomes[n].Reused? ==> AllRevoked(h.tables[n + 1], f))
  {
    AlwaysSound(h, n);
    assert IsStep(h, n);
    AnswersByPlace(h.tables[n], h.ops[n], k);
    RotateEffect(h.tables[n], h.ops[n]);
  }

  // ── a revoked family is dead ─────────────────────────────────────────────

  lemma RevokeKeepsDead(rows: seq<Token>, scope: Token -> bool, now: int, f: FamilyId)
    ensures var rows' := RevokeWhere(rows, scope, now);
            && Chain(rows', f) == Chain(rows, f)
            && (AllRevoked(rows, f) ==> AllRevoked(rows', f))
  {
    ChainIgnoresRevocation(rows, RevokeWhere(rows, scope, now), f);
  }

  lemma RotateKeepsDead(rows: seq<Token>, op: Operation, f: FamilyId)
    requires op.Rotate? && AllRevoked(rows, f)
    ensures var (rows', out) := ApplyRotate(rows, op);
            AllRevoked(rows', f) && Chain(rows', f) == Chain(rows, f) && !(out.Issued? && out.family == f)
  {
    var id := op.presented;
    if id < |rows| {
      match DecideReuse(op.now, rows[id], SuccessorFacts(rows, id)) {
        case AllowRotate => ChainAppend(rows, SuccessorRow(rows[id], id, op.now, op.dbNow), f);
        case RevokeFamily => RevokeKeepsDead(rows, InFamily(rows[id].family), op.now, f);
        case _ =>
      }
    }
  }

  lemma LoginKeepsDead(rows: seq<Token>, kept: seq<Token>, r: Token, f: FamilyId)
    requires AllRevoked(kept, f) && Chain(kept, f) == Chain(rows, f) != []
    requires forall i :: 0 <= i < |rows| ==> rows[i].family != r.family
    ensures r.family != f && AllRevoked(kept + [r], f) && Chain(kept + [r], f) == Chain(rows, f)
  {
  }

  lemma StepKeepsDead(rows: seq<Token>, op: Operation, rows': seq<Token>, out: Outcome, f: FamilyId)
    requires Step(rows, op, rows', out)
    requires AllRevoked(rows, f) && Chain(rows, f) != []
    ensures AllRevoked(rows', f) && Chain(rows', f) == Chain(rows, f)
    ensures !(out.Issued? && out.family == f)
  {
    match op {
      case Login(user, family, now, _) =>
        var evicted :| IsEviction(ByFamily(rows, user, now), LIVE_FAMILY_CAP, evicted)
                       && rows' == AfterEviction(rows, evicted, now) + [LoginRow(op)];
        if evicted.Some? { RevokeKeepsDead(rows, InFamily(evicted.value), now, f); }
        LoginKeepsDead(rows, AfterEviction(rows, evicted, now), LoginRow(op), f);
      case Rotate(_, _, _) => RotateKeepsDead(rows, op, f);
      case RevokeOne(user, family, now) =>
        RevokeKeepsDead(rows, (r: Token) => r.user == user && r.family == family, now, f);
      case RevokeAll(user, now) =>
        RevokeKeepsDead(rows, (r: Token) => r.user == user, now, f);
      case RevokeAllExcept(user, spare, now) =>
        RevokeKeepsDead(rows, (r: Token) => r.user == user && r.family != spare, now, f);
    }
  }

  /** Once a family is revoked it stays so, gains no row, and never rotates again. */
  lemma {:induction false} RevokedForGood(h: History, f: FamilyId, j: nat, k: nat)
    requires IsHistory(h) && j <= k < |h.ops|
    requires AllRevoked(h.tables[j], f) && Chain(h.tables[j], f) != []
    ensures AllRevoked(h.tables[k], f) && Chain(h.tables[k], f) == Chain(h.tables[j], f)
    ensures !(h.outcomes[k].Issued? && h.outcomes[k].family == f)
  {
    if j < k {
      RevokedForGood(h, f, j, k - 1);
      HistoryKeepsDead(h, f, k - 1);
    }
    HistoryKeepsDead(h, f, k);
  }

  lemma HistoryKeepsDead(h: History, f: FamilyId, k: nat)
    requires IsHistory(h) && k < |h.ops|
    requires AllRevoked(h.tables[k], f) && Chain(h.tables[k], f) != []
    ensures AllRevoked(h.tables[k + 1], f) && Chain(h.tables[k + 1], f) == Chain(h.tables[k], f)
    ensures !(h.outcomes[k].Issued? && h.outcomes[k].family == f)
  {
    assert IsStep(h, k);
    StepKeepsDead(h.tables[k], h.ops[k], h.tables[k + 1], h.outcomes[k], f);
  }

  // ── how long a family lives ──────────────────────────────────────────────

  predicate EndsAt(rows: seq<Token>, f: FamilyId, end: int) {
    (exists i :: 0 <= i < |rows| && rows[i].family == f) &&
    forall i :: 0 <= i < |rows| && rows[i].family == f ==> rows[i].familyExpiresAt == end
  }

  lemma StepKeepsEnd(rows: seq<Token>, op: Operation, rows': seq<Token>, out: Outcome, f: FamilyId, end: int)
    requires Step(rows, op, rows', out) && EndsAt(rows, f, end)
    ensures EndsAt(rows', f, end)
    ensures op.Rotate? && out.Issued? && out.family == f ==> op.now < end
  {
    var i :| 0 <= i < |rows| && rows[i].family == f;
    assert i < |rows'| && rows'[i].family == f;
  }

  lemma {:induction false} FamilyEnd(h: History, s: nat, k: nat)
    requires IsHistory(h) && s < k <= |h.ops| && h.ops[s].Login?
    ensures EndsAt(h.tables[k], h.ops[s].family, h.ops[s].now + 7_776_000_000)
  {
    assert IsStep(h, k - 1);
    if k == s + 1 {
      var n := |h.tables[s]|;
      assert h.tables[k][n] == LoginRow(h.ops[s]);
    } else {
      FamilyEnd(h, s, k - 1);
      StepKeepsEnd(h.tables[k - 1], h.ops[k - 1], h.tables[k], h.outcomes[k - 1], h.ops[s].family,
                   h.ops[s].now + FAMILY_LIFETIME_CAP_MS);
    }
  }

  /** No rotation succeeds 90 days or more after the login of its family. */
  lemma NoLateRotation(h: History, s: nat, k: nat)
    requires IsHistory(h) && s < k < |h.ops| && h.ops[s].Login? && h.ops[k].Rotate?
    requires h.outcomes[k].Issued? && h.outcomes[k].family == h.ops[s].family
    ensures h.ops[k].now < h.ops[s].now + 7_776_000_000
  {
    FamilyEnd(h, s, k);
    assert IsStep(h, k);
    StepKeepsEnd(h.tables[k], h.ops[k], h.tables[k + 1], h.outcomes[k], h.ops[s].family,
                 h.ops[s].now + FAMILY_LIFETIME_CAP_MS);
  }
}
