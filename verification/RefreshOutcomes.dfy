/**
 * What logins and rotations answer and write, said on the fields of the rows: the exact condition of
 * every answer, which rows are revoked, and which are left alone.
 */
module RefreshOutcomes {
  import opened Wrappers
  import opened RefreshTokens
  import opened RefreshRuns
  import opened RefreshCap

  predicate LiveOf(r: Token, user: UserId, now: int) {
    r.user == user && r.revokedAt == None && now < r.expiresAt && now < r.familyExpiresAt
  }

  function LiveFamilySet(rows: seq<Token>, user: UserId, now: int): set<FamilyId> {
    set i | 0 <= i < |rows| && LiveOf(rows[i], user, now) :: rows[i].family
  }

  /** Row `i` is the user's oldest live row; of two as old, the one of the smaller family. */
  ghost predicate OldestLive(rows: seq<Token>, user: UserId, now: int, i: TokenId) {
    && i < |rows| && LiveOf(rows[i], user, now)
    && forall j :: 0 <= j < |rows| && LiveOf(rows[j], user, now) ==>
                     || rows[i].createdAt < rows[j].createdAt
                     || (rows[i].createdAt == rows[j].createdAt && rows[i].family <= rows[j].family)
  }

  /** From twenty live families on, the family of the oldest live row has to go. */
  ghost predicate MustGo(rows: seq<Token>, user: UserId, now: int, evicted: Option<FamilyId>) {
    if |LiveFamilySet(rows, user, now)| < 20 then evicted.None?
    else evicted.Some? && exists i: nat :: OldestLive(rows, user, now, i) && rows[i].family == evicted.value
  }

  /** Exactly the unrevoked rows of the family, if there is one, are revoked at `now`; every other row stays. */
  ghost predicate OnlyRevokes(rows: seq<Token>, rows': seq<Token>, family: Option<FamilyId>, now: int) {
    && |rows| <= |rows'|
    && forall i :: 0 <= i < |rows| ==>
                     rows'[i] == if family == Some(rows[i].family) && rows[i].revokedAt == None
                                 then rows[i].(revokedAt := Some(now)) else rows[i]
  }

  // ── logging in ───────────────────────────────────────────────────────────

  lemma LiveFamiliesAre(rows: seq<Token>, user: UserId, now: int)
    ensures ByFamily(rows, user, now).Keys == LiveFamilySet(rows, user, now)
  {
    forall f
      ensures f in ByFamily(rows, user, now) <==> f in LiveFamilySet(rows, user, now)
    {
      LiveFamilies(rows, user, now, f);
      if i: nat :| LiveRow(rows, i, user, f, now) { assert LiveOf(rows[i], user, now); }
      if f in LiveFamilySet(rows, user, now) {
        var i :| 0 <= i < |rows| && LiveOf(rows[i], user, now) && rows[i].family == f;
        assert LiveRow(rows, i, user, f, now);
      }
    }
  }

  lemma OldestGoes(rows: seq<Token>, user: UserId, now: int, f: FamilyId)
    ensures IsOldest(ByFamily(rows, user, now), f) <==>
            exists i: nat :: OldestLive(rows, user, now, i) && rows[i].family == f
  {
    var m := ByFamily(rows, user, now);
    if IsOldest(m, f) {
      EarliestOfFamily(rows, user, now, f);
      var i: nat :| LiveRow(rows, i, user, f, now) && rows[i].createdAt == m[f];
      forall j | 0 <= j < |rows| && LiveOf(rows[j], user, now)
        ensures rows[i].createdAt < rows[j].createdAt
                || (rows[i].createdAt == rows[j].createdAt && f <= rows[j].family)
      {
        var g := rows[j].family;
        assert LiveRow(rows, j, user, g, now);
        LiveFamilies(rows, user, now, g);
        EarliestOfFamily(rows, user, now, g);
        assert OlderOrSame(m, f, g);
      }
      assert OldestLive(rows, user, now, i);
    }
    if i: nat :| OldestLive(rows, user, now, i) && rows[i].family == f {
      assert LiveRow(rows, i, user, f, now);
      LiveFamilies(rows, user, now, f);
      EarliestOfFamily(rows, user, now, f);
      forall g | g in m
        ensures OlderOrSame(m, f, g)
      {
        EarliestOfFamily(rows, user, now, g);
        var j: nat :| LiveRow(rows, j, user, g, now) && rows[j].createdAt == m[g];
        assert LiveOf(rows[j], user, now);
      }
    }
  }

  lemma EvictionMustGo(rows: seq<Token>, user: UserId, now: int, evicted: Option<FamilyId>)
    ensures IsEviction(ByFamily(rows, user, now), LIVE_FAMILY_CAP, evicted) <==> MustGo(rows, user, now, evicted)
  {
    LiveFamiliesAre(rows, user, now);
    assert |ByFamily(rows, user, now)| == |ByFamily(rows, user, now).Keys|;
    if evicted.Some? {
      OldestGoes(rows, user, now, evicted.value);
    }
  }

  /**
   * A login adds one row, with 60 days for the token and 90 for the family, and revokes exactly the family
   * that has to go.
   */
  ghost predicate LogsIn(rows: seq<Token>, user: UserId, family: FamilyId, now: int, dbNow: int, rows': seq<Token>) {
    && |rows'| == |rows| + 1
    && rows'[|rows|] == Token(user, family, None, dbNow, now + 5_184_000_000, now + 7_776_000_000, None)
    && exists evicted :: MustGo(rows, user, now, evicted) && OnlyRevokes(rows, rows', evicted, now)
  }

  lemma LoginOutcomes(rows: seq<Token>, op: Operation, rows': seq<Token>, out: Outcome)
    requires Step(rows, op, rows', out) && op.Login?
    ensures out == Issued(|rows|, op.family) && LogsIn(rows, op.user, op.family, op.now, op.dbNow, rows')
  {
    var evicted :| IsEviction(ByFamily(rows, op.user, op.now), LIVE_FAMILY_CAP, evicted)
                   && rows' == AfterEviction(rows, evicted, op.now) + [LoginRow(op)];
    EvictionMustGo(rows, op.user, op.now, evicted);
    assert OnlyRevokes(rows, rows', evicted, op.now);
  }

  // ── presenting a token ───────────────────────────────────────────────────

  /** Row `s` is the first one that was rotated from `id`. */
  ghost predicate Succeeds(rows: seq<Token>, id: TokenId, s: TokenId) {
    && s < |rows| && rows[s].rotatedFrom == Some(id)
    && forall k :: 0 <= k < s ==> rows[k].rotatedFrom != Some(id)
  }

  predicate IsUsed(rows: seq<Token>, id: TokenId) {
    exists s :: 0 <= s < |rows| && rows[s].rotatedFrom == Some(id)
  }

  /** The successor is unrevoked and unused, and no more than a minute old. */
  ghost predicate JustUsed(rows: seq<Token>, id: TokenId, now: int) {
    exists s: nat :: Succeeds(rows, id, s) && rows[s].revokedAt == None && !IsUsed(rows, s)
                && now - rows[s].createdAt <= 60_000
  }

  lemma {:induction false} SuccessorIsFirst(rows: seq<Token>, id: TokenId, from: nat)
    requires from <= |rows| && forall k :: 0 <= k < from ==> rows[k].rotatedFrom != Some(id)
    ensures var r := FindSuccessor(rows, id, from);
            (r.None? <==> !IsUsed(rows, id)) && forall s: nat :: Succeeds(rows, id, s) <==> r == Some(s)
    decreases |rows| - from
  {
    if from < |rows| && rows[from].rotatedFrom != Some(id) {
      SuccessorIsFirst(rows, id, from + 1);
    }
  }

  lemma FactsOnRows(rows: seq<Token>, id: TokenId, now: int)
    ensures var facts := SuccessorFacts(rows, id);
            && (facts.None? <==> !IsUsed(rows, id))
            && (facts.Some? && facts.value.isCurrent && now - facts.value.createdAt <= REUSE_LEEWAY_MS <==>
                  JustUsed(rows, id, now))
  {
    SuccessorIsFirst(rows, id, 0);
    var s := FindSuccessor(rows, id);
    if s.Some? {
      SuccessorIsFirst(rows, s.value, 0);
      assert Succeeds(rows, id, s.value);
    }
  }

  /** The answer to every presented token, each with its exact condition. */
  lemma RotateOutcomes(rows: seq<Token>, op: Operation)
    requires op.Rotate?
    ensures var out := ApplyRotate(rows, op).1;
            out == Unknown <==> op.presented >= |rows|
    ensures op.presented < |rows| ==>
              var out, r := ApplyRotate(rows, op).1, rows[op.presented];
              var alive := r.revokedAt == None && op.now < r.expiresAt && op.now < r.familyExpiresAt;
              var used, justUsed := IsUsed(rows, op.presented), JustUsed(rows, op.presented, op.now);
              && (out == Expired <==>
                    r.familyExpiresAt <= op.now || (r.revokedAt == None && r.expiresAt <= op.now))
              && (out == Reused <==>
                    (op.now < r.familyExpiresAt && r.revokedAt != None) || (alive && used && !justUsed))
              && (out == BenignRetry <==> alive && justUsed)
              && (out.Issued? <==> alive && !used)
  {
    if op.presented < |rows| {
      FactsOnRows(rows, op.presented, op.now);
    }
  }

  /**
   * A rotation adds one row, of the same family and user, with 60 days of its own and the family's end; a
   * reuse revokes exactly the family of the presented token; any other answer writes nothing.
   */
  ghost predicate Rotates(rows: seq<Token>, presented: TokenId, now: int, dbNow: int, rows': seq<Token>, out: Outcome) {
    && (out.Issued? ==>
          && presented < |rows| && out == Issued(|rows|, rows[presented].family)
          && var r := rows[presented];
             rows' == rows + [Token(r.user, r.family, Some(presented), dbNow, now + 5_184_000_000,
                                    r.familyExpiresAt, None)])
    && (out.Reused? ==>
          presented < |rows| && |rows'| == |rows| && OnlyRevokes(rows, rows', Some(rows[presented].family), now))
    && (!out.Issued? && !out.Reused? ==> rows' == rows)
  }

  lemma RotateWrites(rows: seq<Token>, op: Operation)
    requires op.Rotate?
    ensures var (rows', out) := ApplyRotate(rows, op); Rotates(rows, op.presented, op.now, op.dbNow, rows', out)
  {
  }

  /** Every step leaves the families that it does not mention as they were. */
  lemma StepTouches(rows: seq<Token>, op: Operation, rows': seq<Token>, out: Outcome, i: TokenId)
    requires Step(rows, op, rows', out) && i < |rows|
    ensures |rows| <= |rows'| && rows'[i] == rows[i].(revokedAt := rows'[i].revokedAt)
    ensures rows'[i] != rows[i] ==>
              && rows[i].revokedAt == None && rows'[i].revokedAt == Some(op.now)
              && match op
                 case Login(user, _, now, _) =>
                   exists k: nat :: OldestLive(rows, user, now, k) && rows[k].family == rows[i].family
                 case Rotate(id, _, _) => id < |rows| && rows[id].family == rows[i].family && out == Reused
                 case RevokeOne(user, f, _) => rows[i].user == user && rows[i].family == f
                 case RevokeAll(user, _) => rows[i].user == user
                 case RevokeAllExcept(user, f, _) => rows[i].user == user && rows[i].family != f
  {
    match op
    case Login(user, family, now, dbNow) =>
      LoginOutcomes(rows, op, rows', out);
      var evicted :| MustGo(rows, user, now, evicted) && OnlyRevokes(rows, rows', evicted, now);
    case Rotate(_, _, _) => RotateWrites(rows, op);
    case _ =>
  }

  // ── whole runs ───────────────────────────────────────────────────────────

  lemma StepIssues(rows: seq<Token>, op: Operation, rows': seq<Token>, out: Outcome, i: TokenId)
    requires Step(rows, op, rows', out) && i < |rows'|
    ensures i < |rows| ==> rows'[i] == rows[i].(revokedAt := rows'[i].revokedAt)
    ensures i >= |rows| ==>
              && out == Issued(i, rows'[i].family) && (op.Login? || op.Rotate?)
              && rows'[i].expiresAt == op.now + 5_184_000_000
              && (op.Login? ==> rows'[i].familyExpiresAt == op.now + 7_776_000_000)
  {
    if i < |rows| {
      StepTouches(rows, op, rows', out, i);
    } else if op.Login? {
      LoginOutcomes(rows, op, rows', out);
    } else if op.Rotate? {
      RotateWrites(rows, op);
    }
  }

  /** Every token in the table was issued by one step of the run, and has expired 60 days after it. */
  lemma {:induction false} TokenWasIssued(h: History, k: nat, i: TokenId) returns (s: nat)
    requires IsHistory(h) && k <= |h.ops| && i < |h.tables[k]|
    ensures s < k && h.outcomes[s] == Issued(i, h.tables[k][i].family)
    ensures h.tables[k][i].expiresAt == h.ops[s].now + 5_184_000_000
    ensures h.ops[s].Login? ==> h.tables[k][i].familyExpiresAt == h.ops[s].now + 7_776_000_000
  {
    assert IsStep(h, k - 1);
    StepIssues(h.tables[k - 1], h.ops[k - 1], h.tables[k], h.outcomes[k - 1], i);
    if i < |h.tables[k - 1]| {
      s := TokenWasIssued(h, k - 1, i);
    } else {
      s := k - 1;
    }
  }

  /** On a clock that never goes back, no user ever has more than twenty live families. */
  lemma TwentyAtMost(h: History, k: nat, user: UserId, now: int)
    requires IsHistory(h) && ClockOrdered(h) && 0 < k <= |h.ops| && h.ops[k - 1].now <= now
    ensures |LiveFamilySet(h.tables[k], user, now)| <= 20
  {
    CapAlways(h, k);
    LiveFamiliesAre(h.tables[k], user, now);
    assert |ByFamily(h.tables[k], user, now)| == |ByFamily(h.tables[k], user, now).Keys|;
  }
}
