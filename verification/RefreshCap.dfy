/** With a clock that does not run backwards, nobody ever has more than 20 live families. */
module RefreshCap {
  import opened Basics
  import opened Wrappers
  import opened RefreshTokens
  import opened RefreshRuns

  predicate LiveRow(rows: seq<Token>, i: TokenId, user: UserId, f: FamilyId, now: int) {
    i < |rows| && rows[i].user == user && rows[i].family == f && IsLive(rows[i], now)
  }

  /** A family counts exactly when one of its rows is live. */
  lemma {:induction false} LiveFamilies(rows: seq<Token>, user: UserId, now: int, f: FamilyId)
    ensures f in ByFamily(rows, user, now) <==> exists i :: LiveRow(rows, i, user, f, now)
  {
    if rows != [] {
      var n := |rows| - 1;
      LiveFamilies(rows[..n], user, now, f);
      if i :| LiveRow(rows[..n], i, user, f, now) { assert LiveRow(rows, i, user, f, now); }
      if i :| LiveRow(rows, i, user, f, now) { assert i == n || LiveRow(rows[..n], i, user, f, now); }
      if rows[n].family == f && rows[n].user == user && IsLive(rows[n], now) { assert LiveRow(rows, n, user, f, now); }
    }
  }

  /** The key a family is evicted by is the earliest creation among its live rows. */
  lemma {:induction false} EarliestOfFamily(rows: seq<Token>, user: UserId, now: int, f: FamilyId)
    requires f in ByFamily(rows, user, now)
    ensures var key := ByFamily(rows, user, now)[f];
            && (exists i: nat :: LiveRow(rows, i, user, f, now) && rows[i].createdAt == key)
            && (forall i: nat :: LiveRow(rows, i, user, f, now) ==> key <= rows[i].createdAt)
  {
    var n := |rows| - 1;
    var before := ByFamily(rows[..n], user, now);
    LiveFamilies(rows[..n], user, now, f);
    assert forall i: nat :: i < n ==> (LiveRow(rows, i, user, f, now) <==> LiveRow(rows[..n], i, user, f, now));
    if f in before {
      EarliestOfFamily(rows[..n], user, now, f);
      var i: nat :| LiveRow(rows[..n], i, user, f, now) && rows[..n][i].createdAt == before[f];
      assert LiveRow(rows, i, user, f, now);
    }
    assert LiveRow(rows, n, user, f, now) || ByFamily(rows, user, now)[f] == before[f];
  }

  // ── the eviction key and the login time ──────────────────────────────────

  predicate CreatedInOrder(rows: seq<Token>) {
    forall i, j :: 0 <= i < j < |rows| ==> rows[i].createdAt < rows[j].createdAt
  }

  /** The key is the login's creation exactly as long as the login row itself is live. */
  lemma KeyIsLoginTime(rows: seq<Token>, user: UserId, now: int, f: FamilyId)
    requires Sound(rows) && CreatedInOrder(rows) && f in ByFamily(rows, user, now)
    ensures Chain(rows, f) != []
    ensures ByFamily(rows, user, now)[f] == rows[Chain(rows, f)[0]].createdAt <==> IsLive(rows[Chain(rows, f)[0]], now)
  {
    EarliestOfFamily(rows, user, now, f);
    var i: nat :| LiveRow(rows, i, user, f, now) && rows[i].createdAt == ByFamily(rows, user, now)[f];
    ChainHas(rows, f, i);
    var login := Chain(rows, f)[0];
    assert login <= i;
    assert IsLive(rows[login], now) ==> LiveRow(rows, login, user, f, now);
  }

  predicate Creates(op: Operation) {
    op.Login? || op.Rotate?
  }

  /** The database's clock moves on from one row that is created to the next. */
  ghost predicate DbClockMoves(h: History) {
    forall j, k :: 0 <= j < k < |h.ops| && Creates(h.ops[j]) && Creates(h.ops[k]) ==> h.ops[j].dbNow < h.ops[k].dbNow
  }

  predicate CreatedBy(h: History, createdAt: int, j: nat) {
    j < |h.ops| && Creates(h.ops[j]) && h.ops[j].dbNow == createdAt
  }

  ghost predicate CreatedBefore(h: History, createdAt: int, k: nat) {
    exists j: nat :: j < k && CreatedBy(h, createdAt, j)
  }

  /** A step leaves every creation instant as it was, and a row it adds has that of the step. */
  lemma StepCreates(rows: seq<Token>, op: Operation, rows': seq<Token>, out: Outcome)
    requires Step(rows, op, rows', out)
    ensures |rows| <= |rows'| <= |rows| + 1
    ensures forall i :: 0 <= i < |rows| ==> rows'[i].createdAt == rows[i].createdAt
    ensures |rows'| == |rows| + 1 ==> Creates(op) && rows'[|rows|].createdAt == op.dbNow
  {
  }

  /** What was created before an insertion was created at an earlier instant. */
  lemma StillCreatedBefore(h: History, createdAt: int, k: nat)
    requires DbClockMoves(h) && k < |h.ops| && CreatedBefore(h, createdAt, k)
    ensures CreatedBefore(h, createdAt, k + 1)
    ensures Creates(h.ops[k]) ==> createdAt < h.ops[k].dbNow
  {
    var j: nat :| j < k && CreatedBy(h, createdAt, j);
  }

  lemma NextCreates(h: History, k: nat)
    requires IsHistory(h) && k < |h.ops|
    ensures |h.tables[k]| <= |h.tables[k + 1]| <= |h.tables[k]| + 1
    ensures forall i :: 0 <= i < |h.tables[k]| ==> h.tables[k + 1][i].createdAt == h.tables[k][i].createdAt
    ensures |h.tables[k + 1]| == |h.tables[k]| + 1 ==>
              Creates(h.ops[k]) && h.tables[k + 1][|h.tables[k]|].createdAt == h.ops[k].dbNow
  {
    assert IsStep(h, k);
    StepCreates(h.tables[k], h.ops[k], h.tables[k + 1], h.outcomes[k]);
  }

  lemma NextIsCreatedLater(h: History, k: nat, i: nat)
    requires IsHistory(h) && DbClockMoves(h) && k < |h.ops| && i < |h.tables[k + 1]|
    requires i < |h.tables[k]| ==> CreatedBefore(h, h.tables[k][i].createdAt, k)
    ensures CreatedBefore(h, h.tables[k + 1][i].createdAt, k + 1)
    ensures i < |h.tables[k]| < |h.tables[k + 1]| ==>
              h.tables[k + 1][i].createdAt < h.tables[k + 1][|h.tables[k]|].createdAt
  {
    NextCreates(h, k);
    if i < |h.tables[k]| {
      StillCreatedBefore(h, h.tables[k][i].createdAt, k);
    } else {
      assert CreatedBy(h, h.tables[k + 1][i].createdAt, k);
    }
  }

  lemma LongerInOrder(rows: seq<Token>, rows': seq<Token>)
    requires CreatedInOrder(rows) && |rows| <= |rows'| <= |rows| + 1
    requires forall i :: 0 <= i < |rows| ==> rows'[i].createdAt == rows[i].createdAt
    requires forall i :: 0 <= i < |rows| < |rows'| ==> rows'[i].createdAt < rows'[|rows|].createdAt
    ensures CreatedInOrder(rows')
  {
    forall i, j | 0 <= i < j < |rows'|
      ensures rows'[i].createdAt < rows'[j].createdAt
    {
      assert j < |rows| ==> rows[i].createdAt < rows[j].createdAt;
    }
  }

  lemma {:induction false} RowsAreCreatedInOrder(h: History, k: nat)
    requires IsHistory(h) && DbClockMoves(h) && k <= |h.ops|
    ensures CreatedInOrder(h.tables[k])
    ensures forall i :: 0 <= i < |h.tables[k]| ==> CreatedBefore(h, h.tables[k][i].createdAt, k)
  {
    if k > 0 {
      RowsAreCreatedInOrder(h, k - 1);
      NextCreates(h, k - 1);
      forall i | 0 <= i < |h.tables[k]|
        ensures CreatedBefore(h, h.tables[k][i].createdAt, k)
        ensures i < |h.tables[k - 1]| < |h.tables[k]| ==>
                  h.tables[k][i].createdAt < h.tables[k][|h.tables[k - 1]|].createdAt
      {
        NextIsCreatedLater(h, k - 1, i);
      }
      LongerInOrder(h.tables[k - 1], h.tables[k]);
    }
  }

  /** In every run: a family is evicted by its login time exactly as long as its login row is live. */
  lemma EvictionKeyAlong(h: History, k: nat, user: UserId, now: int, f: FamilyId)
    requires IsHistory(h) && DbClockMoves(h) && k <= |h.ops| && f in ByFamily(h.tables[k], user, now)
    ensures var rows, c := h.tables[k], Chain(h.tables[k], f);
            c != [] && (ByFamily(rows, user, now)[f] == rows[c[0]].createdAt <==> IsLive(rows[c[0]], now))
  {
    AlwaysSound(h, k);
    RowsAreCreatedInOrder(h, k);
    KeyIsLoginTime(h.tables[k], user, now, f);
  }

  /** A session logged in at 0 and rotated on day 59. */
  function LongSession(): History {
    var login := Login(0, 7, 0, 0);
    var rotate := Rotate(0, 59 * DAY_MS, 59 * DAY_MS);
    var first := LoginRow(login);
    var second := SuccessorRow(first, 0, rotate.now, rotate.dbNow);
    History([login, rotate], [[], [first], [first, second]], [Issued(0, 7), Issued(1, 7)])
  }

  /** On day 61 that session counts as if it had logged in on day 59. */
  lemma LongSessionLooksYoung()
    ensures IsHistory(LongSession()) && DbClockMoves(LongSession())
    ensures var rows := LongSession().tables[2];
            var m := ByFamily(rows, 0, 61 * DAY_MS);
            7 in m && m[7] == 59 * DAY_MS && Chain(rows, 7) == [0, 1] && rows[0].createdAt == 0
  {
    var h := LongSession();
    var first, rows := h.tables[1], h.tables[2];
    assert ByFamily([], 0, 0) == map[] && IsEviction(map[], LIVE_FAMILY_CAP, None);
    assert [] + first == first && first + [rows[1]] == rows;
    assert IsStep(h, 0);
    assert FindSuccessor(first, 0).None?;
    assert IsStep(h, 1);
    assert rows[..1] == first && first[..0] == [];
    assert ByFamily(first, 0, 61 * DAY_MS) == map[];
  }

  // ── the cap ──────────────────────────────────────────────────────────────

  ghost predicate WithinCap(rows: seq<Token>, from: int) {
    forall user, now :: from <= now ==> |ByFamily(rows, user, now)| <= 20
  }

  /** If every family live in `rows'` then is one of `keys`, there are at most as many. */
  lemma AtMost(rows': seq<Token>, user: UserId, now: int, keys: set<FamilyId>)
    requires forall i: nat, f :: LiveRow(rows', i, user, f, now) ==> f in keys
    ensures |ByFamily(rows', user, now)| <= |keys|
  {
    forall f | f in ByFamily(rows', user, now)
      ensures f in keys
    {
      LiveFamilies(rows', user, now, f);
    }
    assert ByFamily(rows', user, now).Keys <= keys;
    SubsetSize(ByFamily(rows', user, now).Keys, keys);
  }

  /** Every live row of `rows'` belongs to a family that was live in `rows` at an earlier instant. */
  lemma NoNewFamilies(rows: seq<Token>, rows': seq<Token>, from: int)
    requires WithinCap(rows, from)
    requires forall i: nat, user, f, now :: from <= now && LiveRow(rows', i, user, f, now) ==>
                                         exists j :: LiveRow(rows, j, user, f, from)
    ensures WithinCap(rows', from)
  {
    forall user, now | from <= now
      ensures |ByFamily(rows', user, now)| <= LIVE_FAMILY_CAP
    {
      forall i: nat, f | LiveRow(rows', i, user, f, now)
        ensures f in ByFamily(rows, user, from).Keys
      {
        LiveFamilies(rows, user, from, f);
      }
      AtMost(rows', user, now, ByFamily(rows, user, from).Keys);
    }
  }

  lemma RevokeKeepsCap(rows: seq<Token>, scope: Token -> bool, at: int, from: int)
    requires WithinCap(rows, from)
    ensures WithinCap(RevokeWhere(rows, scope, at), from)
  {
    var rows' := RevokeWhere(rows, scope, at);
    forall i: nat, user, f, now | from <= now && LiveRow(rows', i, user, f, now)
      ensures LiveRow(rows, i, user, f, from)
    {
      assert rows'[i].revokedAt.None?;
    }
    NoNewFamilies(rows, rows', from);
  }

  lemma RotateKeepsCap(rows: seq<Token>, op: Operation)
    requires op.Rotate? && WithinCap(rows, op.now)
    ensures WithinCap(ApplyRotate(rows, op).0, op.now)
  {
    var (rows', out) := ApplyRotate(rows, op);
    if out.Issued? {
      var row := rows[op.presented];
      forall i: nat, user, f, now | op.now <= now && LiveRow(rows', i, user, f, now)
        ensures exists j :: LiveRow(rows, j, user, f, op.now)
      {
        var j := if i < |rows| then i else op.presented;
        assert LiveRow(rows, j, user, f, op.now);
      }
      NoNewFamilies(rows, rows', op.now);
    } else if out.Reused? {
      RevokeKeepsCap(rows, InFamily(rows[op.presented].family), op.now, op.now);
    }
  }

  /** Pushing out the oldest family leaves room for the new one. */
  lemma EvictionMakesRoom(rows: seq<Token>, user: UserId, now: int, evicted: Option<FamilyId>)
    requires WithinCap(rows, now) && IsEviction(ByFamily(rows, user, now), LIVE_FAMILY_CAP, evicted)
    ensures |ByFamily(AfterEviction(rows, evicted, now), user, now)| < 20
  {
    var m := ByFamily(rows, user, now);
    if evicted.Some? {
      var rows' := AfterEviction(rows, evicted, now);
      forall i: nat, f | LiveRow(rows', i, user, f, now)
        ensures f in m.Keys - {evicted.value}
      {
        assert rows'[i].revokedAt.None? && LiveRow(rows, i, user, f, now);
        LiveFamilies(rows, user, now, f);
      }
      AtMost(rows', user, now, m.Keys - {evicted.value});
      assert |m.Keys - {evicted.value}| == |m.Keys| - 1;
    }
  }

  lemma LoginKeepsCap(rows: seq<Token>, r: Token, now: int)
    requires WithinCap(rows, now) && |ByFamily(rows, r.user, now)| < LIVE_FAMILY_CAP
    ensures WithinCap(rows + [r], now)
  {
    forall user, later | now <= later
      ensures |ByFamily(rows + [r], user, later)| <= LIVE_FAMILY_CAP
    {
      var keys := ByFamily(rows, user, now).Keys;
      forall i: nat, f | LiveRow(rows + [r], i, user, f, later)
        ensures f in keys || (user == r.user && f == r.family)
      {
        if i < |rows| { assert LiveRow(rows, i, user, f, now); }
        LiveFamilies(rows, user, now, f);
      }
      if user == r.user {
        AtMost(rows + [r], user, later, keys + {r.family});
        assert |keys + {r.family}| <= |keys| + 1;
      } else {
        AtMost(rows + [r], user, later, keys);
      }
    }
  }

  lemma StepKeepsCap(rows: seq<Token>, op: Operation, rows': seq<Token>, out: Outcome)
    requires Step(rows, op, rows', out) && WithinCap(rows, op.now)
    ensures WithinCap(rows', op.now)
  {
    match op {
      case Login(user, _, now, _) =>
        var evicted :| IsEviction(ByFamily(rows, user, now), LIVE_FAMILY_CAP, evicted)
                       && rows' == AfterEviction(rows, evicted, now) + [LoginRow(op)];
        EvictionMakesRoom(rows, user, now, evicted);
        if evicted.Some? { RevokeKeepsCap(rows, InFamily(evicted.value), now, now); }
        LoginKeepsCap(AfterEviction(rows, evicted, now), LoginRow(op), now);
      case Rotate(_, _, _) =>
        RotateKeepsCap(rows, op);
      case RevokeOne(user, family, now) =>
        RevokeKeepsCap(rows, (r: Token) => r.user == user && r.family == family, now, now);
      case RevokeAll(user, now) =>
        RevokeKeepsCap(rows, (r: Token) => r.user == user, now, now);
      case RevokeAllExcept(user, spare, now) =>
        RevokeKeepsCap(rows, (r: Token) => r.user == user && r.family != spare, now, now);
    }
  }

  ghost predicate ClockOrdered(h: History) {
    forall j, k :: 0 <= j < k < |h.ops| ==> h.ops[j].now <= h.ops[k].now
  }

  /** From the latest operation on, no user has more than 20 live families. */
  lemma {:induction false} CapAlways(h: History, k: nat)
    requires IsHistory(h) && ClockOrdered(h) && 0 < k <= |h.ops|
    ensures WithinCap(h.tables[k], h.ops[k - 1].now)
  {
    assert IsStep(h, k - 1);
    if k == 1 {
      assert forall user, now :: ByFamily([], user, now) == map[];
    } else {
      CapAlways(h, k - 1);
    }
    StepKeepsCap(h.tables[k - 1], h.ops[k - 1], h.tables[k], h.outcomes[k - 1]);
  }
}
