/** The service that issues, rotates and revokes refresh tokens. */
module RefreshTokenService {
  import opened Wrappers
  import opened RefreshTokens
  import opened RefreshOutcomes

  datatype LiveFamily = LiveFamily(family: FamilyId, createdAt: int)

  /** `families` lists the entries of `m`, each once. */
  ghost predicate Lists(families: seq<LiveFamily>, m: map<FamilyId, int>) {
    && |families| == |m|
    && (forall x :: x in families ==> x.family in m && m[x.family] == x.createdAt)
    && (forall f :: f in m ==> LiveFamily(f, m[f]) in families)
  }

  /** Evict the oldest family when the live ones have reached the cap; a tie goes to the smaller id. */
  method DecideFamilyCap(families: seq<LiveFamily>, cap: nat, ghost m: map<FamilyId, int>)
    returns (revokeFamily: Option<FamilyId>)
    requires Lists(families, m) && cap > 0
    ensures IsEviction(m, cap, revokeFamily)
  {
    if |families| < cap { return None; }
    var oldest := families[0];
    for i := 0 to |families|
      invariant oldest in families
      invariant forall k :: 0 <= k < i ==> OlderOrSame(m, oldest.family, families[k].family)
    {
      var f := families[i];
      if f.createdAt < oldest.createdAt || (f.createdAt == oldest.createdAt && f.family < oldest.family) {
        oldest := f;
      }
    }
    forall g | g in m
      ensures OlderOrSame(m, oldest.family, g)
    {
      assert LiveFamily(g, m[g]) in families;
    }
    return Some(oldest.family);
  }

  /** What the update makes of one row: revoked when it is in scope and was not yet, and else as it was. */
  predicate RevokedAt(row: Token, row': Token, scope: Token -> bool, now: int) {
    row' == row.(revokedAt := if scope(row) && row.revokedAt.None? then Some(now) else row.revokedAt)
  }

  ghost predicate RevokedExactly(rows: seq<Token>, rows': seq<Token>, scope: Token -> bool, now: int) {
    |rows'| == |rows| && forall i :: 0 <= i < |rows| ==> RevokedAt(rows[i], rows'[i], scope, now)
  }

  class TokenTable {
    var rows: seq<Token>

    constructor ()
      ensures rows == []
    {
      rows := [];
    }

    /** One entry per live family of the user, at the earliest creation of its live rows. */
    method CollectLiveFamilies(user: UserId, now: int) returns (byFamily: map<FamilyId, int>)
      ensures byFamily == ByFamily(rows, user, now)
    {
      byFamily := map[];
      for i := 0 to |rows|
        invariant byFamily == ByFamily(rows[..i], user, now)
      {
        var r := rows[i];
        assert rows[..i + 1][..i] == rows[..i];
        if r.user == user && IsLive(r, now) {
          if r.family !in byFamily || r.createdAt < byFamily[r.family] {
            byFamily := byFamily[r.family := r.createdAt];
          }
        }
      }
      assert rows[..|rows|] == rows;
    }

    method ListEntries(m: map<FamilyId, int>) returns (families: seq<LiveFamily>)
      ensures Lists(families, m)
    {
      families := [];
      var left := m;
      while left != map[]
        invariant left.Keys <= m.Keys && forall f :: f in left ==> left[f] == m[f]
        invariant |families| == |m| - |left|
        invariant forall x :: x in families ==> x.family in m && m[x.family] == x.createdAt
        invariant forall f :: f in m && f !in left ==> LiveFamily(f, m[f]) in families
        decreases |left|
      {
        var f :| f in left;
        families := families + [LiveFamily(f, left[f])];
        assert |left.Keys - {f}| == |left.Keys| - 1;
        left := left - {f};
      }
    }

    /** `updateMany`: the rows of `scope` that are not revoked yet, one after the other. */
    method RevokeRows(scope: Token -> bool, now: int)
      modifies this
      ensures RevokedExactly(old(rows), rows, scope, now)
      ensures rows == RevokeWhere(old(rows), scope, now)
    {
      var n := |rows|;
      for i := 0 to n
        invariant |rows| == n
        invariant forall k :: 0 <= k < i ==> RevokedAt(old(rows)[k], rows[k], scope, now)
        invariant forall k :: i <= k < n ==> rows[k] == old(rows)[k]
      {
        if scope(rows[i]) && rows[i].revokedAt.None? {
          rows := rows[i := rows[i].(revokedAt := Some(now))];
        }
      }
      assert rows == RevokeWhere(old(rows), scope, now);
    }

    /** Count, evict if the cap is reached, and mint a new family. */
    method IssueOnLogin(user: UserId, family: FamilyId, now: int, dbNow: int) returns (out: Outcome)
      requires forall i :: 0 <= i < |rows| ==> rows[i].family != family
      modifies this
      ensures Step(old(rows), Login(user, family, now, dbNow), rows, out)
      ensures LogsIn(old(rows), user, family, now, dbNow, rows)
    {
      var byFamily := CollectLiveFamilies(user, now);
      var families := ListEntries(byFamily);
      var evicted := DecideFamilyCap(families, LIVE_FAMILY_CAP, byFamily);
      if evicted.Some? {
        RevokeRows(InFamily(evicted.value), now);
      }
      assert rows == AfterEviction(old(rows), evicted, now);
      out := Issued(|rows|, family);
      rows := rows + [LoginRow(Login(user, family, now, dbNow))];
      LoginOutcomes(old(rows), Login(user, family, now, dbNow), rows, out);
    }

    /** Rotate, refuse, or revoke the family, in one transaction. */
    method RotateToken(presented: TokenId, now: int, dbNow: int) returns (out: Outcome)
      modifies this
      ensures (rows, out) == ApplyRotate(old(rows), Rotate(presented, now, dbNow))
      ensures Rotates(old(rows), presented, now, dbNow, rows, out)
    {
      RotateWrites(rows, Rotate(presented, now, dbNow));
      if presented >= |rows| { return Unknown; }
      var row := rows[presented];
      var successor := FindSuccessor(rows, presented);
      var facts := None;
      if successor.Some? {
        var grandchild := FindSuccessor(rows, successor.value);
        var isCurrent := rows[successor.value].revokedAt.None? && grandchild.None?;
        facts := Some(Successor(rows[successor.value].createdAt, isCurrent));
      }
      var action := DecideReuse(now, row, facts);
      if action.AllowRotate? {
        out := Issued(|rows|, row.family);
        rows := rows + [SuccessorRow(row, presented, now, dbNow)];
      } else if action.RevokeFamily? {
        RevokeRows(InFamily(row.family), now);
        out := Reused;
      } else if action.RejectExpired? {
        out := Expired;
      } else {
        out := BenignRetry;
      }
    }

    /** Exactly the user's own rows of the family; a foreign family id revokes nothing. */
    method RevokeFamily(user: UserId, family: FamilyId, now: int) returns (out: Outcome)
      modifies this
      ensures |rows| == |old(rows)|
      ensures forall i :: 0 <= i < |rows| ==>
                            && rows[i].revokedAt == (if old(rows)[i].user == user && old(rows)[i].family == family
                                                        && old(rows)[i].revokedAt.None?
                                                     then Some(now) else old(rows)[i].revokedAt)
                            && rows[i] == old(rows)[i].(revokedAt := rows[i].revokedAt)
      ensures Step(old(rows), RevokeOne(user, family, now), rows, out)
    {
      RevokeRows((r: Token) => r.user == user && r.family == family, now);
      out := Done;
    }

    method RevokeAllForUser(user: UserId, now: int) returns (out: Outcome)
      modifies this
      ensures |rows| == |old(rows)|
      ensures forall i :: 0 <= i < |rows| ==>
                            && rows[i].revokedAt == (if old(rows)[i].user == user && old(rows)[i].revokedAt.None?
                                                     then Some(now) else old(rows)[i].revokedAt)
                            && rows[i] == old(rows)[i].(revokedAt := rows[i].revokedAt)
      ensures Step(old(rows), RevokeAll(user, now), rows, out)
    {
      RevokeRows((r: Token) => r.user == user, now);
      out := Done;
    }

    method RevokeAllExceptFamily(user: UserId, spare: FamilyId, now: int) returns (out: Outcome)
      modifies this
      ensures |rows| == |old(rows)|
      ensures forall i :: 0 <= i < |rows| ==>
                            && rows[i].revokedAt == (if old(rows)[i].user == user && old(rows)[i].family != spare
                                                        && old(rows)[i].revokedAt.None?
                                                     then Some(now) else old(rows)[i].revokedAt)
                            && rows[i] == old(rows)[i].(revokedAt := rows[i].revokedAt)
      ensures Step(old(rows), RevokeAllExcept(user, spare, now), rows, out)
    {
      RevokeRows((r: Token) => r.user == user && r.family != spare, now);
      out := Done;
    }
  }
}
