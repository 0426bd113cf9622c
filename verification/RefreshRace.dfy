/**
 * What the row lock alone does not give. An update of many rows that waits for a locked row goes on
 * with that row as it is by then, but without the rows inserted since its statement began.
 */
module RefreshRace {
  import opened Wrappers
  import opened RefreshTokens
  import opened RefreshRuns

  /** The update as it finishes: only the first `seen` rows were there when it began. */
  function RevokeSeen(rows: seq<Token>, seen: nat, scope: Token -> bool, now: int): seq<Token>
    requires seen <= |rows|
  {
    RevokeWhere(rows[..seen], scope, now) + rows[seen..]
  }

  /** The scope takes a family as a whole or not at all, as each of the service's scopes does. */
  ghost predicate TakesWholeFamilies(rows: seq<Token>, scope: Token -> bool) {
    forall i, j :: 0 <= i < |rows| && 0 <= j < |rows| && rows[i].family == rows[j].family ==>
                     scope(rows[i]) == scope(rows[j])
  }

  /** Row `j` joined, while the update waited, a family that the update is about to revoke. */
  predicate JoinsMeanwhile(rows: seq<Token>, seen: nat, scope: Token -> bool, i: nat, j: nat) {
    && i < seen <= j < |rows|
    && rows[i].family == rows[j].family && scope(rows[i]) && rows[i].revokedAt.None?
  }

  ghost predicate NobodyJoins(rows: seq<Token>, seen: nat, scope: Token -> bool) {
    forall i: nat, j: nat :: !JoinsMeanwhile(rows, seen, scope, i, j)
  }

  lemma SeenRows(rows: seq<Token>, seen: nat, scope: Token -> bool, now: int)
    requires seen <= |rows|
    ensures var rows' := RevokeSeen(rows, seen, scope, now);
            && |rows'| == |rows|
            && (forall i :: 0 <= i < seen ==> rows'[i] == RevokeWhere(rows, scope, now)[i])
            && (forall i :: seen <= i < |rows| ==> rows'[i] == rows[i])
  {
  }

  /** Families stay linear however long the update waited. */
  lemma WaitingKeepsLinear(rows: seq<Token>, seen: nat, scope: Token -> bool, now: int, f: FamilyId)
    requires seen <= |rows| && IsLinear(rows, f)
    ensures IsLinear(RevokeSeen(rows, seen, scope, now), f)
  {
    var rows' := RevokeSeen(rows, seen, scope, now);
    SeenRows(rows, seen, scope, now);
    ChainIgnoresRevocation(rows, rows', f);
    forall k | 0 <= k < |Chain(rows', f)|
      ensures LinksBack(rows', Chain(rows', f), k)
    {
      assert LinksBack(rows, Chain(rows, f), k);
    }
  }

  lemma UniformIfNobodyJoins(rows: seq<Token>, seen: nat, scope: Token -> bool, now: int)
    requires seen <= |rows| && IsUniform(rows) && TakesWholeFamilies(rows, scope) && NobodyJoins(rows, seen, scope)
    ensures IsUniform(RevokeSeen(rows, seen, scope, now))
  {
    var rows' := RevokeSeen(rows, seen, scope, now);
    SeenRows(rows, seen, scope, now);
    forall i, j | 0 <= i < |rows| && 0 <= j < |rows| && rows[i].family == rows[j].family
      ensures rows'[i].revokedAt.None? <==> rows'[j].revokedAt.None?
    {
      assert !JoinsMeanwhile(rows, seen, scope, i, j) && !JoinsMeanwhile(rows, seen, scope, j, i);
    }
  }

  /** All or none of a family are revoked, exactly when no row joined it while the update waited. */
  lemma WaitingKeepsUniform(rows: seq<Token>, seen: nat, scope: Token -> bool, now: int)
    requires seen <= |rows| && IsUniform(rows) && TakesWholeFamilies(rows, scope)
    ensures IsUniform(RevokeSeen(rows, seen, scope, now)) <==> NobodyJoins(rows, seen, scope)
  {
    var rows' := RevokeSeen(rows, seen, scope, now);
    SeenRows(rows, seen, scope, now);
    if NobodyJoins(rows, seen, scope) {
      UniformIfNobodyJoins(rows, seen, scope, now);
    } else {
      var i: nat, j: nat :| JoinsMeanwhile(rows, seen, scope, i, j);
      assert rows[j].revokedAt.None?;
      assert rows'[i].family == rows'[j].family && rows'[i].revokedAt.Some? && rows'[j].revokedAt.None?;
    }
  }

  /**
   * In every sound table: a revocation that began before a rotation of the family committed, and had to
   * wait for it, leaves the successor alone, and the successor still rotates.
   */
  lemma SuccessorIsMissed(rows: seq<Token>, op: Operation, now: int, later: int, dbLater: int)
    requires Sound(rows) && op.Rotate? && op.presented < |rows| && ApplyRotate(rows, op).1.Issued?
    requires later < op.now + 5_184_000_000 && later < rows[op.presented].familyExpiresAt
    ensures var f, n := rows[op.presented].family, |rows|;
            var rows' := RevokeSeen(ApplyRotate(rows, op).0, n, InFamily(f), now);
            && rows'[op.presented].revokedAt.Some? && rows'[n].revokedAt.None? && !IsUniform(rows')
            && ApplyRotate(rows', Rotate(n, later, dbLater)).1 == Issued(n + 1, f)
  {
    var f, n := rows[op.presented].family, |rows|;
    var rotated := ApplyRotate(rows, op).0;
    var rows' := RevokeSeen(rotated, n, InFamily(f), now);
    SeenRows(rotated, n, InFamily(f), now);
    assert rotated[op.presented] == rows[op.presented];
    assert rows'[op.presented].family == rows'[n].family;
    NobodyFollows(rows, op, rows');
  }

  /** The row that a rotation has just added has no successor. */
  lemma NobodyFollows(rows: seq<Token>, op: Operation, rows': seq<Token>)
    requires Sound(rows) && op.Rotate? && op.presented < |rows| && ApplyRotate(rows, op).1.Issued?
    requires SameButRevoked(ApplyRotate(rows, op).0, rows')
    ensures FindSuccessor(rows', |rows|).None?
  {
    var s := FindSuccessor(rows', |rows|);
    if s.Some? && s.value < |rows| {
      assert IsLinear(rows, rows[s.value].family);
      var k := PlaceOf(rows, s.value);
      assert false;
    }
  }
}
