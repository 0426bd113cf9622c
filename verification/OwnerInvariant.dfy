/** Who would still be an active Owner after a membership change. */
module OwnerInvariant {
  import opened OrgAuthz
  import opened InvitationPolicy

  type UserId = nat

  datatype OwnerMembership = OwnerMembership(userId: UserId, status: MembershipStatus, capabilities: seq<string>)

  datatype OwnerChange =
    | RoleChange(userId: UserId, newRoleCapabilities: seq<string>)
    | Revoke(userId: UserId)

  /** A row that is an active Owner now and still is after `change`. */
  predicate StaysOwner(m: OwnerMembership, change: OwnerChange) {
    && m.status.Active?
    && IsOwnerRole(m.capabilities)
    && (m.userId == change.userId ==> change.RoleChange? && IsOwnerRole(change.newRoleCapabilities))
  }

  /** The change promotes somebody who has no row among the listed ones. */
  predicate PromotesOutsider(owners: seq<OwnerMembership>, change: OwnerChange) {
    && change.RoleChange?
    && IsOwnerRole(change.newRoleCapabilities)
    && forall m <- owners :: m.userId != change.userId
  }

  /** `u` is an active Owner once `change` has been applied to the listed rows. */
  ghost predicate OwnerAfter(owners: seq<OwnerMembership>, change: OwnerChange, u: UserId) {
    || (exists m <- owners :: m.userId == u && StaysOwner(m, change))
    || (u == change.userId && PromotesOutsider(owners, change))
  }

  /** Among the rows that stay Owners, the first of `u` comes before every one of `v`. */
  ghost predicate ComesBefore(owners: seq<OwnerMembership>, change: OwnerChange, u: UserId, v: UserId) {
    exists p :: 0 <= p < |owners| && FirstOf(owners, change, u, v, p)
  }

  predicate FirstOf(owners: seq<OwnerMembership>, change: OwnerChange, u: UserId, v: UserId, p: nat) {
    && p < |owners| && owners[p].userId == u && StaysOwner(owners[p], change)
    && forall q :: 0 <= q <= p ==> !(owners[q].userId == v && StaysOwner(owners[q], change))
  }

  ghost predicate Distinct<T>(s: seq<T>) {
    forall i, j :: 0 <= i < j < |s| ==> s[i] != s[j]
  }

  /** Somebody who is not among the first `n` rows that stay Owners comes after everybody who is. */
  lemma NewcomerComesLast(owners: seq<OwnerMembership>, change: OwnerChange, found: seq<UserId>, n: nat, v: UserId)
    requires n <= |owners|
    requires forall u :: u in found <==> exists m <- owners[..n] :: m.userId == u && StaysOwner(m, change)
    requires v !in found
    ensures forall u :: u in found ==> ComesBefore(owners, change, u, v)
  {
    forall u | u in found
      ensures ComesBefore(owners, change, u, v)
    {
      var m :| m in owners[..n] && m.userId == u && StaysOwner(m, change);
      var p :| 0 <= p < n && owners[..n][p] == m;
      assert forall q :: 0 <= q <= p ==> owners[q] in owners[..n];
      assert FirstOf(owners, change, u, v, p);
    }
  }

  /** Without duplicates and in the order of the rows; a promoted outsider comes last. */
  method ActiveOwnersAfter(owners: seq<OwnerMembership>, change: OwnerChange) returns (remaining: seq<UserId>)
    ensures Distinct(remaining)
    ensures forall u :: u in remaining <==> OwnerAfter(owners, change, u)
    ensures forall i, j :: 0 <= i < j < |remaining| ==> ComesBefore(owners, change, remaining[i], remaining[j])
  {
    remaining := [];
    var seen: set<UserId> := {};
    var targetIsKnownOwnerRow := exists m <- owners :: m.userId == change.userId;
    for i := 0 to |owners|
      invariant Distinct(remaining)
      invariant forall u :: u in seen <==> u in remaining
      invariant forall u :: u in remaining <==> exists m <- owners[..i] :: m.userId == u && StaysOwner(m, change)
      invariant forall a, b :: 0 <= a < b < |remaining| ==> ComesBefore(owners, change, remaining[a], remaining[b])
    {
      assert owners[..i + 1] == owners[..i] + [owners[i]];
      var membership := owners[i];
      if !membership.status.Active? { continue; }
      if !IsOwnerRole(membership.capabilities) { continue; }
      if membership.userId == change.userId {
        if change.Revoke? { continue; }
        if !IsOwnerRole(change.newRoleCapabilities) { continue; }
      }
      if membership.userId in seen { continue; }
      NewcomerComesLast(owners, change, remaining, i, membership.userId);
      seen := seen + {membership.userId};
      remaining := remaining + [membership.userId];
    }
    assert owners[..|owners|] == owners;
    if change.RoleChange? && !targetIsKnownOwnerRow && IsOwnerRole(change.newRoleCapabilities)
       && change.userId !in seen
    {
      NewcomerComesLast(owners, change, remaining, |owners|, change.userId);
      remaining := remaining + [change.userId];
    }
  }

  /** Refuses (`false`) exactly when nobody would be left as an active Owner. */
  method OwnerRemains(owners: seq<OwnerMembership>, change: OwnerChange) returns (remains: bool)
    ensures remains <==> exists u :: OwnerAfter(owners, change, u)
  {
    var remaining := ActiveOwnersAfter(owners, change);
    remains := |remaining| != 0;
    if remains {
      assert remaining[0] in remaining;
    }
  }

  /** Nobody among the listed rows is an active Owner before the change. */
  predicate NoOwnerYet(owners: seq<OwnerMembership>) {
    forall m <- owners :: !(m.status.Active? && IsOwnerRole(m.capabilities))
  }

  /**
   * Where there is no active Owner yet, the check passes exactly for the promotion of somebody without an Owner
   * row.
   */
  lemma PassesWithoutOwners(owners: seq<OwnerMembership>, change: OwnerChange)
    requires NoOwnerYet(owners)
    ensures (exists u :: OwnerAfter(owners, change, u)) <==> PromotesOutsider(owners, change)
  {
    if PromotesOutsider(owners, change) {
      assert OwnerAfter(owners, change, change.userId);
    }
  }

  /** The least such input: no rows at all, and somebody is made an Owner. */
  lemma PromotionPassesWithoutOwners()
    ensures NoOwnerYet([]) && OwnerAfter([], RoleChange(0, [FULL_ACCESS]), 0)
  {
    assert PromotesOutsider([], RoleChange(0, [FULL_ACCESS]));
  }
}
