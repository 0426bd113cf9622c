/** When an invitation is alive, how long it lives, and whether it may be accepted. */
module InvitationPolicy {
  import opened Wrappers
  import opened OrgAuthz

  datatype StoredStatus = Pending | Accepted | Expired | Cancelled
  datatype MembershipStatus = Active | Invited | Revoked

  const HOUR_MS := 60 * 60 * 1000
  const TTL_HOURS_ELEVATED := 24
  const TTL_HOURS_STANDARD := 168

  /** The stored status as the clock sees it; a terminal status is never overridden. */
  function ResolveStatus(status: StoredStatus, expiresAt: int, now: int): StoredStatus {
    if status.Pending? && expiresAt <= now then Expired else status
  }

  datatype StatusFilter = OnlyPending | OnlyExpired | OnlyAccepted | OnlyCancelled | Everything

  predicate Shows(filter: StatusFilter, status: StoredStatus) {
    match filter
    case OnlyPending => status.Pending?
    case OnlyExpired => status.Expired?
    case OnlyAccepted => status.Accepted?
    case OnlyCancelled => status.Cancelled?
    case Everything => true
  }

  /**
   * The list filter can only ask about stored columns. It selects by the status the clock sees,
   * except that it misses a row stored as expired, which no write path leaves behind.
   */
  predicate MatchesFilter(filter: StatusFilter, status: StoredStatus, expiresAt: int, now: int): (r: bool)
    ensures (r <==> Shows(filter, ResolveStatus(status, expiresAt, now))) <==> !(filter.OnlyExpired? && status.Expired?)
  {
    match filter
    case OnlyPending => status.Pending? && expiresAt > now
    case OnlyExpired => status.Pending? && expiresAt <= now
    case OnlyAccepted => status.Accepted?
    case OnlyCancelled => status.Cancelled?
    case Everything => true
  }

  function TtlHours(roleCapabilities: seq<string>): int {
    if HasCapability(roleCapabilities, MANAGE_MEMBERS) then TTL_HOURS_ELEVATED else TTL_HOURS_STANDARD
  }

  function ExpiryFrom(now: int, ttlHours: int): int {
    now + ttlHours * HOUR_MS
  }

  datatype AcceptDecision =
    | Ok
    | IsExpired
    | IsCancelled
    | AlreadyAccepted
    | AlreadyMember
    | Superseded
    | RoleUnavailable

  /** The invitee's own membership row, if there is one. */
  datatype AcceptorMembership = AcceptorMembership(status: MembershipStatus, revokedAt: Option<int>)

  function CanAccept(status: StoredStatus, expiresAt: int, tokenIssuedAt: int,
                     membership: Option<AcceptorMembership>, roleExistsInOrg: bool, now: int): AcceptDecision
  {
    match ResolveStatus(status, expiresAt, now)
    case Expired => IsExpired
    case Cancelled => IsCancelled
    case Accepted => AlreadyAccepted
    case Pending =>
      if !roleExistsInOrg then RoleUnavailable
      else if membership.None? then Ok
      else
        match membership.value.status
        case Active => AlreadyMember
        case Invited => Superseded
        case Revoked =>
          if membership.value.revokedAt.None? || membership.value.revokedAt.value >= tokenIssuedAt
          then Superseded
          else Ok
  }
}
