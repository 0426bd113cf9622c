/** Capabilities and the Owner-only rule for membership changes. */
module OrgAuthz {

  const FULL_ACCESS := "full_access"
  const MANAGE_MEMBERS := "manage_members"

  /** `full_access` is a wildcard that grants every capability. */
  predicate HasCapability(capabilities: seq<string>, required: string) {
    FULL_ACCESS in capabilities || required in capabilities
  }

  /** An Owner is whoever holds `full_access`, whatever the role is called. */
  predicate IsOwnerRole(capabilities: seq<string>) {
    FULL_ACCESS in capabilities
  }

  predicate CanAssignRole(actorCapabilities: seq<string>, targetIsOwner: bool, newRoleIsOwner: bool) {
    if targetIsOwner || newRoleIsOwner
    then HasCapability(actorCapabilities, FULL_ACCESS)
    else HasCapability(actorCapabilities, MANAGE_MEMBERS)
  }
}
