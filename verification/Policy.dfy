/** The approval policy schema: what a stored policy definition must look like before
    anything is evaluated against it. */
module Policy {

  datatype Option<+T> = None | Some(value: T)

  datatype DecisionRule = Majority | Unanimous | Veto
  datatype PrincipalType = Human | System | Ai
  datatype RejectionBehavior = LeaveMissionUnchanged | BlockMission
  datatype ExpirationBehavior = Expire | BlockOnExpiry | Recreate

  datatype QuorumSlot = QuorumSlot(name: string, eligibleRoles: seq<string>)
  datatype Expiration = Expiration(behavior: ExpirationBehavior, maxAutoRetries: Option<int>)

  /** The closed registry of role slugs. */
  const ROLE_SLUGS: set<string> := {
    "ai-simulation-designer", "creative-director", "gameplay-engineer", "game-systems-designer",
    "human-owner", "qa-reviewer", "technical-director", "ui-ux-engineer", "world-designer"
  }

  datatype PolicyDefinition = PolicyDefinition(
    rule: DecisionRule,
    slots: seq<QuorumSlot>,
    allowedTypes: seq<PrincipalType>,
    allowedRoles: seq<string>,
    trustRequirements: Option<seq<string>>,
    rejectionBehavior: RejectionBehavior,
    expiration: Expiration,
    vetoRoles: Option<seq<string>>)
  {
    /** Every field and cross-field check of the schema. */
    predicate Valid() {
      && ValidSlots()
      && |allowedTypes| > 0 && Ai !in allowedTypes
      && |allowedRoles| > 0 && KnownRoles(allowedRoles)
      && ValidExpiration()
      && ValidVeto()
      && (forall i | 0 <= i < |slots| :: Within(slots[i].eligibleRoles, allowedRoles))
    }

    predicate ValidSlots() {
      && |slots| > 0
      && (forall i | 0 <= i < |slots| ::
            |slots[i].name| > 0 && |slots[i].eligibleRoles| > 0 && KnownRoles(slots[i].eligibleRoles))
      && (forall i, j | 0 <= i < j < |slots| :: slots[i].name != slots[j].name)
    }

    predicate ValidExpiration() {
      && (expiration.maxAutoRetries.Some? <==> expiration.behavior == Recreate)
      && (expiration.maxAutoRetries.Some? ==> expiration.maxAutoRetries.value >= 0)
      && (expiration.behavior == Recreate ==> System in allowedTypes)
    }

    predicate ValidVeto() {
      && (vetoRoles.Some? <==> rule == Veto)
      && (vetoRoles.Some? ==>
            && |vetoRoles.value| > 0 && KnownRoles(vetoRoles.value)
            && Within(vetoRoles.value, allowedRoles))
    }
  }

  predicate KnownRoles(roles: seq<string>) {
    forall r | r in roles :: r in ROLE_SLUGS
  }

  predicate Within(roles: seq<string>, allowed: seq<string>) {
    forall r | r in roles :: r in allowed
  }
}
