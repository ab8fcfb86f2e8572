/**
 * The current-actor state: the Apollo cache's "current actor" slot and the
 * saved actor data, and the two operations that write them,
 * `changeIdentity` and `initializeCurrentActor`.
 *
 * The slot write (`updateCurrentActorClient`, an awaited Apollo mutation)
 * is a foreign call: whether it succeeds is a parameter. A rejected write
 * leaves the slot as it was and propagates out of the operation.
 * `saveActorData` becomes the write of the second field.
 */
module Identity {
  import opened Text
  import opened Actors

  /** What an operation throws. */
  datatype Failure =
    | NoIdentities        // NoIdentitiesException
    | SlotWriteRejected   // the rejection of updateCurrentActorClient, not caught

  /** How an awaited operation settles. */
  datatype Outcome = Completed | Raised(failure: Failure)

  /** The two cells: the cache slot and the saved actor data. */
  datatype Session = Session(currentActor: Option<ActorRecord>, savedActor: Option<ActorRecord>)

  /** A person the state may be switched to: one with a truthy `id`. */
  predicate Adoptable(identity: ActorRecord) {
    Truthy(identity.id)
  }

  /** The state and outcome after `changeIdentity(identity)`. */
  function ChangeIdentityStep(s: Session, identity: Option<ActorRecord>, slotWriteOk: bool): (Session, Outcome)
  {
    if identity.None? || !Adoptable(identity.value) then (s, Completed)
    else if !slotWriteOk then (s, Raised(SlotWriteRejected))
    else (Session(identity, identity), Completed)
  }

  /** The state and outcome after `initializeCurrentActor(identities)`. */
  function InitializeStep(s: Session, identities: Option<seq<ActorRecord>>, slotWriteOk: bool): (Session, Outcome)
  {
    if identities.None? then (s, Completed)
    else if |identities.value| < 1 then (s, Raised(NoIdentities))
    else
      var identity := identities.value[0];
      if !Adoptable(identity) then (s, Completed)
      else if !slotWriteOk then (s, Raised(SlotWriteRejected))
      else (Session(Some(identity), if Adoptable(identity) then Some(identity) else s.savedActor), Completed)
  }

  class CurrentActorStore {
    /** The cache's current-actor slot. */
    var currentActor: Option<ActorRecord>
    /** The actor data saved by `saveActorData`. */
    var savedActor: Option<ActorRecord>

    function State(): Session
      reads this
    {
      Session(currentActor, savedActor)
    }

    constructor (initial: Session)
      ensures State() == initial
    {
      currentActor := initial.currentActor;
      savedActor := initial.savedActor;
    }

    /**
     * `changeIdentity(identity)`: nothing for a missing identity or one
     * without an id; otherwise write the slot, and only once that write
     * has succeeded, save the actor.
     */
    method ChangeIdentity(identity: Option<ActorRecord>, slotWriteOk: bool) returns (outcome: Outcome)
      modifies this
      ensures (State(), outcome) == ChangeIdentityStep(old(State()), identity, slotWriteOk)
      ensures (identity.None? || !Adoptable(identity.value)) ==> unchanged(this) && outcome == Completed
      ensures (identity.Some? && Adoptable(identity.value) && !slotWriteOk) ==>
                unchanged(this) && outcome == Raised(SlotWriteRejected)
      ensures (identity.Some? && Adoptable(identity.value) && slotWriteOk) ==>
                currentActor == identity && savedActor == identity && outcome == Completed
    {
      if identity.None? || !Truthy(identity.value.id) {
        return Completed;
      }
      // await updateCurrentActorClient(identity)
      if !slotWriteOk {
        return Raised(SlotWriteRejected);
      }
      currentActor := identity;
      // saveActorData(identity)
      savedActor := identity;
      outcome := Completed;
    }

    /**
     * `initializeCurrentActor(identities)`: nothing while the list is not
     * loaded, `NoIdentitiesException` for an empty list, and otherwise the
     * first identity is written to the slot and saved (when it has an id).
     */
    method InitializeCurrentActor(identities: Option<seq<ActorRecord>>, slotWriteOk: bool) returns (outcome: Outcome)
      modifies this
      ensures (State(), outcome) == InitializeStep(old(State()), identities, slotWriteOk)
      ensures identities.None? ==> unchanged(this) && outcome == Completed
      ensures identities == Some([]) ==> unchanged(this) && outcome == Raised(NoIdentities)
      ensures (identities.Some? && |identities.value| > 0 && Adoptable(identities.value[0]) && slotWriteOk) ==>
                currentActor == Some(identities.value[0]) && savedActor == Some(identities.value[0])
    {
      if identities.None? {
        return Completed;
      }
      if |identities.value| < 1 {
        return Raised(NoIdentities);
      }
      var identity := identities.value[0];
      if !Truthy(identity.id) {
        return Completed;
      }
      // await updateCurrentActorClient(identity)
      if !slotWriteOk {
        return Raised(SlotWriteRejected);
      }
      currentActor := Some(identity);
      if Truthy(identity.id) {
        // saveActorData(identity)
        savedActor := Some(identity);
      }
      outcome := Completed;
    }
  }

  // ---------------------------------------------------------------------
  // Properties of the two operations
  // ---------------------------------------------------------------------

  /** An identity that is missing or has no id leaves both cells as they were and does not throw. */
  lemma InvalidIdentityChangesNothing(s: Session, identity: Option<ActorRecord>, slotWriteOk: bool)
    requires identity.None? || !Truthy(identity.value.id)
    ensures ChangeIdentityStep(s, identity, slotWriteOk) == (s, Completed)
  {
  }

  /**
   * The actor is saved only after the slot write succeeded: a rejected
   * write throws and leaves the saved data (and the slot) untouched, and
   * whenever the saved data changed, the slot holds the same actor.
   */
  lemma SaveFollowsSlotWrite(s: Session, identity: Option<ActorRecord>, slotWriteOk: bool)
    ensures var (t, out) := ChangeIdentityStep(s, identity, slotWriteOk);
            && (!slotWriteOk ==> t == s)
            && (t.savedActor != s.savedActor ==> slotWriteOk && t.currentActor == t.savedActor && out == Completed)
  {
  }

  /** Loading with an unloaded list does nothing; an empty list throws `NoIdentities` and changes nothing. */
  lemma InitializeGuards(s: Session, slotWriteOk: bool)
    ensures InitializeStep(s, None, slotWriteOk) == (s, Completed)
    ensures InitializeStep(s, Some([]), slotWriteOk) == (s, Raised(NoIdentities))
  {
  }

  /**
   * For a non-empty list, initialisation is `changeIdentity` of the first
   * element: later elements play no part.
   */
  lemma InitializeAdoptsFirst(s: Session, identities: seq<ActorRecord>, slotWriteOk: bool)
    requires |identities| > 0
    ensures InitializeStep(s, Some(identities), slotWriteOk)
            == ChangeIdentityStep(s, Some(identities[0]), slotWriteOk)
    ensures forall rest :: InitializeStep(s, Some([identities[0]] + rest), slotWriteOk)
                           == InitializeStep(s, Some(identities), slotWriteOk)
  {
  }

  /** Repeating either operation with the same argument ends in the same state as doing it once. */
  lemma OperationsAreIdempotent(s: Session, identity: Option<ActorRecord>, identities: Option<seq<ActorRecord>>)
    ensures var once := ChangeIdentityStep(s, identity, true).0;
            ChangeIdentityStep(once, identity, true) == (once, Completed)
    ensures var once := InitializeStep(s, identities, true);
            InitializeStep(once.0, identities, true) == once
  {
  }
}
