/**
 * Actors (profiles: persons and groups) and how they are displayed:
 * the `IActor` record, the `Actor` class with its defaults, and the
 * `usernameWithDomain` / `displayName` / `displayNameAndUsername` rules.
 *
 * Fields that JavaScript code tests for `null`/`undefined` or for
 * truthiness are `Option`s here.
 */
module Actors {
  import opened Text

  /** `ActorType`; the enumeration's file is not part of this model, only the two values used here are named. */
  datatype ActorType = PERSON | GROUP | OtherActorType(name: string)

  /** `ApprovalStatus`; only `APPROVED` is used by the actor model. */
  datatype ApprovalStatus = APPROVED | OtherApprovalStatus(name: string)

  /** An avatar or banner picture; only its url is part of this model. */
  datatype Media = Media(url: string)

  /** An `IActor` value. */
  datatype ActorRecord = ActorRecord(
    id: Option<string>,
    url: string,
    name: Option<string>,
    domain: Option<string>,
    mediaSize: Option<int>,
    summary: string,
    preferredUsername: Option<string>,
    suspended: bool,
    approvalStatus: Option<ApprovalStatus>,
    avatar: Option<Media>,
    banner: Option<Media>,
    actorType: ActorType)

  // ---------------------------------------------------------------------
  // Free functions
  // ---------------------------------------------------------------------

  /**
   * `usernameWithDomain(actor, force)`: "" without a username, otherwise
   * `user@domain`, or `user@hostname` when forced and there is no domain,
   * or the bare username. `hostname` is `window.location.hostname`.
   */
  function UsernameWithDomain(actor: Option<ActorRecord>, force: bool, hostname: string): (r: string)
    ensures (actor.None? || !Truthy(actor.value.preferredUsername)) ==> r == ""
    ensures (actor.Some? && Truthy(actor.value.preferredUsername)) ==>
              var user := actor.value.preferredUsername.value;
              && (Truthy(actor.value.domain) ==> r == user + "@" + actor.value.domain.value)
              && (!Truthy(actor.value.domain) && force ==> r == user + "@" + hostname)
              && (!Truthy(actor.value.domain) && !force ==> r == user)
    ensures r == "" <==> actor.None? || !Truthy(actor.value.preferredUsername)
  {
    if actor.None? || !Truthy(actor.value.preferredUsername) then ""
    else if Truthy(actor.value.domain) then
      actor.value.preferredUsername.value + "@" + actor.value.domain.value
    else if force then
      actor.value.preferredUsername.value + "@" + hostname
    else
      actor.value.preferredUsername.value
  }

  /** The host name is read only when the call is forced and the actor has no domain. */
  lemma HostnameReadOnlyWhenForcedWithoutDomain(actor: Option<ActorRecord>, force: bool, h1: string, h2: string)
    requires !force || (actor.Some? && Truthy(actor.value.domain))
    ensures UsernameWithDomain(actor, force, h1) == UsernameWithDomain(actor, force, h2)
  {
  }

  /** `displayName` keeps a name that is present, non-empty and not the text "undefined". */
  predicate HasValidName(actor: Option<ActorRecord>) {
    actor.Some? && actor.value.name.Some? && actor.value.name.value != ""
    && actor.value.name.value != "undefined"
  }

  /**
   * `displayName(actor)`: the name when it is usable, otherwise the
   * username (with its domain, never forced, so the host name is not read).
   */
  function DisplayName(actor: Option<ActorRecord>): (r: string)
    ensures HasValidName(actor) ==> r == actor.value.name.value
    ensures !HasValidName(actor) ==> r == UsernameWithDomain(actor, false, "")
    ensures (HasValidName(actor) || (actor.Some? && Truthy(actor.value.preferredUsername))) <==> r != ""
  {
    if HasValidName(actor) then actor.value.name.value else UsernameWithDomain(actor, false, "")
  }

  /**
   * `displayNameAndUsername(actor)`: "name (@user@domain)" when the name
   * is truthy, not "undefined" and has a non-whitespace character,
   * otherwise the username alone.
   */
  function DisplayNameAndUsername(actor: ActorRecord): (r: string)
    ensures (Truthy(actor.name) && actor.name.value != "undefined" && !IsBlank(actor.name.value)) ==>
              r == actor.name.value + " (@" + UsernameWithDomain(Some(actor), false, "") + ")"
    ensures !(Truthy(actor.name) && actor.name.value != "undefined" && !IsBlank(actor.name.value)) ==>
              r == UsernameWithDomain(Some(actor), false, "")
  {
    TrimEmptyIffBlank(OrEmpty(actor.name));
    if Truthy(actor.name) && actor.name.value != "undefined" && Trim(actor.name.value) != "" then
      actor.name.value + " (@" + UsernameWithDomain(Some(actor), false, "") + ")"
    else
      UsernameWithDomain(Some(actor), false, "")
  }

  /**
   * A name made only of whitespace is shown by `displayName` but ignored by
   * `displayNameAndUsername`, which shows the username instead.
   */
  lemma {:induction false} BlankNameShownOnlyByDisplayName(actor: ActorRecord)
    requires Truthy(actor.name) && IsBlank(actor.name.value)
    ensures DisplayName(Some(actor)) == actor.name.value
    ensures DisplayNameAndUsername(actor) == UsernameWithDomain(Some(actor), false, "")
  {
    assert actor.name.value[0] != 'u';
  }

  /**
   * A usable name without a username still gets the parenthesised part:
   * `displayNameAndUsername` yields "name (@)".
   */
  lemma NameWithoutUsernameGivesEmptyParentheses(actor: ActorRecord)
    requires actor.name == Some("Ann") && !Truthy(actor.preferredUsername)
    ensures DisplayNameAndUsername(actor) == "Ann (@)"
  {
    assert !IsBlank(actor.name.value) by { assert !IsJsWhitespace(actor.name.value[0]); }
  }

  // ---------------------------------------------------------------------
  // The Actor class
  // ---------------------------------------------------------------------

  /** One property of the hash given to `new Actor(hash)`: absent, or present with a value. */
  datatype Field<T> = Absent | Given(value: T)

  /** The value of a property after `Object.assign`: the given one, else the default. */
  function Assigned<T>(f: Field<T>, default: T): (r: T)
    ensures f.Given? ==> r == f.value
    ensures f.Absent? ==> r == default
  {
    if f.Given? then f.value else default
  }

  /** The hash argument of the `Actor` constructor, restricted to the `IActor` properties. */
  datatype ActorHash = ActorHash(
    id: Field<Option<string>>,
    url: Field<string>,
    name: Field<Option<string>>,
    domain: Field<Option<string>>,
    mediaSize: Field<Option<int>>,
    summary: Field<string>,
    preferredUsername: Field<Option<string>>,
    suspended: Field<bool>,
    approvalStatus: Field<Option<ApprovalStatus>>,
    avatar: Field<Option<Media>>,
    banner: Field<Option<Media>>,
    actorType: Field<ActorType>)

  /** `new Actor()` / `new Actor({})`. */
  const EmptyHash := ActorHash(Absent, Absent, Absent, Absent, Absent, Absent, Absent, Absent, Absent, Absent, Absent, Absent)

  class Actor {
    var id: Option<string>
    var avatar: Option<Media>
    var banner: Option<Media>
    var domain: Option<string>
    var mediaSize: Option<int>
    var name: Option<string>
    var preferredUsername: Option<string>
    var summary: string
    var suspended: bool
    var approvalStatus: Option<ApprovalStatus>
    var url: string
    var actorType: ActorType

    /** The actor's fields as an `IActor` value. */
    function Record(): ActorRecord
      reads this
    {
      ActorRecord(id, url, name, domain, mediaSize, summary, preferredUsername, suspended,
                  approvalStatus, avatar, banner, actorType)
    }

    /**
     * `new Actor(hash)`: the field initialisers give the defaults, then
     * `Object.assign` overwrites every property the hash holds.
     */
    constructor (hash: ActorHash)
      ensures id == Assigned(hash.id, None)
      ensures avatar == Assigned(hash.avatar, None)
      ensures banner == Assigned(hash.banner, None)
      ensures domain == Assigned(hash.domain, None)
      ensures mediaSize == Assigned(hash.mediaSize, Some(0))
      ensures name == Assigned(hash.name, Some(""))
      ensures preferredUsername == Assigned(hash.preferredUsername, Some(""))
      ensures summary == Assigned(hash.summary, "")
      ensures suspended == Assigned(hash.suspended, false)
      ensures approvalStatus == Assigned(hash.approvalStatus, Some(APPROVED))
      ensures url == Assigned(hash.url, "")
      ensures actorType == Assigned(hash.actorType, PERSON)
    {
      // each field initialiser's value, overwritten by `Object.assign(this, hash)`
      // when the hash holds the property
      id := Assigned(hash.id, None);
      avatar := Assigned(hash.avatar, None);
      banner := Assigned(hash.banner, None);
      domain := Assigned(hash.domain, None);
      mediaSize := Assigned(hash.mediaSize, Some(0));
      name := Assigned(hash.name, Some(""));
      preferredUsername := Assigned(hash.preferredUsername, Some(""));
      summary := Assigned(hash.summary, "");
      suspended := Assigned(hash.suspended, false);
      approvalStatus := Assigned(hash.approvalStatus, Some(APPROVED));
      url := Assigned(hash.url, "");
      actorType := Assigned(hash.actorType, PERSON);
    }

    /**
     * `actor.usernameWithDomain()`: "" without a username, otherwise the
     * username with a leading "@", followed by "@domain" when there is one.
     * It is the free function's unforced result with "@" put in front.
     */
    function UsernameWithDomain(): (r: string)
      reads this
      ensures !Truthy(preferredUsername) ==> r == ""
      ensures Truthy(preferredUsername) && Truthy(domain) ==>
                r == "@" + preferredUsername.value + "@" + domain.value
      ensures Truthy(preferredUsername) && !Truthy(domain) ==> r == "@" + preferredUsername.value
      ensures var free := _default.UsernameWithDomain(Some(Record()), false, "");
              r == if free == "" then "" else "@" + free
    {
      if !Truthy(preferredUsername) then ""
      else
        var domainPart := if Truthy(domain) then "@" + domain.value else "";
        "@" + preferredUsername.value + domainPart
    }

    /** `actor.displayName()`: the free `displayName` of this actor. */
    function DisplayName(): (r: string)
      reads this
      ensures HasValidName(Some(Record())) ==> r == name.value
      ensures !HasValidName(Some(Record())) ==> r == _default.UsernameWithDomain(Some(Record()), false, "")
    {
      _default.DisplayName(Some(Record()))
    }
  }

  /** A fresh `new Actor()` holds the documented defaults. */
  method DefaultActor() returns (a: Actor)
    ensures fresh(a)
    ensures a.name == Some("") && a.preferredUsername == Some("") && a.summary == "" && a.url == ""
    ensures a.domain == None && a.mediaSize == Some(0) && !a.suspended
    ensures a.actorType == PERSON && a.approvalStatus == Some(APPROVED)
    ensures a.UsernameWithDomain() == "" && a.DisplayName() == ""
  {
    a := new Actor(EmptyHash);
  }
}
