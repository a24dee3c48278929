/** Authority-scoped pin release and expiry that fails toward retention. */
module PinLeases {
  import opened Prelude
  import opened Walks
  import opened MetadataTables
  import opened MetadataStore
  import opened GcSnapshot
  import opened GcExecution

  datatype Releaser = Coordinator(authority: Key) | Worker(claimedOwner: string)

  datatype ReleaseOutcome =
    | Released | AlreadyReleased | NoSuchPin
    | RefusedWorkerOnPublicationRoot | RefusedNotOwner | RefusedNotActiveAuthority

  function Decision(t: Tables, pin: nat, who: Releaser): Result<ReleaseOutcome, Error> {
    if pin !in t.pins then Ok(NoSuchPin)
    else if t.pins[pin].released then Ok(AlreadyReleased)
    else
      match who
      case Worker(owner) =>
        Ok(if t.pins[pin].pinClass == PUBLICATION_PIN_CLASS then RefusedWorkerOnPublicationRoot
           else if t.pins[pin].owner != owner then RefusedNotOwner
           else Released)
      case Coordinator(authority) =>
        (match ActiveKey(t)
         case Err(e) => Err(e)
         case Ok(active) => Ok(if active == Some(authority) then Released else RefusedNotActiveAuthority))
  }

  function WithPinReleased(t: Tables, pin: nat): Tables
    requires pin in t.pins
  {
    t.(pins := t.pins[pin := t.pins[pin].(released := true)])
  }

  /** A publication pin is released by no worker, whatever it claims, and by a coordinator only
      while it presents the active authority. */
  lemma PublicationPinRelease(t: Tables, pin: nat, who: Releaser)
    requires pin in t.pins && t.pins[pin].pinClass == PUBLICATION_PIN_CLASS
    ensures Decision(t, pin, who) == Ok(Released) <==>
      !t.pins[pin].released && who.Coordinator? && ActiveKeys(t) == {who.authority}
  {
  }

  /** Who may have this pin released: the coordinator that holds the one active authority, or the
      worker that owns a pin outside the publication class. */
  ghost predicate MayRelease(t: Tables, pin: nat, who: Releaser)
    requires pin in t.pins
  {
    match who
    case Coordinator(authority) => ActiveKeys(t) == {authority}
    case Worker(owner) => t.pins[pin].owner == owner && t.pins[pin].pinClass != "action-publication"
  }

  /** Every answer of a scoped release, from the pin row and the active authorities alone. */
  lemma ReleaseDecision(t: Tables, pin: nat, who: Releaser)
    ensures var r := Decision(t, pin, who);
      && (r == Ok(NoSuchPin) <==> pin !in t.pins)
      && (r == Ok(AlreadyReleased) <==> pin in t.pins && t.pins[pin].released)
      && (r == Ok(Released) <==> pin in t.pins && !t.pins[pin].released && MayRelease(t, pin, who))
      && (r == Ok(RefusedWorkerOnPublicationRoot) <==>
            && pin in t.pins && !t.pins[pin].released && who.Worker?
            && t.pins[pin].pinClass == "action-publication")
      && (r == Ok(RefusedNotOwner) <==>
            && pin in t.pins && !t.pins[pin].released && who.Worker?
            && t.pins[pin].pinClass != "action-publication" && t.pins[pin].owner != who.claimedOwner)
      && (r == Ok(RefusedNotActiveAuthority) <==>
            && pin in t.pins && !t.pins[pin].released && who.Coordinator?
            && |ActiveKeys(t)| <= 1 && ActiveKeys(t) != {who.authority})
      && (r.Err? <==> pin in t.pins && !t.pins[pin].released && who.Coordinator? && |ActiveKeys(t)| > 1)
  {
    if |ActiveKeys(t)| == 1 { SingletonSet(ActiveKeys(t)); }
  }

  /** `release_pin_scoped`: at most the released flag of the named pin changes, and only on a
      Released answer. */
  method ReleasePinScoped(store: SqlMetadataStore, pin: nat, who: Releaser)
    returns (r: Result<ReleaseOutcome, Error>)
    requires store.Valid()
    modifies store
    ensures store.Valid()
    ensures r == Ok(Released) ==> Decision(old(store.durable), pin, who) == Ok(Released)
    ensures store.durable ==
      if r == Ok(Released) then WithPinReleased(old(store.durable), pin) else old(store.durable)
    ensures old(store.budget) == None ==> r == Decision(old(store.durable), pin, who) && store.budget == None
    ensures old(store.budget) == None ==>
      (r == Ok(Released) <==>
        && pin in old(store.durable).pins && !old(store.durable).pins[pin].released
        && MayRelease(old(store.durable), pin, who))
    ensures var t := old(store.durable); store.durable != t ==>
      && pin in t.pins && !t.pins[pin].released && MayRelease(t, pin, who)
      && store.durable == t.(pins := t.pins[pin := t.pins[pin].(released := true)])
  {
    ReleaseDecision(store.durable, pin, who);
    if store.budget == Some(0) {
      return Err(Crash);
    }
    var t := store.durable;
    var decision := Decision(t, pin, who);
    if decision != Ok(Released) {
      return decision;
    }
    var owner := t.pins[pin].owner;
    SingleStmt(OnPins(SetPinReleased(pin)), t);
    var released := store.Call(ReleasePin(pin, owner));
    if released.Err? {
      return Err(released.error);
    }
    return Ok(Released);
  }

  datatype Protection = Protecting | GraceProtecting | Expired

  /** `pin_protection`: every uncertain case keeps protecting. */
  function PinProtection(t: Tables, pin: nat, now: u64, confirmed: bool, grace: u64): Option<Protection> {
    if pin !in t.pins then None
    else
      var row := t.pins[pin];
      if row.released then Some(Expired)
      else if row.expiresAt.None? || now <= row.expiresAt.value then Some(Protecting)
      else if !confirmed then Some(GraceProtecting)
      else if now <= SaturatingAdd(row.expiresAt.value, grace) then Some(GraceProtecting)
      else Some(Expired)
  }

  /** What the judgment of a pin means: released is expired, an unexpired or unexpiring pin
      protects, and an expired one keeps protecting until reconciliation has confirmed the expiry
      and the grace, which saturates, has run out as well. */
  lemma PinProtectionMeans(t: Tables, pin: nat, now: u64, confirmed: bool, grace: u64)
    ensures var r := PinProtection(t, pin, now, confirmed, grace);
      && (r == None <==> pin !in t.pins)
      && (pin in t.pins ==> var row := t.pins[pin]; var over := row.expiresAt.Some? && now > row.expiresAt.value;
            && (r == Some(Protecting) <==> !row.released && !over)
            && (r == Some(Expired) <==>
                  || row.released
                  || (over && confirmed && now > row.expiresAt.value + grace))
            && (r == Some(GraceProtecting) <==>
                  && !row.released && over
                  && (!confirmed || now <= row.expiresAt.value + grace)))
  {
  }

  /** A pin judged still protecting, in grace or not, has its root in what collection preserves. */
  lemma ProtectingIsPreserved(t: Tables, pin: nat, now: u64, confirmed: bool, grace: u64)
    requires PinProtection(t, pin, now, confirmed, grace) in {Some(Protecting), Some(GraceProtecting)}
    ensures t.pins[pin].root in Preserved(t)
  {
    Stay(Linked(t.storage.edges), t.pins[pin].root);
    PreservedExact(t, t.pins[pin].root);
  }
}
