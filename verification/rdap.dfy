/** The RDAP step of a lookup: what `GetRdap` keeps of the RDAP client's answer.
    The query itself, the vCard decoding behind `VCard.Name()` and RFC 3339
    time parsing are foreign code, so the answer arrives as a value, the
    registrar's display name as a field of each entity, and parsing as a
    partial function `parse` from date text to an instant of type `T`. */
module Rdap {
  import opened Results

  /** An entity attached to the domain: its roles and its vCard display name. */
  datatype Entity = Entity(roles: seq<string>, vcardName: string)

  /** A dated event of the domain, e.g. action "expiration". */
  datatype Event = Event(action: string, date: string)

  /** The parts of the RDAP domain object the tool reads. */
  datatype DomainObject = DomainObject(entities: seq<Entity>, events: seq<Event>)

  /** Why a single domain could not be looked up. */
  datatype LookupError =
    | NoRdapService(domain: string)  // the domain's TLD is not in the service map
    | QueryFailed(reason: string)    // the RDAP client reported an error
    | BadExpiryDate(date: string)    // the expiration date is not RFC 3339 text

  /** A successfully looked-up domain. `failed` is never set on any live path. */
  datatype DomainInfo<T> = DomainInfo(domainName: string, registrar: string, expiry: T, failed: bool)

  const RegistrarRole := "registrar"
  const ExpirationAction := "expiration"

  /** `contains`: a linear scan that stops at the first equal element. */
  function Contains(slice: seq<string>, str: string): (found: bool)
    ensures found <==> str in slice
  {
    if |slice| == 0 then false
    else if slice[0] == str then true
    else Contains(slice[1..], str)
  }

  predicate IsRegistrar(entity: Entity)
  {
    Contains(entity.roles, RegistrarRole)
  }

  /** Entity `i` is the first one with the registrar role. */
  ghost predicate FirstRegistrarAt(entities: seq<Entity>, i: int)
  {
    && 0 <= i < |entities|
    && RegistrarRole in entities[i].roles
    && forall j :: 0 <= j < i ==> RegistrarRole !in entities[j].roles
  }

  /** The registrar loop: the name of the first entity whose roles contain
      "registrar", or "" when none does. */
  function RegistrarName(entities: seq<Entity>): (name: string)
    ensures forall i :: FirstRegistrarAt(entities, i) ==> name == entities[i].vcardName
    ensures (forall i :: 0 <= i < |entities| ==> RegistrarRole !in entities[i].roles) ==> name == ""
  {
    if |entities| == 0 then ""
    else if IsRegistrar(entities[0]) then entities[0].vcardName
    else
      var name := RegistrarName(entities[1..]);
      assert forall i :: FirstRegistrarAt(entities, i) ==> FirstRegistrarAt(entities[1..], i - 1);
      name
  }

  /** Event `i` is the first one whose action is "expiration". */
  ghost predicate FirstExpirationAt(events: seq<Event>, i: int)
  {
    && 0 <= i < |events|
    && events[i].action == ExpirationAction
    && forall j :: 0 <= j < i ==> events[j].action != ExpirationAction
  }

  /** The expiry loop: the date of the first "expiration" event, parsed; a
      parse failure is an error; later "expiration" events are never looked
      at; with no such event the result is the `zero` instant. */
  function ExpiryDate<T>(events: seq<Event>, parse: string -> Option<T>, zero: T): (r: Result<T, LookupError>)
    ensures (forall i :: 0 <= i < |events| ==> events[i].action != ExpirationAction) ==> r == Success(zero)
    ensures forall i :: FirstExpirationAt(events, i) ==>
      r == match parse(events[i].date)
           case Some(t) => Success(t)
           case None => Failure(BadExpiryDate(events[i].date))
    ensures r.Failure? ==> r.error.BadExpiryDate?
  {
    if |events| == 0 then Success(zero)
    else if events[0].action == ExpirationAction then
      match parse(events[0].date)
      case Some(t) => Success(t)
      case None => Failure(BadExpiryDate(events[0].date))
    else
      var r := ExpiryDate(events[1..], parse, zero);
      assert forall i :: FirstExpirationAt(events, i) ==> FirstExpirationAt(events[1..], i - 1);
      r
  }

  /** Events after the first "expiration" event do not influence the expiry. */
  lemma {:induction false} LaterEventsIgnored<T>(events: seq<Event>, more: seq<Event>, parse: string -> Option<T>, zero: T)
    requires exists i :: 0 <= i < |events| && events[i].action == ExpirationAction
    ensures ExpiryDate(events + more, parse, zero) == ExpiryDate(events, parse, zero)
  {
    var i :| 0 <= i < |events| && events[i].action == ExpirationAction;
    if events[0].action != ExpirationAction {
      assert events[1..][i - 1].action == ExpirationAction;
      LaterEventsIgnored(events[1..], more, parse, zero);
      assert (events + more)[1..] == events[1..] + more;
      assert (events + more)[0] == events[0];
    }
  }

  /** `GetRdap` given the client's answer to `QueryDomain(domainName)`. */
  function GetRdap<T>(domainName: string, answer: Result<DomainObject, string>, parse: string -> Option<T>, zero: T)
    : (r: Result<DomainInfo<T>, LookupError>)
    ensures answer.Failure? ==> r == Failure(QueryFailed(answer.error))
    ensures r.Failure? ==> !r.error.NoRdapService?
    ensures answer.Success? && r.Failure? ==>
      ExpiryDate(answer.value.events, parse, zero).Failure? && r.error == ExpiryDate(answer.value.events, parse, zero).error
    ensures r.Success? ==> r.value.domainName == domainName && !r.value.failed
    ensures answer.Success? ==>
      && r.Success? == ExpiryDate(answer.value.events, parse, zero).Success?
      && (r.Success? ==>
            && r.value.registrar == RegistrarName(answer.value.entities)
            && ExpiryDate(answer.value.events, parse, zero) == Success(r.value.expiry))
  {
    if answer.Failure? then Failure(QueryFailed(answer.error))
    else
      var domain := answer.value;
      var expiry := ExpiryDate(domain.events, parse, zero);
      if expiry.Failure? then Failure(expiry.error)
      else Success(DomainInfo(domainName, RegistrarName(domain.entities), expiry.value, false))
  }
}
