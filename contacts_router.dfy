/**
 * The `/contacts` endpoints (App/Routers/Contacts.py): they call the engine
 * and shape its results into response bodies. An exception raised by the
 * engine becomes an HTTP 500 whose detail is the exception's text.
 *
 * The router imports `..services.prioritization`; which of the two engine
 * texts that module holds depends on which setup script wrote it, so each
 * endpoint takes the engine `Variant` as a parameter.
 */
module ContactsRouter {
  import opened Wrappers
  import opened Schemas
  import opened Http
  import Prioritization
  import OutreachSchedule

  /** `WarmthBucket`: "hot", "warm" or "cold". */
  datatype WarmthBucket = Hot | Warm | Cold

  function BucketName(b: WarmthBucket): string {
    match b
    case Hot => "hot"
    case Warm => "warm"
    case Cold => "cold"
  }

  /** The bucket of a warmth score: hot from 70, warm from 40, cold below. */
  function Bucket(warmth: real): (b: WarmthBucket)
    ensures b == Hot <==> warmth >= 70.0
    ensures b == Warm <==> 40.0 <= warmth < 70.0
    ensures b == Cold <==> warmth < 40.0
  {
    if warmth >= 70.0 then Hot
    else if warmth >= 40.0 then Warm
    else Cold
  }

  /**
   * With the `Current` engine, "cold" happens only when no
   * interactions are given and the contact's own warmth is a non-zero value
   * below 40: a non-empty list always yields 40 or more.
   */
  lemma ColdOnlyFromOwnWarmth(c: Contact, xs: seq<Interaction>, now: Timestamp)
    ensures Bucket(Prioritization.WarmthScore(Prioritization.Current, c, xs, now)) == Cold
        <==> xs == [] && c.warmthScore != 0.0 && c.warmthScore < 40.0
  {
  }

  /** The older engine never reports "cold": its scores are 40, 50 or in [50,100]. */
  lemma LegacyIsNeverCold(c: Contact, xs: seq<Interaction>, now: Timestamp)
    ensures Bucket(Prioritization.WarmthScore(Prioritization.Legacy, c, xs, now)) != Cold
  {
  }

  /** `str(e)` for the one exception the engine can raise, as CPython words it. */
  function ExceptionText(e: OutreachSchedule.EngineError): string {
    match e
    case ZeroDivisionError => "integer division or modulo by zero"
  }

  datatype PrioritizeResponse = PrioritizeResponse(
    status: string, totalContacts: nat, prioritizedContacts: seq<ContactRecord>)

  /**
   * `POST /contacts/prioritize`. On naive dates the engine raises nothing
   * here, so the reply is a success; `total_contacts` counts the request's
   * contacts, not the (possibly limited) list returned.
   */
  method Prioritize(v: Prioritization.Variant, request: PrioritizeRequest, now: Timestamp)
    returns (r: Result<PrioritizeResponse, HttpError>)
    modifies request.contacts
    ensures forall c :: c in request.contacts ==>
      c.priorityScore == Prioritization.PriorityScore(v, c, request.interactions, now)
    ensures r.Success? && r.value.status == "success"
    ensures r.value.totalContacts == |request.contacts|
    ensures r.value.prioritizedContacts == Records(Prioritization.ApplyLimit(
      Prioritization.Ranking(v, request.contacts, request.interactions, now), request.limit))
    ensures |r.value.prioritizedContacts| <= r.value.totalContacts
  {
    var prioritized := Prioritization.PrioritizeContacts(
      v, request.contacts, request.interactions, request.limit, now);
    r := Success(PrioritizeResponse("success", |request.contacts|, Records(prioritized)));
  }

  /** One entry of `schedule_dict`: a week key and the serialised contacts of that week. */
  datatype WeekEntry = WeekEntry(week: string, contacts: seq<ContactRecord>)

  /** The objects a schedule refers to. */
  function ScheduledContacts(gs: seq<OutreachSchedule.WeekGroup<Contact>>): (cs: set<Contact>)
    ensures forall g, c :: 0 <= g < |gs| && c in gs[g].members ==> c in cs
  {
    set g, c | g in gs && c in g.members :: c
  }

  /** The dict comprehension over `schedule.items()`: same keys, same order, each week's contacts serialised. */
  function ScheduleDict(gs: seq<OutreachSchedule.WeekGroup<Contact>>): (d: seq<WeekEntry>)
    reads ScheduledContacts(gs)
    ensures |d| == |gs|
    ensures forall g :: 0 <= g < |gs| ==> d[g].week == gs[g].key && d[g].contacts == Records(gs[g].members)
  {
    if gs == [] then []
    else ScheduleDict(gs[..|gs| - 1]) + [WeekEntry(gs[|gs| - 1].key, Records(gs[|gs| - 1].members))]
  }

  datatype ScheduleResponse = ScheduleResponse(
    status: string, weeks: nat, totalContacts: nat, schedule: seq<WeekEntry>)

  /**
   * `POST /contacts/schedule`. A `contacts_per_week` of 0 with at least one
   * contact raises `ZeroDivisionError`, reported as a 500.
   */
  method Schedule(v: Prioritization.Variant, request: ScheduleRequest, weekKey: int -> string, now: Timestamp)
    returns (r: Result<ScheduleResponse, HttpError>)
    modifies request.contacts
    ensures forall c :: c in request.contacts ==>
      c.priorityScore == Prioritization.PriorityScore(v, c, request.interactions, now)
    ensures r.Failure? <==> request.contactsPerWeek == 0 && request.contacts != []
    ensures r.Failure? ==> r.error == HttpError(500, "integer division or modulo by zero")
    ensures r.Success? ==>
      var ranked := Prioritization.Ranking(v, request.contacts, request.interactions, now);
      var gs := if request.contacts == [] then [] else OutreachSchedule.Schedule(ranked, request.contactsPerWeek, weekKey);
      && r.value.status == "success"
      && r.value.weeks == |gs| == |r.value.schedule|
      && r.value.totalContacts == |request.contacts|
      && r.value.schedule == ScheduleDict(gs)
  {
    var schedule := OutreachSchedule.GenerateOutreachSchedule(
      v, request.contacts, request.interactions, request.contactsPerWeek, weekKey, now);
    match schedule {
      case Failure(e) =>
        r := Failure(HttpError(500, ExceptionText(e)));
      case Success(gs) =>
        r := Success(ScheduleResponse("success", |gs|, |request.contacts|, ScheduleDict(gs)));
    }
  }

  datatype WarmthResponse = WarmthResponse(
    status: string, contact: string, warmthScore: real, warmthBucket: string)

  /** `POST /contacts/calculate-warmth`: the engine's warmth score and its bucket. */
  method CalculateWarmth(v: Prioritization.Variant, contact: Contact, interactions: seq<Interaction>, now: Timestamp)
    returns (r: Result<WarmthResponse, HttpError>)
    ensures r.Success? && r.value.status == "success" && r.value.contact == contact.name
    ensures r.value.warmthScore == Prioritization.WarmthScore(v, contact, interactions, now)
    ensures r.value.warmthBucket == BucketName(Bucket(r.value.warmthScore))
  {
    var warmth := Prioritization.CalculateWarmthScore(v, contact, interactions, now);
    var bucket: string;
    if warmth >= 70.0 {
      bucket := "hot";
    } else if warmth >= 40.0 {
      bucket := "warm";
    } else {
      bucket := "cold";
    }
    r := Success(WarmthResponse("success", contact.name, warmth, bucket));
  }
}
