/**
 * The records the prioritisation engine reads and writes (App/Schemas.py),
 * with the defaults the request models give them.
 *
 * Timestamps are naive `datetime`s counted in microseconds, the resolution
 * of Python's `datetime`, on one common scale; "now" is always passed in.
 */
module Schemas {
  import opened Wrappers

  /** A naive `datetime`, in microseconds. */
  type Timestamp = int

  /** `timedelta(days=1)` in microseconds. */
  const MicrosPerDay: int := 86_400_000_000

  /** `RelationshipType`: a `str` enum of seven members. */
  datatype RelationshipType =
    | CloseFriend
    | Friend
    | FormerColleague
    | CurrentColleague
    | Acquaintance
    | MetOnce
    | NeverMet

  /** The string value of each enum member, as it appears in a request body. */
  function RelationshipValue(r: RelationshipType): string {
    match r
    case CloseFriend => "close_friend"
    case Friend => "friend"
    case FormerColleague => "former_colleague"
    case CurrentColleague => "current_colleague"
    case Acquaintance => "acquaintance"
    case MetOnce => "met_once"
    case NeverMet => "never_met"
  }

  /** Request validation of a relationship string: the member with that value, if any. */
  function ParseRelationship(s: string): (r: Option<RelationshipType>)
    ensures r.Some? ==> RelationshipValue(r.value) == s
    ensures r.None? ==> forall t :: RelationshipValue(t) != s
  {
    if s == "close_friend" then Some(CloseFriend)
    else if s == "friend" then Some(Friend)
    else if s == "former_colleague" then Some(FormerColleague)
    else if s == "current_colleague" then Some(CurrentColleague)
    else if s == "acquaintance" then Some(Acquaintance)
    else if s == "met_once" then Some(MetOnce)
    else if s == "never_met" then Some(NeverMet)
    else None
  }

  /** Every member validates from its own value, so the seven values are distinct. */
  lemma ParseRelationshipValue(r: RelationshipType)
    ensures ParseRelationship(RelationshipValue(r)) == Some(r)
  {
  }

  /**
   * `Interaction`: `contact_id` is a required int, `type` an unconstrained
   * string and `sentiment` defaults to "neutral". The `date` default
   * (`datetime.now()`) reads the clock, so the date is always given here.
   */
  datatype Interaction = Interaction(
    contactId: int,
    date: Timestamp,
    kind: string,
    notes: string,
    sentiment: string := "neutral",
    id: Option<string> := None)

  /**
   * `Contact`. The engine writes `priority_score` in place, so it is a
   * mutable field; the fields the engine only reads are constants.
   */
  class Contact {
    const name: string
    const id: Option<int>
    const warmthScore: real
    const relationship: Option<RelationshipType>
    const lastInteractionDate: Option<Timestamp>
    var priorityScore: real

    /** The model's defaults: `id`, `relationship` and `last_interaction_date` absent, both scores 0.0. */
    constructor (
      name: string,
      id: Option<int> := None,
      warmthScore: real := 0.0,
      relationship: Option<RelationshipType> := None,
      lastInteractionDate: Option<Timestamp> := None)
      ensures this.name == name && this.id == id && this.warmthScore == warmthScore
      ensures this.relationship == relationship && this.lastInteractionDate == lastInteractionDate
      ensures priorityScore == 0.0
    {
      this.name := name;
      this.id := id;
      this.warmthScore := warmthScore;
      this.relationship := relationship;
      this.lastInteractionDate := lastInteractionDate;
      priorityScore := 0.0;
    }
  }

  /** The modelled fields of `contact.dict()`, as the response serialises them; the fields the engine never reads are not carried. */
  datatype ContactRecord = ContactRecord(
    name: string,
    id: Option<int>,
    warmthScore: real,
    relationship: Option<RelationshipType>,
    lastInteractionDate: Option<Timestamp>,
    priorityScore: real)

  function Record(c: Contact): (d: ContactRecord)
    reads c
  {
    ContactRecord(c.name, c.id, c.warmthScore, c.relationship, c.lastInteractionDate, c.priorityScore)
  }

  function Records(cs: seq<Contact>): (ds: seq<ContactRecord>)
    reads cs
    ensures |ds| == |cs|
    ensures forall i :: 0 <= i < |cs| ==> ds[i] == Record(cs[i])
  {
    seq(|cs|, i reads cs requires 0 <= i < |cs| => Record(cs[i]))
  }

  /** `PrioritizeRequest`: `interactions` and `limit` default to `None`. */
  datatype PrioritizeRequest = PrioritizeRequest(
    contacts: seq<Contact>,
    interactions: Option<seq<Interaction>> := None,
    limit: Option<int> := None)

  /** `ScheduleRequest`: `interactions` defaults to `None`, `contacts_per_week` to 5. */
  datatype ScheduleRequest = ScheduleRequest(
    contacts: seq<Contact>,
    interactions: Option<seq<Interaction>> := None,
    contactsPerWeek: int := 5)
}
