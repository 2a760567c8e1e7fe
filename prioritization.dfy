/**
 * `ContactPrioritization`: the priority score, the warmth score and the
 * ranking of contacts for outreach.
 *
 * The repository carries two copies of the class. `Current` is the text of
 * App/Services/prioritization.py, which writes app/services/prioritization.py;
 * `Legacy` is the text of App/Services/Prioritization.py, which writes
 * App/services/prioritization.py. They differ in three
 * places, each selected by the `Variant` below: how an interaction is matched
 * to a contact, what a zero warmth contributes to the priority score, and
 * what the warmth score is for an empty interaction list.
 *
 * "Now" (`datetime.now()`) is the parameter `now`.
 */
module Prioritization {
  import opened Wrappers
  import opened Schemas
  import StableSort
  import PyOps

  datatype Variant = Current | Legacy

  // ------------------------------------------------------------ relationship

  /** `RELATIONSHIP_WEIGHTS`: every member of the enum is a key. */
  function RelationshipWeight(r: RelationshipType): (w: int)
    ensures 2 <= w <= 25
  {
    match r
    case CloseFriend => 25
    case Friend => 20
    case CurrentColleague => 18
    case FormerColleague => 15
    case Acquaintance => 10
    case MetOnce => 5
    case NeverMet => 2
  }

  /** `RELATIONSHIP_WEIGHTS.get(key, default)`: `None` is not a key. */
  function WeightsGet(key: Option<RelationshipType>, default: int): int {
    if key.Some? then RelationshipWeight(key.value) else default
  }

  /**
   * The relationship term. `Current` tests `if contact.relationship:` first
   * (every member is a non-empty string, so only `None` is falsy); `Legacy`
   * relies on the `.get` default. Both give the table value or 10.
   */
  function RelationshipTerm(v: Variant, rel: Option<RelationshipType>): (t: real)
    ensures rel.None? ==> t == 10.0
    ensures rel.Some? ==> t == RelationshipWeight(rel.value) as real
    ensures 2.0 <= t <= 25.0
  {
    match v
    case Current => if rel.Some? then WeightsGet(rel, 10) as real else 10.0
    case Legacy => WeightsGet(rel, 10) as real
  }

  // ------------------------------------------------------------ recency

  /** `(now - t).days`: whole days, rounded down as `timedelta` normalises them. */
  function DaysSince(now: Timestamp, t: Timestamp): (d: int)
    ensures d * MicrosPerDay <= now - t < d * MicrosPerDay + MicrosPerDay
  {
    (now - t) / MicrosPerDay
  }

  /** `_calculate_recency_score` once a last interaction date is known. */
  function RecencyStep(days: int): (r: real)
    ensures 5.0 <= r <= 40.0
  {
    if days < 30 then 5.0
    else if days < 60 then 15.0
    else if days < 90 then 25.0
    else if days < 180 then 35.0
    else 40.0
  }

  /** `_calculate_recency_score`: a contact never contacted scores the most. */
  function RecencyTerm(now: Timestamp, last: Option<Timestamp>): (r: real)
    ensures 5.0 <= r <= 40.0
    ensures last.None? ==> r == 40.0
  {
    match last
    case None => 40.0
    case Some(t) => RecencyStep(DaysSince(now, t))
  }

  /** The longer ago, the higher the recency term. */
  lemma RecencyStepMonotone(d1: int, d2: int)
    requires d1 <= d2
    ensures RecencyStep(d1) <= RecencyStep(d2)
  {
  }

  /** An older last interaction never lowers the recency term. */
  lemma RecencyOlderIsMoreUrgent(now: Timestamp, older: Timestamp, newer: Timestamp)
    requires older <= newer
    ensures RecencyTerm(now, Some(older)) >= RecencyTerm(now, Some(newer))
  {
    RecencyStepMonotone(DaysSince(now, newer), DaysSince(now, older));
  }

  /** A last interaction dated in the future counts as a negative number of days: the lowest term. */
  lemma RecencyFutureDate(now: Timestamp, t: Timestamp)
    requires t > now
    ensures RecencyTerm(now, Some(t)) == 5.0
  {
  }

  // ------------------------------------------------------------ frequency

  /** Days of history counted by the frequency term and by the warmth score. */
  const FrequencyWindowDays: int := 365
  const WarmthWindowDays: int := 180

  /**
   * Whether an interaction belongs to a contact. `Current` compares with
   * `contact.id or 0`, so a contact without an id claims the interactions of
   * contact 0; `Legacy` compares with `contact.id` itself, which an int never
   * equals when it is `None`.
   */
  predicate Matches(v: Variant, c: Contact, x: Interaction)
    ensures c.id.Some? ==> (Matches(v, c, x) <==> x.contactId == c.id.value)
    ensures c.id.None? && v == Current ==> (Matches(v, c, x) <==> x.contactId == 0)
    ensures c.id.None? && v == Legacy ==> !Matches(v, c, x)
  {
    match v
    case Current => x.contactId == c.id.GetOr(0)
    case Legacy => c.id == Some(x.contactId)
  }

  /** `[i for i in xs if <matches c> and i.date > since]`. */
  function Window(v: Variant, c: Contact, xs: seq<Interaction>, since: Timestamp): (r: seq<Interaction>)
    ensures |r| <= |xs|
  {
    if xs == [] then []
    else if Matches(v, c, xs[0]) && xs[0].date > since then [xs[0]] + Window(v, c, xs[1..], since)
    else Window(v, c, xs[1..], since)
  }

  /** The filter keeps exactly the qualifying interactions, and is empty exactly when there are none. */
  lemma {:induction false} WindowMembers(v: Variant, c: Contact, xs: seq<Interaction>, since: Timestamp)
    ensures forall x :: x in Window(v, c, xs, since) <==> x in xs && Matches(v, c, x) && x.date > since
    ensures Window(v, c, xs, since) == [] <==> forall x :: x in xs ==> !(Matches(v, c, x) && x.date > since)
  {
    if xs != [] {
      assert xs == [xs[0]] + xs[1..];
      WindowMembers(v, c, xs[1..], since);
      assert xs[0] in xs;
    }
  }

  /** The filter keeps every qualifying interaction as often as it occurs, and drops the rest. */
  lemma {:induction false} WindowCounts(v: Variant, c: Contact, xs: seq<Interaction>, since: Timestamp)
    ensures forall x :: multiset(Window(v, c, xs, since))[x] == (if Matches(v, c, x) && x.date > since then multiset(xs)[x] else 0)
  {
    if xs != [] {
      assert xs == [xs[0]] + xs[1..];
      WindowCounts(v, c, xs[1..], since);
    }
  }

  /** Filtering a concatenation filters each part and keeps them in order. */
  lemma {:induction false} WindowAppend(v: Variant, c: Contact, a: seq<Interaction>, b: seq<Interaction>, since: Timestamp)
    ensures Window(v, c, a + b, since) == Window(v, c, a, since) + Window(v, c, b, since)
  {
    if a == [] {
      assert a + b == b;
    } else {
      assert (a + b)[0] == a[0] && (a + b)[1..] == a[1..] + b;
      WindowAppend(v, c, a[1..], b, since);
    }
  }

  /** `_calculate_frequency_score` for a given count. */
  function FrequencyStep(count: nat): (r: real)
    ensures 2.0 <= r <= 20.0
    ensures r == 20.0 <==> count == 0
  {
    if count == 0 then 20.0
    else if count < 3 then 15.0
    else if count < 6 then 10.0
    else if count < 12 then 5.0
    else 2.0
  }

  /** More interactions never raise the frequency term. */
  lemma FrequencyStepAntitone(n1: nat, n2: nat)
    requires n1 <= n2
    ensures FrequencyStep(n1) >= FrequencyStep(n2)
  {
  }

  /** `_calculate_frequency_score`: 20 exactly when no interaction of the contact is in the trailing year. */
  function FrequencyTerm(v: Variant, c: Contact, xs: seq<Interaction>, now: Timestamp): (r: real)
    ensures 2.0 <= r <= 20.0
    ensures r == 20.0 <==>
      forall x :: x in xs && Matches(v, c, x) ==> x.date <= now - FrequencyWindowDays * MicrosPerDay
  {
    var w := Window(v, c, xs, now - FrequencyWindowDays * MicrosPerDay);
    WindowMembers(v, c, xs, now - FrequencyWindowDays * MicrosPerDay);
    FrequencyStep(|w|)
  }

  /** Line 39, `if interactions:`: neither `None` nor `[]` adds a frequency term. */
  function FrequencyContribution(v: Variant, c: Contact, interactions: Option<seq<Interaction>>, now: Timestamp): (r: real)
    ensures interactions.None? || interactions.value == [] ==> r == 0.0
    ensures interactions.Some? && interactions.value != [] ==> 2.0 <= r <= 20.0
  {
    if interactions.Some? && interactions.value != [] then FrequencyTerm(v, c, interactions.value, now)
    else 0.0
  }

  // ------------------------------------------------------------ warmth term

  /**
   * `(warmth / 100) * 15`. `Current` replaces a falsy warmth (the 0.0
   * default) with 50.0; `Legacy` uses `contact.warmth_score` as it is.
   */
  function WarmthTerm(v: Variant, warmth: real): (r: real)
    ensures v == Current && warmth == 0.0 ==> r == 7.5
    ensures v == Legacy && warmth == 0.0 ==> r == 0.0
    ensures 0.0 <= warmth <= 100.0 ==> 0.0 <= r <= 15.0
    ensures warmth < 0.0 ==> r == warmth * 15.0 / 100.0
  {
    var w := if v == Current && warmth == 0.0 then 50.0 else warmth;
    (w / 100.0) * 15.0
  }

  // ------------------------------------------------------------ priority score

  /** The four terms before `min(100.0, score)`. */
  function UncappedScore(v: Variant, c: Contact, interactions: Option<seq<Interaction>>, now: Timestamp): real {
    RecencyTerm(now, c.lastInteractionDate)
      + RelationshipTerm(v, c.relationship)
      + FrequencyContribution(v, c, interactions, now)
      + WarmthTerm(v, c.warmthScore)
  }

  /**
   * `calculate_priority_score`. Capped at 100 and never below 7 for a
   * non-negative warmth; for a warmth in [0,100] the cap never bites, since
   * the terms are at most 40 + 25 + 20 + 15.
   */
  function PriorityScore(v: Variant, c: Contact, interactions: Option<seq<Interaction>>, now: Timestamp): (r: real)
    ensures r <= 100.0
    ensures c.warmthScore >= 0.0 ==> r >= 7.0
    ensures 0.0 <= c.warmthScore <= 100.0 ==> r == UncappedScore(v, c, interactions, now)
  {
    var score := UncappedScore(v, c, interactions, now);
    if score < 100.0 then score else 100.0
  }

  /** `calculate_priority_score`, adding the four terms to `score` one after another. */
  method CalculatePriorityScore(v: Variant, c: Contact, interactions: Option<seq<Interaction>>, now: Timestamp)
    returns (score: real)
    ensures score == PriorityScore(v, c, interactions, now)
  {
    score := 0.0;
    score := score + RecencyTerm(now, c.lastInteractionDate);
    match v {
      case Current =>
        if c.relationship.Some? {
          score := score + WeightsGet(c.relationship, 10) as real;
        } else {
          score := score + 10.0;
        }
      case Legacy =>
        score := score + WeightsGet(c.relationship, 10) as real;
    }
    if interactions.Some? && interactions.value != [] {
      score := score + FrequencyTerm(v, c, interactions.value, now);
    }
    var warmth := if v == Current && c.warmthScore == 0.0 then 50.0 else c.warmthScore;
    score := score + (warmth / 100.0) * 15.0;
    score := if score < 100.0 then score else 100.0;
  }

  /** There is no lower clamp: a warmth far enough below zero makes the score negative. */
  lemma NoLowerClamp(v: Variant, c: Contact, interactions: Option<seq<Interaction>>, now: Timestamp)
    requires c.warmthScore < -600.0
    ensures PriorityScore(v, c, interactions, now) < 0.0
  {
  }

  /**
   * The frequency asymmetry: supplying interactions none of which is the
   * contact's within the year adds exactly 20 over supplying none at all.
   */
  lemma FrequencyAddsTwentyWithoutRecentHistory(
    v: Variant, c: Contact, xs: seq<Interaction>, now: Timestamp)
    requires xs != []
    requires forall x :: x in xs && Matches(v, c, x) ==> x.date <= now - FrequencyWindowDays * MicrosPerDay
    requires 0.0 <= c.warmthScore <= 100.0
    ensures PriorityScore(v, c, Some(xs), now) == PriorityScore(v, c, None, now) + 20.0
    ensures PriorityScore(v, c, Some([]), now) == PriorityScore(v, c, None, now)
  {
  }

  /** In `Current`, a contact without an id scores exactly like the same contact with id 0. */
  lemma MissingIdScoresAsZero(c: Contact, c0: Contact, interactions: Option<seq<Interaction>>, now: Timestamp)
    requires c.id == None && c0.id == Some(0)
    requires c.warmthScore == c0.warmthScore && c.relationship == c0.relationship
    requires c.lastInteractionDate == c0.lastInteractionDate
    ensures PriorityScore(Current, c, interactions, now) == PriorityScore(Current, c0, interactions, now)
  {
    if interactions.Some? {
      var since := now - FrequencyWindowDays * MicrosPerDay;
      WindowSameMatches(Current, c, c0, interactions.value, since);
    }
  }

  /** Two contacts that claim the same interactions see the same window. */
  lemma {:induction false} WindowSameMatches(v: Variant, c: Contact, d: Contact, xs: seq<Interaction>, since: Timestamp)
    requires forall x :: Matches(v, c, x) <==> Matches(v, d, x)
    ensures Window(v, c, xs, since) == Window(v, d, xs, since)
  {
    if xs != [] {
      WindowSameMatches(v, c, d, xs[1..], since);
    }
  }

  /** In `Legacy`, a contact whose id is `None` claims no interaction: frequency term 20. */
  lemma LegacyMissingIdHasNoHistory(c: Contact, xs: seq<Interaction>, now: Timestamp)
    requires c.id == None && xs != []
    ensures FrequencyTerm(Legacy, c, xs, now) == 20.0
    ensures PriorityScore(Legacy, c, Some(xs), now) == PriorityScore(Legacy, c, Some([]), now) + 20.0
        || PriorityScore(Legacy, c, Some(xs), now) == 100.0
  {
  }

  // ------------------------------------------------------------ warmth score

  /** `sentiment_scores.get(sentiment, 0)`. */
  function SentimentWeight(sentiment: string): (w: int)
    ensures -5 <= w <= 10
    ensures sentiment != "positive" && sentiment != "neutral" && sentiment != "negative" ==> w == 0
  {
    if sentiment == "positive" then 10
    else if sentiment == "neutral" then 5
    else if sentiment == "negative" then -5
    else 0
  }

  /** `type_scores.get(type, 5)`. */
  function ChannelWeight(kind: string): (w: int)
    ensures 5 <= w <= 15
    ensures w == 5 <==> kind != "coffee" && kind != "phone_call" && kind != "event" && kind != "linkedin_message"
  {
    if kind == "coffee" then 15
    else if kind == "phone_call" then 12
    else if kind == "event" then 10
    else if kind == "linkedin_message" then 7
    else 5
  }

  /** What one counted interaction adds: never negative, at most 25. */
  function InteractionWeight(x: Interaction): (w: int)
    ensures 0 <= w <= 25
  {
    SentimentWeight(x.sentiment) + ChannelWeight(x.kind)
  }

  /** The weights of `xs` added up in order. */
  function SumWeights(xs: seq<Interaction>): (total: int)
    ensures 0 <= total <= 25 * |xs|
  {
    if xs == [] then 0 else SumWeights(xs[..|xs| - 1]) + InteractionWeight(xs[|xs| - 1])
  }

  /** The interactions counted: the first ten, in input order (not the ten most recent). */
  const MaxCounted: nat := 10

  function FirstCounted(recent: seq<Interaction>): (r: seq<Interaction>)
    ensures |r| <= MaxCounted && |r| <= |recent| && r == recent[..|r|]
    ensures |recent| <= MaxCounted ==> r == recent
    ensures |r| == if |recent| < MaxCounted then |recent| else MaxCounted
  {
    if |recent| <= MaxCounted then recent else recent[..MaxCounted]
  }

  /** `max(0.0, min(100.0, total))`. */
  function Clamp(total: real): (r: real)
    ensures 0.0 <= r <= 100.0
    ensures 0.0 <= total <= 100.0 ==> r == total
  {
    var capped := if total < 100.0 then total else 100.0;
    if 0.0 > capped then 0.0 else capped
  }

  /** The warmth score for an empty interaction list. */
  function WarmthDefault(v: Variant, c: Contact): real {
    match v
    case Current => if c.warmthScore != 0.0 then c.warmthScore else 50.0
    case Legacy => 50.0
  }

  /**
   * The two copies agree on a contact without interactions exactly when its
   * stored warmth is unset (0) or already the baseline 50.
   */
  lemma WarmthDefaultVariants(c: Contact)
    ensures WarmthDefault(Legacy, c) == 50.0
    ensures WarmthDefault(Current, c) == WarmthDefault(Legacy, c) <==> c.warmthScore == 0.0 || c.warmthScore == 50.0
  {
  }

  /**
   * `calculate_warmth_score`. No interactions: the default. Interactions but
   * none of the contact's in the last 180 days: 40. Otherwise 50 plus the
   * weights of the first ten, clamped, which always lies in [50,100].
   */
  function WarmthScore(v: Variant, c: Contact, xs: seq<Interaction>, now: Timestamp): (r: real)
    ensures xs == [] ==> r == WarmthDefault(v, c)
    ensures xs != [] && Window(v, c, xs, now - WarmthWindowDays * MicrosPerDay) == [] ==> r == 40.0
    ensures xs != [] && Window(v, c, xs, now - WarmthWindowDays * MicrosPerDay) != [] ==> 50.0 <= r <= 100.0
  {
    if xs == [] then WarmthDefault(v, c)
    else
      var recent := Window(v, c, xs, now - WarmthWindowDays * MicrosPerDay);
      if recent == [] then 40.0
      else Clamp(50.0 + SumWeights(FirstCounted(recent)) as real)
  }

  /** `calculate_warmth_score`, accumulating `total_score` one counted interaction at a time. */
  method CalculateWarmthScore(v: Variant, c: Contact, interactions: seq<Interaction>, now: Timestamp)
    returns (warmth: real)
    ensures warmth == WarmthScore(v, c, interactions, now)
  {
    if interactions == [] {
      match v {
        case Current => warmth := if c.warmthScore != 0.0 then c.warmthScore else 50.0;
        case Legacy => warmth := 50.0;
      }
      return;
    }
    var sixMonthsAgo := now - WarmthWindowDays * MicrosPerDay;
    var recent := Window(v, c, interactions, sixMonthsAgo);
    if recent == [] {
      return 40.0;
    }
    var counted := if |recent| <= MaxCounted then recent else recent[..MaxCounted];
    assert counted == FirstCounted(recent);
    var total := 50.0;
    for k := 0 to |counted|
      invariant total == 50.0 + SumWeights(counted[..k]) as real
    {
      SumWeightsStep(counted, k);
      total := total + SentimentWeight(counted[k].sentiment) as real;
      total := total + ChannelWeight(counted[k].kind) as real;
    }
    assert counted[..|counted|] == counted;
    var capped := if total < 100.0 then total else 100.0;
    warmth := if 0.0 > capped then 0.0 else capped;
  }

  /** The sum of the first k + 1 weights is the sum of the first k plus the next one. */
  lemma SumWeightsStep(xs: seq<Interaction>, k: nat)
    requires k < |xs|
    ensures SumWeights(xs[..k + 1]) == SumWeights(xs[..k]) + SentimentWeight(xs[k].sentiment) + ChannelWeight(xs[k].kind)
  {
    assert xs[..k + 1][..k] == xs[..k];
  }

  /** One positive coffee within the window scores 50 + 10 + 15. */
  lemma OnePositiveCoffee(v: Variant, c: Contact, x: Interaction, now: Timestamp)
    requires Matches(v, c, x) && x.date > now - WarmthWindowDays * MicrosPerDay
    requires x.sentiment == "positive" && x.kind == "coffee"
    ensures WarmthScore(v, c, [x], now) == 75.0
  {
    assert Window(v, c, [x], now - WarmthWindowDays * MicrosPerDay) == [x];
    assert [x][..0] == [];
  }

  /** Interactions that are all older than 180 days give exactly 40. */
  lemma AllStaleIsFortyExactly(v: Variant, c: Contact, xs: seq<Interaction>, now: Timestamp)
    requires xs != []
    requires forall x :: x in xs ==> x.date <= now - WarmthWindowDays * MicrosPerDay
    ensures WarmthScore(v, c, xs, now) == 40.0
  {
    WindowMembers(v, c, xs, now - WarmthWindowDays * MicrosPerDay);
  }

  /** In `Legacy`, a contact whose id is `None` gets 40 from any non-empty interaction list. */
  lemma LegacyMissingIdScoresForty(c: Contact, xs: seq<Interaction>, now: Timestamp)
    requires c.id == None && xs != []
    ensures WarmthScore(Legacy, c, xs, now) == 40.0
  {
    WindowMembers(Legacy, c, xs, now - WarmthWindowDays * MicrosPerDay);
  }

  // ------------------------------------------------------------ ranking

  /** The key order of `sorted(..., reverse=True)`: a higher score comes first. */
  predicate HigherFirst(a: real, b: real) {
    a > b
  }

  lemma HigherFirstIsStrictTotalOrder()
    ensures StableSort.StrictTotalOrder(HigherFirst)
  {
  }

  /** `key=lambda c: c.priority_score` once every score has been written. */
  function ScoreOf(v: Variant, interactions: Option<seq<Interaction>>, now: Timestamp): Contact -> real {
    (c: Contact) => PriorityScore(v, c, interactions, now)
  }

  /** The contacts ranked by priority: a stable sort on descending score. */
  function Ranking(v: Variant, contacts: seq<Contact>, interactions: Option<seq<Interaction>>, now: Timestamp): (ranked: seq<Contact>)
    ensures multiset(ranked) == multiset(contacts)
  {
    StableSort.SortBy(contacts, ScoreOf(v, interactions, now), HigherFirst)
  }

  /** The ranking is in non-increasing order of priority score. */
  lemma RankingIsDescending(v: Variant, contacts: seq<Contact>, interactions: Option<seq<Interaction>>, now: Timestamp)
    ensures var ranked := Ranking(v, contacts, interactions, now);
      forall i, j :: 0 <= i < j < |ranked| ==>
        PriorityScore(v, ranked[i], interactions, now) >= PriorityScore(v, ranked[j], interactions, now)
  {
    HigherFirstIsStrictTotalOrder();
    StableSort.SortByIsSorted(contacts, ScoreOf(v, interactions, now), HigherFirst);
  }

  /** Contacts with equal scores keep their input order. */
  lemma RankingIsStable(v: Variant, contacts: seq<Contact>, interactions: Option<seq<Interaction>>, now: Timestamp, score: real)
    ensures StableSort.WithKey(Ranking(v, contacts, interactions, now), ScoreOf(v, interactions, now), score)
         == StableSort.WithKey(contacts, ScoreOf(v, interactions, now), score)
  {
    StableSort.SortByIsStable(contacts, ScoreOf(v, interactions, now), HigherFirst, score);
  }

  /** `sorted_contacts[:limit] if limit else sorted_contacts`: `None` and 0 both mean no limit. */
  function ApplyLimit<T>(s: seq<T>, limit: Option<int>): (r: seq<T>)
    ensures |r| <= |s| && r == s[..|r|]
    ensures limit.None? || limit.value == 0 ==> r == s
    ensures limit.Some? && limit.value > 0 ==> |r| == if limit.value < |s| then limit.value else |s|
    ensures limit.Some? && limit.value < 0 ==> |r| == if |s| + limit.value > 0 then |s| + limit.value else 0
  {
    if limit.Some? && limit.value != 0 then PyOps.SliceTo(s, limit.value) else s
  }

  /** A positive limit keeps the highest-scored contacts: none left out outranks one kept. */
  lemma LimitKeepsTopScores(v: Variant, contacts: seq<Contact>, interactions: Option<seq<Interaction>>, limit: int, now: Timestamp)
    requires limit > 0
    ensures var ranked := Ranking(v, contacts, interactions, now);
      var kept := ApplyLimit(ranked, Some(limit));
      && |kept| == (if limit < |contacts| then limit else |contacts|)
      && forall i, j :: 0 <= i < |kept| <= j < |ranked| ==>
           PriorityScore(v, kept[i], interactions, now) >= PriorityScore(v, ranked[j], interactions, now)
  {
    RankingIsDescending(v, contacts, interactions, now);
  }

  /**
   * `prioritize_contacts`: writes every contact's `priority_score`, then
   * returns the stable descending ranking, cut to `limit` when it is truthy.
   */
  method PrioritizeContacts(
    v: Variant, contacts: seq<Contact>, interactions: Option<seq<Interaction>>, limit: Option<int>, now: Timestamp)
    returns (ranked: seq<Contact>)
    modifies contacts
    ensures forall c :: c in contacts ==> c.priorityScore == PriorityScore(v, c, interactions, now)
    ensures ranked == ApplyLimit(Ranking(v, contacts, interactions, now), limit)
  {
    for i := 0 to |contacts|
      invariant forall j :: 0 <= j < i ==> contacts[j].priorityScore == PriorityScore(v, contacts[j], interactions, now)
    {
      var score := CalculatePriorityScore(v, contacts[i], interactions, now);
      contacts[i].priorityScore := score;
    }
    // The sort key is the score just written, that is PriorityScore of the contact.
    var sortedContacts := StableSort.SortBy(contacts, ScoreOf(v, interactions, now), HigherFirst);
    if limit.Some? && limit.value != 0 {
      ranked := PyOps.SliceTo(sortedContacts, limit.value);
    } else {
      ranked := sortedContacts;
    }
  }
}
