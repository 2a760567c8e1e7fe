/**
 * `GET /events/recommendations` (App/Routers/Events.py): one Eventbrite
 * search per comma-separated interest, the results merged, duplicates by id
 * dropped, the rest sorted by start time and cut to twenty.
 *
 * The search service is the parameter `search`, from a keyword and a
 * location to the `events` list of its reply; whether the service is
 * configured is the parameter `configured`.
 */
module EventsRouter {
  import opened Wrappers
  import opened Http
  import PyOps
  import StableSort

  /** The fields of a parsed event that the endpoint reads or returns; absent JSON values are `None`. */
  datatype Event = Event(
    id: Option<string>,
    name: Option<string>,
    url: Option<string>,
    start: Option<string>,
    end: Option<string>)

  /** The reply body: an "info" notice, or a "success" with the count and the events. */
  datatype Reply =
    | InfoReply(message: string)
    | SuccessReply(total: nat, events: seq<Event>)

  const NotConfiguredMessage: string :=
    "Eventbrite API not configured. Configure it to get personalized event recommendations."

  /** At most this many events are returned. */
  const MaxRecommendations: nat := 20

  // ------------------------------------------------------------ merging

  /** `[f(p) for p in parts]`. */
  function MapEach<A, B>(f: A -> B, parts: seq<A>): (r: seq<B>)
    ensures |r| == |parts|
  {
    if parts == [] then []
    else MapEach(f, parts[..|parts| - 1]) + [f(parts[|parts| - 1])]
  }

  lemma {:induction false} MapEachElements<A, B>(f: A -> B, parts: seq<A>, i: nat)
    requires i < |parts|
    ensures MapEach(f, parts)[i] == f(parts[i])
  {
    var n := |parts| - 1;
    var front := parts[..n];
    if i < n {
      MapEachElements(f, front, i);
      assert front[i] == parts[i];
    }
  }

  /** Each part stripped, in order. */
  function StripAll(parts: seq<string>): (ks: seq<string>)
    ensures |ks| == |parts|
  {
    MapEach(PyOps.Strip, parts)
  }

  /** `[kw.strip() for kw in interests.split(",")]`: the keywords searched, in order. */
  function Keywords(interests: string): (ks: seq<string>)
    ensures ks != [] && |ks| == |PyOps.Split(interests, ',')|
  {
    StripAll(PyOps.Split(interests, ','))
  }

  /** The i-th keyword is the i-th comma-separated part, stripped. */
  lemma StripAllElements(parts: seq<string>, i: nat)
    requires i < |parts|
    ensures StripAll(parts)[i] == PyOps.Strip(parts[i])
  {
    MapEachElements(PyOps.Strip, parts, i);
  }

  /** The results of searching each keyword, concatenated in keyword order. */
  function Merged(keywords: seq<string>, location: Option<string>, search: (string, Option<string>) -> seq<Event>): seq<Event> {
    if keywords == [] then []
    else Merged(keywords[..|keywords| - 1], location, search) + search(keywords[|keywords| - 1], location)
  }

  /** Every merged event comes from the search of some keyword. */
  lemma {:induction false} MergedFromSearches(
    keywords: seq<string>, location: Option<string>, search: (string, Option<string>) -> seq<Event>, e: Event)
    requires e in Merged(keywords, location, search)
    ensures exists k :: 0 <= k < |keywords| && e in search(keywords[k], location)
  {
    var n := |keywords| - 1;
    if e !in search(keywords[n], location) {
      MergedFromSearches(keywords[..n], location, search, e);
      var k :| 0 <= k < n && e in search(keywords[..n][k], location);
      assert keywords[..n][k] == keywords[k];
    }
  }

  // ------------------------------------------------------------ dedup

  /** The ids of a list of events. */
  function Ids(s: seq<Event>): set<Option<string>> {
    set e | e in s :: e.id
  }

  /**
   * What the `seen_ids` loop keeps: each event whose id has not been seen
   * before, in input order.
   */
  function Dedup(s: seq<Event>): (d: seq<Event>)
    ensures |d| <= |s|
  {
    if s == [] then []
    else
      var d := Dedup(s[..|s| - 1]);
      if s[|s| - 1].id in Ids(d) then d else d + [s[|s| - 1]]
  }

  /** `s[k]` is the first event of `s` with its id. */
  ghost predicate FirstWithItsId(s: seq<Event>, k: int) {
    0 <= k < |s| && forall j :: 0 <= j < k ==> s[j].id != s[k].id
  }

  /**
   * After deduplication the ids are pairwise distinct, every id of the input
   * is still present, and every kept event is the first input event with
   * its id (later duplicates are the ones dropped).
   */
  lemma {:induction false} DedupKeepsFirstOfEachId(s: seq<Event>)
    ensures var d := Dedup(s);
      && (forall i, j :: 0 <= i < j < |d| ==> d[i].id != d[j].id)
      && Ids(d) == Ids(s)
      && (forall e :: e in d ==> exists k :: FirstWithItsId(s, k) && s[k] == e)
  {
    if s != [] {
      var n := |s| - 1;
      var p := s[..n];
      DedupKeepsFirstOfEachId(p);
      var dp := Dedup(p);
      assert s == p + [s[n]];
      assert Ids(s) == Ids(p) + {s[n].id};
      forall e | e in Dedup(s)
        ensures exists k :: FirstWithItsId(s, k) && s[k] == e
      {
        if e in dp {
          var k :| FirstWithItsId(p, k) && p[k] == e;
          assert FirstWithItsId(s, k);
        } else {
          assert e == s[n] && s[n].id !in Ids(dp);
          forall j | 0 <= j < n
            ensures s[j].id != s[n].id
          {
            assert p[j] in p;
          }
          assert FirstWithItsId(s, n);
        }
      }
      if s[n].id !in Ids(dp) {
        var d := dp + [s[n]];
        forall i, j | 0 <= i < j < |d|
          ensures d[i].id != d[j].id
        {
          if j == n || j == |dp| {
            assert d[i] in dp;
          }
        }
        assert Ids(d) == Ids(dp) + {s[n].id};
      }
    }
  }

  // ------------------------------------------------------------ sorting

  /**
   * The intended sort key: a missing or a null start read as `""`, so events
   * without a start time come first. As written only a missing key reads as
   * `""` (see `StartKeyAsWritten`).
   */
  function StartKey(e: Event): string {
    e.start.GetOr("")
  }

  /** The intended `unique_events.sort(key=...)`: stable, ascending by start. */
  function SortByStart(s: seq<Event>): (r: seq<Event>)
    ensures multiset(r) == multiset(s)
  {
    StableSort.SortBy(s, StartKey, PyOps.LexLess)
  }

  /** The sort puts the events in ascending start order and keeps events with equal starts in their order. */
  lemma SortByStartIsOrderedAndStable(s: seq<Event>, start: string)
    ensures var r := SortByStart(s);
      && (forall i, j :: 0 <= i < j < |r| ==> !PyOps.LexLess(StartKey(r[j]), StartKey(r[i])))
      && StableSort.WithKey(r, StartKey, start) == StableSort.WithKey(s, StartKey, start)
  {
    PyOps.LexLessIsStrictTotalOrder();
    StableSort.SortByIsSorted(s, StartKey, PyOps.LexLess);
    StableSort.SortByIsStable(s, StartKey, PyOps.LexLess, start);
  }

  /**
   * The sort key as written: `e.get("start", "")` falls back to `""` only
   * when the key is missing, but every parsed event carries a "start" key,
   * null when Eventbrite gives no local start time. Comparing null with a
   * string, or with null, raises `TypeError`.
   */
  function StartKeyAsWritten(e: Event): Option<string> {
    e.start
  }

  /** `TypeError: '<' not supported between instances of 'left' and 'right'`. */
  datatype SortError = TypeError(left: string, right: string)

  /** The Python type name of a sort key. */
  function TypeName(k: Option<string>): string {
    if k.None? then "NoneType" else "str"
  }

  /** The message of the exception, as the endpoint passes it on in its 500 reply. */
  function SortErrorText(e: SortError): string {
    "'<' not supported between instances of '" + e.left + "' and '" + e.right + "'"
  }

  /** `key(a) < key(b)` as Python evaluates it on the keys as written. */
  function KeyLessAsWritten(a: Event, b: Event): (r: Result<bool, SortError>)
    ensures r.Failure? <==> StartKeyAsWritten(a).None? || StartKeyAsWritten(b).None?
    ensures r.Failure? ==> r.error == TypeError(TypeName(a.start), TypeName(b.start))
    ensures r.Success? ==> r.value == PyOps.LexLess(StartKey(a), StartKey(b))
  {
    match (StartKeyAsWritten(a), StartKeyAsWritten(b))
    case (Some(x), Some(y)) => Success(PyOps.LexLess(x, y))
    case (x, y) => Failure(TypeError(TypeName(x), TypeName(y)))
  }

  /** `StableSort.Insert` by the keys as written: the first comparison that raises ends the sort. */
  function InsertAsWritten(x: Event, s: seq<Event>): Result<seq<Event>, SortError> {
    if s == [] then Success([x])
    else
      match KeyLessAsWritten(s[0], x)
      case Failure(e) => Failure(e)
      case Success(before) =>
        if !before then Success([x] + s)
        else
          match InsertAsWritten(x, s[1..])
          case Failure(e) => Failure(e)
          case Success(t) => Success([s[0]] + t)
  }

  /** `unique_events.sort(key=...)` as written: the stable sort, or the `TypeError` it raises. */
  function SortAsWritten(s: seq<Event>): Result<seq<Event>, SortError> {
    if s == [] then Success([])
    else
      match SortAsWritten(s[1..])
      case Failure(e) => Failure(e)
      case Success(t) => InsertAsWritten(s[0], t)
  }

  /** Every event has a start time. */
  ghost predicate AllStarted(s: seq<Event>) {
    forall i :: 0 <= i < |s| ==> s[i].start.Some?
  }

  /** With every start present, inserting as written is the intended insertion. */
  lemma {:induction false} InsertAsWrittenStarted(x: Event, s: seq<Event>)
    requires x.start.Some? && AllStarted(s)
    ensures InsertAsWritten(x, s) == Success(StableSort.Insert(x, s, StartKey, PyOps.LexLess))
  {
    if s != [] {
      assert s[0].start.Some?;
      if PyOps.LexLess(StartKey(s[0]), StartKey(x)) {
        assert AllStarted(s[1..]) by {
          forall i | 0 <= i < |s[1..]| ensures s[1..][i].start.Some? {
            assert s[1..][i] == s[i + 1];
          }
        }
        InsertAsWrittenStarted(x, s[1..]);
      }
    } else {
      assert [x] + s == [x];
    }
  }

  /** A permutation of a list of started events is a list of started events. */
  lemma StartedPermutation(s: seq<Event>, t: seq<Event>)
    requires AllStarted(s) && multiset(t) == multiset(s)
    ensures AllStarted(t)
  {
    forall i | 0 <= i < |t|
      ensures t[i].start.Some?
    {
      assert t[i] in multiset(s);
      var j :| 0 <= j < |s| && s[j] == t[i];
    }
  }

  /** With every start present, the sort as written succeeds with the intended order. */
  lemma {:induction false} SortAsWrittenStarted(s: seq<Event>)
    requires AllStarted(s)
    ensures SortAsWritten(s) == Success(SortByStart(s))
  {
    if s != [] {
      var rest := s[1..];
      assert AllStarted(rest) by {
        forall i | 0 <= i < |rest| ensures rest[i].start.Some? {
          assert rest[i] == s[i + 1];
        }
      }
      SortAsWrittenStarted(rest);
      var t := SortByStart(rest);
      StartedPermutation(rest, t);
      InsertAsWrittenStarted(s[0], t);
    }
  }

  /**
   * The sort as written raises exactly when there are at least two events
   * and one of them has no start time; a single event is never compared.
   */
  lemma {:induction false} SortAsWrittenFails(s: seq<Event>)
    ensures SortAsWritten(s).Failure? <==> |s| >= 2 && !AllStarted(s)
  {
    if |s| == 1 {
      assert s[1..] == [];
    } else if |s| >= 2 {
      var rest := s[1..];
      SortAsWrittenFails(rest);
      if !AllStarted(rest) {
        var i :| 0 <= i < |rest| && rest[i].start.None?;
        assert s[i + 1] == rest[i];
        if |rest| == 1 {
          assert SortAsWritten(rest[1..]) == Success([]);
          assert rest == [rest[0]];
          assert SortAsWritten(rest) == Success(rest);
        }
      } else {
        SortAsWrittenStarted(rest);
        var t := SortByStart(rest);
        StartedPermutation(rest, t);
        if s[0].start.Some? {
          InsertAsWrittenStarted(s[0], t);
          forall i | 0 <= i < |s| ensures s[i].start.Some? {
            if i > 0 { assert s[i] == rest[i - 1]; }
          }
        }
      }
    }
  }

  /** Whenever the sort as written succeeds, it gives the intended order. */
  lemma SortAsWrittenAgrees(s: seq<Event>)
    ensures SortAsWritten(s).Success? ==> SortAsWritten(s).value == SortByStart(s)
  {
    SortAsWrittenFails(s);
    if AllStarted(s) {
      SortAsWrittenStarted(s);
    } else if |s| == 1 {
      assert s[1..] == [];
    }
  }

  /**
   * Two events, one of them without a start time: both comparisons raise,
   * so the sort as written fails; with the null read as `""` the event
   * without a start comes first.
   */
  lemma NullStartBreaksSort(a: Event, b: Event)
    requires a.start.None? && b.start.Some?
    ensures KeyLessAsWritten(a, b) == Failure(TypeError("NoneType", "str"))
    ensures KeyLessAsWritten(b, a) == Failure(TypeError("str", "NoneType"))
    ensures SortAsWritten([b, a]).Failure?
    ensures b.start.value != "" ==> SortByStart([b, a]) == [a, b]
  {
    assert [b, a][1..] == [a];
    assert [a][1..] == [];
    if b.start.value != "" {
      assert PyOps.LexLess(StartKey(a), StartKey(b));
      assert StableSort.SortBy([a], StartKey, PyOps.LexLess) == [a];
    }
  }

  // ------------------------------------------------------------ the endpoint

  /**
   * The intended reply when the service is configured and no search fails:
   * the unique events sorted by the intended key and cut to twenty.
   */
  function Recommend(keywords: seq<string>, location: Option<string>, search: (string, Option<string>) -> seq<Event>): (r: Reply)
    ensures r.SuccessReply? && |r.events| <= MaxRecommendations && |r.events| <= r.total
  {
    var unique := Dedup(Merged(keywords, location, search));
    SuccessReply(|unique|, PyOps.SliceTo(SortByStart(unique), MaxRecommendations))
  }

  /**
   * Lines 92-109 as written: the `TypeError` of the sort is caught by the
   * generic handler and becomes a 500 whose detail is its message.
   */
  function RecommendAsWritten(keywords: seq<string>, location: Option<string>, search: (string, Option<string>) -> seq<Event>): Result<Reply, HttpError> {
    var unique := Dedup(Merged(keywords, location, search));
    match SortAsWritten(unique)
    case Failure(e) => Failure(HttpError(500, SortErrorText(e)))
    case Success(sorted) => Success(SuccessReply(|unique|, PyOps.SliceTo(sorted, MaxRecommendations)))
  }

  /**
   * As written the endpoint fails with 500 exactly when at least two unique
   * events remain and one of them has no start time; otherwise it answers
   * the intended reply.
   */
  lemma NullStartFailsTheRequest(
    keywords: seq<string>, location: Option<string>, search: (string, Option<string>) -> seq<Event>)
    ensures var unique := Dedup(Merged(keywords, location, search));
      var r := RecommendAsWritten(keywords, location, search);
      && (r.Failure? <==> |unique| >= 2 && exists i :: 0 <= i < |unique| && unique[i].start.None?)
      && (r.Failure? ==> r.error.statusCode == 500)
      && (r.Success? ==> r.value == Recommend(keywords, location, search))
  {
    var unique := Dedup(Merged(keywords, location, search));
    SortAsWrittenFails(unique);
    SortAsWrittenAgrees(unique);
  }

  /**
   * The reply holds at most twenty events, `total` counts every unique event
   * before the cut, and the events returned are the earliest-starting unique
   * events, each with an id of its own.
   */
  lemma RecommendationsAreTheEarliestUnique(
    keywords: seq<string>, location: Option<string>, search: (string, Option<string>) -> seq<Event>)
    ensures var r := Recommend(keywords, location, search);
      var unique := Dedup(Merged(keywords, location, search));
      && r.total == |unique|
      && |r.events| == (if |unique| < MaxRecommendations then |unique| else MaxRecommendations)
      && r.events == SortByStart(unique)[..|r.events|]
      && (forall i, j :: 0 <= i < j < |r.events| ==> r.events[i].id != r.events[j].id)
      && (forall e :: e in r.events ==> e in Merged(keywords, location, search))
  {
    var merged := Merged(keywords, location, search);
    var unique := Dedup(merged);
    var sorted := SortByStart(unique);
    var events := PyOps.SliceTo(sorted, MaxRecommendations);
    DedupKeepsFirstOfEachId(merged);
    forall e | e in events
      ensures e in unique
    {
      assert e in multiset(sorted);
    }
    forall e | e in unique
      ensures e in merged
    {
      var k :| FirstWithItsId(merged, k) && merged[k] == e;
    }
    forall i, j | 0 <= i < j < |events|
      ensures events[i].id != events[j].id
    {
      DistinctIdsSurvivePermutation(unique, sorted, i, j);
    }
  }

  /** A list whose ids are pairwise distinct holds each event at most once. */
  lemma {:induction false} DistinctIdsCountOnce(s: seq<Event>, x: Event)
    requires forall a, b :: 0 <= a < b < |s| ==> s[a].id != s[b].id
    ensures multiset(s)[x] <= 1
  {
    if s != [] {
      var n := |s| - 1;
      var p := s[..n];
      DistinctIdsCountOnce(p, x);
      assert s == p + [s[n]];
      if x == s[n] {
        forall m | 0 <= m < n
          ensures p[m] != x
        {
          assert s[m].id != s[n].id;
        }
      }
    }
  }

  /** An event at two positions is counted at least twice. */
  lemma RepeatCountsTwice(r: seq<Event>, i: int, j: int)
    requires 0 <= i < j < |r| && r[i] == r[j]
    ensures multiset(r)[r[i]] >= 2
  {
    assert r == r[..j] + [r[j]] + r[j + 1..];
    assert r[..j][i] == r[i];
    assert r[i] in multiset(r[..j]);
  }

  /** A permutation of a list with pairwise distinct ids has pairwise distinct ids. */
  lemma DistinctIdsSurvivePermutation(s: seq<Event>, r: seq<Event>, i: int, j: int)
    requires multiset(r) == multiset(s)
    requires forall a, b :: 0 <= a < b < |s| ==> s[a].id != s[b].id
    requires 0 <= i < j < |r|
    ensures r[i].id != r[j].id
  {
    assert r[i] in multiset(s) && r[j] in multiset(s);
    var a :| 0 <= a < |s| && s[a] == r[i];
    var b :| 0 <= b < |s| && s[b] == r[j];
    if r[i] == r[j] {
      RepeatCountsTwice(r, i, j);
      DistinctIdsCountOnce(s, r[i]);
    } else {
      assert a != b;
    }
  }

  /** Lines 84-90: search each stripped keyword in turn and collect the results. */
  method SearchEach(interests: string, location: Option<string>, search: (string, Option<string>) -> seq<Event>)
    returns (allEvents: seq<Event>, searched: seq<string>)
    ensures searched == Keywords(interests)
    ensures allEvents == Merged(searched, location, search)
  {
    var parts := PyOps.Split(interests, ',');
    allEvents := [];
    searched := [];
    for i := 0 to |parts|
      invariant searched == StripAll(parts[..i])
      invariant allEvents == Merged(searched, location, search)
    {
      var keyword := PyOps.Strip(parts[i]);
      var results := search(keyword, location);
      MergedStep(searched, keyword, location, search);
      assert parts[..i + 1][..i] == parts[..i];
      searched := searched + [keyword];
      allEvents := allEvents + results;
    }
    assert parts[..|parts|] == parts;
  }

  /** Lines 93-98: keep an event only when its id is not yet in `seen_ids`. */
  method DropRepeatedIds(allEvents: seq<Event>) returns (uniqueEvents: seq<Event>)
    ensures uniqueEvents == Dedup(allEvents)
  {
    var seenIds: set<Option<string>> := {};
    uniqueEvents := [];
    for i := 0 to |allEvents|
      invariant uniqueEvents == Dedup(allEvents[..i])
      invariant seenIds == Ids(uniqueEvents)
    {
      DedupStep(allEvents, i);
      var event := allEvents[i];
      if event.id !in seenIds {
        IdsAppend(uniqueEvents, event);
        seenIds := seenIds + {event.id};
        uniqueEvents := uniqueEvents + [event];
      }
    }
    assert allEvents[..|allEvents|] == allEvents;
  }

  /**
   * `get_event_recommendations`. Without a configured service it answers
   * "info" and searches nothing; otherwise it searches each stripped
   * keyword, merges the results, keeps the first event of each id, sorts by
   * start and returns the first twenty, or fails with 500 when the sort
   * raises. `searched` lists the keywords searched, in order.
   */
  method GetEventRecommendations(
    configured: bool, location: Option<string>, interests: string,
    search: (string, Option<string>) -> seq<Event>)
    returns (reply: Result<Reply, HttpError>, searched: seq<string>)
    ensures !configured ==> reply == Success(InfoReply(NotConfiguredMessage)) && searched == []
    ensures configured ==> searched == Keywords(interests) && reply == RecommendAsWritten(searched, location, search)
  {
    if !configured {
      return Success(InfoReply(NotConfiguredMessage)), [];
    }
    var allEvents;
    allEvents, searched := SearchEach(interests, location, search);
    var uniqueEvents := DropRepeatedIds(allEvents);
    match SortAsWritten(uniqueEvents) {
      case Failure(e) =>
        reply := Failure(HttpError(500, SortErrorText(e)));
      case Success(sortedEvents) =>
        reply := Success(SuccessReply(|uniqueEvents|, PyOps.SliceTo(sortedEvents, MaxRecommendations)));
    }
  }

  lemma MergedStep(keywords: seq<string>, keyword: string, location: Option<string>, search: (string, Option<string>) -> seq<Event>)
    ensures Merged(keywords + [keyword], location, search) == Merged(keywords, location, search) + search(keyword, location)
  {
    assert (keywords + [keyword])[..|keywords|] == keywords;
  }

  /**
   * The deduplicated list is the input read left to right with the repeats
   * skipped: its events sit in the input at increasing positions, each the
   * first position of its id.
   */
  lemma {:induction false} DedupPositions(s: seq<Event>) returns (idx: seq<int>)
    ensures |idx| == |Dedup(s)|
    ensures forall i :: 0 <= i < |idx| ==> FirstWithItsId(s, idx[i]) && Dedup(s)[i] == s[idx[i]]
    ensures forall i, j :: 0 <= i < j < |idx| ==> idx[i] < idx[j]
  {
    if s == [] {
      idx := [];
    } else {
      var n := |s| - 1;
      var p := s[..n];
      var before := DedupPositions(p);
      var dp := Dedup(p);
      assert Ids(dp) == Ids(p) by { DedupKeepsFirstOfEachId(p); }
      forall i | 0 <= i < |before|
        ensures FirstWithItsId(s, before[i]) && dp[i] == s[before[i]]
      {
        FirstInPrefix(s, n, before[i]);
      }
      if s[n].id in Ids(dp) {
        idx := before;
      } else {
        FirstOfNewId(s, n);
        idx := before + [n];
        assert Dedup(s) == dp + [s[n]];
      }
    }
  }

  /** A position first with its id in a prefix is first with its id in the whole list. */
  lemma FirstInPrefix(s: seq<Event>, n: nat, k: int)
    requires n <= |s| && FirstWithItsId(s[..n], k)
    ensures FirstWithItsId(s, k) && s[..n][k] == s[k]
  {
  }

  /** An id that none of the events before position `n` carries is first at `n`. */
  lemma FirstOfNewId(s: seq<Event>, n: nat)
    requires n < |s| && s[n].id !in Ids(s[..n])
    ensures FirstWithItsId(s, n)
  {
    forall j | 0 <= j < n
      ensures s[j].id != s[n].id
    {
      assert s[..n][j] in s[..n];
    }
  }

  /** `e` and `f` are the first events of their ids in `s`, and `e` comes first. */
  ghost predicate ComesBefore(s: seq<Event>, e: Event, f: Event) {
    exists a, b :: 0 <= a < b < |s| && FirstWithItsId(s, a) && FirstWithItsId(s, b) && s[a] == e && s[b] == f
  }

  /** So any two recommendations keep the order their events had in the merged search results. */
  lemma DedupKeepsInputOrder(s: seq<Event>)
    ensures forall x, y :: 0 <= x < y < |Dedup(s)| ==> ComesBefore(s, Dedup(s)[x], Dedup(s)[y])
  {
    var idx := DedupPositions(s);
    forall x, y | 0 <= x < y < |Dedup(s)|
      ensures ComesBefore(s, Dedup(s)[x], Dedup(s)[y])
    {
      var a, b := idx[x], idx[y];
      assert 0 <= a < b < |s| && FirstWithItsId(s, a) && FirstWithItsId(s, b);
    }
  }

  lemma DedupStep(s: seq<Event>, i: nat)
    requires i < |s|
    ensures Dedup(s[..i + 1]) == if s[i].id in Ids(Dedup(s[..i])) then Dedup(s[..i]) else Dedup(s[..i]) + [s[i]]
  {
    assert s[..i + 1][..i] == s[..i];
  }

  lemma IdsAppend(d: seq<Event>, e: Event)
    ensures Ids(d + [e]) == Ids(d) + {e.id}
  {
    assert forall x :: x in d + [e] <==> x in d || x == e;
  }
}
