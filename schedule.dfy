/**
 * `ContactPrioritization.generate_outreach_schedule`: the ranked contacts,
 * grouped into calendar weeks of `contacts_per_week` each.
 *
 * The schedule is a Python dict, whose iteration order is insertion order;
 * it is modelled as the sequence of its entries. The week key of week
 * number `n`, `(now + timedelta(weeks=n)).strftime("%Y-W%W")`, reads the
 * clock and the calendar, so it is the parameter `weekKey`. Both variants
 * of the class share this method word for word.
 */
module OutreachSchedule {
  import opened Wrappers
  import opened Schemas
  import PyOps
  import Prioritization

  /** The exception `i // contacts_per_week` raises when the divisor is 0. */
  datatype EngineError = ZeroDivisionError

  /** One entry of the schedule dict: a week key and the contacts appended under it. */
  datatype WeekGroup<T> = WeekGroup(key: string, members: seq<T>)

  /** The members of all groups, group after group. */
  function Flatten<T>(gs: seq<WeekGroup<T>>): seq<T> {
    if gs == [] then [] else Flatten(gs[..|gs| - 1]) + gs[|gs| - 1].members
  }

  /** A dict never holds the same key twice. */
  ghost predicate DistinctKeys<T>(gs: seq<WeekGroup<T>>) {
    forall g, h :: 0 <= g < h < |gs| ==> gs[g].key != gs[h].key
  }

  /** `key in schedule`, and where. */
  function KeyIndex<T>(gs: seq<WeekGroup<T>>, key: string): (r: Option<nat>)
    ensures r.Some? ==> r.value < |gs| && gs[r.value].key == key
    ensures r.None? <==> forall g :: 0 <= g < |gs| ==> gs[g].key != key
  {
    if gs == [] then None
    else if gs[|gs| - 1].key == key then Some(|gs| - 1)
    else KeyIndex(gs[..|gs| - 1], key)
  }

  /** `if key not in schedule: schedule[key] = []`, then `schedule[key].append(x)`. */
  function AddToWeek<T>(gs: seq<WeekGroup<T>>, key: string, x: T): seq<WeekGroup<T>> {
    match KeyIndex(gs, key)
    case None => gs + [WeekGroup(key, [x])]
    case Some(g) => gs[g := WeekGroup(key, gs[g].members + [x])]
  }

  /** `i // contacts_per_week`. */
  function WeekNumber(i: int, contactsPerWeek: int): int
    requires contactsPerWeek != 0
  {
    PyOps.FloorDiv(i, contactsPerWeek)
  }

  /** The schedule the loop builds from `ranked`: every contact appended, in rank order, under the key of its week number. */
  function Schedule<T>(ranked: seq<T>, contactsPerWeek: int, weekKey: int -> string): seq<WeekGroup<T>>
    requires contactsPerWeek != 0
  {
    if ranked == [] then []
    else
      var n := |ranked| - 1;
      AddToWeek(Schedule(ranked[..n], contactsPerWeek, weekKey), weekKey(WeekNumber(n, contactsPerWeek)), ranked[n])
  }

  /**
   * Whatever the week keys, the schedule is a dict (no key twice), no week
   * is empty, and no contact is lost or repeated.
   */
  lemma {:induction false} ScheduleIsPartition<T>(ranked: seq<T>, contactsPerWeek: int, weekKey: int -> string)
    requires contactsPerWeek != 0
    ensures var gs := Schedule(ranked, contactsPerWeek, weekKey);
      && DistinctKeys(gs)
      && (forall g :: 0 <= g < |gs| ==> gs[g].members != [])
      && multiset(Flatten(gs)) == multiset(ranked)
  {
    if ranked != [] {
      var n := |ranked| - 1;
      ScheduleIsPartition(ranked[..n], contactsPerWeek, weekKey);
      AddToWeekKeepsDict(Schedule(ranked[..n], contactsPerWeek, weekKey), weekKey(WeekNumber(n, contactsPerWeek)), ranked[n]);
      MultisetOfLast(ranked);
    }
  }

  lemma MultisetOfLast<T>(s: seq<T>)
    requires s != []
    ensures multiset(s) == multiset(s[..|s| - 1]) + multiset{s[|s| - 1]}
  {
    assert s == s[..|s| - 1] + [s[|s| - 1]];
  }

  lemma {:induction false} FlattenAppend<T>(gs: seq<WeekGroup<T>>, grp: WeekGroup<T>)
    ensures Flatten(gs + [grp]) == Flatten(gs) + grp.members
  {
    assert (gs + [grp])[..|gs|] == gs;
  }

  /** Appending `x` to one group adds `x` to the flattened multiset and nothing else. */
  lemma {:induction false} FlattenUpdate<T>(gs: seq<WeekGroup<T>>, g: nat, key: string, x: T)
    requires g < |gs|
    ensures multiset(Flatten(gs[g := WeekGroup(key, gs[g].members + [x])]))
         == multiset(Flatten(gs)) + multiset{x}
  {
    var gs' := gs[g := WeekGroup(key, gs[g].members + [x])];
    var last := |gs| - 1;
    if g == last {
      assert gs'[..last] == gs[..last];
      assert Flatten(gs') == Flatten(gs[..last]) + gs[g].members + [x];
    } else {
      var init := gs[..last];
      assert gs'[..last] == init[g := WeekGroup(key, init[g].members + [x])];
      assert gs'[last] == gs[last];
      FlattenUpdate(init, g, key, x);
      assert Flatten(gs') == Flatten(gs'[..last]) + gs[last].members;
      assert Flatten(gs) == Flatten(init) + gs[last].members;
      calc {
        multiset(Flatten(gs'));
        multiset(Flatten(gs'[..last])) + multiset(gs[last].members);
        multiset(Flatten(init)) + multiset{x} + multiset(gs[last].members);
        multiset(Flatten(gs)) + multiset{x};
      }
    }
  }

  /** One step of the loop keeps the schedule a dict of non-empty groups holding one more contact. */
  lemma AddToWeekKeepsDict<T>(gs: seq<WeekGroup<T>>, key: string, x: T)
    requires DistinctKeys(gs)
    requires forall g :: 0 <= g < |gs| ==> gs[g].members != []
    ensures var r := AddToWeek(gs, key, x);
      && DistinctKeys(r)
      && (forall g :: 0 <= g < |r| ==> r[g].members != [])
      && multiset(Flatten(r)) == multiset(Flatten(gs)) + multiset{x}
  {
    match KeyIndex(gs, key)
    case None =>
      FlattenAppend(gs, WeekGroup(key, [x]));
    case Some(g) =>
      FlattenUpdate(gs, g, key, x);
  }

  /** `week_start.strftime(...)` names distinct weeks distinctly. */
  ghost predicate Injective(weekKey: int -> string) {
    forall a, b :: a != b ==> weekKey(a) != weekKey(b)
  }

  /**
   * `gs` is `ranked` cut into consecutive weeks of `k`: week `g` is keyed by
   * week number `g`, every week but the last holds exactly `k` contacts and
   * the last holds between 1 and `k`.
   */
  ghost predicate Chunked<T>(gs: seq<WeekGroup<T>>, ranked: seq<T>, k: int, weekKey: int -> string) {
    && Flatten(gs) == ranked
    && (forall g :: 0 <= g < |gs| ==> gs[g].key == weekKey(g))
    && (forall g :: 0 <= g < |gs| - 1 ==> |gs[g].members| == k)
    && (gs == [] <==> ranked == [])
    && (gs != [] ==>
          && 0 < |gs[|gs| - 1].members| <= k
          && |ranked| == (|gs| - 1) * k + |gs[|gs| - 1].members|)
  }

  lemma {:induction false} FlattenExtendLast<T>(gs: seq<WeekGroup<T>>, x: T)
    requires gs != []
    ensures var last := |gs| - 1;
      Flatten(gs[last := WeekGroup(gs[last].key, gs[last].members + [x])]) == Flatten(gs) + [x]
  {
    var last := |gs| - 1;
    var r := gs[last := WeekGroup(gs[last].key, gs[last].members + [x])];
    assert r[..last] == gs[..last];
  }

  /** When the last week is full, rank `n` opens week `m`, a key no earlier week has. */
  lemma ChunkedNewWeek<T>(gs: seq<WeekGroup<T>>, p: seq<T>, x: T, k: int, weekKey: int -> string)
    requires k > 0 && Injective(weekKey)
    requires Chunked(gs, p, k, weekKey) && gs != [] && |gs[|gs| - 1].members| == k
    ensures WeekNumber(|p|, k) == |gs|
    ensures Chunked(gs + [WeekGroup(weekKey(|gs|), [x])], p + [x], k, weekKey)
    ensures AddToWeek(gs, weekKey(|gs|), x) == gs + [WeekGroup(weekKey(|gs|), [x])]
  {
    var m := |gs|;
    assert |p| == m * k by {
      assert (m - 1) * k + k == m * k;
    }
    PyOps.DivUnique(|p|, k, m, 0);
    assert KeyIndex(gs, weekKey(m)).None? by {
      forall g | 0 <= g < m
        ensures gs[g].key != weekKey(m)
      {
        assert gs[g].key == weekKey(g);
      }
    }
    var r := gs + [WeekGroup(weekKey(m), [x])];
    FlattenAppend(gs, WeekGroup(weekKey(m), [x]));
    assert |p + [x]| == (|r| - 1) * k + |r[|r| - 1].members|;
  }

  /** Otherwise rank `n` joins the last week, whose key is that of week `n // k`. */
  lemma ChunkedSameWeek<T>(gs: seq<WeekGroup<T>>, p: seq<T>, x: T, k: int, weekKey: int -> string)
    requires k > 0
    requires Chunked(gs, p, k, weekKey) && gs != [] && |gs[|gs| - 1].members| < k
    ensures WeekNumber(|p|, k) == |gs| - 1
    ensures var last := |gs| - 1;
      && AddToWeek(gs, weekKey(last), x) == gs[last := WeekGroup(weekKey(last), gs[last].members + [x])]
      && Chunked(gs[last := WeekGroup(weekKey(last), gs[last].members + [x])], p + [x], k, weekKey)
  {
    var last := |gs| - 1;
    PyOps.DivUnique(|p|, k, last, |gs[last].members|);
    assert KeyIndex(gs, weekKey(last)) == Some(last);
    FlattenExtendLast(gs, x);
  }

  /** Rank `n` goes to week `n // k`: a new week when the last one is full, the last week otherwise. */
  lemma ChunkedStep<T>(gs: seq<WeekGroup<T>>, p: seq<T>, x: T, k: int, weekKey: int -> string)
    requires k > 0 && Injective(weekKey)
    requires Chunked(gs, p, k, weekKey)
    ensures Chunked(AddToWeek(gs, weekKey(WeekNumber(|p|, k)), x), p + [x], k, weekKey)
  {
    if gs == [] {
      assert WeekNumber(|p|, k) == 0;
      FlattenAppend(gs, WeekGroup(weekKey(0), [x]));
    } else if |gs[|gs| - 1].members| == k {
      ChunkedNewWeek(gs, p, x, k, weekKey);
    } else {
      ChunkedSameWeek(gs, p, x, k, weekKey);
    }
  }

  /**
   * For a positive `contacts_per_week`, and distinct keys for distinct
   * weeks, the schedule is the ranking cut into consecutive chunks.
   */
  lemma {:induction false} ScheduleChunks<T>(ranked: seq<T>, k: int, weekKey: int -> string)
    requires k > 0 && Injective(weekKey)
    ensures Chunked(Schedule(ranked, k, weekKey), ranked, k, weekKey)
  {
    if ranked != [] {
      var n := |ranked| - 1;
      var p := ranked[..n];
      assert ranked == p + [ranked[n]];
      ScheduleChunks(p, k, weekKey);
      ChunkedStep(Schedule(p, k, weekKey), p, ranked[n], k, weekKey);
    }
  }

  /** A chunked schedule of `n` contacts has `ceil(n / k)` weeks. */
  lemma ChunkedWeekCount<T>(gs: seq<WeekGroup<T>>, ranked: seq<T>, k: int, weekKey: int -> string)
    requires k > 0 && Chunked(gs, ranked, k, weekKey)
    ensures |gs| == (|ranked| + k - 1) / k
  {
    if gs == [] {
      PyOps.DivUnique(k - 1, k, 0, k - 1);
    } else {
      var m := |gs|;
      var size := |gs[m - 1].members|;
      assert |ranked| + k - 1 == m * k + (size - 1) by {
        assert (m - 1) * k + k == m * k;
      }
      PyOps.DivUnique(|ranked| + k - 1, k, m, size - 1);
    }
  }

  /** The schedule of one more contact is one more `AddToWeek`. */
  lemma ScheduleStep<T>(ranked: seq<T>, i: nat, contactsPerWeek: int, weekKey: int -> string)
    requires i < |ranked| && contactsPerWeek != 0
    ensures Schedule(ranked[..i + 1], contactsPerWeek, weekKey)
         == AddToWeek(if i == 0 then [] else Schedule(ranked[..i], contactsPerWeek, weekKey),
                      weekKey(WeekNumber(i, contactsPerWeek)), ranked[i])
  {
    assert ranked[..i + 1][..i] == ranked[..i];
    assert i == 0 ==> ranked[..i] == [];
  }

  /** Twelve ranked contacts at five a week make three weeks of 5, 5 and 2. */
  lemma TwelveAtFiveAWeek<T>(ranked: seq<T>, weekKey: int -> string)
    requires |ranked| == 12 && Injective(weekKey)
    ensures var gs := Schedule(ranked, 5, weekKey);
      |gs| == 3 && |gs[0].members| == 5 && |gs[1].members| == 5 && |gs[2].members| == 2
  {
    var gs := Schedule(ranked, 5, weekKey);
    ScheduleChunks(ranked, 5, weekKey);
    ChunkedWeekCount(gs, ranked, 5, weekKey);
  }

  lemma NegativeFirstTwo<T>(a: T, b: T, weekKey: int -> string)
    requires weekKey(0) != weekKey(-1)
    ensures Schedule([a, b], -2, weekKey) == [WeekGroup(weekKey(0), [a]), WeekGroup(weekKey(-1), [b])]
  {
    var g0 := WeekGroup(weekKey(0), [a]);
    assert WeekNumber(0, -2) == 0 && WeekNumber(1, -2) == -1;
    assert Schedule([a], -2, weekKey) == [g0] by {
      ScheduleStep([a], 0, -2, weekKey);
      assert [a][..1] == [a];
    }
    ScheduleStep([a, b], 1, -2, weekKey);
    assert [a, b][..2] == [a, b] && [a, b][..1] == [a];
    assert KeyIndex([g0], weekKey(-1)).None?;
    assert AddToWeek([g0], weekKey(-1), b) == [g0] + [WeekGroup(weekKey(-1), [b])];
  }

  /** Adding a contact keeps every key in place, adds at most `key` at the end, and leaves the groups of other keys alone. */
  lemma AddToWeekKeys<T>(gs: seq<WeekGroup<T>>, key: string, x: T)
    ensures var r := AddToWeek(gs, key, x);
      && |gs| <= |r| <= |gs| + 1
      && (forall g :: 0 <= g < |gs| ==> r[g].key == gs[g].key)
      && (forall g :: |gs| <= g < |r| ==> r[g].key == key)
      && (forall g :: 0 <= g < |gs| && gs[g].key != key ==> r[g] == gs[g])
  {
  }

  /** With a negative per-week count, rank 0 is in week 0 and every later rank in a week before it. */
  lemma NegativeWeekNumbers(i: nat, k: int)
    requires k < 0
    ensures i == 0 ==> WeekNumber(i, k) == 0
    ensures i >= 1 ==> WeekNumber(i, k) < 0
  {
  }

  /**
   * A negative `contacts_per_week` is not rejected: `i // k` is 0 for rank 0
   * and negative for every later rank, so the first contact is alone in this
   * week and every other week of the schedule lies in the past.
   */
  lemma {:induction false} NegativePerWeekGoesBackInTime<T>(ranked: seq<T>, k: int, weekKey: int -> string)
    requires k < 0 && ranked != [] && Injective(weekKey)
    ensures var gs := Schedule(ranked, k, weekKey);
      && gs != [] && gs[0] == WeekGroup(weekKey(0), [ranked[0]])
      && forall g :: 1 <= g < |gs| ==> exists w :: w < 0 && gs[g].key == weekKey(w)
  {
    var n := |ranked| - 1;
    var w := WeekNumber(n, k);
    NegativeWeekNumbers(n, k);
    if n == 0 {
      assert ranked[..0] == [];
    } else {
      var p := ranked[..n];
      NegativePerWeekGoesBackInTime(p, k, weekKey);
      var gs := Schedule(p, k, weekKey);
      var key := weekKey(w);
      assert p[0] == ranked[0];
      assert gs[0].key != key;
      var r := AddToWeek(gs, key, ranked[n]);
      assert Schedule(ranked, k, weekKey) == r;
      AddToWeekKeys(gs, key, ranked[n]);
      forall g | 1 <= g < |r|
        ensures exists w' :: w' < 0 && r[g].key == weekKey(w')
      {
        if g < |gs| {
          var v :| v < 0 && gs[g].key == weekKey(v);
          assert r[g].key == weekKey(v);
        } else {
          assert r[g].key == weekKey(w);
        }
      }
    }
  }

  /** For instance, three contacts at -2 a week: `i // -2` is 0, -1, -1. */
  lemma NegativeTwoPerWeekExample<T>(a: T, b: T, c: T, weekKey: int -> string)
    requires Injective(weekKey)
    ensures Schedule([a, b, c], -2, weekKey)
         == [WeekGroup(weekKey(0), [a]), WeekGroup(weekKey(-1), [b, c])]
  {
    var g0 := WeekGroup(weekKey(0), [a]);
    var g1 := WeekGroup(weekKey(-1), [b]);
    assert weekKey(0) != weekKey(-1);
    NegativeFirstTwo(a, b, weekKey);
    assert WeekNumber(2, -2) == -1;
    ScheduleStep([a, b, c], 2, -2, weekKey);
    assert [a, b, c][..3] == [a, b, c] && [a, b, c][..2] == [a, b];
    assert KeyIndex([g0, g1], weekKey(-1)) == Some(1);
    assert AddToWeek([g0, g1], weekKey(-1), c) == [g0, g1][1 := WeekGroup(weekKey(-1), [b] + [c])];
    assert [b] + [c] == [b, c];
  }

  /**
   * The grouping loop of `generate_outreach_schedule`. A zero
   * `contacts_per_week` raises `ZeroDivisionError` at the first contact, so
   * only when there is one.
   */
  method GroupByWeek<T>(ranked: seq<T>, contactsPerWeek: int, weekKey: int -> string)
    returns (r: Result<seq<WeekGroup<T>>, EngineError>)
    ensures r.Failure? <==> contactsPerWeek == 0 && ranked != []
    ensures r.Failure? ==> r.error == ZeroDivisionError
    ensures r.Success? ==> r.value == if ranked == [] then [] else Schedule(ranked, contactsPerWeek, weekKey)
  {
    var schedule: seq<WeekGroup<T>> := [];
    for i := 0 to |ranked|
      invariant i > 0 ==> contactsPerWeek != 0
      invariant schedule == if i == 0 then [] else Schedule(ranked[..i], contactsPerWeek, weekKey)
    {
      if contactsPerWeek == 0 {
        return Failure(ZeroDivisionError);
      }
      var weekNum := PyOps.FloorDiv(i, contactsPerWeek);
      var weekKeyOfI := weekKey(weekNum);
      schedule := AddToWeek(schedule, weekKeyOfI, ranked[i]);
      ScheduleStep(ranked, i, contactsPerWeek, weekKey);
    }
    assert ranked[..|ranked|] == ranked;
    return Success(schedule);
  }

  /**
   * `generate_outreach_schedule`: prioritise without a limit (writing every
   * contact's score), then group the ranking by week.
   */
  method GenerateOutreachSchedule(
    v: Prioritization.Variant, contacts: seq<Contact>, interactions: Option<seq<Interaction>>,
    contactsPerWeek: int, weekKey: int -> string, now: Timestamp)
    returns (r: Result<seq<WeekGroup<Contact>>, EngineError>)
    modifies contacts
    ensures forall c :: c in contacts ==> c.priorityScore == Prioritization.PriorityScore(v, c, interactions, now)
    ensures var ranked := Prioritization.Ranking(v, contacts, interactions, now);
      && (r.Failure? <==> contactsPerWeek == 0 && contacts != [])
      && (r.Success? ==> r.value == if contacts == [] then [] else Schedule(ranked, contactsPerWeek, weekKey))
  {
    var prioritized := Prioritization.PrioritizeContacts(v, contacts, interactions, None, now);
    r := GroupByWeek(prioritized, contactsPerWeek, weekKey);
  }
}
