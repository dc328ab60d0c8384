/** Scrapes of a growing table, in any interleaving with insertions: what the watermark
    guarantees, and exactly when a row is missed. */
module Watermark {
  import opened Basics
  import opened QualityCollector

  /** A row of the call table; the report column may be absent or empty. */
  datatype Row = Row(callDate: Time, rtpqos: Option<string>, leg: Leg)

  const LIMIT: nat := 1000

  predicate Reports(r: Row) {
    r.rtpqos.Some? && r.rtpqos.value != ""
  }

  /** Rows are never changed or deleted; a row's identity is its position. */
  datatype Scraper = Scraper(table: seq<Row>, lastSeen: Time, observed: seq<nat>)

  predicate Wanted(s: Scraper, id: nat) {
    id < |s.table| && Reports(s.table[id]) && s.table[id].callDate > s.lastSeen
  }

  /** What the query may answer: wanted rows in date order, all of them or the oldest
      thousand; the order among equal dates, and the choice at the cut, are open. */
  ghost predicate IsAnswer(s: Scraper, ids: seq<nat>) {
    && NoDup(ids) && |ids| <= LIMIT
    && (forall i :: 0 <= i < |ids| ==> Wanted(s, ids[i]))
    && (forall i, j :: 0 <= i < j < |ids| ==> s.table[ids[i]].callDate <= s.table[ids[j]].callDate)
    && (forall id: nat :: Wanted(s, id) && id !in ids ==>
          |ids| == LIMIT && s.table[ids[LIMIT - 1]].callDate <= s.table[id].callDate)
  }

  datatype Event = Insert(row: Row) | Scrape(ids: seq<nat>) | ScrapeFails

  ghost predicate Possible(s: Scraper, e: Event) {
    match e
    case Insert(row) => row.leg.callDate == row.callDate
    case Scrape(ids) => IsAnswer(s, ids)
    case ScrapeFails => true
  }

  /** The legs an answer carries. */
  function Legs(table: seq<Row>, ids: seq<nat>): seq<Leg>
    requires forall i :: 0 <= i < |ids| ==> ids[i] < |table|
  {
    seq(|ids|, i requires 0 <= i < |ids| => table[ids[i]].leg)
  }

  ghost function Next(s: Scraper, e: Event): Scraper
    requires Possible(s, e)
  {
    match e
    case Insert(row) => s.(table := s.table + [row])
    case Scrape(ids) => s.(lastSeen := Mark(s.lastSeen, Legs(s.table, ids)), observed := s.observed + ids)
    case ScrapeFails => s
  }

  ghost predicate IsRun(s: Scraper, es: seq<Event>, t: Scraper)
    decreases |es|
  {
    if es == [] then s == t
    else Possible(s, es[0]) && IsRun(Next(s, es[0]), es[1..], t)
  }

  /** A leg carries its row's date; observed rows are real, distinct and below the watermark. */
  ghost predicate Inv(s: Scraper) {
    && (forall i :: 0 <= i < |s.table| ==> s.table[i].leg.callDate == s.table[i].callDate)
    && NoDup(s.observed)
    && (forall id :: id in s.observed ==>
          id < |s.table| && Reports(s.table[id]) && s.table[id].callDate <= s.lastSeen)
  }

  lemma {:induction false} MarkBounds(since: Time, legs: seq<Leg>)
    ensures forall i :: 0 <= i < |legs| ==> legs[i].callDate <= Mark(since, legs)
    ensures Mark(since, legs) == since || exists i :: 0 <= i < |legs| && legs[i].callDate == Mark(since, legs)
  {
    if legs == [] {
    } else {
      var n := |legs| - 1;
      MarkBounds(since, legs[..n]);
      assert forall i :: 0 <= i < n ==> legs[i] == legs[..n][i];
    }
  }

  /** A non-empty answer moves the watermark to the date of its last row. */
  lemma AnswerMark(s: Scraper, ids: seq<nat>)
    requires Inv(s) && IsAnswer(s, ids)
    ensures ids == [] ==> Mark(s.lastSeen, Legs(s.table, ids)) == s.lastSeen
    ensures ids != [] ==> Mark(s.lastSeen, Legs(s.table, ids)) == s.table[ids[|ids| - 1]].callDate
    ensures forall i :: 0 <= i < |ids| ==> s.table[ids[i]].callDate <= Mark(s.lastSeen, Legs(s.table, ids))
  {
    var legs := Legs(s.table, ids);
    MarkBounds(s.lastSeen, legs);
    forall i | 0 <= i < |ids|
      ensures s.table[ids[i]].callDate == legs[i].callDate
    {
    }
    if ids != [] {
      assert Wanted(s, ids[|ids| - 1]);
    }
  }

  lemma NextKeepsInv(s: Scraper, e: Event)
    requires Inv(s) && Possible(s, e)
    ensures Inv(Next(s, e)) && s.lastSeen <= Next(s, e).lastSeen
    ensures s.observed <= Next(s, e).observed && s.table <= Next(s, e).table
  {
    if e.Scrape? {
      AnswerMark(s, e.ids);
      forall i, j | 0 <= i < |s.observed| && 0 <= j < |e.ids|
        ensures s.observed[i] != e.ids[j]
      {
        assert s.observed[i] in s.observed && Wanted(s, e.ids[j]);
      }
      forall id | id in e.ids
        ensures id < |s.table| && Reports(s.table[id]) && s.table[id].callDate <= Next(s, e).lastSeen
      {
        var i :| 0 <= i < |e.ids| && e.ids[i] == id;
        assert Wanted(s, e.ids[i]);
      }
    }
  }

  /** At most once: over every run the watermark never falls and no row is observed twice. */
  lemma {:induction false} AtMostOnce(s: Scraper, es: seq<Event>, t: Scraper)
    requires Inv(s) && IsRun(s, es, t)
    ensures Inv(t) && NoDup(t.observed) && s.lastSeen <= t.lastSeen
    ensures s.observed <= t.observed && s.table <= t.table
    decreases |es|
  {
    if es == [] {
    } else {
      NextKeepsInv(s, es[0]);
      AtMostOnce(Next(s, es[0]), es[1..], t);
    }
  }

  /** Over every run nothing is observed but rows with a report that is not empty. */
  lemma OnlyReported(s: Scraper, es: seq<Event>, t: Scraper, id: nat)
    requires Inv(s) && IsRun(s, es, t) && id in t.observed
    ensures id < |t.table| && t.table[id].rtpqos.Some? && t.table[id].rtpqos.value != ""
  {
    AtMostOnce(s, es, t);
  }

  lemma {:induction false} SubsetSmaller<T>(a: set<T>, b: set<T>)
    requires a <= b
    ensures |a| <= |b|
  {
    if x :| x in a {
      SubsetSmaller(a - {x}, b - {x});
    } else {
    }
  }

  function SetOf(ids: seq<nat>): set<nat> {
    set id | id in ids
  }

  lemma {:induction false} DistinctCount(ids: seq<nat>)
    requires NoDup(ids)
    ensures |SetOf(ids)| == |ids|
  {
    if ids == [] {
      assert SetOf(ids) == {};
    } else {
      var n := |ids| - 1;
      DistinctCount(ids[..n]);
      assert forall id :: id in ids <==> id in ids[..n] || id == ids[n];
      assert SetOf(ids) == SetOf(ids[..n]) + {ids[n]};
    }
  }

  /** The rows with a report that is not empty, newer than the watermark. */
  ghost function Newer(s: Scraper): set<nat> {
    set id: nat |
      id < |s.table| && s.table[id].rtpqos.Some? && s.table[id].rtpqos.value != "" && s.table[id].callDate > s.lastSeen
  }

  /** Up to 1000 newer rows are all answered at once; of more, 1000 are. */
  lemma AnswerSize(s: Scraper, ids: seq<nat>)
    requires IsAnswer(s, ids)
    ensures if |Newer(s)| <= 1000 then SetOf(ids) == Newer(s) else |ids| == 1000 && SetOf(ids) <= Newer(s)
  {
    DistinctCount(ids);
    assert forall id: nat :: id in Newer(s) <==> Wanted(s, id);
    assert SetOf(ids) <= Newer(s);
    if id :| id in Newer(s) && id !in SetOf(ids) {
      SubsetSmaller(SetOf(ids) + {id}, Newer(s));
    } else {
      assert SetOf(ids) == Newer(s);
    }
  }

  // ---- When nothing is missed ----

  /** Every reporting row dated after the start and up to the watermark has been observed. */
  ghost predicate Complete(s: Scraper, start: Time) {
    forall id :: 0 <= id < |s.table| && Reports(s.table[id]) && start < s.table[id].callDate <= s.lastSeen ==>
      id in s.observed
  }

  /** The two ways to miss rows, as seen before the step: a reporting row that arrives dated at or
      below the watermark, and a full answer whose cut leaves behind a row as old as its last. */
  ghost predicate Harmless(s: Scraper, e: Event, start: Time)
    requires Possible(s, e)
  {
    match e
    case Insert(row) => Reports(row) && row.callDate > start ==> row.callDate > s.lastSeen
    case Scrape(ids) =>
      |ids| == LIMIT ==>
        forall id: nat :: Wanted(s, id) && id !in ids ==> s.table[id].callDate != s.table[ids[LIMIT - 1]].callDate
    case ScrapeFails => true
  }

  lemma ScrapeComplete(s: Scraper, ids: seq<nat>, start: Time)
    requires Inv(s) && IsAnswer(s, ids) && Complete(s, start) && start <= s.lastSeen
    ensures Complete(Next(s, Scrape(ids)), start) <==> Harmless(s, Scrape(ids), start)
  {
    var t := Next(s, Scrape(ids));
    AnswerMark(s, ids);
    forall i | 0 <= i < |ids|
      ensures ids[i] < |s.table|
    {
      assert Wanted(s, ids[i]);
    }
    if Harmless(s, Scrape(ids), start) {
      forall id | 0 <= id < |s.table| && Reports(s.table[id]) && start < s.table[id].callDate <= t.lastSeen
        ensures id in t.observed
      {
        if s.table[id].callDate > s.lastSeen && id !in ids {
          assert Wanted(s, id);
        }
      }
    } else {
      var id: nat :| Wanted(s, id) && id !in ids && s.table[id].callDate == s.table[ids[LIMIT - 1]].callDate;
      assert id !in s.observed;
      assert id !in t.observed;
    }
  }

  lemma StepComplete(s: Scraper, e: Event, start: Time)
    requires Inv(s) && Possible(s, e) && Complete(s, start) && start <= s.lastSeen
    ensures Complete(Next(s, e), start) <==> Harmless(s, e, start)
  {
    var t := Next(s, e);
    match e
    case Insert(row) =>
      assert t.table[|s.table|] == row;
      assert |s.table| !in s.observed;
      assert forall id :: 0 <= id < |s.table| ==> t.table[id] == s.table[id];
      if Complete(t, start) {
        assert Reports(row) && row.callDate > start ==> row.callDate > s.lastSeen;
      }
    case Scrape(ids) => ScrapeComplete(s, ids, start);
    case ScrapeFails =>
  }

  /** One step observes no row that is at or below the watermark and not yet observed. */
  lemma StillMissed(s: Scraper, e: Event, id: nat)
    requires Inv(s) && Possible(s, e)
    requires id < |s.table| && s.table[id].callDate <= s.lastSeen && id !in s.observed
    ensures id !in Next(s, e).observed
  {
    assert e.Scrape? ==> forall i :: 0 <= i < |e.ids| ==> Wanted(s, e.ids[i]);
  }

  /** A row at or below the watermark that was not observed never will be. */
  lemma {:induction false} MissedForGood(s: Scraper, es: seq<Event>, t: Scraper, id: nat)
    requires Inv(s) && IsRun(s, es, t)
    requires id < |s.table| && s.table[id].callDate <= s.lastSeen && id !in s.observed
    ensures id !in t.observed
    decreases |es|
  {
    if es == [] {
    } else {
      NextKeepsInv(s, es[0]);
      StillMissed(s, es[0], id);
      MissedForGood(Next(s, es[0]), es[1..], t, id);
    }
  }

  /** So a run that once left a row behind never makes up for it. */
  lemma NeverComplete(s: Scraper, es: seq<Event>, t: Scraper, start: Time)
    requires Inv(s) && IsRun(s, es, t) && !Complete(s, start)
    ensures !Complete(t, start)
  {
    var id: nat :| id < |s.table| && Reports(s.table[id]) && start < s.table[id].callDate <= s.lastSeen &&
                   id !in s.observed;
    AtMostOnce(s, es, t);
    MissedForGood(s, es, t, id);
    assert t.table[id] == s.table[id];
  }

  ghost predicate AllHarmless(s: Scraper, es: seq<Event>, start: Time)
    decreases |es|
  {
    es == [] || (Possible(s, es[0]) && Harmless(s, es[0], start) && AllHarmless(Next(s, es[0]), es[1..], start))
  }

  /** Every row at or below the watermark has been observed exactly once at the end of a run
      exactly if every step of the run was harmless. */
  lemma {:induction false} CompleteExactlyWhenHarmless(s: Scraper, es: seq<Event>, t: Scraper, start: Time)
    requires Inv(s) && IsRun(s, es, t) && Complete(s, start) && start <= s.lastSeen
    ensures Complete(t, start) <==> AllHarmless(s, es, start)
    decreases |es|
  {
    if es == [] {
    } else {
      NextKeepsInv(s, es[0]);
      StepComplete(s, es[0], start);
      if Harmless(s, es[0], start) {
        CompleteExactlyWhenHarmless(Next(s, es[0]), es[1..], t, start);
      } else {
        NeverComplete(Next(s, es[0]), es[1..], t, start);
      }
    }
  }

  /** Such a row: dated at the watermark when it arrives, no run ever observes it. */
  lemma LateRowMissed(leg: Leg, es: seq<Event>, t: Scraper)
    requires leg.callDate == 5 && IsRun(Scraper([], 5, []), [Insert(Row(5, Some("x"), leg))] + es, t)
    ensures 0 !in t.observed && !Complete(t, 4)
  {
    var s, all := Scraper([], 5, []), [Insert(Row(5, Some("x"), leg))] + es;
    var s' := Next(s, all[0]);
    assert Reports(s'.table[0]) && 0 !in s'.observed;
    MissedForGood(s', all[1..], t, 0);
    NeverComplete(s', all[1..], t, 4);
  }

  // ---- The collector keeps step ----

  /** The collector has observed exactly the legs of the scraper's rows, under its watermark. */
  ghost predicate InStep(c: Collector, s: Scraper)
    reads c
  {
    && c.Valid() && c.lastSeen == s.lastSeen
    && (forall i :: 0 <= i < |s.observed| ==> s.observed[i] < |s.table|)
    && c.seen == Legs(s.table, s.observed)
  }

  /** A scrape of the table by the collector is the scraper's step. */
  method ScrapeTable(c: Collector, ghost s: Scraper, table: seq<Row>, ids: seq<nat>)
    requires s.table == table && InStep(c, s) && IsAnswer(s, ids)
    modifies c
    ensures InStep(c, Next(s, Scrape(ids)))
  {
    assert forall i :: 0 <= i < |ids| ==> Wanted(s, ids[i]);
    c.ScrapeOnce(Some(Legs(table, ids)));
    assert c.seen == Legs(table, s.observed + ids);
  }
}
