/** The quality collector: counters over the call legs it has observed, and a watermark that
    makes each scrape pick up only newer rows. */
module QualityCollector {
  import opened Basics
  import opened RtpQos

  /** A leg as scraped: the local report, and the bridged peer's if its column is filled. */
  datatype Leg = Leg(callDate: Time, local: Option<Report>, peer: Option<Report>)

  datatype Side = Local | Peer

  datatype Direction = Rx | Tx

  datatype Series = Jitter(dir: Direction, side: Side) | Loss(dir: Direction, side: Side)
                  | Mos(dir: Direction, side: Side) | Rtt(side: Side)

  // ---- What a leg contributes ----

  function ReportOn(leg: Leg, side: Side): Option<Report> {
    if side == Local then leg.local else leg.peer
  }

  /** The band a leg counts for on a side: unknown locally without a report, nothing for the peer. */
  function BandOn(leg: Leg, side: Side): Option<Band> {
    if ReportOn(leg, side).Some? then Some(ReportOn(leg, side).value.quality)
    else if side == Local then Some(Unknown)
    else None
  }

  /** Whether a report has data for a series; zero means nothing was received. */
  predicate Observes(q: Report, series: Series) {
    var r := q.readings;
    match series
    case Jitter(Rx, _) => r.rxJitterMs > 0.0
    case Jitter(Tx, _) => r.txJitterMs > 0.0
    case Loss(Rx, _) => q.rxLossPercent > 0.0 || r.rxCount > 0
    case Loss(Tx, _) => q.txLossPercent > 0.0 || r.txCount > 0
    case Mos(Rx, _) => q.rxMos > 0.0
    case Mos(Tx, _) => q.txMos > 0.0
    case Rtt(_) => r.rttMs > 0.0
  }

  /** A received stream is observed for loss even without any; the other series need a positive value. */
  lemma ObservedExactly(q: Report, side: Side)
    ensures Observes(q, Jitter(Rx, side)) <==> q.readings.rxJitterMs > 0.0
    ensures Observes(q, Jitter(Tx, side)) <==> q.readings.txJitterMs > 0.0
    ensures Observes(q, Loss(Rx, side)) <==> q.rxLossPercent > 0.0 || q.readings.rxCount > 0
    ensures Observes(q, Loss(Tx, side)) <==> q.txLossPercent > 0.0 || q.readings.txCount > 0
    ensures Observes(q, Mos(Rx, side)) <==> q.rxMos > 0.0
    ensures Observes(q, Mos(Tx, side)) <==> q.txMos > 0.0
    ensures Observes(q, Rtt(side)) <==> q.readings.rttMs > 0.0
  {
  }

  predicate Feeds(leg: Leg, series: Series) {
    ReportOn(leg, series.side).Some? && Observes(ReportOn(leg, series.side).value, series)
  }

  function BandCount(legs: seq<Leg>, band: Band, side: Side): nat {
    if legs == [] then 0
    else BandCount(legs[..|legs| - 1], band, side) + if BandOn(legs[|legs| - 1], side) == Some(band) then 1 else 0
  }

  function SeriesCount(legs: seq<Leg>, series: Series): nat {
    if legs == [] then 0
    else SeriesCount(legs[..|legs| - 1], series) + if Feeds(legs[|legs| - 1], series) then 1 else 0
  }

  function PeerCount(legs: seq<Leg>): nat {
    if legs == [] then 0 else PeerCount(legs[..|legs| - 1]) + if legs[|legs| - 1].peer.Some? then 1 else 0
  }

  /** The sum of a side's band counters. */
  function BandTotal(legs: seq<Leg>, side: Side): nat {
    BandCount(legs, Unknown, side) + BandCount(legs, Bad, side) + BandCount(legs, Poor, side) +
    BandCount(legs, Fair, side) + BandCount(legs, Good, side) + BandCount(legs, Excellent, side)
  }

  lemma NoBands(side: Side)
    ensures BandTotal([], side) == 0
  {
  }

  lemma BandTotalStep(legs: seq<Leg>, leg: Leg, side: Side)
    ensures BandTotal(legs + [leg], side) == BandTotal(legs, side) + if BandOn(leg, side).Some? then 1 else 0
  {
    hide BandOn;
    assert (legs + [leg])[..|legs|] == legs;
    forall band
      ensures BandCount(legs + [leg], band, side) ==
              BandCount(legs, band, side) + if BandOn(leg, side) == Some(band) then 1 else 0
    {
    }
    if BandOn(leg, side).Some? {
      match BandOn(leg, side).value
      case Unknown => case Bad => case Poor => case Fair => case Good => case Excellent =>
    }
  }

  /** Conservation: the local counters sum to the rows, the peer's to the rows with peer data,
      and no series has more observations than its side has legs. */
  lemma {:induction false} Conservation(legs: seq<Leg>, series: Series)
    ensures BandTotal(legs, Local) == |legs| && BandTotal(legs, Peer) == PeerCount(legs)
    ensures SeriesCount(legs, series) <= BandTotal(legs, series.side)
  {
    hide BandTotal, Observes;
    if legs == [] {
      NoBands(Local);
      NoBands(Peer);
    } else {
      var n := |legs| - 1;
      Conservation(legs[..n], series);
      assert legs == legs[..n] + [legs[n]];
      BandTotalStep(legs[..n], legs[n], Local);
      BandTotalStep(legs[..n], legs[n], Peer);
    }
  }

  // ---- The counters ----

  function At<K>(m: map<K, nat>, k: K): nat {
    if k in m then m[k] else 0
  }

  function Inc<K>(m: map<K, nat>, k: K): map<K, nat> {
    m[k := At(m, k) + 1]
  }

  function IncIf<K>(m: map<K, nat>, k: K, b: bool): map<K, nat> {
    if b then Inc(m, k) else m
  }

  /** The series after one report, one possible observation after the other. */
  function Recorded(m: map<Series, nat>, side: Side, q: Report): map<Series, nat> {
    var r := q.readings;
    var m := IncIf(m, Jitter(Rx, side), r.rxJitterMs > 0.0);
    var m := IncIf(m, Jitter(Tx, side), r.txJitterMs > 0.0);
    var m := IncIf(m, Loss(Rx, side), q.rxLossPercent > 0.0 || r.rxCount > 0);
    var m := IncIf(m, Loss(Tx, side), q.txLossPercent > 0.0 || r.txCount > 0);
    var m := IncIf(m, Mos(Rx, side), q.rxMos > 0.0);
    var m := IncIf(m, Mos(Tx, side), q.txMos > 0.0);
    IncIf(m, Rtt(side), r.rttMs > 0.0)
  }

  /** What one side of a leg adds to a series. */
  function Contribution(q: Option<Report>, side: Side, x: Series): nat {
    if q.Some? && x.side == side && Observes(q.value, x) then 1 else 0
  }

  lemma IncIfAt(m: map<Series, nat>, k: Series, b: bool, x: Series)
    ensures At(IncIf(m, k, b), x) == At(m, x) + if b && x == k then 1 else 0
  {
  }

  lemma {:induction false} RecordedAt(m: map<Series, nat>, side: Side, q: Report, x: Series)
    ensures At(Recorded(m, side, q), x) == At(m, x) + Contribution(Some(q), side, x)
  {
    hide IncIf, At;
    var r := q.readings;
    var m1 := IncIf(m, Jitter(Rx, side), r.rxJitterMs > 0.0);
    var m2 := IncIf(m1, Jitter(Tx, side), r.txJitterMs > 0.0);
    var m3 := IncIf(m2, Loss(Rx, side), q.rxLossPercent > 0.0 || r.rxCount > 0);
    var m4 := IncIf(m3, Loss(Tx, side), q.txLossPercent > 0.0 || r.txCount > 0);
    var m5 := IncIf(m4, Mos(Rx, side), q.rxMos > 0.0);
    var m6 := IncIf(m5, Mos(Tx, side), q.txMos > 0.0);
    IncIfAt(m, Jitter(Rx, side), r.rxJitterMs > 0.0, x);
    IncIfAt(m1, Jitter(Tx, side), r.txJitterMs > 0.0, x);
    IncIfAt(m2, Loss(Rx, side), q.rxLossPercent > 0.0 || r.rxCount > 0, x);
    IncIfAt(m3, Loss(Tx, side), q.txLossPercent > 0.0 || r.txCount > 0, x);
    IncIfAt(m4, Mos(Rx, side), q.rxMos > 0.0, x);
    IncIfAt(m5, Mos(Tx, side), q.txMos > 0.0, x);
    IncIfAt(m6, Rtt(side), r.rttMs > 0.0, x);
  }

  /** The largest of a watermark and the legs' dates. */
  function Mark(since: Time, legs: seq<Leg>): (m: Time)
    ensures m >= since
  {
    if legs == [] then since
    else
      var m := Mark(since, legs[..|legs| - 1]);
      if legs[|legs| - 1].callDate > m then legs[|legs| - 1].callDate else m
  }

  class Collector {
    var lastSeen: Time
    var bands: map<(Band, Side), nat>
    var series: map<Series, nat>
    var scrapeRows: nat
    var scrapeErrors: nat
    /** Every leg observed so far. */
    ghost var seen: seq<Leg>

    /** Every counter is the exact count of the legs seen. */
    ghost predicate Valid()
      reads this
    {
      && scrapeRows == |seen|
      && (forall b, s :: At(bands, (b, s)) == BandCount(seen, b, s))
      && (forall x :: At(series, x) == SeriesCount(seen, x))
    }

    constructor (now: Time)
      ensures Valid() && seen == [] && lastSeen == now && scrapeErrors == 0
    {
      lastSeen, bands, series, scrapeRows, scrapeErrors, seen := now, map[], map[], 0, 0, [];
    }

    /** One observation for each series the report has data for. */
    method RecordSeries(side: Side, q: Report)
      modifies this`series
      ensures series == Recorded(old(series), side, q)
    {
      hide IncIf;
      var r := q.readings;
      series := IncIf(series, Jitter(Rx, side), r.rxJitterMs > 0.0);
      series := IncIf(series, Jitter(Tx, side), r.txJitterMs > 0.0);
      series := IncIf(series, Loss(Rx, side), q.rxLossPercent > 0.0 || r.rxCount > 0);
      series := IncIf(series, Loss(Tx, side), q.txLossPercent > 0.0 || r.txCount > 0);
      series := IncIf(series, Mos(Rx, side), q.rxMos > 0.0);
      series := IncIf(series, Mos(Tx, side), q.txMos > 0.0);
      series := IncIf(series, Rtt(side), r.rttMs > 0.0);
    }

    /** Counts one side of a leg. */
    method RecordSide(side: Side, q: Option<Report>)
      modifies this`bands, this`series
      ensures bands == Inc(old(bands), (if q.None? then Unknown else q.value.quality, side))
      ensures forall x :: At(series, x) == At(old(series), x) + Contribution(q, side, x)
    {
      hide Recorded, Inc, At, Observes;
      if q.None? {
        bands := Inc(bands, (Unknown, side));
        return;
      }
      bands := Inc(bands, (q.value.quality, side));
      forall x
        ensures At(Recorded(series, side, q.value), x) == At(series, x) + Contribution(q, side, x)
      {
        RecordedAt(series, side, q.value, x);
      }
      RecordSeries(side, q.value);
    }

    method Observe(leg: Leg)
      requires Valid()
      modifies this`bands, this`series, this`scrapeRows, this`seen
      ensures Valid() && seen == old(seen) + [leg]
    {
      scrapeRows := scrapeRows + 1;
      seen := seen + [leg];
      assert seen[..|seen| - 1] == old(seen);
      RecordSide(Local, leg.local);
      if leg.peer.Some? {
        RecordSide(Peer, leg.peer);
      }
    }

    /** One scrape; None is a failed query. */
    method ScrapeOnce(answer: Option<seq<Leg>>)
      requires Valid()
      modifies this
      ensures Valid() && lastSeen >= old(lastSeen)
      ensures answer.None? ==>
        seen == old(seen) && lastSeen == old(lastSeen) && scrapeErrors == old(scrapeErrors) + 1
      ensures answer.Some? ==>
        seen == old(seen) + answer.value && lastSeen == Mark(old(lastSeen), answer.value) &&
        scrapeErrors == old(scrapeErrors)
    {
      if answer.None? {
        scrapeErrors := scrapeErrors + 1;
        return;
      }
      var legs := answer.value;
      for i := 0 to |legs|
        invariant Valid() && seen == old(seen) + legs[..i] && lastSeen == Mark(old(lastSeen), legs[..i])
        invariant scrapeErrors == old(scrapeErrors)
      {
        assert legs[..i + 1][..i] == legs[..i];
        Observe(legs[i]);
        if legs[i].callDate > lastSeen {
          lastSeen := legs[i].callDate;
        }
      }
      assert legs[..|legs|] == legs;
    }
  }
}
