/** The drilldown's fold over a call's legs against the list query's aggregate expressions. */
module CallSummaries {
  import opened Basics
  import opened Text
  import opened ChannelNames

  /** Instants are nanoseconds since the zero instant, which stands for "not set". */
  type Instant = nat

  const SECOND: nat := 1_000_000_000

  datatype CallLeg = CallLeg(
    callDate: Instant, channel: string, dstchannel: string, src: string, dst: string,
    disposition: string, duration: int, billsec: int, extension: string, recordingFile: string)

  datatype CelEvent = CelEvent(eventTime: Instant, eventType: string)

  datatype CallSummary = CallSummary(
    linkedId: string, callDate: Instant, src: string, dst: string, recordingFile: string, legCount: nat,
    direction: string, disposition: string, duration: int, billsec: int, pickup: Option<int>,
    answeredExtension: string, originatingExtension: string)

  // ---- The query's aggregates ----

  /** SUM over an indicator. */
  function SumIf(legs: seq<CallLeg>, p: CallLeg -> bool): nat {
    if legs == [] then 0 else SumIf(legs[..|legs| - 1], p) + if p(legs[|legs| - 1]) then 1 else 0
  }

  predicate RealAnswered(l: CallLeg) { l.disposition == "ANSWERED" && l.dstchannel != "" }

  predicate IsBusy(l: CallLeg) { l.disposition == "BUSY" }

  predicate IsFailed(l: CallLeg) { l.disposition == "FAILED" }

  /** The list query's CASE expression. */
  function CaseDisposition(legs: seq<CallLeg>): string {
    if SumIf(legs, RealAnswered) > 0 then "ANSWERED"
    else if SumIf(legs, IsBusy) > 0 then "BUSY"
    else if SumIf(legs, IsFailed) > 0 then "FAILED"
    else "NO ANSWER"
  }

  /** The list query's HAVING clause for a disposition filter; unknown filters select all. */
  predicate HavingClause(filter: string, legs: seq<CallLeg>) {
    var f := ToUpper(filter);
    if filter == "" then true
    else if f == "ANSWERED" then SumIf(legs, RealAnswered) > 0
    else if f == "BUSY" then SumIf(legs, RealAnswered) == 0 && SumIf(legs, IsBusy) > 0
    else if f == "FAILED" then
      SumIf(legs, RealAnswered) == 0 && SumIf(legs, IsBusy) == 0 && SumIf(legs, IsFailed) > 0
    else if f == "NO ANSWER" || f == "NO_ANSWER" then
      SumIf(legs, RealAnswered) == 0 && SumIf(legs, IsBusy) == 0 && SumIf(legs, IsFailed) == 0
    else true
  }

  const DISPOSITIONS: set<string> := {"ANSWERED", "BUSY", "FAILED", "NO ANSWER"}

  lemma UpperIsItself(s: string)
    requires s in DISPOSITIONS || s == "NO_ANSWER"
    ensures ToUpper(s) == s
  {
  }

  /** Each filter, in any case, selects exactly the calls with its disposition, so the four
      partition all calls. */
  lemma FiltersPartition(filter: string, legs: seq<CallLeg>)
    requires ToUpper(filter) in DISPOSITIONS
    ensures HavingClause(filter, legs) <==> CaseDisposition(legs) == ToUpper(filter)
    ensures CaseDisposition(legs) in DISPOSITIONS
    ensures HavingClause("NO_ANSWER", legs) <==> CaseDisposition(legs) == "NO ANSWER"
  {
    assert |ToUpper(filter)| == |filter|;
    UpperIsItself("NO_ANSWER");
  }

  lemma {:induction false} SumIfRemove(s: seq<CallLeg>, i: nat, p: CallLeg -> bool)
    requires i < |s|
    ensures SumIf(s, p) == SumIf(s[..i] + s[i + 1..], p) + if p(s[i]) then 1 else 0
  {
    var n := |s| - 1;
    if i == n {
      assert s[..i] + s[i + 1..] == s[..n];
    } else {
      SumIfRemove(s[..n], i, p);
      var r := s[..i] + s[i + 1..];
      assert r[..|r| - 1] == s[..n][..i] + s[..n][i + 1..];
      assert r[|r| - 1] == s[n];
    }
  }

  /** No filter, and one that names no disposition, selects every call. */
  lemma OtherFiltersSelectAll(filter: string, legs: seq<CallLeg>)
    requires filter == "" || ToUpper(filter) !in {"ANSWERED", "BUSY", "FAILED", "NO ANSWER", "NO_ANSWER"}
    ensures HavingClause(filter, legs)
  {
  }

  lemma {:induction false} SumIfSome(legs: seq<CallLeg>, p: CallLeg -> bool)
    ensures SumIf(legs, p) > 0 <==> exists l :: l in legs && p(l)
  {
    if legs == [] {
    } else {
      var n := |legs| - 1;
      assert legs == legs[..n] + [legs[n]];
      SumIfSome(legs[..n], p);
    }
  }

  /** The disposition told from the legs: answered only by a leg with a destination channel, so an
      announcement that plays to the caller does not answer a call. */
  lemma DispositionMeaning(legs: seq<CallLeg>)
    ensures CaseDisposition(legs) ==
      if exists l :: l in legs && l.disposition == "ANSWERED" && l.dstchannel != "" then "ANSWERED"
      else if exists l :: l in legs && l.disposition == "BUSY" then "BUSY"
      else if exists l :: l in legs && l.disposition == "FAILED" then "FAILED"
      else "NO ANSWER"
  {
    SumIfSome(legs, RealAnswered);
    SumIfSome(legs, IsBusy);
    SumIfSome(legs, IsFailed);
    forall l | l in legs
      ensures RealAnswered(l) <==> l.disposition == "ANSWERED" && l.dstchannel != ""
      ensures (IsBusy(l) <==> l.disposition == "BUSY") && (IsFailed(l) <==> l.disposition == "FAILED")
    {
    }
  }

  /** A sum over legs does not depend on their order. */
  lemma {:induction false} SumIfPermutes(a: seq<CallLeg>, b: seq<CallLeg>, p: CallLeg -> bool)
    requires multiset(a) == multiset(b)
    ensures SumIf(a, p) == SumIf(b, p)
  {
    if a == [] {
      assert |b| == |multiset(b)| == |multiset(a)|;
    } else {
      var x := a[|a| - 1];
      assert a == a[..|a| - 1] + [x];
      assert x in multiset(b);
      var i :| 0 <= i < |b| && b[i] == x;
      SumIfRemove(b, i, p);
      assert b == b[..i] + [x] + b[i + 1..];
      assert multiset(b[..i] + b[i + 1..]) == multiset(b) - multiset{x};
      SumIfPermutes(a[..|a| - 1], b[..i] + b[i + 1..], p);
    }
  }

  // ---- The fold's running maxima and minima ----

  /** v is the largest value of the legs that count, or 0 if that is larger. */
  ghost predicate IsTop(v: int, legs: seq<CallLeg>, counts: CallLeg -> bool, value: CallLeg -> int) {
    && v >= 0 && (forall l :: l in legs && counts(l) ==> value(l) <= v)
    && (v == 0 || exists l :: l in legs && counts(l) && value(l) == v)
  }

  lemma TopExtends(v: int, legs: seq<CallLeg>, l: CallLeg, counts: CallLeg -> bool, value: CallLeg -> int)
    requires IsTop(v, legs, counts, value)
    ensures IsTop(if counts(l) && value(l) > v then value(l) else v, legs + [l], counts, value)
  {
    assert l in legs + [l];
    assert forall k :: k in legs ==> k in legs + [l];
  }

  lemma TopPermutes(v: int, w: int, a: seq<CallLeg>, b: seq<CallLeg>, counts: CallLeg -> bool, value: CallLeg -> int)
    requires IsTop(v, a, counts, value) && IsTop(w, b, counts, value) && multiset(a) == multiset(b)
    ensures v == w
  {
    assert forall l :: l in a <==> l in multiset(a);
    assert forall l :: l in b <==> l in multiset(b);
  }

  predicate AnyLeg(l: CallLeg) { true }

  function BillsecOf(l: CallLeg): int { l.billsec }

  function DurationOf(l: CallLeg): int { l.duration }

  /** The instants of one kind of event. */
  function TimesOf(timeline: seq<CelEvent>, kind: string): seq<Instant> {
    if timeline == [] then []
    else
      var e := timeline[|timeline| - 1];
      TimesOf(timeline[..|timeline| - 1], kind) + if e.eventType == kind then [e.eventTime] else []
  }

  /** The running minimum with the zero instant as "none yet". */
  function RunningMin(times: seq<Instant>): Instant {
    if times == [] then 0
    else
      var m, t := RunningMin(times[..|times| - 1]), times[|times| - 1];
      if m == 0 || t < m then t else m
  }

  lemma {:induction false} RunningMinIsMin(times: seq<Instant>)
    requires times != [] && 0 !in times
    ensures RunningMin(times) in times && forall t :: t in times ==> RunningMin(times) <= t
  {
    var n := |times| - 1;
    assert times == times[..n] + [times[n]];
    if n == 0 {
    } else {
      RunningMinIsMin(times[..n]);
    }
  }

  lemma {:induction false} RunningMinZeros(times: seq<Instant>)
    requires forall t :: t in times ==> t == 0
    ensures RunningMin(times) == 0
  {
    if times == [] {
    } else {
      var n := |times| - 1;
      assert times[n] in times;
      forall t | t in times[..n]
        ensures t == 0
      {
        assert t in times;
      }
      RunningMinZeros(times[..n]);
    }
  }

  /** No event has the zero instant, or all do. */
  ghost predicate NoZeroAmongSet(times: seq<Instant>) {
    0 !in times || forall t :: t in times ==> t == 0
  }

  lemma RunningMinSame(times: seq<Instant>, other: seq<Instant>)
    requires NoZeroAmongSet(times) && multiset(other) == multiset(times)
    ensures RunningMin(other) == RunningMin(times)
  {
    assert forall t :: t in times <==> t in multiset(times);
    assert forall t :: t in other <==> t in multiset(other);
    if times == [] {
      assert |other| == |multiset(other)| == |multiset(times)|;
    } else if 0 !in times {
      assert other != [] by { assert times[0] in other; }
      RunningMinIsMin(times);
      RunningMinIsMin(other);
    } else {
      RunningMinZeros(times);
      RunningMinZeros(other);
    }
  }

  lemma MoveLast(s: seq<Instant>, i: nat) returns (r: seq<Instant>)
    requires i < |s|
    ensures r == s[..i] + s[i + 1..] + [s[i]] && multiset(r) == multiset(s)
  {
    r := s[..i] + s[i + 1..] + [s[i]];
    assert s == s[..i] + [s[i]] + s[i + 1..];
  }

  lemma ZeroLast(times: seq<Instant>)
    requires times != [] && times[|times| - 1] == 0
    ensures RunningMin(times) == 0
  {
  }

  /** What the running minimum can be in some order of the events. */
  ghost predicate CanBeFirst(times: seq<Instant>, v: Instant) {
    if NoZeroAmongSet(times) then v == RunningMin(times) else v in times
  }

  lemma MixedHasZero(times: seq<Instant>)
    requires !NoZeroAmongSet(times)
    ensures 0 in times && exists t :: t in times && t != 0
  {
  }

  /** An order that gives a possible value: with zeros among set instants it comes last, behind a zero. */
  lemma Realise(times: seq<Instant>, v: Instant) returns (other: seq<Instant>)
    requires CanBeFirst(times, v)
    ensures multiset(other) == multiset(times) && RunningMin(other) == v
  {
    hide NoZeroAmongSet;
    if NoZeroAmongSet(times) {
      other := times;
    } else {
      var i :| 0 <= i < |times| && times[i] == 0 by { MixedHasZero(times); }
      other := MoveLast(times, i);
      ZeroLast(other);
      if v != 0 {
        assert v in multiset(other);
        var n := |other| - 1;
        var j :| 0 <= j < |other| && other[j] == v;
        var last := MoveLast(other, j);
        assert last[..n] == other[..j] + other[j + 1..] && last[..n][n - 1] == other[n];
        ZeroLast(last[..n]);
        other := last;
      }
    }
  }

  lemma {:induction false} RunningMinAmong(times: seq<Instant>)
    requires times != []
    ensures RunningMin(times) in times
  {
    var n := |times| - 1;
    assert times == times[..n] + [times[n]];
    if n == 0 {
    } else {
      RunningMinAmong(times[..n]);
    }
  }

  /** No order gives anything else. */
  lemma OnlyPossible(times: seq<Instant>, other: seq<Instant>)
    requires multiset(other) == multiset(times)
    ensures CanBeFirst(times, RunningMin(other))
  {
    hide RunningMin, NoZeroAmongSet;
    if NoZeroAmongSet(times) {
      RunningMinSame(times, other);
    } else {
      MixedHasZero(times);
      assert 0 in multiset(other);
      RunningMinAmong(other);
      assert RunningMin(other) in multiset(times);
    }
  }

  /** The running minimum is independent of the order of events exactly if no event carries
      the zero instant, or all do. */
  lemma RunningMinOrder(times: seq<Instant>)
    ensures NoZeroAmongSet(times) <==>
      forall other: seq<Instant> :: multiset(other) == multiset(times) ==> RunningMin(other) == RunningMin(times)
  {
    if NoZeroAmongSet(times) {
      forall other: seq<Instant> | multiset(other) == multiset(times)
        ensures RunningMin(other) == RunningMin(times)
      {
        RunningMinSame(times, other);
      }
    } else {
      MixedHasZero(times);
      var t :| t in times && t != 0;
      var a := Realise(times, 0);
      var b := Realise(times, t);
      assert RunningMin(a) != RunningMin(b);
    }
  }

  /** Seconds from the first start to the first answer, if both are known and in that order. */
  function PickupOf(start: Instant, answer: Instant): Option<int> {
    if start != 0 && answer != 0 && answer >= start then Some((answer - start) / SECOND) else None
  }

  function Pickup(timeline: seq<CelEvent>): Option<int> {
    PickupOf(RunningMin(TimesOf(timeline, "CHAN_START")), RunningMin(TimesOf(timeline, "ANSWER")))
  }

  // ---- The fold ----

  /** The first extension that really answered. */
  function FirstExtension(legs: seq<CallLeg>): string {
    if legs == [] then ""
    else
      var before, l := FirstExtension(legs[..|legs| - 1]), legs[|legs| - 1];
      if before == "" && RealAnswered(l) then l.extension else before
  }

  /** What the drilldown shows for a call with legs. */
  ghost predicate Summarizes(s: CallSummary, legs: seq<CallLeg>, timeline: seq<CelEvent>)
    requires legs != []
  {
    && s.legCount == |legs|
    && s.callDate == legs[0].callDate && s.src == legs[0].src && s.dst == legs[0].dst
    && s.recordingFile == legs[0].recordingFile
    && s.originatingExtension == ExtractExtension(legs[0].channel)
    && s.direction == InferDirection(legs[0].dstchannel, legs[0].channel)
    && s.disposition == CaseDisposition(legs)
    && IsTop(s.duration, legs, AnyLeg, DurationOf)
    && IsTop(s.billsec, legs, RealAnswered, BillsecOf)
    && s.answeredExtension == FirstExtension(legs)
    && s.pickup == Pickup(timeline)
  }

  lemma NothingFolded()
    ensures SumIf([], RealAnswered) == SumIf([], IsBusy) == SumIf([], IsFailed) == 0 && FirstExtension([]) == ""
    ensures IsTop(0, [], AnyLeg, DurationOf) && IsTop(0, [], RealAnswered, BillsecOf)
  {
  }

  lemma FoldStep(legs: seq<CallLeg>, i: nat)
    requires i < |legs|
    ensures legs[..i + 1] == legs[..i] + [legs[i]]
    ensures forall p: CallLeg -> bool :: SumIf(legs[..i + 1], p) == SumIf(legs[..i], p) + if p(legs[i]) then 1 else 0
    ensures FirstExtension(legs[..i + 1]) ==
      if FirstExtension(legs[..i]) == "" && RealAnswered(legs[i]) then legs[i].extension else FirstExtension(legs[..i])
  {
    assert legs[..i + 1][..i] == legs[..i];
  }

  /** The loop over the legs. */
  method FoldLegs(legs: seq<CallLeg>)
    returns (disposition: string, duration: int, billsec: int, answered: string)
    ensures disposition == CaseDisposition(legs) && answered == FirstExtension(legs)
    ensures IsTop(duration, legs, AnyLeg, DurationOf) && IsTop(billsec, legs, RealAnswered, BillsecOf)
  {
    hide SumIf, FirstExtension, IsTop;
    var hasAnswered, hasBusy, hasFailed := false, false, false;
    duration, billsec, answered := 0, 0, "";
    NothingFolded();
    for i := 0 to |legs|
      invariant hasAnswered <==> SumIf(legs[..i], RealAnswered) > 0
      invariant hasBusy <==> SumIf(legs[..i], IsBusy) > 0
      invariant hasFailed <==> SumIf(legs[..i], IsFailed) > 0
      invariant IsTop(duration, legs[..i], AnyLeg, DurationOf)
      invariant IsTop(billsec, legs[..i], RealAnswered, BillsecOf)
      invariant answered == FirstExtension(legs[..i])
    {
      var l := legs[i];
      FoldStep(legs, i);
      TopExtends(duration, legs[..i], l, AnyLeg, DurationOf);
      TopExtends(billsec, legs[..i], l, RealAnswered, BillsecOf);
      if l.disposition == "ANSWERED" {
        if l.dstchannel != "" {
          hasAnswered := true;
          billsec := if l.billsec > billsec then l.billsec else billsec;
          answered := if answered == "" then l.extension else answered;
        }
      } else if l.disposition == "BUSY" {
        hasBusy := true;
      } else if l.disposition == "FAILED" {
        hasFailed := true;
      }
      duration := if l.duration > duration then l.duration else duration;
    }
    assert legs[..|legs|] == legs;
    disposition :=
      if hasAnswered then "ANSWERED" else if hasBusy then "BUSY" else if hasFailed then "FAILED" else "NO ANSWER";
  }

  lemma TimesStep(timeline: seq<CelEvent>, i: nat, kind: string)
    requires i < |timeline|
    ensures
      var m := RunningMin(TimesOf(timeline[..i], kind));
      var e := timeline[i];
      RunningMin(TimesOf(timeline[..i + 1], kind)) ==
      if e.eventType == kind && (m == 0 || e.eventTime < m) then e.eventTime else m
  {
    assert timeline[..i + 1][..i] == timeline[..i];
    var times := TimesOf(timeline[..i], kind);
    assert (times + [timeline[i].eventTime])[..|times|] == times;
    assert times + [] == times;
  }

  /** The loop over the timeline. */
  method FirstTimes(timeline: seq<CelEvent>) returns (start: Instant, answer: Instant)
    ensures start == RunningMin(TimesOf(timeline, "CHAN_START"))
    ensures answer == RunningMin(TimesOf(timeline, "ANSWER"))
  {
    start, answer := 0, 0;
    for i := 0 to |timeline|
      invariant start == RunningMin(TimesOf(timeline[..i], "CHAN_START"))
      invariant answer == RunningMin(TimesOf(timeline[..i], "ANSWER"))
    {
      var e := timeline[i];
      TimesStep(timeline, i, "CHAN_START");
      TimesStep(timeline, i, "ANSWER");
      if e.eventType == "CHAN_START" {
        if start == 0 || e.eventTime < start { start := e.eventTime; }
      } else if e.eventType == "ANSWER" {
        if answer == 0 || e.eventTime < answer { answer := e.eventTime; }
      }
    }
    assert timeline[..|timeline|] == timeline;
  }

  lemma TopMeaning(legs: seq<CallLeg>, duration: int, billsec: int)
    requires IsTop(duration, legs, AnyLeg, DurationOf) && IsTop(billsec, legs, RealAnswered, BillsecOf)
    ensures forall l :: l in legs ==>
      l.duration <= duration && (l.disposition == "ANSWERED" && l.dstchannel != "" ==> l.billsec <= billsec)
    ensures duration == 0 || (duration > 0 && exists l :: l in legs && l.duration == duration)
    ensures billsec == 0 || (billsec > 0 &&
      exists l :: l in legs && l.disposition == "ANSWERED" && l.dstchannel != "" && l.billsec == billsec)
  {
    forall l | l in legs
      ensures l.duration <= duration && (l.disposition == "ANSWERED" && l.dstchannel != "" ==> l.billsec <= billsec)
    {
      assert AnyLeg(l) && DurationOf(l) == l.duration && BillsecOf(l) == l.billsec;
      assert RealAnswered(l) <==> l.disposition == "ANSWERED" && l.dstchannel != "";
    }
  }

  /** The answered extension told from the legs: the first that is not empty among the legs that
      were answered on a destination channel. */
  lemma {:induction false} FirstExtensionMeaning(legs: seq<CallLeg>)
    ensures
      var e := FirstExtension(legs);
      if e == "" then forall l :: l in legs && l.disposition == "ANSWERED" && l.dstchannel != "" ==> l.extension == ""
      else exists i ::
        && 0 <= i < |legs| && legs[i].disposition == "ANSWERED" && legs[i].dstchannel != "" && legs[i].extension == e
        && forall j :: 0 <= j < i && legs[j].disposition == "ANSWERED" && legs[j].dstchannel != "" ==>
             legs[j].extension == ""
  {
    if legs == [] {
    } else {
      var n := |legs| - 1;
      var before := legs[..n];
      FirstExtensionMeaning(before);
      assert legs == before + [legs[n]];
      assert forall j :: 0 <= j < n ==> before[j] == legs[j] && legs[j] in before;
    }
  }

  method SummarizeLegs(linkedId: string, legs: seq<CallLeg>, timeline: seq<CelEvent>) returns (s: CallSummary)
    ensures s.linkedId == linkedId && s.legCount == |legs|
    ensures legs == [] ==> s == CallSummary(linkedId, 0, "", "", "", 0, "", "", 0, 0, None, "", "")
    ensures legs != [] ==> Summarizes(s, legs, timeline)
    ensures legs != [] ==> (s.disposition ==
      if exists l :: l in legs && l.disposition == "ANSWERED" && l.dstchannel != "" then "ANSWERED"
      else if exists l :: l in legs && l.disposition == "BUSY" then "BUSY"
      else if exists l :: l in legs && l.disposition == "FAILED" then "FAILED"
      else "NO ANSWER")
    ensures forall l :: l in legs ==>
      l.duration <= s.duration && (l.disposition == "ANSWERED" && l.dstchannel != "" ==> l.billsec <= s.billsec)
    ensures s.duration == 0 || (s.duration > 0 && exists l :: l in legs && l.duration == s.duration)
    ensures s.billsec == 0 || (s.billsec > 0 &&
      exists l :: l in legs && l.disposition == "ANSWERED" && l.dstchannel != "" && l.billsec == s.billsec)
  {
    hide SumIf, CaseDisposition, FirstExtension, IsTop, ExtractExtension, InferDirection, RunningMin, TimesOf;
    s := CallSummary(linkedId, 0, "", "", "", |legs|, "", "", 0, 0, None, "", "");
    if legs == [] { return; }
    var disposition, duration, billsec, answered := FoldLegs(legs);
    DispositionMeaning(legs);
    TopMeaning(legs, duration, billsec);
    var start, answer := FirstTimes(timeline);
    var pickup := None;
    if start != 0 && answer != 0 && !(answer < start) {
      pickup := Some((answer - start) / SECOND);
    }
    s := CallSummary(
      linkedId, legs[0].callDate, legs[0].src, legs[0].dst, legs[0].recordingFile, |legs|,
      InferDirection(legs[0].dstchannel, legs[0].channel), disposition, duration, billsec,
      pickup, answered, ExtractExtension(legs[0].channel));
  }

  // ---- Order ----

  lemma {:induction false} TimesCount(a: seq<CelEvent>, kind: string, t: Instant)
    ensures multiset(TimesOf(a, kind))[t] == multiset(a)[CelEvent(t, kind)]
  {
    if a == [] {
    } else {
      var n := |a| - 1;
      assert a == a[..n] + [a[n]];
      TimesCount(a[..n], kind, t);
    }
  }

  lemma TimesPermute(a: seq<CelEvent>, b: seq<CelEvent>, kind: string)
    requires multiset(a) == multiset(b)
    ensures multiset(TimesOf(a, kind)) == multiset(TimesOf(b, kind))
  {
    forall t
      ensures multiset(TimesOf(a, kind))[t] == multiset(TimesOf(b, kind))[t]
    {
      TimesCount(a, kind, t);
      TimesCount(b, kind, t);
    }
  }

  // ---- When the order of events decides the pickup ----

  lemma {:induction false} TimesConcat(a: seq<CelEvent>, b: seq<CelEvent>, kind: string)
    ensures TimesOf(a + b, kind) == TimesOf(a, kind) + TimesOf(b, kind)
  {
    if b == [] {
      assert a + b == a;
    } else {
      assert (a + b)[..|a + b| - 1] == a + b[..|b| - 1];
      TimesConcat(a, b[..|b| - 1], kind);
    }
  }

  /** Events of one kind at the given instants. */
  function EventsAt(times: seq<Instant>, kind: string): seq<CelEvent> {
    if times == [] then [] else EventsAt(times[..|times| - 1], kind) + [CelEvent(times[|times| - 1], kind)]
  }

  lemma {:induction false} TimesOfEvents(times: seq<Instant>, kind: string, other: string)
    ensures TimesOf(EventsAt(times, kind), other) == if other == kind then times else []
  {
    if times == [] {
    } else {
      var n := |times| - 1;
      var before, last := EventsAt(times[..n], kind), CelEvent(times[n], kind);
      TimesOfEvents(times[..n], kind, other);
      assert (before + [last])[..|before|] == before;
      assert times == times[..n] + [times[n]];
    }
  }

  /** The events of neither of two kinds. */
  function Others(timeline: seq<CelEvent>, kind: string, kind': string): seq<CelEvent> {
    if timeline == [] then []
    else
      var e := timeline[|timeline| - 1];
      Others(timeline[..|timeline| - 1], kind, kind') + if e.eventType in {kind, kind'} then [] else [e]
  }

  lemma {:induction false} OthersHave(timeline: seq<CelEvent>, kind: string, kind': string, e: CelEvent)
    ensures multiset(Others(timeline, kind, kind'))[e] ==
      if e.eventType in {kind, kind'} then 0 else multiset(timeline)[e]
  {
    if timeline == [] {
    } else {
      var n := |timeline| - 1;
      assert timeline == timeline[..n] + [timeline[n]];
      OthersHave(timeline[..n], kind, kind', e);
    }
  }

  lemma {:induction false} NoOtherTimes(timeline: seq<CelEvent>, kind: string, kind': string, k: string)
    requires k in {kind, kind'}
    ensures TimesOf(Others(timeline, kind, kind'), k) == []
  {
    if timeline == [] {
    } else {
      var n := |timeline| - 1;
      var before, e := Others(timeline[..n], kind, kind'), timeline[n];
      NoOtherTimes(timeline[..n], kind, kind', k);
      TimesConcat(before, if e.eventType in {kind, kind'} then [] else [e], k);
      assert [e][..0] == [];
    }
  }

  lemma EventsHave(times: seq<Instant>, kind: string, e: CelEvent)
    ensures multiset(EventsAt(times, kind))[e] == if e.eventType == kind then multiset(times)[e.eventTime] else 0
  {
    TimesCount(EventsAt(times, kind), e.eventType, e.eventTime);
    TimesOfEvents(times, kind, e.eventType);
    assert e == CelEvent(e.eventTime, e.eventType);
  }

  /** The instants of two kinds of event can be put in any order, each on its own. */
  lemma Arrange(timeline: seq<CelEvent>, a: seq<Instant>, b: seq<Instant>, kind: string, kind': string)
    returns (other: seq<CelEvent>)
    requires kind != kind'
    requires multiset(a) == multiset(TimesOf(timeline, kind)) && multiset(b) == multiset(TimesOf(timeline, kind'))
    ensures multiset(other) == multiset(timeline) && TimesOf(other, kind) == a && TimesOf(other, kind') == b
  {
    hide TimesOf, EventsAt, Others;
    var x, y, z := EventsAt(a, kind), EventsAt(b, kind'), Others(timeline, kind, kind');
    other := x + y + z;
    forall e: CelEvent
      ensures multiset(other)[e] == multiset(timeline)[e]
    {
      EventsHave(a, kind, e);
      EventsHave(b, kind', e);
      OthersHave(timeline, kind, kind', e);
      TimesCount(timeline, e.eventType, e.eventTime);
      assert e == CelEvent(e.eventTime, e.eventType);
    }
    forall k | k in {kind, kind'}
      ensures TimesOf(other, k) == if k == kind then a else b
    {
      TimesConcat(x + y, z, k);
      TimesConcat(x, y, k);
      TimesOfEvents(a, kind, k);
      TimesOfEvents(b, kind', k);
      NoOtherTimes(timeline, kind, kind', k);
    }
  }

  /** The order of events cannot change the pickup: neither kind has zeros among set instants, or
      no set answer that some order puts first is at or after a set start that some order does. */
  ghost predicate PickupFixed(starts: seq<Instant>, answers: seq<Instant>) {
    || (NoZeroAmongSet(starts) && NoZeroAmongSet(answers))
    || forall s, a :: CanBeFirst(starts, s) && CanBeFirst(answers, a) && s != 0 && a != 0 ==> a < s
  }

  lemma FixedStays(timeline: seq<CelEvent>, other: seq<CelEvent>)
    requires multiset(other) == multiset(timeline)
    requires PickupFixed(TimesOf(timeline, "CHAN_START"), TimesOf(timeline, "ANSWER"))
    ensures Pickup(other) == Pickup(timeline)
  {
    hide RunningMin, NoZeroAmongSet, CanBeFirst, TimesOf;
    var starts, answers := TimesOf(timeline, "CHAN_START"), TimesOf(timeline, "ANSWER");
    var starts', answers' := TimesOf(other, "CHAN_START"), TimesOf(other, "ANSWER");
    TimesPermute(other, timeline, "CHAN_START");
    TimesPermute(other, timeline, "ANSWER");
    if NoZeroAmongSet(starts) && NoZeroAmongSet(answers) {
      RunningMinSame(starts, starts');
      RunningMinSame(answers, answers');
    } else {
      OnlyPossible(starts, starts);
      OnlyPossible(answers, answers);
      OnlyPossible(starts, starts');
      OnlyPossible(answers, answers');
    }
  }

  /** Two possible first instants come together in some order of the timeline. */
  lemma Together(timeline: seq<CelEvent>, s: Instant, a: Instant) returns (other: seq<CelEvent>)
    requires CanBeFirst(TimesOf(timeline, "CHAN_START"), s) && CanBeFirst(TimesOf(timeline, "ANSWER"), a)
    ensures multiset(other) == multiset(timeline) && Pickup(other) == PickupOf(s, a)
  {
    hide RunningMin, CanBeFirst, TimesOf;
    var starts := Realise(TimesOf(timeline, "CHAN_START"), s);
    var answers := Realise(TimesOf(timeline, "ANSWER"), a);
    other := Arrange(timeline, starts, answers, "CHAN_START", "ANSWER");
  }

  lemma ZeroPossible(times: seq<Instant>)
    ensures !NoZeroAmongSet(times) ==> CanBeFirst(times, 0)
  {
  }

  /** For every timeline: the pickup is the same in every order of its events exactly if it is fixed. */
  lemma PickupOrder(timeline: seq<CelEvent>)
    ensures PickupFixed(TimesOf(timeline, "CHAN_START"), TimesOf(timeline, "ANSWER")) <==>
      forall other: seq<CelEvent> :: multiset(other) == multiset(timeline) ==> Pickup(other) == Pickup(timeline)
  {
    hide Pickup, TimesOf, CanBeFirst, NoZeroAmongSet;
    var starts, answers := TimesOf(timeline, "CHAN_START"), TimesOf(timeline, "ANSWER");
    if PickupFixed(starts, answers) {
      forall other: seq<CelEvent> | multiset(other) == multiset(timeline)
        ensures Pickup(other) == Pickup(timeline)
      {
        FixedStays(timeline, other);
      }
    } else {
      var s, a :| CanBeFirst(starts, s) && CanBeFirst(answers, a) && s != 0 && a != 0 && !(a < s);
      var known := Together(timeline, s, a);
      var s', a' := if NoZeroAmongSet(starts) then s else 0, if NoZeroAmongSet(starts) then 0 else a;
      ZeroPossible(starts);
      ZeroPossible(answers);
      var unknown := Together(timeline, s', a');
      assert Pickup(known) != Pickup(unknown);
    }
  }

  lemma OneTime(e: CelEvent)
    ensures forall k :: TimesOf([e], k) == if e.eventType == k then [e.eventTime] else []
  {
    assert [e][..0] == [];
  }

  lemma ThreeTimes(x: CelEvent, y: CelEvent, z: CelEvent)
    requires x.eventType == "CHAN_START" == y.eventType && z.eventType == "ANSWER"
    ensures TimesOf([x, y, z], "CHAN_START") == [x.eventTime, y.eventTime]
    ensures TimesOf([x, y, z], "ANSWER") == [z.eventTime]
  {
    hide TimesOf;
    assert [x, y, z] == [x] + [y] + [z];
    forall k
      ensures TimesOf([x, y, z], k) == TimesOf([x], k) + TimesOf([y], k) + TimesOf([z], k)
    {
      TimesConcat([x] + [y], [z], k);
      TimesConcat([x], [y], k);
    }
    OneTime(x);
    OneTime(y);
    OneTime(z);
  }

  lemma TwoMin(x: Instant, y: Instant)
    ensures RunningMin([x]) == x && RunningMin([x, y]) == if x == 0 || y < x then y else x
  {
    assert [x][..0] == [] && RunningMin([x]) == x;
    var both := [x, y];
    assert both[..|both| - 1] == [x];
  }

  /** Events in an order that loses the pickup: with the unset start last there is none. */
  lemma UnsetStartLosesPickup()
    ensures
      var early, late, answer :=
        CelEvent(0, "CHAN_START"), CelEvent(5 * SECOND, "CHAN_START"), CelEvent(7 * SECOND, "ANSWER");
      Pickup([early, late, answer]) == Some(2) && Pickup([late, early, answer]) == None
  {
    var early, late, answer :=
      CelEvent(0, "CHAN_START"), CelEvent(5 * SECOND, "CHAN_START"), CelEvent(7 * SECOND, "ANSWER");
    ThreeTimes(early, late, answer);
    ThreeTimes(late, early, answer);
    TwoMin(0, 5 * SECOND);
    TwoMin(5 * SECOND, 0);
    TwoMin(7 * SECOND, 0);
  }

  /** The same legs and events in another order give the same disposition, duration, billsec
      and, where it is fixed, pickup; and the disposition is the list query's. */
  lemma {:induction false} SummaryIgnoresOrder(
    s: CallSummary, legs: seq<CallLeg>, timeline: seq<CelEvent>,
    s': CallSummary, legs': seq<CallLeg>, timeline': seq<CelEvent>)
    requires legs != [] && legs' != [] && Summarizes(s, legs, timeline) && Summarizes(s', legs', timeline')
    requires multiset(legs) == multiset(legs') && multiset(timeline) == multiset(timeline')
    ensures s.disposition == s'.disposition == CaseDisposition(legs)
    ensures s.duration == s'.duration && s.billsec == s'.billsec
    ensures PickupFixed(TimesOf(timeline, "CHAN_START"), TimesOf(timeline, "ANSWER")) ==> s.pickup == s'.pickup
  {
    hide SumIf, IsTop, Pickup, PickupFixed, InferDirection, ExtractExtension, FirstExtension;
    SumIfPermutes(legs, legs', RealAnswered);
    SumIfPermutes(legs, legs', IsBusy);
    SumIfPermutes(legs, legs', IsFailed);
    TopPermutes(s.duration, s'.duration, legs, legs', AnyLeg, DurationOf);
    TopPermutes(s.billsec, s'.billsec, legs, legs', RealAnswered, BillsecOf);
    if PickupFixed(TimesOf(timeline, "CHAN_START"), TimesOf(timeline, "ANSWER")) {
      FixedStays(timeline, timeline');
    }
  }
}
