/** The registration event log and its two questions: was one endpoint registered at an
    instant, and which endpoints were. */
module Registrations {
  import opened Basics

  datatype RegEvent = RegEvent(
    eventTime: Time, endpoint: string, contactUri: string, status: string,
    userAgent: string, viaAddress: string, regExpire: Option<Time>)

  datatype StatusAt = StatusAt(endpoint: string, registered: bool, status: string, lastEvent: Option<RegEvent>)

  datatype RegisteredEndpoint = RegisteredEndpoint(
    endpoint: string, contactUri: string, userAgent: string, viaAddress: string,
    status: string, lastEventTime: Time, regExpire: Option<Time>)

  /** Rows are only appended; a row's id is its position. */
  type Log = seq<RegEvent>

  /** The statuses that imply a usable contact, as the point query asks the event. */
  predicate IsRegistered(status: string) {
    status == "Created" || status == "Reachable" || status == "Updated" || status == "Unqualified"
  }

  /** The same, as the set query lists them. */
  predicate InStatusList(status: string) {
    status in {"Created", "Updated", "Reachable", "Unqualified"}
  }

  /** The two lists name the same statuses, and none that says the contact is gone. */
  lemma StatusListsAgree(status: string)
    ensures InStatusList(status) <==> IsRegistered(status)
    ensures status in {"Removed", "Unreachable", "Unknown", ""} ==> !IsRegistered(status)
  {
  }

  // ---- The point query ----

  predicate Counts(log: Log, endpoint: string, at: Time, i: nat) {
    i < |log| && log[i].endpoint == endpoint && log[i].eventTime <= at
  }

  /** ORDER BY event_time DESC, id DESC LIMIT 1 over an endpoint's events up to an instant. */
  function Latest(log: Log, endpoint: string, at: Time): (r: Option<nat>)
    ensures r.Some? ==> r.value < |log| && Counts(log, endpoint, at, r.value)
    ensures r.None? ==> forall i :: 0 <= i < |log| ==> !Counts(log, endpoint, at, i)
    ensures r.Some? ==> forall i :: 0 <= i < |log| && Counts(log, endpoint, at, i) ==>
      log[i].eventTime < log[r.value].eventTime || (log[i].eventTime == log[r.value].eventTime && i <= r.value)
  {
    if log == [] then None
    else
      var n := |log| - 1;
      var before := Latest(log[..n], endpoint, at);
      assert forall i :: 0 <= i < n ==> Counts(log[..n], endpoint, at, i) == Counts(log, endpoint, at, i);
      if Counts(log, endpoint, at, n) && (before.None? || log[before.value].eventTime <= log[n].eventTime)
      then Some(n) else before
  }

  function GetStatusAt(log: Log, endpoint: string, at: Time): Result<StatusAt> {
    if endpoint == "" then Err("endpoint is required")
    else
      match Latest(log, endpoint, at)
      case None => Ok(StatusAt(endpoint, false, "", None))
      case Some(i) =>
        var e := log[i];
        var lapsed := e.regExpire.Some? && e.regExpire.value < at;
        Ok(StatusAt(endpoint, IsRegistered(e.status) && !lapsed, e.status, Some(e)))
  }

  // ---- The set query ----

  /** The join with the grouped maximum of the event times. */
  ghost predicate AtLatestInstant(log: Log, at: Time, i: nat) {
    && i < |log| && log[i].eventTime <= at
    && forall j :: 0 <= j < |log| && Counts(log, log[i].endpoint, at, j) ==> log[j].eventTime <= log[i].eventTime
  }

  /** The row is at its endpoint's latest instant, registered, and not expired. */
  ghost predicate IsListed(log: Log, at: Time, i: nat) {
    && AtLatestInstant(log, at, i)
    && InStatusList(log[i].status) && (log[i].regExpire.None? || log[i].regExpire.value > at)
  }

  function RowOf(e: RegEvent): RegisteredEndpoint {
    RegisteredEndpoint(e.endpoint, e.contactUri, e.userAgent, e.viaAddress, e.status, e.eventTime, e.regExpire)
  }

  /** The rows of the first n events that are listed; the query's final sort is not modelled. */
  ghost function ListedRows(log: Log, at: Time, n: nat): seq<RegisteredEndpoint>
    requires n <= |log|
  {
    if n == 0 then []
    else ListedRows(log, at, n - 1) + if IsListed(log, at, n - 1) then [RowOf(log[n - 1])] else []
  }

  ghost function ListRegisteredAt(log: Log, at: Time): seq<RegisteredEndpoint> {
    ListedRows(log, at, |log|)
  }

  /** How often an endpoint is in an answer. */
  function Appearances(rows: seq<RegisteredEndpoint>, endpoint: string): nat {
    if rows == [] then 0
    else Appearances(rows[..|rows| - 1], endpoint) + if rows[|rows| - 1].endpoint == endpoint then 1 else 0
  }

  lemma {:induction false} AppearancesConcat(a: seq<RegisteredEndpoint>, b: seq<RegisteredEndpoint>, endpoint: string)
    ensures Appearances(a + b, endpoint) == Appearances(a, endpoint) + Appearances(b, endpoint)
  {
    if b == [] {
      assert a + b == a;
    } else {
      assert (a + b)[..|a + b| - 1] == a + b[..|b| - 1];
      AppearancesConcat(a, b[..|b| - 1], endpoint);
    }
  }

  // ---- The answers in terms of the log ----

  /** The point query in full: an error without an endpoint, nothing without an event; else the status
      and the event are those of the latest, and the endpoint is registered if the status says so and
      it has not lapsed. */
  lemma PointMeaning(log: Log, endpoint: string, at: Time)
    ensures endpoint == "" <==> GetStatusAt(log, endpoint, at).Err?
    ensures endpoint != "" ==>
      var w, point := Latest(log, endpoint, at), GetStatusAt(log, endpoint, at).value;
      && point.endpoint == endpoint
      && (w.None? ==> !point.registered && point.status == "" && point.lastEvent.None?)
      && (w.Some? ==>
            && point.status == log[w.value].status && point.lastEvent == Some(log[w.value])
            && (point.registered <==>
                  && log[w.value].status in {"Created", "Updated", "Reachable", "Unqualified"}
                  && (log[w.value].regExpire.Some? ==> log[w.value].regExpire.value >= at)))
  {
  }

  /** An event as the set query's row shows it. */
  ghost predicate Shows(r: RegisteredEndpoint, e: RegEvent) {
    && r.endpoint == e.endpoint && r.contactUri == e.contactUri && r.userAgent == e.userAgent
    && r.viaAddress == e.viaAddress && r.status == e.status && r.lastEventTime == e.eventTime
    && r.regExpire == e.regExpire
  }

  /** An event that is among its endpoint's latest, of a registered status, and not yet expired. */
  ghost predicate Current(log: Log, at: Time, i: nat) {
    && i < |log| && log[i].eventTime <= at
    && log[i].status in {"Created", "Updated", "Reachable", "Unqualified"}
    && (log[i].regExpire.Some? ==> log[i].regExpire.value > at)
    && forall j :: 0 <= j < |log| && log[j].endpoint == log[i].endpoint && log[j].eventTime <= at ==>
         log[j].eventTime <= log[i].eventTime
  }

  lemma CurrentIsListed(log: Log, at: Time, i: nat)
    ensures IsListed(log, at, i) <==> Current(log, at, i)
  {
    if i < |log| {
      assert forall j :: 0 <= j < |log| ==>
        (Counts(log, log[i].endpoint, at, j) <==> log[j].endpoint == log[i].endpoint && log[j].eventTime <= at);
    }
  }

  /** Rows that show exactly the current ones of the first n events, one each, in the log's order. */
  ghost predicate Answers(rows: seq<RegisteredEndpoint>, from: seq<nat>, log: Log, at: Time, n: nat)
    requires n <= |log|
  {
    && |from| == |rows| && (forall i, j :: 0 <= i < j < |from| ==> from[i] < from[j])
    && (forall k: nat :: k in from <==> k < n && Current(log, at, k))
    && forall i :: 0 <= i < |from| ==> from[i] < n && Shows(rows[i], log[from[i]])
  }

  lemma AnswersMore(rows: seq<RegisteredEndpoint>, from: seq<nat>, log: Log, at: Time, n: nat)
    requires n < |log| && Answers(rows, from, log, at, n)
    ensures !Current(log, at, n) ==> Answers(rows, from, log, at, n + 1)
    ensures Current(log, at, n) ==> Answers(rows + [RowOf(log[n])], from + [n], log, at, n + 1)
  {
    hide Current;
    assert Shows(RowOf(log[n]), log[n]);
  }

  lemma {:induction false} ListedRowsAre(log: Log, at: Time, n: nat) returns (from: seq<nat>)
    requires n <= |log|
    ensures Answers(ListedRows(log, at, n), from, log, at, n)
  {
    hide IsListed, Current;
    if n == 0 {
      from := [];
    } else {
      hide Answers;
      from := ListedRowsAre(log, at, n - 1);
      CurrentIsListed(log, at, n - 1);
      AnswersMore(ListedRows(log, at, n - 1), from, log, at, n - 1);
      if IsListed(log, at, n - 1) {
        from := from + [n - 1];
      } else {
        assert ListedRows(log, at, n - 1) + [] == ListedRows(log, at, n - 1);
      }
    }
  }

  /** The set query in full: its rows show exactly the current events, one each, in the log's order. */
  lemma SetMeaning(log: Log, at: Time) returns (from: seq<nat>)
    ensures Answers(ListRegisteredAt(log, at), from, log, at, |log|)
  {
    hide Answers, ListedRows;
    from := ListedRowsAre(log, at, |log|);
  }

  // ---- Agreement ----

  /** The endpoint's listed events among the first n, leaving one out. */
  ghost function OthersListed(log: Log, endpoint: string, at: Time, latest: nat, n: nat): nat
    requires n <= |log|
  {
    if n == 0 then 0
    else
      var here := n - 1 != latest && log[n - 1].endpoint == endpoint && IsListed(log, at, n - 1);
      OthersListed(log, endpoint, at, latest, n - 1) + if here then 1 else 0
  }

  lemma {:induction false} AppearancesSplit(log: Log, endpoint: string, at: Time, latest: nat, n: nat)
    requires n <= |log| && latest < |log| && log[latest].endpoint == endpoint
    ensures Appearances(ListedRows(log, at, n), endpoint) ==
      OthersListed(log, endpoint, at, latest, n) + if latest < n && IsListed(log, at, latest) then 1 else 0
  {
    hide IsListed;
    if n == 0 {
    } else {
      AppearancesSplit(log, endpoint, at, latest, n - 1);
      var last := if IsListed(log, at, n - 1) then [RowOf(log[n - 1])] else [];
      AppearancesConcat(ListedRows(log, at, n - 1), last, endpoint);
      assert last != [] ==> last[..0] == [];
    }
  }

  lemma {:induction false} NoneListed(log: Log, endpoint: string, at: Time, n: nat)
    requires n <= |log| && forall i :: 0 <= i < |log| ==> !Counts(log, endpoint, at, i)
    ensures Appearances(ListedRows(log, at, n), endpoint) == 0
  {
    if n == 0 {
    } else {
      NoneListed(log, endpoint, at, n - 1);
      var last := if IsListed(log, at, n - 1) then [RowOf(log[n - 1])] else [];
      AppearancesConcat(ListedRows(log, at, n - 1), last, endpoint);
      assert !Counts(log, endpoint, at, n - 1);
      assert last != [] ==> last[..0] == [];
    }
  }

  /** The latest event is of a registered kind and expires at the very instant asked about: the
      point query still counts it, the set query no longer does. */
  predicate ExpiresJustNow(e: RegEvent, at: Time) {
    IsRegistered(e.status) && e.regExpire == Some(at)
  }

  /** For every log: an endpoint appears once if the point query says registered and not at all
      otherwise, exactly if no other event of its latest instant is listed beside the one with
      the highest id, or, where that one expires at the very instant, exactly one other is. */
  lemma QueriesAgreeExactly(log: Log, endpoint: string, at: Time)
    requires endpoint != ""
    ensures
      var appears := Appearances(ListRegisteredAt(log, at), endpoint);
      var point := GetStatusAt(log, endpoint, at).value;
      var w := Latest(log, endpoint, at);
      (appears == if point.registered then 1 else 0) <==>
      w.None? ||
      OthersListed(log, endpoint, at, w.value, |log|) == if ExpiresJustNow(log[w.value], at) then 1 else 0
  {
    hide ListedRows, Appearances, OthersListed;
    match Latest(log, endpoint, at)
    case None => NoneListed(log, endpoint, at, |log|);
    case Some(w) =>
      AppearancesSplit(log, endpoint, at, w, |log|);
      assert AtLatestInstant(log, at, w);
  }

  /** The endpoint has no two events at one instant. */
  ghost predicate NoTies(log: Log, endpoint: string) {
    forall i, j :: 0 <= i < j < |log| && log[i].endpoint == endpoint == log[j].endpoint ==>
      log[i].eventTime != log[j].eventTime
  }

  lemma {:induction false} NoOthers(log: Log, endpoint: string, at: Time, latest: nat, n: nat)
    requires NoTies(log, endpoint) && n <= |log| && Latest(log, endpoint, at) == Some(latest)
    ensures OthersListed(log, endpoint, at, latest, n) == 0
  {
    if n == 0 {
    } else {
      NoOthers(log, endpoint, at, latest, n - 1);
      if log[n - 1].endpoint == endpoint && IsListed(log, at, n - 1) {
        assert Counts(log, endpoint, at, n - 1) && Counts(log, endpoint, at, latest);
      }
    }
  }

  /** Without events of the endpoint at one instant, the queries agree exactly if its latest
      event does not expire at the very instant asked about. */
  lemma QueriesAgreeWithoutTies(log: Log, endpoint: string, at: Time)
    requires endpoint != "" && NoTies(log, endpoint)
    ensures
      var appears := Appearances(ListRegisteredAt(log, at), endpoint);
      var point := GetStatusAt(log, endpoint, at).value;
      (appears == if point.registered then 1 else 0) <==>
      !(point.lastEvent.Some? && ExpiresJustNow(point.lastEvent.value, at))
  {
    hide ListedRows, Appearances, OthersListed, ListRegisteredAt;
    QueriesAgreeExactly(log, endpoint, at);
    if Latest(log, endpoint, at).Some? {
      NoOthers(log, endpoint, at, Latest(log, endpoint, at).value, |log|);
    }
  }

  /** Such an event: at the very instant of its expiry the point query says registered and the set
      query lists nothing. */
  lemma ExpiryDiffers()
    ensures
      var log := [RegEvent(1, "45", "", "Reachable", "", "", Some(9))];
      GetStatusAt(log, "45", 9).value.registered && ListRegisteredAt(log, 9) == []
  {
    var log := [RegEvent(1, "45", "", "Reachable", "", "", Some(9))];
    assert Counts(log, "45", 9, 0);
    assert !IsListed(log, 9, 0);
    assert ListedRows(log, 9, 0) == [] && ListedRows(log, 9, 1) == [];
  }
}
