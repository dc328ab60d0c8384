/** What each operation of the registry does to the channels, the lists and the views, told from
    the state before and after the step. */
module StepEffects {
  import opened Basics
  import opened CallModel
  import opened CallViews

  // ---- Edits ----

  /** A caller or connected-line value that says nothing. */
  ghost predicate NoValue(s: string) {
    s in {"", "<unknown>", "<no name>", "<not provided>"}
  }

  /** A field keeps its value if none is given, and takes the given one otherwise. */
  ghost predicate Takes(was: string, got: string, given: string, none: bool) {
    got == if none then was else given
  }

  lemma OnlySentinelsDropped(s: string)
    ensures NormaliseUnknown(s) == if NoValue(s) then "" else s
    ensures NormaliseUnknown(s) == "" <==> NoValue(s)
  {
  }

  /** Both indexes are as before but for one channel's value. */
  ghost predicate OnlyChanged(st: State, st': State, u: string) {
    && st'.byCall == st.byCall && st'.channels.Keys == st.channels.Keys
    && forall v :: v in st.channels && v != u ==> st'.channels[v] == st.channels[v]
  }

  predicate IsEdit(op: Op) {
    !op.Reset? && !op.Newchannel? && !op.Hangup?
  }

  /** An edit writes the values it is given into exactly its own fields of the one channel it names,
      and the time of the update; the bridge is always written, other empty values never. */
  lemma EditWrites(st: State, op: Op, now: Time)
    requires IsEdit(op) && op.uniqueid != "" && op.uniqueid in st.channels
    ensures
      var st', u := Step(st, op, now).st, op.uniqueid;
      && OnlyChanged(st, st', u)
      && var was, got := st.channels[u], st'.channels[u];
      && match op
         case Newstate(_, state, desc) =>
           && Takes(was.channelState, got.channelState, state, state == "")
           && Takes(was.channelStateDesc, got.channelStateDesc, desc, desc == "")
           && got == was.(channelState := got.channelState, channelStateDesc := got.channelStateDesc, updatedAt := now)
         case CallerID(_, num, name) =>
           && Takes(was.callerIdNum, got.callerIdNum, num, NoValue(num))
           && Takes(was.callerIdName, got.callerIdName, name, NoValue(name))
           && got == was.(callerIdNum := got.callerIdNum, callerIdName := got.callerIdName, updatedAt := now)
         case ConnectedLine(_, num, name) =>
           && Takes(was.connectedLineNum, got.connectedLineNum, num, NoValue(num))
           && Takes(was.connectedLineName, got.connectedLineName, name, NoValue(name))
           && got == was.(connectedLineNum := got.connectedLineNum,
                         connectedLineName := got.connectedLineName, updatedAt := now)
         case Extension(_, exten, context) =>
           && Takes(was.exten, got.exten, exten, exten == "")
           && Takes(was.context, got.context, context, context == "")
           && got == was.(exten := got.exten, context := got.context, updatedAt := now)
         case BridgeEnter(_, bridgeId) => got == was.(bridgeId := bridgeId, updatedAt := now)
         case BridgeLeave(_) => got == was.(bridgeId := "", updatedAt := now)
         case _ => false
  {
    hide View, NormaliseUnknown, NoValue;
    match op
    case CallerID(_, num, name) => OnlySentinelsDropped(num); OnlySentinelsDropped(name);
    case ConnectedLine(_, num, name) => OnlySentinelsDropped(num); OnlySentinelsDropped(name);
    case _ =>
  }

  lemma KeyedAndListed(st: State, u: string)
    requires Sound(st) && u in st.channels
    ensures u != "" && st.channels[u].uniqueid == u && u in ListOf(st.byCall, st.channels[u].linkedid)
  {
  }

  /** An edit of a live channel is announced with the new view of its call. */
  lemma EditAnnounces(st: State, op: Op, now: Time)
    requires Sound(st) && IsEdit(op) && op.uniqueid in st.channels && now > ZERO_TIME
    ensures
      var out, l := Step(st, op, now), st.channels[op.uniqueid].linkedid;
      && View(out.st, l).Some? && out.ev == Some(Updated(View(out.st, l).value, now))
  {
    hide View, Edit, Sound;
    var u := op.uniqueid;
    assert u != "" && u in ListOf(st.byCall, st.channels[u].linkedid) by { KeyedAndListed(st, u); }
    EditKeeps(op, st.channels[u]);
    ViewExists(Step(st, op, now).st, st.channels[u].linkedid);
  }

  /** An operation on a Uniqueid that is not live does nothing at all. */
  lemma DeadIgnored(st: State, op: Op, now: Time)
    requires !op.Reset? && !op.Newchannel? && op.uniqueid !in st.channels
    ensures Step(st, op, now) == Outcome(st, None)
  {
  }

  // ---- Bridges ----

  /** Two live channels of a call are in one bridge. */
  ghost predicate ShareBridge(st: State, l: string, u: string, v: string) {
    && u in st.channels && v in st.channels && u != v
    && st.channels[u].linkedid == l == st.channels[v].linkedid
    && st.channels[u].bridgeId == st.channels[v].bridgeId != ""
  }

  lemma MemberAt(st: State, u: string) returns (i: nat)
    requires Sound(st) && u in st.channels
    ensures i < |Members(st, st.channels[u].linkedid)|
    ensures Members(st, st.channels[u].linkedid)[i] == st.channels[u]
  {
    var list := ListOf(st.byCall, st.channels[u].linkedid);
    KeyedAndListed(st, u);
    LookupMember(st.channels, list, st.channels[u]);
    i :| 0 <= i < |Members(st, st.channels[u].linkedid)| && Members(st, st.channels[u].linkedid)[i] == st.channels[u];
  }

  /** Channels of one call in one bridge make it bridged, whether or not the indexes agree. */
  lemma SharingIsBridged(st: State, l: string, u: string, v: string)
    requires Sound(st) && ShareBridge(st, l, u, v)
    ensures View(st, l).Some? && View(st, l).value.bridged
  {
    hide View;
    var i := MemberAt(st, u);
    var j := MemberAt(st, v);
    KeyedAndListed(st, u);
    KeyedAndListed(st, v);
    ViewExists(st, l);
    ViewMeaning(st, l);
    var m := Members(st, l);
    assert m[i] != m[j];
    assert if i < j then m[i].bridgeId == m[j].bridgeId != "" else m[j].bridgeId == m[i].bridgeId != "";
  }

  /** With agreeing indexes a call is shown as bridged exactly if two of its live channels are in
      one bridge. */
  lemma BridgedExactly(st: State, l: string)
    requires Sound(st) && IndexAgrees(st)
    ensures View(st, l).Some? && View(st, l).value.bridged <==> exists u, v :: ShareBridge(st, l, u, v)
  {
    hide View, Sound, IndexAgrees;
    if View(st, l).Some? && View(st, l).value.bridged {
      ViewMeaning(st, l);
      var m := Members(st, l);
      var i, j :| 0 <= i < j < |m| && m[i].bridgeId == m[j].bridgeId != "";
      MembersExact(st, l, m[i]);
      MembersExact(st, l, m[j]);
      assert m[i] != m[j];
      assert ShareBridge(st, l, m[i].uniqueid, m[j].uniqueid);
    }
    if u, v :| ShareBridge(st, l, u, v) {
      SharingIsBridged(st, l, u, v);
    }
  }

  /** Two live channels of a call that enter one bridge, one after the other: the call is then
      shown, and announced, as bridged. */
  lemma MeetInBridge(st: State, u: string, v: string, b: string, now: Time, now': Time)
    requires Sound(st) && u in st.channels && v in st.channels && u != v && b != ""
    requires st.channels[u].linkedid == st.channels[v].linkedid && now > ZERO_TIME && now' > ZERO_TIME
    ensures
      var out, l := Step(Step(st, BridgeEnter(u, b), now).st, BridgeEnter(v, b), now'), st.channels[u].linkedid;
      && View(out.st, l).Some? && View(out.st, l).value.bridged
      && out.ev == Some(Updated(View(out.st, l).value, now'))
  {
    hide View, Step, Sound;
    var mid := Step(st, BridgeEnter(u, b), now).st;
    KeyedAndListed(st, u);
    KeyedAndListed(st, v);
    StepKeepsSound(st, BridgeEnter(u, b), now);
    EditWrites(st, BridgeEnter(u, b), now);
    StepKeepsSound(mid, BridgeEnter(v, b), now');
    EditWrites(mid, BridgeEnter(v, b), now');
    EditAnnounces(mid, BridgeEnter(v, b), now');
    SharingIsBridged(Step(mid, BridgeEnter(v, b), now').st, st.channels[u].linkedid, u, v);
  }

  /** A channel that every shared bridge of its call needs leaves: the call is then shown, and
      announced, as not bridged. */
  lemma PartFromBridge(st: State, u: string, now: Time)
    requires Sound(st) && IndexAgrees(st) && u in st.channels && now > ZERO_TIME
    requires forall v, w :: ShareBridge(st, st.channels[u].linkedid, v, w) ==> u in {v, w}
    ensures
      var out, l := Step(st, BridgeLeave(u), now), st.channels[u].linkedid;
      && View(out.st, l).Some? && !View(out.st, l).value.bridged
      && out.ev == Some(Updated(View(out.st, l).value, now))
  {
    hide View, Step, Sound, IndexAgrees;
    var st', l := Step(st, BridgeLeave(u), now).st, st.channels[u].linkedid;
    KeyedAndListed(st, u);
    StepKeepsSound(st, BridgeLeave(u), now);
    StepKeepsAgreement(st, BridgeLeave(u), now);
    EditWrites(st, BridgeLeave(u), now);
    EditAnnounces(st, BridgeLeave(u), now);
    BridgedExactly(st', l);
    forall v, w
      ensures ShareBridge(st', l, v, w) ==> ShareBridge(st, l, v, w) && u !in {v, w}
    {
    }
  }

  // ---- Arrivals and departures ----

  /** An announced channel is stored as it is told, dated now where it carries no creation time and
      under its own Uniqueid where it names no call, and is listed once for its call. */
  lemma NewchannelStores(st: State, c: Channel, now: Time)
    requires c.uniqueid != ""
    ensures
      var st', u := Step(st, Newchannel(c), now).st, c.uniqueid;
      && u in st'.channels
      && var got := st'.channels[u];
      && st'.channels == st.channels[u := got]
      && got == c.(createdAt := got.createdAt, updatedAt := now, linkedid := got.linkedid)
      && got.createdAt == (if c.createdAt == 0 then now else c.createdAt)
      && got.linkedid == (if c.linkedid == "" then u else c.linkedid)
      && ListOf(st'.byCall, got.linkedid) == ListOf(st.byCall, got.linkedid) +
           (if u in ListOf(st.byCall, got.linkedid) then [] else [u])
      && forall l :: l != got.linkedid ==> ListOf(st'.byCall, l) == ListOf(st.byCall, l)
  {
    hide View;
    var l := if c.linkedid == "" then c.uniqueid else c.linkedid;
    assert ListOf(st.byCall, l) + [] == ListOf(st.byCall, l);
  }

  /** Without a Uniqueid nothing is stored or published. */
  lemma NamelessIgnored(st: State, c: Channel, now: Time)
    requires c.uniqueid == ""
    ensures Step(st, Newchannel(c), now) == Outcome(st, None)
  {
  }

  lemma OtherElement(list: seq<string>, u: string) returns (v: string)
    requires NoDup(list) && u in list && list != [u]
    ensures v in list && v != u
  {
    assert list == [list[0]] + list[1..];
    v := if list[0] == u then list[1] else list[0];
  }

  /** A hangup takes exactly that channel out of both indexes.  The last channel of a call ends it:
      the event carries that channel as it was; otherwise it carries what remains. */
  lemma HangupRemoves(st: State, u: string, now: Time)
    requires Sound(st) && u in st.channels
    ensures
      var out, ch := Step(st, Hangup(u), now), st.channels[u];
      && out.st.channels == st.channels - {u}
      && (forall v :: v in ListOf(out.st.byCall, ch.linkedid) <==> v in ListOf(st.byCall, ch.linkedid) && v != u)
      && (forall l :: l != ch.linkedid ==> ListOf(out.st.byCall, l) == ListOf(st.byCall, l))
      && (ListOf(st.byCall, ch.linkedid) == [u] ==>
            out.ev == Some(Ended(Call(ch.linkedid, [ch], ch.createdAt, now, false), now)))
      && (ListOf(st.byCall, ch.linkedid) != [u] && View(out.st, ch.linkedid).Some? ==>
            out.ev == Some(Updated(View(out.st, ch.linkedid).value, now)))
  {
    hide View;
    var list := ListOf(st.byCall, st.channels[u].linkedid);
    KeyedAndListed(st, u);
    RemoveFirstNoDup(list, u);
    if list != [u] {
      var v := OtherElement(list, u);
      assert v in RemoveFirst(list, u);
    }
  }
}
