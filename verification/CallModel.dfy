/** What the live call registry stores, and what one step of it does, as values.
    The registry class is proved against this module; the run theorems are about it. */
module CallModel {
  import opened Basics
  import opened StableSort

  /** The zero instant is the source's "not set" sentinel. */
  const ZERO_TIME: Time := 0

  datatype Channel = Channel(
    uniqueid: string, linkedid: string, channel: string,
    channelState: string, channelStateDesc: string,
    callerIdNum: string, callerIdName: string,
    connectedLineNum: string, connectedLineName: string,
    exten: string, context: string, bridgeId: string,
    createdAt: Time, updatedAt: Time)

  datatype Call = Call(linkedid: string, channels: seq<Channel>, startedAt: Time, updatedAt: Time, bridged: bool)

  /** Started and Updated carry the call's new view, Ended its final state. */
  datatype Event = Started(call: Call, at: Time) | Updated(call: Call, at: Time) | Ended(call: Call, at: Time)

  /** The two indexes: Uniqueid to channel, and Linkedid to its Uniqueids in order of arrival. */
  datatype State = State(channels: map<string, Channel>, byCall: map<string, seq<string>>)

  const EMPTY := State(map[], map[])

  datatype Op =
    | Newchannel(c: Channel)
    | Newstate(uniqueid: string, state: string, stateDesc: string)
    | CallerID(uniqueid: string, num: string, name: string)
    | ConnectedLine(uniqueid: string, num: string, name: string)
    | Extension(uniqueid: string, exten: string, context: string)
    | BridgeEnter(uniqueid: string, bridgeId: string)
    | BridgeLeave(uniqueid: string)
    | Hangup(uniqueid: string)
    | Reset

  datatype Outcome = Outcome(st: State, ev: Option<Event>)

  // ---- The roll-up view of a call ----

  function CreatedAt(c: Channel): int { c.createdAt }

  function StartedAt(c: Call): int { c.startedAt }

  /** The channels a list of Uniqueids names, skipping the names of none. */
  function Lookup(channels: map<string, Channel>, uids: seq<string>): seq<Channel> {
    if uids == [] then []
    else
      var u := uids[|uids| - 1];
      Lookup(channels, uids[..|uids| - 1]) + if u in channels then [channels[u]] else []
  }

  function Members(st: State, l: string): seq<Channel> {
    if l in st.byCall then Lookup(st.channels, st.byCall[l]) else []
  }

  function Earliest(s: seq<Channel>): Time
    requires s != []
  {
    var c := s[|s| - 1].createdAt;
    if |s| == 1 then c else
      var rest := Earliest(s[..|s| - 1]);
      if c < rest then c else rest
  }

  function Latest(s: seq<Channel>): Time
    requires s != []
  {
    var c := s[|s| - 1].updatedAt;
    if |s| == 1 then c else
      var rest := Latest(s[..|s| - 1]);
      if c > rest then c else rest
  }

  predicate SharedBridge(s: seq<Channel>) {
    exists i, j :: 0 <= i < j < |s| && s[i].bridgeId != "" && s[i].bridgeId == s[j].bridgeId
  }

  function CallOf(l: string, members: seq<Channel>): Call
    requires members != []
  {
    Call(l, Sort(members, CreatedAt), Earliest(members), Latest(members), SharedBridge(members))
  }

  /** The call a Linkedid stands for now, if any of its channels is live. */
  function View(st: State, l: string): Option<Call> {
    if Members(st, l) == [] then None else Some(CallOf(l, Members(st, l)))
  }

  // ---- One step ----

  /** Asterisk's ways to say "no value". */
  predicate IsSentinel(s: string) { s in {"<unknown>", "<no name>", "<not provided>"} }

  function NormaliseUnknown(s: string): string {
    if IsSentinel(s) then "" else s
  }

  /** The given value if there is one, else the present one. */
  function Keep(given: string, present: string): string {
    if given != "" then given else present
  }

  /** What an operation on a known channel writes, apart from the update time. */
  function Edit(op: Op, ch: Channel): Channel {
    match op
    case Newstate(_, state, desc) =>
      ch.(channelState := Keep(state, ch.channelState), channelStateDesc := Keep(desc, ch.channelStateDesc))
    case CallerID(_, num, name) =>
      ch.(callerIdNum := Keep(NormaliseUnknown(num), ch.callerIdNum),
          callerIdName := Keep(NormaliseUnknown(name), ch.callerIdName))
    case ConnectedLine(_, num, name) =>
      ch.(connectedLineNum := Keep(NormaliseUnknown(num), ch.connectedLineNum),
          connectedLineName := Keep(NormaliseUnknown(name), ch.connectedLineName))
    case Extension(_, exten, context) =>
      ch.(exten := Keep(exten, ch.exten), context := Keep(context, ch.context))
    case BridgeEnter(_, bridgeId) => ch.(bridgeId := bridgeId)
    case BridgeLeave(_) => ch.(bridgeId := "")
    case _ => ch
  }

  /** A new channel as stored: times set, and its own Uniqueid where it names no call. */
  function Stamp(c: Channel, now: Time): Channel {
    c.(createdAt := if c.createdAt == ZERO_TIME then now else c.createdAt,
       updatedAt := now,
       linkedid := Keep(c.linkedid, c.uniqueid))
  }

  function ListOf(byCall: map<string, seq<string>>, l: string): seq<string> {
    if l in byCall then byCall[l] else []
  }

  function Register(st: State, c: Channel): State {
    State(st.channels[c.uniqueid := c],
          if c.uniqueid in ListOf(st.byCall, c.linkedid) then st.byCall
          else st.byCall[c.linkedid := ListOf(st.byCall, c.linkedid) + [c.uniqueid]])
  }

  /** Takes a live channel out of both indexes. */
  function Remove(st: State, u: string): State
    requires u in st.channels
  {
    var l := st.channels[u].linkedid;
    var list := RemoveFirst(ListOf(st.byCall, l), u);
    State(st.channels - {u}, if list == [] then st.byCall - {l} else st.byCall[l := list])
  }

  function UpdateOf(st: State, l: string, now: Time): Option<Event> {
    match View(st, l)
    case None => None
    case Some(call) => Some(Updated(call, now))
  }

  function NewchannelStep(st: State, c: Channel, now: Time): Outcome {
    if c.uniqueid == "" then Outcome(st, None)
    else
      var c' := Stamp(c, now);
      var st' := Register(st, c');
      match View(st', c'.linkedid)
      case None => Outcome(st', None)
      case Some(call) =>
        if c.uniqueid in st.channels || |call.channels| > 1 then Outcome(st', Some(Updated(call, now)))
        else Outcome(st', Some(Started(call, now)))
  }

  function HangupStep(st: State, u: string, now: Time): Outcome {
    if u == "" || u !in st.channels then Outcome(st, None)
    else
      var ch := st.channels[u];
      var st' := Remove(st, u);
      if ListOf(st'.byCall, ch.linkedid) == [] then
        Outcome(st', Some(Ended(Call(ch.linkedid, [ch], ch.createdAt, now, false), now)))
      else
        Outcome(st', UpdateOf(st', ch.linkedid, now))
  }

  function EditStep(st: State, op: Op, u: string, now: Time): Outcome {
    if u == "" || u !in st.channels then Outcome(st, None)
    else
      var ch := Edit(op, st.channels[u]).(updatedAt := now);
      var st' := st.(channels := st.channels[u := ch]);
      Outcome(st', UpdateOf(st', ch.linkedid, now))
  }

  function Step(st: State, op: Op, now: Time): Outcome {
    match op
    case Reset => Outcome(EMPTY, None)
    case Newchannel(c) => NewchannelStep(st, c, now)
    case Hangup(u) => HangupStep(st, u, now)
    case _ => EditStep(st, op, op.uniqueid, now)
  }

  // ---- What every state satisfies ----

  ghost predicate WellKeyed(st: State) {
    forall u :: u in st.channels ==>
      var ch := st.channels[u];
      u != "" && ch.uniqueid == u && ch.linkedid != "" && ch.createdAt != ZERO_TIME && ch.updatedAt > ZERO_TIME
  }

  ghost predicate ProperLists(st: State) {
    forall l :: l in st.byCall ==> st.byCall[l] != [] && NoDup(st.byCall[l])
  }

  /** Every live channel is listed once, under the Linkedid it has now; no list is empty. */
  ghost predicate Listed(st: State) {
    && ProperLists(st)
    && (forall u :: u in st.channels ==> u in ListOf(st.byCall, st.channels[u].linkedid))
  }

  ghost predicate Sound(st: State) {
    WellKeyed(st) && Listed(st)
  }

  /** A Linkedid's list names exactly the live channels with that Linkedid. */
  ghost predicate AgreesAt(st: State, l: string) {
    forall u :: u in ListOf(st.byCall, l) <==> u in st.channels && st.channels[u].linkedid == l
  }

  /** The two indexes say the same. */
  ghost predicate IndexAgrees(st: State) {
    ProperLists(st) && forall l :: AgreesAt(st, l)
  }

  /** The calls a snapshot would show, by Linkedid. */
  function SnapMap(st: State): map<string, Call> {
    map l | l in st.byCall && View(st, l).Some? :: View(st, l).value
  }
}
