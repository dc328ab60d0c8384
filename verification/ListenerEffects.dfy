/** What a message does to the registry, told from its printed headers: through the reader, the
    routing and the step, for every kind of message. */
module ListenerEffects {
  import opened Basics
  import opened Text
  import opened AmiMessage
  import opened AmiProtocol
  import opened AmiListener
  import opened CallModel
  import opened CallViews
  import opened RegistryRuns
  import opened StepEffects

  /** The run after the printed headers have been read and routed. */
  function Served(ins: seq<Input>, headers: Fields, now: Time): seq<Input> {
    ins + Inputs(AllMessages(Encode(headers)), _ => now)
  }

  lemma NothingLeft()
    ensures AllMessages("") == []
  {
  }

  lemma ServedIsRouted(ins: seq<Input>, headers: Fields, now: Time)
    requires AllTrimmed(headers) && headers != []
    ensures Served(ins, headers, now) == ins + Routed(Stored(map[], headers), now)
  {
    hide ReadMapFrom, Encode, Stored, AllTrimmed, Routed;
    var m := Stored(map[], headers);
    ReadMapBack(headers, "", map[], false);
    assert Encode(headers) + "" == Encode(headers);
    NothingLeft();
    assert AllMessages(Encode(headers)) == [m];
    InputsAppend([], m, _ => now);
    NoInputs(_ => now);
    assert [] + [m] == [m] && [] + Routed(m, now) == Routed(m, now);
  }

  /** Lookups in a printed message's map find the last header with the key. */
  lemma Lookups(headers: Fields)
    ensures forall key :: GetIn(Stored(map[], headers), key) == LastValue(headers, key)
  {
    forall key
      ensures GetIn(Stored(map[], headers), key) == LastValue(headers, key)
    {
      GetInStored(headers, key);
    }
  }

  lemma ServedAs(ins: seq<Input>, headers: Fields, now: Time, op: Op)
    requires AllTrimmed(headers) && headers != [] && Route(Stored(map[], headers)) == Some(op)
    ensures After(Served(ins, headers, now)) == Step(After(ins), op, now).st
    ensures Log(Served(ins, headers, now)) == Log(ins) + ToSeq(Step(After(ins), op, now).ev)
  {
    hide Served, Route, AllTrimmed, Step, Stored, After, Log;
    ServedIsRouted(ins, headers, now);
    RoutedStep(ins, Stored(map[], headers), now);
  }

  /** Headers that print an event of a kind about a Uniqueid. */
  ghost predicate Prints(headers: Fields, kind: string, u: string) {
    AllTrimmed(headers) && headers != [] && LastValue(headers, "Event") == kind && LastValue(headers, "Uniqueid") == u
  }

  lemma NewstateMessage(ins: seq<Input>, headers: Fields, now: Time, u: string)
    requires Prints(headers, "Newstate", u) && u != "" && u in After(ins).channels
    ensures
      var st, st' := After(ins), After(Served(ins, headers, now));
      var state, desc := LastValue(headers, "ChannelState"), LastValue(headers, "ChannelStateDesc");
      && OnlyChanged(st, st', u)
      && st'.channels[u] == st.channels[u].(
           channelState := if state == "" then st.channels[u].channelState else state,
           channelStateDesc := if desc == "" then st.channels[u].channelStateDesc else desc,
           updatedAt := now)
  {
    hide LastValue, Stored, GetIn, AllTrimmed, Step, Served, After;
    Lookups(headers);
    var op := Newstate(u, LastValue(headers, "ChannelState"), LastValue(headers, "ChannelStateDesc"));
    ServedAs(ins, headers, now, op);
    EditWrites(After(ins), op, now);
  }

  lemma CallerMessage(ins: seq<Input>, headers: Fields, now: Time, u: string)
    requires Prints(headers, "NewCallerid", u) && u != "" && u in After(ins).channels
    ensures
      var st, st' := After(ins), After(Served(ins, headers, now));
      var num, name := LastValue(headers, "CallerIDNum"), LastValue(headers, "CallerIDName");
      && OnlyChanged(st, st', u)
      && st'.channels[u] == st.channels[u].(
           callerIdNum := if NoValue(num) then st.channels[u].callerIdNum else num,
           callerIdName := if NoValue(name) then st.channels[u].callerIdName else name,
           updatedAt := now)
  {
    hide LastValue, Stored, GetIn, AllTrimmed, Step, Served, After, NoValue;
    Lookups(headers);
    var op := CallerID(u, LastValue(headers, "CallerIDNum"), LastValue(headers, "CallerIDName"));
    ServedAs(ins, headers, now, op);
    EditWrites(After(ins), op, now);
  }

  lemma ConnectedLineMessage(ins: seq<Input>, headers: Fields, now: Time, u: string)
    requires Prints(headers, "NewConnectedLine", u) && u != "" && u in After(ins).channels
    ensures
      var st, st' := After(ins), After(Served(ins, headers, now));
      var num, name := LastValue(headers, "ConnectedLineNum"), LastValue(headers, "ConnectedLineName");
      && OnlyChanged(st, st', u)
      && st'.channels[u] == st.channels[u].(
           connectedLineNum := if NoValue(num) then st.channels[u].connectedLineNum else num,
           connectedLineName := if NoValue(name) then st.channels[u].connectedLineName else name,
           updatedAt := now)
  {
    hide LastValue, Stored, GetIn, AllTrimmed, Step, Served, After, NoValue;
    Lookups(headers);
    var op := ConnectedLine(u, LastValue(headers, "ConnectedLineNum"), LastValue(headers, "ConnectedLineName"));
    ServedAs(ins, headers, now, op);
    EditWrites(After(ins), op, now);
  }

  lemma ExtensionMessage(ins: seq<Input>, headers: Fields, now: Time, u: string)
    requires Prints(headers, "NewExten", u) && u != "" && u in After(ins).channels
    ensures
      var st, st' := After(ins), After(Served(ins, headers, now));
      var exten, context := LastValue(headers, "Extension"), LastValue(headers, "Context");
      && OnlyChanged(st, st', u)
      && st'.channels[u] == st.channels[u].(
           exten := if exten == "" then st.channels[u].exten else exten,
           context := if context == "" then st.channels[u].context else context,
           updatedAt := now)
  {
    hide LastValue, Stored, GetIn, AllTrimmed, Step, Served, After;
    Lookups(headers);
    var op := Extension(u, LastValue(headers, "Extension"), LastValue(headers, "Context"));
    ServedAs(ins, headers, now, op);
    EditWrites(After(ins), op, now);
  }

  /** Entering writes the bridge it names, leaving writes none. */
  lemma BridgeMessage(ins: seq<Input>, headers: Fields, now: Time, u: string)
    requires Prints(headers, "BridgeEnter", u) || Prints(headers, "BridgeLeave", u)
    requires u != "" && u in After(ins).channels
    ensures
      var st, st' := After(ins), After(Served(ins, headers, now));
      var enters := LastValue(headers, "Event") == "BridgeEnter";
      && OnlyChanged(st, st', u)
      && st'.channels[u] == st.channels[u].(
           bridgeId := if enters then LastValue(headers, "BridgeUniqueid") else "", updatedAt := now)
  {
    hide LastValue, Stored, GetIn, AllTrimmed, Step, Served, After;
    Lookups(headers);
    var enters := LastValue(headers, "Event") == "BridgeEnter";
    var op := if enters then BridgeEnter(u, LastValue(headers, "BridgeUniqueid")) else BridgeLeave(u);
    ServedAs(ins, headers, now, op);
    EditWrites(After(ins), op, now);
  }

  /** A hangup takes the channel out; with the last listed channel of its call, the call is gone from
      the snapshot and its end is the next event published. */
  lemma HangupMessage(ins: seq<Input>, headers: Fields, now: Time, u: string)
    requires Timed(ins) && Prints(headers, "Hangup", u) && u in After(ins).channels
    ensures
      var st, st' := After(ins), After(Served(ins, headers, now));
      var ch := st.channels[u];
      && st'.channels == st.channels - {u} && u !in ListOf(st'.byCall, ch.linkedid)
      && (ListOf(st.byCall, ch.linkedid) == [u] ==>
            && View(st', ch.linkedid) == None
            && Log(Served(ins, headers, now)) ==
                 Log(ins) + [Ended(Call(ch.linkedid, [ch], ch.createdAt, now, false), now)])
  {
    hide LastValue, Stored, GetIn, AllTrimmed, Step, Served, After, Log, View, Sound;
    Lookups(headers);
    ServedAs(ins, headers, now, Hangup(u));
    RunSound(ins);
    HangupRemoves(After(ins), u, now);
    ViewExists(After(Served(ins, headers, now)), After(ins).channels[u].linkedid);
  }

  /** The channel says what the headers do, but for its times: sentinels are left out, and its own
      Uniqueid stands in for a missing Linkedid. */
  ghost predicate Tells(headers: Fields, c: Channel) {
    && c.uniqueid == LastValue(headers, "Uniqueid")
    && Takes(c.uniqueid, c.linkedid, LastValue(headers, "Linkedid"), LastValue(headers, "Linkedid") == "")
    && c.channel == LastValue(headers, "Channel") && c.channelState == LastValue(headers, "ChannelState")
    && c.channelStateDesc == LastValue(headers, "ChannelStateDesc")
    && Takes("", c.callerIdNum, LastValue(headers, "CallerIDNum"), NoValue(LastValue(headers, "CallerIDNum")))
    && Takes("", c.callerIdName, LastValue(headers, "CallerIDName"), NoValue(LastValue(headers, "CallerIDName")))
    && Takes("", c.connectedLineNum, LastValue(headers, "ConnectedLineNum"),
             NoValue(LastValue(headers, "ConnectedLineNum")))
    && Takes("", c.connectedLineName, LastValue(headers, "ConnectedLineName"),
             NoValue(LastValue(headers, "ConnectedLineName")))
    && c.exten == LastValue(headers, "Exten") && c.context == LastValue(headers, "Context")
    && c.bridgeId == LastValue(headers, "BridgeUniqueid")
  }

  /** What is stored of a parsed channel tells the headers. */
  lemma ParsedTells(headers: Fields, got: Channel)
    requires
      var c := ParseChannel(Stored(map[], headers));
      got == c.(createdAt := got.createdAt, updatedAt := got.updatedAt,
                linkedid := if c.linkedid == "" then c.uniqueid else c.linkedid)
    ensures Tells(headers, got)
  {
    hide LastValue, Stored, GetIn, NormaliseUnknown, NoValue;
    Lookups(headers);
    OnlySentinelsDropped(LastValue(headers, "CallerIDNum"));
    OnlySentinelsDropped(LastValue(headers, "CallerIDName"));
    OnlySentinelsDropped(LastValue(headers, "ConnectedLineNum"));
    OnlySentinelsDropped(LastValue(headers, "ConnectedLineName"));
  }

  lemma ParsedHas(headers: Fields)
    ensures
      var c := ParseChannel(Stored(map[], headers));
      c.uniqueid == LastValue(headers, "Uniqueid") && c.createdAt == 0
  {
    hide LastValue, Stored, GetIn, NormaliseUnknown;
    Lookups(headers);
  }

  lemma RoutedChannelMessage(headers: Fields, u: string)
    requires Prints(headers, "Newchannel", u) || Prints(headers, "CoreShowChannel", u)
    ensures Route(Stored(map[], headers)) == Some(Newchannel(ParseChannel(Stored(map[], headers))))
  {
    hide LastValue, Stored, GetIn, AllTrimmed, ParseChannel;
    Lookups(headers);
  }

  /** An announcement and a row of the reconcile answer alike store the channel they tell, dated now,
      and the snapshot shows its call. */
  lemma ChannelMessage(ins: seq<Input>, headers: Fields, now: Time, u: string)
    requires Timed(ins) && now > ZERO_TIME && u != ""
    requires Prints(headers, "Newchannel", u) || Prints(headers, "CoreShowChannel", u)
    ensures
      var st, st' := After(ins), After(Served(ins, headers, now));
      && u in st'.channels && st'.channels == st.channels[u := st'.channels[u]]
      && Tells(headers, st'.channels[u]) && st'.channels[u].createdAt == now == st'.channels[u].updatedAt
      && View(st', st'.channels[u].linkedid).Some?
  {
    hide LastValue, Stored, AllTrimmed, ParseChannel, Step, Served, After, Log, View, Sound, Tells, Route;
    var c := ParseChannel(Stored(map[], headers));
    RoutedChannelMessage(headers, u);
    ParsedHas(headers);
    ServedAs(ins, headers, now, Newchannel(c));
    NewchannelStores(After(ins), c, now);
    RunSound(ins);
    StepKeepsSound(After(ins), Newchannel(c), now);
    var st' := After(Served(ins, headers, now));
    ParsedTells(headers, st'.channels[u]);
    KeyedAndListed(st', u);
    ViewExists(st', st'.channels[u].linkedid);
  }

  /** A message of any other kind leaves the run alone; a message without an event is of the kind of
      its response. */
  lemma OtherMessage(ins: seq<Input>, headers: Fields, now: Time)
    requires AllTrimmed(headers) && headers != []
    requires
      var event := LastValue(headers, "Event");
      var kind := if event != "" then event else LastValue(headers, "Response");
      kind !in {"Newchannel", "CoreShowChannel", "Newstate", "NewCallerid", "NewConnectedLine", "NewExten",
                "BridgeEnter", "BridgeLeave", "Hangup"}
    ensures Served(ins, headers, now) == ins
  {
    hide LastValue, Stored, GetIn, AllTrimmed, Served;
    Lookups(headers);
    ServedIsRouted(ins, headers, now);
    assert ins + [] == ins;
  }
}
