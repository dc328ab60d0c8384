/** How AMI messages reach the registry. */
module AmiListener {
  import opened Basics
  import opened Text
  import opened AmiProtocol
  import opened CallModel
  import opened CallRegistry
  import opened FeedSteps
  import opened RegistryRuns

  /** The channel a Newchannel or CoreShowChannel message describes; it carries no times. */
  function ParseChannel(m: FieldMap): Channel {
    Channel(
      GetIn(m, "Uniqueid"), GetIn(m, "Linkedid"), GetIn(m, "Channel"),
      GetIn(m, "ChannelState"), GetIn(m, "ChannelStateDesc"),
      NormaliseUnknown(GetIn(m, "CallerIDNum")), NormaliseUnknown(GetIn(m, "CallerIDName")),
      NormaliseUnknown(GetIn(m, "ConnectedLineNum")), NormaliseUnknown(GetIn(m, "ConnectedLineName")),
      GetIn(m, "Exten"), GetIn(m, "Context"), GetIn(m, "BridgeUniqueid"),
      ZERO_TIME, ZERO_TIME)
  }

  /** The registry step a message asks for, if any. */
  function Route(m: FieldMap): Option<Op> {
    var u, t := GetIn(m, "Uniqueid"), TypeOf(m);
    if t == "Newchannel" || t == "CoreShowChannel" then Some(Newchannel(ParseChannel(m)))
    else if t == "Newstate" then Some(Newstate(u, GetIn(m, "ChannelState"), GetIn(m, "ChannelStateDesc")))
    else if t == "NewCallerid" then Some(CallerID(u, GetIn(m, "CallerIDNum"), GetIn(m, "CallerIDName")))
    else if t == "NewConnectedLine" then
      Some(ConnectedLine(u, GetIn(m, "ConnectedLineNum"), GetIn(m, "ConnectedLineName")))
    else if t == "NewExten" then Some(Extension(u, GetIn(m, "Extension"), GetIn(m, "Context")))
    else if t == "BridgeEnter" then Some(BridgeEnter(u, GetIn(m, "BridgeUniqueid")))
    else if t == "BridgeLeave" then Some(BridgeLeave(u))
    else if t == "Hangup" then Some(Hangup(u))
    else None
  }

  function OptStep(st: State, op: Option<Op>, now: Time): Outcome {
    if op.None? then Outcome(st, None) else Step(st, op.value, now)
  }

  /** Routes one message; a registry need not be there. */
  method Dispatch(registry: Registry?, m: FieldMap, now: Time)
    requires registry != null ==> registry.Valid()
    requires now > ZERO_TIME
    modifies if registry == null then {} else {registry, registry.feed} + registry.channels.Values
    ensures registry != null ==>
      && registry.Valid() && registry.KeptOrFresh()
      && registry.Abs() == OptStep(old(registry.Abs()), Route(m), now).st
      && registry.feed.Abs() == PublishOpt(old(registry.feed.Abs()), OptStep(old(registry.Abs()), Route(m), now).ev)
  {
    hide Step, Registry.Valid, Registry.Abs, PublishAlone, ParseChannel, GetIn;
    if registry == null { return; }
    var t, u := TypeOf(m), GetIn(m, "Uniqueid");
    if t == "Newchannel" || t == "CoreShowChannel" {
      registry.ApplyNewchannel(ParseChannel(m), now);
    } else if t == "Newstate" {
      registry.MutateChannel(Newstate(u, GetIn(m, "ChannelState"), GetIn(m, "ChannelStateDesc")), now);
    } else if t == "NewCallerid" {
      registry.MutateChannel(CallerID(u, GetIn(m, "CallerIDNum"), GetIn(m, "CallerIDName")), now);
    } else if t == "NewConnectedLine" {
      registry.MutateChannel(ConnectedLine(u, GetIn(m, "ConnectedLineNum"), GetIn(m, "ConnectedLineName")), now);
    } else if t == "NewExten" {
      registry.MutateChannel(Extension(u, GetIn(m, "Extension"), GetIn(m, "Context")), now);
    } else if t == "BridgeEnter" {
      registry.MutateChannel(BridgeEnter(u, GetIn(m, "BridgeUniqueid")), now);
    } else if t == "BridgeLeave" {
      registry.MutateChannel(BridgeLeave(u), now);
    } else if t == "Hangup" {
      registry.ApplyHangup(u, now);
    }
  }

  // ---- A session's event loop ----

  /** Reading a message takes something off the input, unless one was begun before. */
  lemma {:induction false} MapsShorten(input: string, fields: FieldMap, saw: bool)
    requires ReadMapFrom(input, fields, saw).0.GotMap? && (!saw || input != "")
    ensures |ReadMapFrom(input, fields, saw).1| < |input|
    decreases |input|
  {
    hide StoreLine, TrimEol;
    var i := IndexOf(input, '\n');
    if i < 0 {
    } else {
      var line, rest := TrimEol(input[..i + 1]), input[i + 1..];
      if line != "" && rest != "" {
        MapsShorten(rest, StoreLine(fields, line), true);
      } else if line == "" && !saw {
        MapsShorten(rest, fields, saw);
      }
    }
  }

  /** The messages an input holds, in order. */
  function AllMessages(input: string): seq<FieldMap>
    decreases |input|
  {
    var (m, rest) := ReadMapFrom(input, map[], false);
    if m.GotMap? then
      MapsShorten(input, map[], false);
      [m.fields] + AllMessages(rest)
    else []
  }

  /** A message as an input of the registry's run, if it is routed. */
  function Routed(m: FieldMap, now: Time): seq<Input> {
    if Route(m).Some? then [Input(Route(m).value, now)] else []
  }

  /** The registry's inputs for messages, where clock tells the time of each message. */
  function Inputs(ms: seq<FieldMap>, clock: nat -> Time): seq<Input> {
    if ms == [] then []
    else
      var n := |ms| - 1;
      Inputs(ms[..n], clock) + Routed(ms[n], clock(n))
  }

  lemma NoInputs(clock: nat -> Time)
    ensures Inputs([], clock) == []
  {
  }

  lemma InputsAppend(ms: seq<FieldMap>, m: FieldMap, clock: nat -> Time)
    ensures Inputs(ms + [m], clock) == Inputs(ms, clock) + Routed(m, clock(|ms|))
  {
    hide Routed;
    var all := ms + [m];
    assert all[..|all| - 1] == ms && all[|all| - 1] == m;
  }

  /** Routing a message extends the run by its input, and the log by that step's event. */
  lemma RoutedStep(ins: seq<Input>, m: FieldMap, now: Time)
    ensures
      var out, more := OptStep(After(ins), Route(m), now), ins + Routed(m, now);
      After(more) == out.st && Log(more) == Log(ins) + ToSeq(out.ev)
  {
    hide Step, Route;
    var more := ins + Routed(m, now);
    if Route(m).Some? {
      assert more[..|more| - 1] == ins;
    } else {
      assert more == ins;
    }
  }

  lemma PublishedAfter(f: FeedState, ev: Option<Event>)
    ensures PublishOpt(f, ev).published == f.published + ToSeq(ev)
  {
    assert f.published + [] == f.published;
  }

  /** The registry is the result of the run, and its feed holds what the run published. */
  ghost predicate Follows(registry: Registry, ins: seq<Input>)
    reads registry, registry.channels.Values, registry.feed
  {
    registry.Valid() && registry.Abs() == After(ins) && registry.feed.Abs().published == Log(ins)
  }

  /** One message moves the registry on by one input of the run, or none. */
  method ServeMessage(registry: Registry, m: FieldMap, now: Time, ghost ins: seq<Input>)
    requires Follows(registry, ins) && now > ZERO_TIME
    modifies registry, registry.feed, registry.channels.Values
    ensures registry.KeptOrFresh() && Follows(registry, ins + Routed(m, now))
  {
    hide Registry.Valid, Registry.Abs, Route, Routed, OptStep, After, Log, PublishOpt;
    RoutedStep(ins, m, now);
    PublishedAfter(registry.feed.Abs(), OptStep(After(ins), Route(m), now).ev);
    Dispatch(registry, m, now);
  }

  /** Reads and routes every message of the input.  Where the registry follows a run before, it
      follows the run with the input's messages behind it afterwards. */
  method ServeInput(registry: Registry, r: Reader, clock: nat -> Time, ghost ins: seq<Input>)
    requires Follows(registry, ins) && forall k :: clock(k) > ZERO_TIME
    modifies r, registry, registry.feed, registry.channels.Values
    ensures registry.KeptOrFresh() && Follows(registry, ins + Inputs(AllMessages(old(r.rest)), clock))
  {
    hide Follows, ReadMapFrom, Inputs, Routed;
    ghost var done: seq<FieldMap> := [];
    var count := 0;
    assert ins + Inputs([], clock) == ins by { NoInputs(clock); }
    while true
      invariant registry.KeptOrFresh() && Follows(registry, ins + Inputs(done, clock))
      invariant count == |done| && AllMessages(old(r.rest)) == done + AllMessages(r.rest)
      decreases |r.rest|
    {
      ghost var before := r.rest;
      var m := ReadMapMessage(r);
      if m.MapEof? {
        assert done + [] == done;
        return;
      }
      MapsShorten(before, map[], false);
      assert done + ([m.fields] + AllMessages(r.rest)) == done + [m.fields] + AllMessages(r.rest);
      InputsAppend(done, m.fields, clock);
      ServeMessage(registry, m.fields, clock(count), ins + Inputs(done, clock));
      assert ins + Inputs(done, clock) + Routed(m.fields, clock(count)) == ins + Inputs(done + [m.fields], clock);
      done := done + [m.fields];
      count := count + 1;
    }
  }

  // ---- What reaches the screen ----

  /** Inputs as the listener makes them: routed messages, and wipes. */
  ghost predicate FromListener(ins: seq<Input>) {
    forall i :: 0 <= i < |ins| ==> ins[i].op == Reset || exists m :: Route(m) == Some(ins[i].op)
  }

  predicate NoSentinel(c: Channel) {
    && !IsSentinel(c.callerIdNum) && !IsSentinel(c.callerIdName)
    && !IsSentinel(c.connectedLineNum) && !IsSentinel(c.connectedLineName)
  }

  ghost predicate Presentable(st: State) {
    forall u :: u in st.channels ==> NoSentinel(st.channels[u])
  }

  lemma NeverSentinel(s: string)
    ensures !IsSentinel(NormaliseUnknown(s))
  {
  }

  lemma RoutedChannel(m: FieldMap, c: Channel)
    requires Route(m) == Some(Newchannel(c))
    ensures NoSentinel(c)
  {
    hide IsSentinel, NormaliseUnknown, GetIn;
    NeverSentinel(GetIn(m, "CallerIDNum"));
    NeverSentinel(GetIn(m, "CallerIDName"));
    NeverSentinel(GetIn(m, "ConnectedLineNum"));
    NeverSentinel(GetIn(m, "ConnectedLineName"));
  }

  lemma EditPresentable(op: Op, ch: Channel)
    requires NoSentinel(ch)
    ensures NoSentinel(Edit(op, ch))
  {
    hide IsSentinel, NormaliseUnknown;
    match op
    case CallerID(_, num, name) => NeverSentinel(num); NeverSentinel(name);
    case ConnectedLine(_, num, name) => NeverSentinel(num); NeverSentinel(name);
    case _ =>
  }

  lemma {:induction false} StepPresentable(st: State, op: Op, now: Time)
    requires Presentable(st) && (op == Reset || exists m :: Route(m) == Some(op))
    ensures Presentable(Step(st, op, now).st)
  {
    hide View, Route, IsSentinel, Edit;
    match op
    case Reset =>
    case Newchannel(c) =>
      var m :| Route(m) == Some(op);
      RoutedChannel(m, c);
    case Hangup(u) =>
    case _ => if op.uniqueid in st.channels { EditPresentable(op, st.channels[op.uniqueid]); }
  }

  /** Asterisk's "no value" sentinels never reach a stored caller or connected-line field. */
  lemma {:induction false} SentinelsNeverStored(ins: seq<Input>)
    requires FromListener(ins)
    ensures Presentable(After(ins))
  {
    hide Step, Route;
    if ins == [] {
    } else {
      var n := |ins| - 1;
      assert FromListener(ins[..n]) by {
        forall i | 0 <= i < n ensures ins[..n][i] == ins[i] {}
      }
      SentinelsNeverStored(ins[..n]);
      StepPresentable(After(ins[..n]), ins[n].op, ins[n].now);
    }
  }
}
