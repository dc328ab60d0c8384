/** The events of one call, epoch by epoch: started, updates, ended, and so on again. */
module Lifecycle {
  import opened Basics
  import opened CallModel
  import opened CallViews
  import opened RegistryRuns

  /** What was published since the registry was last wiped. */
  function EpochLog(ins: seq<Input>): seq<Event> {
    if ins == [] || ins[|ins| - 1].op.Reset? then [] else EpochLog(ins[..|ins| - 1]) + LastEvent(ins)
  }

  /** The events about call l. */
  function About(evs: seq<Event>, l: string): seq<Event> {
    if evs == [] then []
    else
      var ev := evs[|evs| - 1];
      About(evs[..|evs| - 1], l) + if ev.call.linkedid == l then [ev] else []
  }

  /** (started updated* ended)*, the last round possibly still open: an event is "started"
      exactly if it comes first or right after an "ended". */
  ghost predicate InLanguage(w: seq<Event>) {
    forall i :: 0 <= i < |w| ==> (w[i].Started? <==> i == 0 || w[i - 1].Ended?)
  }

  predicate OpenTail(w: seq<Event>) {
    w != [] && !w[|w| - 1].Ended?
  }

  /** How many channels a call shows right after one of its channels was registered. */
  lemma RegisteredCount(st: State, c: Channel)
    requires Sound(st) && IndexAgrees(st) && Sound(Register(st, c)) && IndexAgrees(Register(st, c))
    requires View(Register(st, c), c.linkedid).Some?
    ensures
      var shown := |View(Register(st, c), c.linkedid).value.channels|;
      var before := |ListOf(st.byCall, c.linkedid)|;
      shown == if c.uniqueid in ListOf(st.byCall, c.linkedid) then before else before + 1
  {
    hide View, Sound;
    var st', l := Register(st, c), c.linkedid;
    ViewMeaning(st', l);
    assert AgreesAt(st', l);
    LookupAll(st'.channels, st'.byCall[l]);
  }

  /** With agreeing indexes a call is shown exactly if its list is not empty. */
  lemma ShownIfListed(st: State, l: string)
    requires IndexAgrees(st)
    ensures View(st, l).Some? <==> ListOf(st.byCall, l) != []
  {
    hide View;
    ViewExists(st, l);
    assert AgreesAt(st, l);
    if ListOf(st.byCall, l) != [] {
      assert ListOf(st.byCall, l)[0] in ListOf(st.byCall, l);
    }
  }

  lemma NewchannelKind(st: State, c: Channel, now: Time)
    requires Sound(st) && IndexAgrees(st) && now > ZERO_TIME && StableOp(st, Newchannel(c)) && c.uniqueid != ""
    ensures var o := NewchannelStep(st, c, now);
      o.ev.Some? && (o.ev.value.Started? <==> View(st, o.ev.value.call.linkedid).None?)
  {
    hide View, Register, Sound;
    var c' := Stamp(c, now);
    var st', l := Register(st, c'), c'.linkedid;
    RegisterKeepsSound(st, c');
    RegisterAgreement(st, c');
    ViewMeaning(st', l);
    assert AgreesAt(st, l);
    RegisteredCount(st, c');
    ShownIfListed(st, l);
  }

  /** In a state with agreeing indexes a stable step announces "started" only for a call not
      shown yet, and "updated" or "ended" only for one that is. */
  lemma EventKinds(st: State, op: Op, now: Time)
    requires Sound(st) && IndexAgrees(st) && now > ZERO_TIME && StableOp(st, op)
    requires Step(st, op, now).ev.Some?
    ensures var ev := Step(st, op, now).ev.value; ev.Started? <==> View(st, ev.call.linkedid).None?
  {
    hide View, Register;
    match op
    case Reset =>
    case Newchannel(c) => NewchannelKind(st, c, now);
    case Hangup(u) =>
      ViewExists(st, st.channels[u].linkedid);
      var st' := Remove(st, u);
      if View(st', st.channels[u].linkedid).Some? {
        ViewMeaning(st', st.channels[u].linkedid);
      }
    case _ =>
      var u := op.uniqueid;
      EditKeeps(op, st.channels[u]);
      ViewExists(st, st.channels[u].linkedid);
      var st' := Step(st, op, now).st;
      if View(st', st.channels[u].linkedid).Some? {
        ViewMeaning(st', st.channels[u].linkedid);
      }
  }

  /** Appending an event keeps the language if it is "started" exactly when no round is open. */
  lemma InLanguageExtends(w: seq<Event>, ev: Event)
    requires InLanguage(w) && (ev.Started? <==> !OpenTail(w))
    ensures InLanguage(w + [ev])
  {
    forall i | 0 <= i < |w + [ev]|
      ensures (w + [ev])[i].Started? <==> i == 0 || (w + [ev])[i - 1].Ended?
    {
      assert i < |w| ==> (w[i].Started? <==> i == 0 || w[i - 1].Ended?);
    }
  }

  lemma WordExtends(evs: seq<Event>, ev: Event, l: string)
    requires InLanguage(About(evs, l))
    requires ev.call.linkedid == l ==> (ev.Started? <==> !OpenTail(About(evs, l)))
    ensures InLanguage(About(evs + [ev], l))
    ensures OpenTail(About(evs + [ev], l)) <==>
      if ev.call.linkedid == l then !ev.Ended? else OpenTail(About(evs, l))
  {
    assert (evs + [ev])[..|evs|] == evs;
    if ev.call.linkedid == l {
      InLanguageExtends(About(evs, l), ev);
    } else {
      assert About(evs, l) + [] == About(evs, l);
    }
  }

  lemma ApplyShows(m: map<string, Call>, ev: Event, l: string)
    ensures l in Apply(m, ev) <==> if ev.call.linkedid == l then !ev.Ended? else l in m
  {
  }

  /** How one step moves a call's word and its liveness together. */
  lemma {:induction false} StepKeepsLanguage(st: State, op: Op, now: Time, evs: seq<Event>, l: string)
    requires Sound(st) && IndexAgrees(st) && now > ZERO_TIME && StableOp(st, op) && !op.Reset?
    requires InLanguage(About(evs, l)) && (OpenTail(About(evs, l)) <==> l in SnapMap(st))
    ensures
      var out := Step(st, op, now);
      var evs' := evs + ToSeq(out.ev);
      InLanguage(About(evs', l)) && (OpenTail(About(evs', l)) <==> l in SnapMap(out.st))
  {
    hide Step, SnapMap, IndexAgrees, Sound, StableOp, About, InLanguage, OpenTail, Fold, Apply, View;
    var out := Step(st, op, now);
    ReplicaStep(st, op, now);
    assert SafeOp(st, op);
    if out.ev.Some? {
      var ev := out.ev.value;
      EventKinds(st, op, now);
      SnapMapIs(st, ev.call.linkedid);
      FoldOne(SnapMap(st), ev);
      ApplyShows(SnapMap(st), ev, l);
      WordExtends(evs, ev, l);
    } else {
      assert evs + [] == evs;
      assert Fold(SnapMap(st), []) == SnapMap(st) by { FoldNone(SnapMap(st)); }
    }
  }

  lemma ResetEmpties(st: State, now: Time)
    ensures Step(st, Reset, now).st == EMPTY
  {
  }

  /** In every epoch of a stable run the events about a call form the lifecycle language,
      and the call is in the snapshot exactly if its last event is not "ended". */
  lemma {:induction false} LifecycleOfEveryCall(ins: seq<Input>, l: string)
    requires Timed(ins) && StableRun(ins)
    ensures InLanguage(About(EpochLog(ins), l))
    ensures OpenTail(About(EpochLog(ins), l)) <==> l in SnapMap(After(ins))
  {
    hide Step, IndexAgrees, Sound, StableOp;
    if ins == [] {
    } else {
      var n := |ins| - 1;
      if ins[n].op.Reset? {
        ResetEmpties(After(ins[..n]), ins[n].now);
      } else {
        StablePrefix(ins, n);
        LifecycleOfEveryCall(ins[..n], l);
        RunSound(ins[..n]);
        StableRunAgrees(ins[..n]);
        StepKeepsLanguage(After(ins[..n]), ins[n].op, ins[n].now, EpochLog(ins[..n]), l);
      }
    }
  }
}
