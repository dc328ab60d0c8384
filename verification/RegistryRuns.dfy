/** Whole runs of the registry from empty: the indexes, the event log, and the client
    that folds the log (the dashboard's liveCalls map). */
module RegistryRuns {
  import opened Basics
  import opened CallModel
  import opened CallViews

  datatype Input = Input(op: Op, now: Time)

  /** The clock never reads the zero instant. */
  ghost predicate Timed(ins: seq<Input>) {
    forall i :: 0 <= i < |ins| ==> ins[i].now > ZERO_TIME
  }

  function After(ins: seq<Input>): State {
    if ins == [] then EMPTY
    else
      var n := |ins| - 1;
      Step(After(ins[..n]), ins[n].op, ins[n].now).st
  }

  /** The event the last input publishes, if any. */
  function LastEvent(ins: seq<Input>): seq<Event>
    requires ins != []
  {
    var n := |ins| - 1;
    ToSeq(Step(After(ins[..n]), ins[n].op, ins[n].now).ev)
  }

  /** Everything published, in order. */
  function Log(ins: seq<Input>): seq<Event> {
    if ins == [] then [] else Log(ins[..|ins| - 1]) + LastEvent(ins)
  }

  // ---- The client ----

  function Apply(m: map<string, Call>, ev: Event): map<string, Call> {
    match ev
    case Started(call, _) => m[call.linkedid := call]
    case Updated(call, _) => m[call.linkedid := call]
    case Ended(call, _) => m - {call.linkedid}
  }

  function Fold(m: map<string, Call>, evs: seq<Event>): map<string, Call> {
    if evs == [] then m else Apply(Fold(m, evs[..|evs| - 1]), evs[|evs| - 1])
  }

  lemma {:induction false} FoldConcat(m: map<string, Call>, a: seq<Event>, b: seq<Event>)
    ensures Fold(m, a + b) == Fold(Fold(m, a), b)
  {
    if b == [] {
      assert a + b == a;
    } else {
      assert (a + b)[..|a + b| - 1] == a + b[..|b| - 1];
      FoldConcat(m, a, b[..|b| - 1]);
    }
  }

  lemma FoldNone(m: map<string, Call>)
    ensures Fold(m, []) == m
  {
  }

  lemma FoldOne(m: map<string, Call>, ev: Event)
    ensures Fold(m, [ev]) == Apply(m, ev)
  {
    assert [ev][..0] == [];
  }

  // ---- Indexes over runs ----

  /** With no assumption on Linkedids, every live channel is listed once under its own
      Linkedid and no list is empty. */
  lemma {:induction false} RunSound(ins: seq<Input>)
    requires Timed(ins)
    ensures Sound(After(ins))
  {
    if ins == [] {
    } else {
      var n := |ins| - 1;
      RunSound(ins[..n]);
      StepKeepsSound(After(ins[..n]), ins[n].op, ins[n].now);
    }
  }

  ghost predicate StableRun(ins: seq<Input>) {
    forall k :: 0 <= k < |ins| ==> StableOp(After(ins[..k]), ins[k].op)
  }

  lemma PrefixOfPrefix(ins: seq<Input>, n: nat, k: nat)
    requires k <= n <= |ins|
    ensures ins[..n][..k] == ins[..k]
  {
  }

  lemma StablePrefix(ins: seq<Input>, n: nat)
    requires StableRun(ins) && n <= |ins|
    ensures StableRun(ins[..n])
  {
    forall k | 0 <= k < n
      ensures StableOp(After(ins[..n][..k]), ins[..n][k].op)
    {
      PrefixOfPrefix(ins, n, k);
    }
  }

  lemma {:induction false} StableRunAgrees(ins: seq<Input>)
    requires Timed(ins) && StableRun(ins)
    ensures IndexAgrees(After(ins))
  {
    if ins == [] {
      assert forall l :: AgreesAt(EMPTY, l);
    } else {
      var n := |ins| - 1;
      StablePrefix(ins, n);
      StableRunAgrees(ins[..n]);
      RunSound(ins[..n]);
      StepKeepsAgreement(After(ins[..n]), ins[n].op, ins[n].now);
    }
  }

  lemma UnstableBreaks(ins: seq<Input>, k: nat)
    requires Timed(ins) && k < |ins| && IndexAgrees(After(ins[..k])) && !StableOp(After(ins[..k]), ins[k].op)
    ensures !IndexAgrees(After(ins[..k + 1]))
  {
    hide Step, SnapMap, StableOp, IndexAgrees, Sound;
    assert ins[..k + 1][..k] == ins[..k];
    RunSound(ins[..k]);
    StepKeepsAgreement(After(ins[..k]), ins[k].op, ins[k].now);
  }

  /** The two indexes agree all the way through a run exactly if no live Uniqueid
      is ever announced under another Linkedid. */
  lemma AgreementExactlyWhenStable(ins: seq<Input>)
    requires Timed(ins)
    ensures (forall k :: 0 <= k <= |ins| ==> IndexAgrees(After(ins[..k]))) <==> StableRun(ins)
  {
    hide Step, SnapMap, StableOp, IndexAgrees, Sound;
    if StableRun(ins) {
      forall k | 0 <= k <= |ins|
        ensures IndexAgrees(After(ins[..k]))
      {
        StablePrefix(ins, k);
        StableRunAgrees(ins[..k]);
      }
    } else {
      var k :| 0 <= k < |ins| && !StableOp(After(ins[..k]), ins[k].op);
      if IndexAgrees(After(ins[..k])) {
        UnstableBreaks(ins, k);
      }
    }
  }

  // ---- The replica ----

  /** What a step must satisfy for the client to keep up: Reset publishes nothing, so it
      is only safe while no channel is live. */
  predicate SafeOp(st: State, op: Op) {
    StableOp(st, op) && (op.Reset? ==> st.channels == map[])
  }

  ghost predicate SafeRun(ins: seq<Input>) {
    forall k :: 0 <= k < |ins| ==> SafeOp(After(ins[..k]), ins[k].op)
  }

  lemma ViewedIsListed(st: State)
    ensures forall k :: View(st, k).Some? ==> k in st.byCall
  {
  }

  lemma OneViewPut(st: State, st': State, l: string)
    requires View(st', l).Some?
    requires forall k :: k != l ==> View(st', k) == View(st, k)
    ensures SnapMap(st') == SnapMap(st)[l := View(st', l).value]
  {
    hide View;
    ViewedIsListed(st);
    ViewedIsListed(st');
    forall k
      ensures k in SnapMap(st') <==> k == l || k in SnapMap(st)
      ensures k in SnapMap(st') && k != l ==> SnapMap(st')[k] == SnapMap(st)[k]
    {
      assert k != l ==> View(st', k) == View(st, k);
    }
  }

  lemma {:induction false} OneViewGone(st: State, st': State, l: string)
    requires View(st', l).None?
    requires forall k :: k != l ==> View(st', k) == View(st, k)
    ensures SnapMap(st') == SnapMap(st) - {l}
  {
    hide View;
    ViewedIsListed(st);
    ViewedIsListed(st');
    forall k
      ensures k in SnapMap(st') <==> k != l && k in SnapMap(st)
      ensures k in SnapMap(st') ==> SnapMap(st')[k] == SnapMap(st)[k]
    {
      assert k != l ==> View(st', k) == View(st, k);
    }
  }

  /** A step on a channel of call l leaves every other call's view alone, if the indexes agree. */
  lemma OtherViews(st: State, st': State, u: string, l: string)
    requires IndexAgrees(st)
    requires u in st.channels ==> st.channels[u].linkedid == l
    requires forall v :: v != u ==> (v in st.channels <==> v in st'.channels)
    requires forall v :: v != u && v in st.channels ==> st.channels[v] == st'.channels[v]
    requires forall k :: k != l ==> ListOf(st'.byCall, k) == ListOf(st.byCall, k)
    ensures forall k :: k != l ==> View(st', k) == View(st, k)
  {
    forall k | k != l
      ensures View(st', k) == View(st, k)
    {
      assert AgreesAt(st, k);
      SameView(st, st', k);
    }
  }

  lemma {:induction false} RegisterSnap(st: State, c: Channel)
    requires Sound(st) && IndexAgrees(st)
    requires c.uniqueid in st.channels ==> st.channels[c.uniqueid].linkedid == c.linkedid
    requires View(Register(st, c), c.linkedid).Some?
    ensures SnapMap(Register(st, c)) == SnapMap(st)[c.linkedid := View(Register(st, c), c.linkedid).value]
  {
    hide View;
    var st' := Register(st, c);
    assert forall k :: k != c.linkedid ==> ListOf(st'.byCall, k) == ListOf(st.byCall, k);
    OtherViews(st, st', c.uniqueid, c.linkedid);
    OneViewPut(st, st', c.linkedid);
  }

  /** The event of an announcement carries the new view of the channel's call. */
  lemma NewchannelEvent(st: State, c: Channel, now: Time)
    requires c.uniqueid != "" && View(Register(st, Stamp(c, now)), Keep(c.linkedid, c.uniqueid)).Some?
    ensures
      var out, l := NewchannelStep(st, c, now), Keep(c.linkedid, c.uniqueid);
      && out.st == Register(st, Stamp(c, now)) && out.ev.Some? && !out.ev.value.Ended?
      && out.ev.value.call == View(out.st, l).value && out.ev.value.call.linkedid == l
  {
    hide Register, Members;
  }

  lemma {:induction false} ReplicaNewchannel(st: State, c: Channel, now: Time)
    requires Sound(st) && IndexAgrees(st) && now > ZERO_TIME && StableOp(st, Newchannel(c))
    ensures SnapMap(NewchannelStep(st, c, now).st) == Fold(SnapMap(st), ToSeq(NewchannelStep(st, c, now).ev))
  {
    if c.uniqueid == "" {
      FoldNone(SnapMap(st));
    } else {
      var c', l := Stamp(c, now), Keep(c.linkedid, c.uniqueid);
      RegisterKeepsSound(st, c');
      RegisterSnap(st, c');
      NewchannelEvent(st, c, now);
      hide Register, SnapMap, View, Sound, IndexAgrees, Fold, NewchannelStep;
      FoldOne(SnapMap(st), NewchannelStep(st, c, now).ev.value);
    }
  }

  lemma {:induction false} ReplicaHangup(st: State, u: string, now: Time)
    requires Sound(st) && IndexAgrees(st)
    ensures SnapMap(HangupStep(st, u, now).st) == Fold(SnapMap(st), ToSeq(HangupStep(st, u, now).ev))
  {
    if u != "" && u in st.channels {
      var l := st.channels[u].linkedid;
      var st' := Remove(st, u);
      RemoveKeepsSound(st, u);
      RemoveAgreement(st, u);
      OtherViews(st, st', u, l);
      ViewExists(st', l);
      assert AgreesAt(st', l);
      FoldOne(SnapMap(st), HangupStep(st, u, now).ev.value);
      if ListOf(st'.byCall, l) == [] {
        OneViewGone(st, st', l);
      } else {
        assert ListOf(st'.byCall, l)[0] in st'.channels;
        OneViewPut(st, st', l);
      }
    }
  }

  lemma {:induction false} ReplicaEdit(st: State, op: Op, now: Time)
    requires Sound(st) && IndexAgrees(st) && now > ZERO_TIME
    requires !op.Newchannel? && !op.Hangup? && !op.Reset?
    ensures SnapMap(EditStep(st, op, op.uniqueid, now).st) ==
            Fold(SnapMap(st), ToSeq(EditStep(st, op, op.uniqueid, now).ev))
  {
    var u := op.uniqueid;
    if u in st.channels {
      var ch := Edit(op, st.channels[u]).(updatedAt := now);
      var st' := st.(channels := st.channels[u := ch]);
      EditKeeps(op, st.channels[u]);
      EditAgreement(st, u, ch);
      OtherViews(st, st', u, ch.linkedid);
      ViewExists(st', ch.linkedid);
      OneViewPut(st, st', ch.linkedid);
      FoldOne(SnapMap(st), EditStep(st, op, u, now).ev.value);
    }
  }

  /** The members of a call all carry its Linkedid, if the indexes agree. */
  lemma ViewLinkedids(st: State, l: string, c: Channel)
    requires IndexAgrees(st) && View(st, l).Some? && c in View(st, l).value.channels
    ensures c.linkedid == l
  {
    ViewMeaning(st, l);
    assert c in multiset(View(st, l).value.channels);
    LookupMember(st.channels, st.byCall[l], c);
    assert AgreesAt(st, l);
  }

  /** The old call of a Uniqueid announced under another Linkedid shows it under the new one. */
  lemma OldCallShows(st: State, c: Channel)
    requires Sound(st) && c.uniqueid in st.channels && st.channels[c.uniqueid].linkedid != c.linkedid
    ensures View(Register(st, c), st.channels[c.uniqueid].linkedid).Some?
    ensures c in View(Register(st, c), st.channels[c.uniqueid].linkedid).value.channels
  {
    var st', l := Register(st, c), st.channels[c.uniqueid].linkedid;
    assert c.uniqueid in ListOf(st'.byCall, l) && st'.channels[c.uniqueid] == c;
    ViewExists(st', l);
    ViewMeaning(st', l);
    LookupMember(st'.channels, st'.byCall[l], c);
    assert c in multiset(Members(st', l));
  }

  /** A live Uniqueid announced under another Linkedid changes the view of its old call,
      and the event published is about the new one. */
  lemma UnstableDiverges(st: State, c: Channel, now: Time)
    requires Sound(st) && IndexAgrees(st) && now > ZERO_TIME && !StableOp(st, Newchannel(c))
    ensures SnapMap(NewchannelStep(st, c, now).st) != Fold(SnapMap(st), ToSeq(NewchannelStep(st, c, now).ev))
  {
    hide View, Register, SnapMap;
    var c' := Stamp(c, now);
    var st', l := Register(st, c'), st.channels[c.uniqueid].linkedid;
    RegisterKeepsSound(st, c');
    OldCallShows(st, c');
    ViewMeaning(st', c'.linkedid);
    FoldOne(SnapMap(st), NewchannelStep(st, c, now).ev.value);
    SnapMapIs(st, l);
    SnapMapIs(st', l);
    if View(st, l) == View(st', l) {
      ViewLinkedids(st, l, c');
    }
  }

  /** One step: the client that held the snapshot holds the new snapshot after folding the
      step's event exactly if the step is safe. */
  lemma {:induction false} ReplicaStep(st: State, op: Op, now: Time)
    requires Sound(st) && IndexAgrees(st) && now > ZERO_TIME
    ensures SnapMap(Step(st, op, now).st) == Fold(SnapMap(st), ToSeq(Step(st, op, now).ev)) <==> SafeOp(st, op)
  {
    match op
    case Reset =>
      if u :| u in st.channels {
        var l := st.channels[u].linkedid;
        assert AgreesAt(st, l);
        ViewExists(st, l);
        assert l in SnapMap(st);
      } else {
        assert st.channels == map[];
        forall l
          ensures l !in SnapMap(st)
        {
          ViewExists(st, l);
        }
      }
    case Newchannel(c) =>
      if StableOp(st, op) { ReplicaNewchannel(st, c, now); } else { UnstableDiverges(st, c, now); }
    case Hangup(u) => ReplicaHangup(st, u, now);
    case _ => ReplicaEdit(st, op, now);
  }

  /** Such a Reset: a channel is announced and then all is wiped.  The client still shows the call,
      and no snapshot does. */
  lemma ResetKeepsClient()
    ensures
      var ins := [Input(Newchannel(Bare("1", "1")), 1), Input(Reset, 2)];
      "1" in Fold(map[], Log(ins)) && SnapMap(After(ins)) == map[]
  {
    hide View, Register, SnapMap, IndexAgrees, Sound;
    var c := Bare("1", "1");
    var one := [Input(Newchannel(c), 1)];
    var ins := one + [Input(Reset, 2)];
    assert ins[..1] == one && one[..0] == [];
    EmptyIsFine();
    RegisterKeepsSound(EMPTY, Stamp(c, 1));
    NewchannelEvent(EMPTY, c, 1);
    FoldOne(map[], NewchannelStep(EMPTY, c, 1).ev.value);
    assert LastEvent(ins) == [] && Log(ins) == Log(one) == LastEvent(one);
    assert SnapMap(EMPTY) == map[] by { SnapMapListed(EMPTY); }
    assert ins == [Input(Newchannel(c), 1), Input(Reset, 2)];
  }

  lemma LogPrefix(ins: seq<Input>, j: nat)
    requires j <= |ins|
    ensures |Log(ins[..j])| <= |Log(ins)|
    ensures Log(ins)[..|Log(ins[..j])|] == Log(ins[..j])
  {
    hide Step, SnapMap, SafeOp, StableOp, IndexAgrees, Sound;
    if j < |ins| {
      var n := |ins| - 1;
      LogPrefix(ins[..n], j);
      PrefixOfPrefix(ins, n, j);
    } else {
      assert ins[..j] == ins;
    }
  }

  lemma {:induction false} SafeStep(st: State, op: Op, now: Time)
    requires Sound(st) && IndexAgrees(st) && now > ZERO_TIME && SafeOp(st, op)
    ensures IndexAgrees(Step(st, op, now).st)
    ensures SnapMap(Step(st, op, now).st) == Fold(SnapMap(st), ToSeq(Step(st, op, now).ev))
  {
    hide Step, SnapMap, IndexAgrees, Sound;
    ReplicaStep(st, op, now);
    StepKeepsAgreement(st, op, now);
  }

  lemma {:induction false} ReplicaLast(ins: seq<Input>, m: map<string, Call>, j: nat)
    requires Timed(ins) && ins != [] && j <= |Log(ins[..|ins| - 1])|
    requires IndexAgrees(After(ins[..|ins| - 1])) && SafeOp(After(ins[..|ins| - 1]), ins[|ins| - 1].op)
    requires Fold(m, Log(ins[..|ins| - 1])[j..]) == SnapMap(After(ins[..|ins| - 1]))
    ensures Fold(m, Log(ins)[j..]) == SnapMap(After(ins)) && IndexAgrees(After(ins))
  {
    hide Step, SnapMap, SafeOp, IndexAgrees, Sound, Fold;
    var n := |ins| - 1;
    RunSound(ins[..n]);
    SafeStep(After(ins[..n]), ins[n].op, ins[n].now);
    assert Log(ins)[j..] == Log(ins[..n])[j..] + LastEvent(ins);
    FoldConcat(m, Log(ins[..n])[j..], LastEvent(ins));
  }

  /** A client that takes the snapshot of any moment j at which the indexes agree, and folds
      every event published since, holds the snapshot of now, if the steps since j are safe. */
  lemma {:induction false} ReplicaFrom(ins: seq<Input>, j: nat)
    requires Timed(ins) && j <= |ins|
    requires IndexAgrees(After(ins[..j]))
    requires forall k :: j <= k < |ins| ==> SafeOp(After(ins[..k]), ins[k].op)
    ensures |Log(ins[..j])| <= |Log(ins)|
    ensures Fold(SnapMap(After(ins[..j])), Log(ins)[|Log(ins[..j])|..]) == SnapMap(After(ins))
    ensures IndexAgrees(After(ins))
  {
    hide Step, SnapMap, SafeOp, IndexAgrees;
    LogPrefix(ins, j);
    if j == |ins| {
      assert ins[..j] == ins;
      assert Log(ins)[|Log(ins)|..] == [];
    } else {
      var n := |ins| - 1;
      forall k | j <= k < n
        ensures SafeOp(After(ins[..n][..k]), ins[..n][k].op)
      {
        PrefixOfPrefix(ins, n, k);
      }
      PrefixOfPrefix(ins, n, j);
      ReplicaFrom(ins[..n], j);
      ReplicaLast(ins, SnapMap(After(ins[..j])), |Log(ins[..j])|);
    }
  }

  lemma SafePrefixReplica(ins: seq<Input>, k: nat)
    requires Timed(ins) && k <= |ins|
    requires forall i :: 0 <= i < k ==> SafeOp(After(ins[..i]), ins[i].op)
    ensures Fold(map[], Log(ins[..k])) == SnapMap(After(ins[..k]))
    ensures IndexAgrees(After(ins[..k]))
  {
    forall i | 0 <= i < k
      ensures SafeOp(After(ins[..k][..i]), ins[..k][i].op)
    {
      PrefixOfPrefix(ins, k, i);
    }
    assert ins[..k][..0] == [];
    assert forall l :: AgreesAt(EMPTY, l);
    assert SnapMap(EMPTY) == map[];
    ReplicaFrom(ins[..k], 0);
    assert Log(ins[..k])[0..] == Log(ins[..k]);
  }

  /** The first unsafe step is where the client and the registry part. */
  lemma UnsafeParts(ins: seq<Input>, k: nat)
    requires Timed(ins) && k < |ins| && !SafeOp(After(ins[..k]), ins[k].op)
    requires forall i :: 0 <= i < k ==> SafeOp(After(ins[..i]), ins[i].op)
    ensures Fold(map[], Log(ins[..k + 1])) != SnapMap(After(ins[..k + 1]))
  {
    hide Step, SnapMap, SafeOp, StableOp, IndexAgrees, Sound, Fold;
    SafePrefixReplica(ins, k);
    RunSound(ins[..k]);
    ReplicaStep(After(ins[..k]), ins[k].op, ins[k].now);
    assert ins[..k + 1][..k] == ins[..k];
    FoldConcat(map[], Log(ins[..k]), LastEvent(ins[..k + 1]));
  }

  lemma {:induction false} FirstUnsafe(ins: seq<Input>, n: nat)
    requires Timed(ins) && n <= |ins|
    requires exists k :: 0 <= k < n && !SafeOp(After(ins[..k]), ins[k].op)
    ensures exists k :: 0 < k <= n && Fold(map[], Log(ins[..k])) != SnapMap(After(ins[..k]))
  {
    hide Step, SnapMap, SafeOp, After, Log, Fold;
    if exists k :: 0 <= k < n - 1 && !SafeOp(After(ins[..k]), ins[k].op) {
      FirstUnsafe(ins, n - 1);
    } else {
      UnsafeParts(ins, n - 1);
      assert Fold(map[], Log(ins[..n])) != SnapMap(After(ins[..n]));
    }
  }

  /** Folding the log from an empty client gives the snapshot all the way through a run
      exactly if every step is safe. */
  lemma {:induction false} ReplicaExactlyWhenSafe(ins: seq<Input>)
    requires Timed(ins)
    ensures (forall k :: 0 <= k <= |ins| ==> Fold(map[], Log(ins[..k])) == SnapMap(After(ins[..k]))) <==> SafeRun(ins)
  {
    if SafeRun(ins) {
      forall k | 0 <= k <= |ins|
        ensures Fold(map[], Log(ins[..k])) == SnapMap(After(ins[..k]))
      {
        SafePrefixReplica(ins, k);
      }
    } else {
      FirstUnsafe(ins, |ins|);
    }
  }
}
