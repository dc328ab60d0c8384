/** The whole live-call path: the AMI reader's steps under the state lock, their publication
    through the feed, resets from the reconcile goroutine, and stream handlers that take a
    snapshot first and subscribe afterwards. */
module LiveStream {
  import opened Basics
  import opened CallModel
  import opened CallViews
  import opened RegistryRuns
  import opened Lifecycle
  import opened FeedSteps

  datatype Sys = Sys(
    inputs: seq<Input>,          // history: the registry is After(inputs)
    queued: Option<Event>,       // computed under the state lock, publication not begun
    feed: FeedState,
    snapAt: map<nat, nat>)       // how many inputs the snapshot behind each handle had seen

  const SYS_INIT := Sys([], None, INIT, map[])

  datatype SysAction =
    | Lock(op: Op, now: Time)    // an Apply method's critical section, by the one AMI reader
    | Wipe(now: Time)            // Reset, at any moment
    | Open(s: nat)               // a handler holding the snapshot of moment s draws its handle
    | FeedStep(a: Action)            // any other step of the feed

  ghost predicate CanDo(y: Sys, a: SysAction) {
    match a
    case Lock(op, now) => !op.Reset? && now > ZERO_TIME && y.queued.None? && y.feed.phase.Idle?
    case Wipe(now) => now > ZERO_TIME
    case Open(s) => s <= |y.inputs|
    case FeedStep(a) => !a.Draw? && Enabled(y.feed, a) && (a.Publish? ==> y.queued == Some(a.ev))
  }

  ghost function Do(y: Sys, a: SysAction): Sys
    requires CanDo(y, a)
  {
    match a
    case Lock(op, now) =>
      y.(inputs := y.inputs + [Input(op, now)], queued := Step(After(y.inputs), op, now).ev)
    case Wipe(now) => y.(inputs := y.inputs + [Input(Reset, now)])
    case Open(s) => y.(feed := Next(y.feed, Draw), snapAt := y.snapAt[y.feed.nextId + 1 := s])
    case FeedStep(a) => y.(feed := Next(y.feed, a), queued := if a.Publish? then None else y.queued)
  }

  ghost predicate IsSysRun(acts: seq<SysAction>, y: Sys)
    decreases |acts|
  {
    if acts == [] then y == SYS_INIT
    else
      var n := |acts| - 1;
      exists x :: IsSysRun(acts[..n], x) && CanDo(x, acts[n]) && Do(x, acts[n]) == y
  }

  /** How much was published when a handle joined, or is by now if it has not. */
  function JoinMark(f: FeedState, id: nat): nat {
    if id in f.joined then f.joined[id] else |f.published|
  }

  /** Handles whose snapshot is at most one event ahead of what was published when they joined
      (or, before they join, of what is published now). */
  ghost predicate SnapsOk(y: Sys) {
    && y.snapAt.Keys == y.feed.chans.Keys
    && (forall id :: id in y.snapAt ==> y.snapAt[id] <= |y.inputs|)
    && (forall id :: id in y.snapAt ==> |Log(y.inputs[..y.snapAt[id]])| <= 1 + JoinMark(y.feed, id))
  }

  ghost predicate SysInv(y: Sys) {
    && Timed(y.inputs) && Inv(y.feed) && SnapsOk(y)
    && y.feed.published + ToSeq(y.queued) == Log(y.inputs)
    && (y.queued.Some? ==> y.feed.phase.Idle?)
  }

  lemma LogGrows(ins: seq<Input>, i: Input)
    ensures Log(ins + [i]) == Log(ins) + ToSeq(Step(After(ins), i.op, i.now).ev)
  {
    assert (ins + [i])[..|ins|] == ins;
  }

  lemma {:induction false} SnapsKept(y: Sys, i: Input)
    requires SnapsOk(y)
    ensures forall q :: SnapsOk(y.(inputs := y.inputs + [i], queued := q))
  {
    forall id | id in y.snapAt
      ensures (y.inputs + [i])[..y.snapAt[id]] == y.inputs[..y.snapAt[id]]
    {
    }
  }

  lemma MarksGrow(f: FeedState, a: Action, id: nat)
    requires Inv(f) && Enabled(f, a)
    ensures JoinMark(f, id) <= JoinMark(Next(f, a), id)
    ensures !a.Draw? ==> Next(f, a).chans.Keys == f.chans.Keys
  {
    hide GapFree;
    assert a.Join? ==> a.id !in f.joined;
  }

  lemma PublishedBy(f: FeedState, a: Action)
    requires Enabled(f, a)
    ensures Next(f, a).published == f.published + if a.Publish? then [a.ev] else []
    ensures f.phase.Idle? && !a.Publish? ==> Next(f, a).phase.Idle?
  {
    assert f.published + [] == f.published;
  }

  lemma {:induction false} FeedStepKeeps(y: Sys, a: Action)
    requires SysInv(y) && CanDo(y, FeedStep(a))
    ensures SysInv(Do(y, FeedStep(a)))
  {
    hide Next, Enabled, Inv, Log;
    NextKeepsInv(y.feed, a);
    PublishedBy(y.feed, a);
    var z := Do(y, FeedStep(a));
    forall id | id in z.snapAt
      ensures |Log(z.inputs[..z.snapAt[id]])| <= 1 + JoinMark(z.feed, id)
    {
      MarksGrow(y.feed, a, id);
    }
    MarksGrow(y.feed, a, 0);
    if a.Publish? {
      assert y.feed.published + [a.ev] + [] == y.feed.published + [a.ev];
    }
  }

  lemma {:induction false} OpenKeeps(y: Sys, s: nat)
    requires SysInv(y) && s <= |y.inputs|
    ensures SysInv(Do(y, Open(s)))
  {
    hide Log, GapFree;
    DrawKeeps(y.feed);
    LogPrefix(y.inputs, s);
    var z, new_ := Do(y, Open(s)), y.feed.nextId + 1;
    assert new_ !in y.feed.chans && new_ !in y.feed.joined;
    forall id | id in z.snapAt
      ensures |Log(z.inputs[..z.snapAt[id]])| <= 1 + JoinMark(z.feed, id)
    {
      assert id != new_ ==> id in y.snapAt;
    }
  }

  lemma {:induction false} InputKeeps(y: Sys, i: Input, q: Option<Event>)
    requires SysInv(y) && i.now > ZERO_TIME
    requires y.feed.phase.Idle? || q == y.queued
    requires ToSeq(y.queued) + ToSeq(Step(After(y.inputs), i.op, i.now).ev) == ToSeq(q)
    ensures SysInv(y.(inputs := y.inputs + [i], queued := q))
  {
    hide Step, Inv, SnapsOk;
    LogGrows(y.inputs, i);
    SnapsKept(y, i);
    var e := ToSeq(Step(After(y.inputs), i.op, i.now).ev);
    assert y.feed.published + ToSeq(y.queued) + e == y.feed.published + ToSeq(q);
  }

  lemma ResetSilent(st: State, now: Time)
    ensures Step(st, Reset, now).ev == None
  {
  }

  lemma {:induction false} SysStepInv(y: Sys, a: SysAction)
    requires SysInv(y) && CanDo(y, a)
    ensures SysInv(Do(y, a))
  {
    hide SysInv, Step, Next, Enabled;
    match a
    case Lock(op, now) =>
      var ev := Step(After(y.inputs), op, now).ev;
      assert [] + ToSeq(ev) == ToSeq(ev);
      InputKeeps(y, Input(op, now), ev);
    case Wipe(now) =>
      ResetSilent(After(y.inputs), now);
      assert ToSeq(y.queued) + [] == ToSeq(y.queued);
      InputKeeps(y, Input(Reset, now), y.queued);
    case Open(s) => OpenKeeps(y, s);
    case FeedStep(f) => FeedStepKeeps(y, f);
  }

  lemma {:induction false} SysRunInv(acts: seq<SysAction>, y: Sys)
    requires IsSysRun(acts, y)
    ensures SysInv(y)
  {
    if acts == [] {
    } else {
      var n := |acts| - 1;
      var x :| IsSysRun(acts[..n], x) && CanDo(x, acts[n]) && Do(x, acts[n]) == y;
      SysRunInv(acts[..n], x);
      SysStepInv(x, acts[n]);
    }
  }

  // ---- What a stream client holds ----

  function Look(m: map<string, Call>, l: string): Option<Call> {
    if l in m then Some(m[l]) else None
  }

  /** Folding the same events hides a difference about a call exactly if one of them is about it. */
  lemma {:induction false} FoldForgets(m: map<string, Call>, m': map<string, Call>, evs: seq<Event>, l: string)
    ensures Look(Fold(m, evs), l) == Look(Fold(m', evs), l) <==> About(evs, l) != [] || Look(m, l) == Look(m', l)
  {
    if evs == [] {
    } else {
      FoldForgets(m, m', evs[..|evs| - 1], l);
    }
  }

  /** From moment t on the indexes agree and every step is safe. */
  ghost predicate SafeSince(ins: seq<Input>, t: nat)
    requires t <= |ins|
  {
    IndexAgrees(After(ins[..t])) && forall k :: t <= k < |ins| ==> SafeOp(After(ins[..k]), ins[k].op)
  }

  /** The snapshot of any later moment is the snapshot of t and the events in between. */
  lemma {:induction false} SnapshotSince(ins: seq<Input>, t: nat, s: nat)
    requires Timed(ins) && t <= s <= |ins| && SafeSince(ins, t)
    ensures |Log(ins[..t])| <= |Log(ins[..s])| <= |Log(ins)|
    ensures SnapMap(After(ins[..s])) == Fold(SnapMap(After(ins[..t])), Log(ins)[|Log(ins[..t])|..|Log(ins[..s])|])
  {
    hide After, SnapMap, Log, Fold, SafeOp, IndexAgrees;
    forall k | t <= k < s
      ensures SafeOp(After(ins[..s][..k]), ins[..s][k].op)
    {
      PrefixOfPrefix(ins, s, k);
    }
    PrefixOfPrefix(ins, s, t);
    ReplicaFrom(ins[..s], t);
    LogPrefix(ins, s);
    assert Log(ins[..s])[|Log(ins[..t])|..] == Log(ins)[|Log(ins[..t])|..|Log(ins[..s])|];
  }

  /** What a registered subscriber's client shows: the snapshot it started from, with
      everything delivered so far folded in. */
  ghost function ClientView(y: Sys, id: nat): map<string, Call>
    requires id in y.snapAt && id in y.feed.received && id in y.feed.chans && y.snapAt[id] <= |y.inputs|
  {
    Fold(SnapMap(After(y.inputs[..y.snapAt[id]])), Delivered(y.feed, id))
  }

  /** What its client held when t inputs had been published. */
  ghost function HeldAt(y: Sys, id: nat, t: nat): map<string, Call>
    requires id in y.snapAt && id in y.feed.joined && y.snapAt[id] <= |y.inputs| && t <= |y.inputs|
    requires y.feed.joined[id] <= |Log(y.inputs[..t])| <= |Log(y.inputs)|
  {
    Fold(SnapMap(After(y.inputs[..y.snapAt[id]])), Log(y.inputs)[y.feed.joined[id]..|Log(y.inputs[..t])|])
  }

  /** A registered subscriber while no publication is under way. */
  ghost predicate Settled(y: Sys, id: nat) {
    && id in y.feed.subs && id in y.feed.joined && id in y.feed.received && id in y.feed.chans && id in y.snapAt
    && y.snapAt[id] <= |y.inputs| && y.queued.None? && y.feed.phase.Idle?
  }

  lemma {:induction false} SettledDelivered(y: Sys, id: nat)
    requires SysInv(y) && Settled(y, id)
    ensures y.feed.joined[id] <= |Log(y.inputs)| && Delivered(y.feed, id) == Log(y.inputs)[y.feed.joined[id]..]
  {
    assert GapFree(y.feed, id);
    assert y.feed.published + [] == y.feed.published;
  }

  /** The handler snapshots before it subscribes, so it misses what is published in between.
      Exactly then a call is shown wrongly: if the missed events changed it since the snapshot
      and nothing about it has been delivered yet. */
  lemma {:induction false} ClientExactPerCall(acts: seq<SysAction>, y: Sys, id: nat, t: nat, l: string)
    requires IsSysRun(acts, y) && Settled(y, id)
    requires t <= y.snapAt[id] && SafeSince(y.inputs, t) && |Log(y.inputs[..t])| <= y.feed.joined[id]
    ensures y.feed.joined[id] <= |Log(y.inputs)|
    ensures
      var start := SnapMap(After(y.inputs[..y.snapAt[id]]));
      var atJoin := Fold(SnapMap(After(y.inputs[..t])), Log(y.inputs)[|Log(y.inputs[..t])|..y.feed.joined[id]]);
      Look(ClientView(y, id), l) == Look(SnapMap(After(y.inputs)), l) <==>
        About(Delivered(y.feed, id), l) != [] || Look(start, l) == Look(atJoin, l)
  {
    hide After, SnapMap, Log, Fold, IsSysRun, SafeSince, Look, About, Delivered;
    SysRunInv(acts, y);
    SettledDelivered(y, id);
    var ins, j, n := y.inputs, y.feed.joined[id], |Log(y.inputs[..t])|;
    SnapshotSince(ins, t, |ins|);
    assert ins[..|ins|] == ins;
    assert Log(ins)[n..|Log(ins)|] == Log(ins)[n..j] + Log(ins)[j..];
    FoldConcat(SnapMap(After(ins[..t])), Log(ins)[n..j], Log(ins)[j..]);
    FoldForgets(SnapMap(After(ins[..y.snapAt[id]])), Fold(SnapMap(After(ins[..t])), Log(ins)[n..j]), Log(ins)[j..], l);
  }

  /** Whatever happened before, Resets with live channels included: from any moment t since the
      subscription on from which the steps are safe, the client shows a call rightly exactly if an
      event about it was published since t or what the client held at t was right about it. */
  lemma {:induction false} ClientExactSince(acts: seq<SysAction>, y: Sys, id: nat, t: nat, l: string)
    requires IsSysRun(acts, y) && Settled(y, id)
    requires t <= |y.inputs| && SafeSince(y.inputs, t) && y.feed.joined[id] <= |Log(y.inputs[..t])|
    ensures |Log(y.inputs[..t])| <= |Log(y.inputs)|
    ensures
      var held := HeldAt(y, id, t);
      Look(ClientView(y, id), l) == Look(SnapMap(After(y.inputs)), l) <==>
        About(Log(y.inputs)[|Log(y.inputs[..t])|..], l) != [] || Look(held, l) == Look(SnapMap(After(y.inputs[..t])), l)
  {
    hide After, SnapMap, Log, Fold, IsSysRun, SafeSince, Look, About, Delivered;
    SysRunInv(acts, y);
    SettledDelivered(y, id);
    var ins, j, n := y.inputs, y.feed.joined[id], |Log(y.inputs[..t])|;
    var start := SnapMap(After(ins[..y.snapAt[id]]));
    SnapshotSince(ins, t, |ins|);
    assert ins[..|ins|] == ins;
    assert Log(ins)[n..|Log(ins)|] == Log(ins)[n..];
    assert Log(ins)[j..] == Log(ins)[j..n] + Log(ins)[n..];
    FoldConcat(start, Log(ins)[j..n], Log(ins)[n..]);
    FoldForgets(Fold(start, Log(ins)[j..n]), SnapMap(After(ins[..t])), Log(ins)[n..], l);
  }

  lemma ResetGivesEmpty(st: State, now: Time)
    ensures Step(st, Reset, now).st == EMPTY && IndexAgrees(EMPTY) && SnapMap(EMPTY) == map[]
  {
    assert forall l :: AgreesAt(EMPTY, l);
  }

  /** After a Reset that came behind the subscription, with safe steps since, a client shows a call
      rightly exactly if an event about it was published since or the client did not hold it then. */
  lemma {:induction false} ClientAfterReset(acts: seq<SysAction>, y: Sys, id: nat, t: nat, l: string)
    requires IsSysRun(acts, y) && Settled(y, id)
    requires 0 < t <= |y.inputs| && y.inputs[t - 1].op == Reset && y.feed.joined[id] <= |Log(y.inputs[..t])|
    requires forall k :: t <= k < |y.inputs| ==> SafeOp(After(y.inputs[..k]), y.inputs[k].op)
    ensures |Log(y.inputs[..t])| <= |Log(y.inputs)|
    ensures
      var held := HeldAt(y, id, t);
      Look(ClientView(y, id), l) == Look(SnapMap(After(y.inputs)), l) <==>
        About(Log(y.inputs)[|Log(y.inputs[..t])|..], l) != [] || l !in held
  {
    hide SnapMap, Log, Fold, IsSysRun, About, Delivered, SafeOp, IndexAgrees, Step;
    assert y.inputs[..t][..t - 1] == y.inputs[..t - 1];
    ResetGivesEmpty(After(y.inputs[..t - 1]), y.inputs[t - 1].now);
    ClientExactSince(acts, y, id, t, l);
  }

  lemma LookDecides(m: map<string, Call>, m': map<string, Call>)
    requires forall l :: Look(m, l) == Look(m', l)
    ensures m == m'
  {
    forall l
      ensures l in m <==> l in m'
      ensures l in m ==> m[l] == m'[l]
    {
      assert Look(m, l) == Look(m', l);
    }
  }

  lemma {:induction false} AboutHead(e: Event, evs: seq<Event>, l: string)
    ensures e.call.linkedid == l ==> About([e] + evs, l) != []
    ensures e.call.linkedid != l ==> forall m :: Look(Apply(m, e), l) == Look(m, l)
  {
    if evs == [] {
      assert [e] + evs == [e] && [e][..0] == [];
    } else {
      assert ([e] + evs)[..|evs|] == [e] + evs[..|evs| - 1];
      AboutHead(e, evs[..|evs| - 1], l);
    }
  }

  lemma {:induction false} ClientCurrentAt(acts: seq<SysAction>, y: Sys, id: nat, t: nat, l: string)
    requires IsSysRun(acts, y) && Settled(y, id)
    requires t <= y.snapAt[id] && SafeSince(y.inputs, t) && |Log(y.inputs[..t])| <= y.feed.joined[id]
    requires y.feed.joined[id] <= |Log(y.inputs[..y.snapAt[id]])|
    ensures Look(ClientView(y, id), l) == Look(SnapMap(After(y.inputs)), l)
  {
    hide After, SnapMap, Log, Fold, IsSysRun, SafeSince, About, Delivered, Inv;
    SysRunInv(acts, y);
    ClientExactPerCall(acts, y, id, t, l);
    SettledDelivered(y, id);
    var ins, j, s, n := y.inputs, y.feed.joined[id], y.snapAt[id], |Log(y.inputs[..t])|;
    SnapshotSince(ins, t, s);
    var atJoin := Fold(SnapMap(After(ins[..t])), Log(ins)[n..j]);
    if |Log(ins[..s])| == j + 1 {
      var e := Log(ins)[j];
      assert Log(ins)[n..j + 1] == Log(ins)[n..j] + [e];
      FoldConcat(SnapMap(After(ins[..t])), Log(ins)[n..j], [e]);
      FoldOne(atJoin, e);
      assert Log(ins)[j..] == [e] + Log(ins)[j + 1..];
      AboutHead(e, Log(ins)[j + 1..], l);
    }
  }

  /** If nothing was published between its snapshot and its subscription, a settled client
      shows exactly what a snapshot would show now. */
  lemma {:induction false} ClientIsCurrent(acts: seq<SysAction>, y: Sys, id: nat, t: nat)
    requires IsSysRun(acts, y) && Settled(y, id)
    requires t <= y.snapAt[id] && SafeSince(y.inputs, t) && |Log(y.inputs[..t])| <= y.feed.joined[id]
    requires y.feed.joined[id] <= |Log(y.inputs[..y.snapAt[id]])|
    ensures ClientView(y, id) == SnapMap(After(y.inputs))
  {
    forall l
      ensures Look(ClientView(y, id), l) == Look(SnapMap(After(y.inputs)), l)
    {
      ClientCurrentAt(acts, y, id, t, l);
    }
    LookDecides(ClientView(y, id), SnapMap(After(y.inputs)));
  }

  lemma {:induction false} Advance(acts: seq<SysAction>, x: Sys, a: SysAction) returns (acts': seq<SysAction>, y: Sys)
    requires IsSysRun(acts, x) && CanDo(x, a)
    ensures y == Do(x, a) && IsSysRun(acts', y)
  {
    y, acts' := Do(x, a), acts + [a];
    assert acts'[..|acts|] == acts;
  }

  lemma AfterOne(i: Input)
    ensures After([]) == EMPTY && After([i]) == Step(EMPTY, i.op, i.now).st
  {
    assert [i][..0] == [];
  }

  lemma SysRunNone()
    ensures IsSysRun([], SYS_INIT)
  {
  }

  lemma MissedCallState(c: Channel, now: Time)
    requires c.uniqueid != "" && now > ZERO_TIME
    ensures Step(EMPTY, Newchannel(c), now).ev.Some?
    ensures SnapMap(EMPTY) == map[] && |SnapMap(Step(EMPTY, Newchannel(c), now).st)| == 1
  {
    hide View;
    assert forall l :: AgreesAt(EMPTY, l);
    ReplicaNewchannel(EMPTY, c, now);
    NewchannelKind(EMPTY, c, now);
    var out := NewchannelStep(EMPTY, c, now);
    FoldOne(map[], out.ev.value);
    ViewExists(EMPTY, out.ev.value.call.linkedid);
  }

  /** The gap is real: a handler whose snapshot is followed by a whole publication before it
      subscribes goes on without the call that publication started. */
  lemma {:induction false} MissedCall(c: Channel, now: Time) returns (acts: seq<SysAction>, y: Sys, id: nat)
    requires c.uniqueid != "" && now > ZERO_TIME
    ensures IsSysRun(acts, y) && Settled(y, id)
    ensures SafeSince(y.inputs, 0) && Log(y.inputs[..0]) == []
    ensures ClientView(y, id) == map[] && |SnapMap(After(y.inputs))| == 1
  {
    hide Step, SnapMap, After, IsSysRun, Fold;
    var op := Newchannel(c);
    MissedCallState(c, now);
    AfterOne(Input(op, now));
    var ev := Step(EMPTY, op, now).ev.value;
    SysRunNone();
    acts, y := [], SYS_INIT;
    acts, y := Advance(acts, y, Open(0));
    acts, y := Advance(acts, y, Lock(op, now));
    assert y.queued == Some(ev);
    acts, y := Advance(acts, y, FeedStep(Publish(ev)));
    acts, y := Advance(acts, y, FeedStep(SendsDone));
    acts, y := Advance(acts, y, FeedStep(PublishDone));
    id := 1;
    acts, y := Advance(acts, y, FeedStep(Join(id)));
    assert y.inputs[..0] == [] && y.inputs == [Input(op, now)];
    assert forall l :: AgreesAt(EMPTY, l);
    assert SafeOp(EMPTY, op);
    assert Delivered(y.feed, id) == [];
    FoldNone(SnapMap(EMPTY));
  }
}
