/** The feed as a step system.  Publishing is not atomic: the publisher walks the subscribers
    under the read lock while readers drain their queues, and drops the full ones afterwards,
    one by one, while others subscribe and leave. */
module FeedSteps {
  import opened Basics
  import opened CallModel

  const SUB_BUFFER_SIZE: nat := 64

  /** A subscriber's buffered queue; handles and queues come in pairs. */
  datatype Chan = Chan(buf: seq<Event>, closed: bool)

  /** Where the one publisher is: between events, in the send loop (todo still to be offered
      the event, dead found full), or dropping the dead. */
  datatype Phase = Idle | Sending(ev: Event, todo: set<nat>, dead: set<nat>) | Dropping(dead: set<nat>)

  datatype FeedState = FeedState(
    nextId: nat,                        // the last handle drawn
    drawn: set<nat>,                    // handles drawn by a Subscribe that has no lock yet
    subs: set<nat>,                     // the registered handles
    chans: map<nat, Chan>,              // every queue ever made
    phase: Phase,
    published: seq<Event>,              // history: every event whose publication began
    joined: map<nat, nat>,              // history: how much was published when a handle registered
    received: map<nat, seq<Event>>,     // history: what each reader took out
    panicked: bool)                     // a send on a closed queue or a second close happened

  const INIT := FeedState(0, {}, {}, map[], Idle, [], map[], map[], false)

  datatype Action =
    | Draw                  // Subscribe: take the next handle and make its queue
    | Join(id: nat)         // Subscribe: register it under the write lock
    | Leave(id: nat)        // Unsubscribe by anyone, of any handle
    | Publish(ev: Event)    // publish: take the read lock
    | Send(id: nat)         // the send loop reaches one subscriber
    | SendsDone             // the read lock is released
    | Drop(id: nat)         // the publisher's own Unsubscribe of a dead handle
    | PublishDone
    | Receive(id: nat)      // a reader takes the oldest event of its queue

  /** When an action can happen.  Write-lock holders wait while the read lock is held. */
  predicate Enabled(f: FeedState, a: Action) {
    match a
    case Draw => true
    case Join(id) => !f.phase.Sending? && id in f.drawn
    case Leave(_) => !f.phase.Sending?
    case Publish(_) => f.phase.Idle?
    case Send(id) => f.phase.Sending? && id in f.phase.todo && id in f.chans
    case SendsDone => f.phase.Sending? && f.phase.todo == {}
    case Drop(id) => f.phase.Dropping? && id in f.phase.dead
    case PublishDone => f.phase.Dropping? && f.phase.dead == {}
    case Receive(id) => id in f.received && id in f.chans && f.chans[id].buf != []
  }

  /** Unsubscribe, whoever calls it. */
  function Unsubscribe(f: FeedState, id: nat): FeedState {
    if id in f.subs && id in f.chans then
      f.(subs := f.subs - {id},
         chans := f.chans[id := f.chans[id].(closed := true)],
         panicked := f.panicked || f.chans[id].closed)
    else f
  }

  function Next(f: FeedState, a: Action): FeedState
    requires Enabled(f, a)
  {
    match a
    case Draw =>
      f.(nextId := f.nextId + 1, drawn := f.drawn + {f.nextId + 1}, chans := f.chans[f.nextId + 1 := Chan([], false)])
    case Join(id) =>
      f.(drawn := f.drawn - {id}, subs := f.subs + {id},
         joined := f.joined[id := |f.published|], received := f.received[id := []])
    case Leave(id) => Unsubscribe(f, id)
    case Publish(ev) => f.(phase := Sending(ev, f.subs, {}), published := f.published + [ev])
    case Send(id) =>
      var c, todo := f.chans[id], f.phase.todo - {id};
      if |c.buf| < SUB_BUFFER_SIZE then
        f.(chans := f.chans[id := c.(buf := c.buf + [f.phase.ev])], phase := f.phase.(todo := todo),
           panicked := f.panicked || c.closed)
      else
        f.(phase := Sending(f.phase.ev, todo, f.phase.dead + {id}))
    case SendsDone => f.(phase := Dropping(f.phase.dead))
    case Drop(id) => Unsubscribe(f, id).(phase := Dropping(f.phase.dead - {id}))
    case PublishDone => f.(phase := Idle)
    case Receive(id) =>
      var c := f.chans[id];
      f.(chans := f.chans[id := c.(buf := c.buf[1..])], received := f.received[id := f.received[id] + [c.buf[0]]])
  }

  // ---- Runs ----

  ghost predicate IsRun(f: FeedState, acts: seq<Action>, g: FeedState)
    decreases |acts|
  {
    if acts == [] then f == g
    else
      var n := |acts| - 1;
      exists h :: IsRun(f, acts[..n], h) && Enabled(h, acts[n]) && Next(h, acts[n]) == g
  }

  // ---- What holds in every reachable state ----

  /** What a subscriber has taken out and still has in its queue. */
  function Delivered(f: FeedState, id: nat): seq<Event>
    requires id in f.received && id in f.chans
  {
    f.received[id] + f.chans[id].buf
  }

  /** The event being published has not reached this subscriber yet, or never will. */
  predicate Behind(f: FeedState, id: nat) {
    match f.phase
    case Idle => false
    case Sending(_, todo, dead) => id in todo || id in dead
    case Dropping(dead) => id in dead
  }

  /** What a subscriber got is a gap-free segment of the published sequence, starting with the
      first event after it joined, and while it is registered it reaches the latest event,
      except for the one still being offered. */
  ghost predicate GapFree(f: FeedState, id: nat)
    requires id in f.joined && id in f.received && id in f.chans
  {
    var j, n := f.joined[id], |Delivered(f, id)|;
    && j + n <= |f.published|
    && Delivered(f, id) == f.published[j..j + n]
    && (id in f.subs ==> j + n == |f.published| - if Behind(f, id) then 1 else 0)
  }

  /** A queue is open exactly while its handle is drawn or registered, and never over its bound. */
  ghost predicate QueuesOk(f: FeedState) {
    && (forall id :: id in f.chans <==> 1 <= id <= f.nextId)
    && (forall id :: id in f.chans <==> id in f.drawn || id in f.joined)
    && f.drawn !! f.joined.Keys && f.subs <= f.joined.Keys && f.joined.Keys == f.received.Keys
    && (forall id :: id in f.chans ==> (f.chans[id].closed <==> id !in f.drawn && id !in f.subs))
    && (forall id :: id in f.chans ==> |f.chans[id].buf| <= SUB_BUFFER_SIZE)
    && (forall id :: id in f.drawn ==> f.chans[id].buf == [])
    && !f.panicked
  }

  /** The publisher's loop variables. */
  ghost predicate PhaseOk(f: FeedState) {
    match f.phase
    case Idle => true
    case Sending(ev, todo, dead) =>
      f.published != [] && f.published[|f.published| - 1] == ev && todo + dead <= f.subs && todo !! dead
    case Dropping(dead) => f.published != [] && dead <= f.joined.Keys
  }

  ghost predicate Inv(f: FeedState) {
    && QueuesOk(f) && PhaseOk(f)
    && (forall id :: id in f.joined ==> GapFree(f, id))
  }

  lemma UnsubscribeKeepsQueues(f: FeedState, id: nat)
    requires QueuesOk(f) && PhaseOk(f) && !f.phase.Sending?
    ensures QueuesOk(Unsubscribe(f, id)) && PhaseOk(Unsubscribe(f, id))
  {
  }

  lemma UnsubscribeKeeps(f: FeedState, id: nat)
    requires Inv(f) && !f.phase.Sending?
    ensures Inv(Unsubscribe(f, id))
  {
    hide QueuesOk, PhaseOk;
    var g := Unsubscribe(f, id);
    UnsubscribeKeepsQueues(f, id);
    forall k | k in g.joined
      ensures k in g.received && k in g.chans && GapFree(g, k)
    {
      assert GapFree(f, k) && Delivered(f, k) == Delivered(g, k);
    }
  }

  lemma SendKeepsQueues(f: FeedState, id: nat)
    requires QueuesOk(f) && PhaseOk(f) && Enabled(f, Send(id))
    ensures QueuesOk(Next(f, Send(id))) && PhaseOk(Next(f, Send(id)))
  {
  }

  lemma SentExtends(f: FeedState, id: nat)
    requires Inv(f) && Enabled(f, Send(id)) && |f.chans[id].buf| < SUB_BUFFER_SIZE
    ensures GapFree(Next(f, Send(id)), id)
  {
    var j, n := f.joined[id], |f.published| - 1;
    assert GapFree(f, id);
    assert Delivered(Next(f, Send(id)), id) == Delivered(f, id) + [f.published[n]];
    assert f.published[j..n + 1] == f.published[j..n] + [f.published[n]];
  }

  /** Whoever does not take the event has what it had, and is as far behind. */
  lemma NotSentTo(f: FeedState, id: nat, k: nat)
    requires PhaseOk(f) && Enabled(f, Send(id)) && k in f.joined && k in f.received && k in f.chans && GapFree(f, k)
    requires k != id || |f.chans[id].buf| >= SUB_BUFFER_SIZE
    ensures var g := Next(f, Send(id)); k in g.joined && k in g.received && k in g.chans && GapFree(g, k)
  {
    assert Delivered(Next(f, Send(id)), k) == Delivered(f, k);
  }

  lemma SendKeeps(f: FeedState, id: nat)
    requires Inv(f) && Enabled(f, Send(id))
    ensures Inv(Next(f, Send(id)))
  {
    hide QueuesOk, PhaseOk, GapFree, Delivered, Behind;
    var g := Next(f, Send(id));
    SendKeepsQueues(f, id);
    forall k | k in g.joined
      ensures k in g.received && k in g.chans && GapFree(g, k)
    {
      assert k in f.joined && GapFree(f, k);
      if k == id && |f.chans[id].buf| < SUB_BUFFER_SIZE {
        SentExtends(f, id);
      } else {
        NotSentTo(f, id, k);
      }
    }
  }

  lemma ReceiveKeepsQueues(f: FeedState, id: nat)
    requires QueuesOk(f) && PhaseOk(f) && Enabled(f, Receive(id))
    ensures QueuesOk(Next(f, Receive(id))) && PhaseOk(Next(f, Receive(id)))
  {
  }

  lemma ReceiveMoves(f: FeedState, id: nat, k: nat)
    requires Enabled(f, Receive(id)) && k in f.received && k in f.chans
    ensures var g := Next(f, Receive(id));
      k in g.received && k in g.chans && Delivered(g, k) == Delivered(f, k)
  {
  }

  lemma {:induction false} ReceiveKeeps(f: FeedState, id: nat)
    requires Inv(f) && Enabled(f, Receive(id))
    ensures Inv(Next(f, Receive(id)))
  {
    hide QueuesOk, PhaseOk, Delivered;
    var g := Next(f, Receive(id));
    ReceiveKeepsQueues(f, id);
    forall k | k in g.joined
      ensures k in g.received && k in g.chans && GapFree(g, k)
    {
      assert GapFree(f, k);
      ReceiveMoves(f, id, k);
    }
  }

  lemma DrawKeepsQueues(f: FeedState)
    requires QueuesOk(f) && PhaseOk(f)
    ensures QueuesOk(Next(f, Draw)) && PhaseOk(Next(f, Draw))
    ensures f.nextId + 1 !in f.chans && f.nextId + 1 !in f.joined && f.nextId + 1 !in f.subs
  {
  }

  lemma DrawKeeps(f: FeedState)
    requires Inv(f)
    ensures Inv(Next(f, Draw))
  {
    hide QueuesOk, PhaseOk;
    var g := Next(f, Draw);
    DrawKeepsQueues(f);
    forall k | k in g.joined
      ensures k in g.received && k in g.chans && GapFree(g, k)
    {
      assert GapFree(f, k) && Delivered(g, k) == Delivered(f, k);
    }
  }

  lemma JoinKeepsQueues(f: FeedState, id: nat)
    requires QueuesOk(f) && PhaseOk(f) && Enabled(f, Join(id))
    ensures QueuesOk(Next(f, Join(id))) && PhaseOk(Next(f, Join(id)))
    ensures id in f.chans && f.chans[id].buf == [] && id !in f.joined && !Behind(f, id)
  {
  }

  lemma JoinKeeps(f: FeedState, id: nat)
    requires Inv(f) && Enabled(f, Join(id))
    ensures Inv(Next(f, Join(id)))
  {
    hide QueuesOk, PhaseOk;
    var g := Next(f, Join(id));
    JoinKeepsQueues(f, id);
    assert Delivered(g, id) == [] == f.published[|f.published|..];
    forall k | k in g.joined && k != id
      ensures k in g.received && k in g.chans && GapFree(g, k)
    {
      assert GapFree(f, k) && Delivered(g, k) == Delivered(f, k);
    }
  }

  lemma PublishKeeps(f: FeedState, ev: Event)
    requires Inv(f) && f.phase.Idle?
    ensures Inv(Next(f, Publish(ev)))
  {
    var g := Next(f, Publish(ev));
    forall k | k in g.joined
      ensures GapFree(g, k)
    {
      assert GapFree(f, k) && Delivered(g, k) == Delivered(f, k);
    }
  }

  lemma QueuesSame(h: FeedState, g: FeedState)
    requires QueuesOk(h) && g == h.(phase := g.phase)
    ensures QueuesOk(g)
    ensures forall k :: k in h.joined ==> k in h.received && k in h.chans
  {
  }

  /** A step that only moves the publisher on. */
  lemma PhaseOnly(h: FeedState, g: FeedState)
    requires Inv(h) && g == h.(phase := g.phase) && PhaseOk(g)
    requires forall k :: k in h.subs ==> Behind(g, k) == Behind(h, k)
    ensures Inv(g)
  {
    hide QueuesOk, Behind;
    QueuesSame(h, g);
    forall k | k in g.joined
      ensures GapFree(g, k)
    {
      assert GapFree(h, k) && Delivered(g, k) == Delivered(h, k);
    }
  }

  lemma DeadJoined(f: FeedState, id: nat)
    requires Inv(f) && Enabled(f, Drop(id))
    ensures PhaseOk(Next(f, Drop(id)))
  {
  }

  lemma DropKeeps(f: FeedState, id: nat)
    requires Inv(f) && Enabled(f, Drop(id))
    ensures Inv(Next(f, Drop(id)))
  {
    UnsubscribeKeeps(f, id);
    assert id !in Unsubscribe(f, id).subs;
    hide Inv, GapFree, QueuesOk;
    assert PhaseOk(Next(f, Drop(id))) by { DeadJoined(f, id); }
    PhaseOnly(Unsubscribe(f, id), Next(f, Drop(id)));
  }

  lemma PhaseKeeps(f: FeedState, a: Action)
    requires Inv(f) && Enabled(f, a) && (a.SendsDone? || a.PublishDone?)
    ensures Inv(Next(f, a))
  {
    hide GapFree;
    PhaseOnly(f, Next(f, a));
  }

  lemma {:induction false} NextKeepsInv(f: FeedState, a: Action)
    requires Inv(f) && Enabled(f, a)
    ensures Inv(Next(f, a))
  {
    hide Inv;
    match a
    case Draw => DrawKeeps(f);
    case Join(id) => JoinKeeps(f, id);
    case Leave(id) => UnsubscribeKeeps(f, id);
    case Publish(ev) => PublishKeeps(f, ev);
    case Send(id) => SendKeeps(f, id);
    case SendsDone => PhaseKeeps(f, a);
    case Drop(id) => DropKeeps(f, id);
    case PublishDone => PhaseKeeps(f, a);
    case Receive(id) => ReceiveKeeps(f, id);
  }

  lemma {:induction false} RunKeepsInv(f: FeedState, acts: seq<Action>, g: FeedState)
    requires Inv(f) && IsRun(f, acts, g)
    ensures Inv(g)
    decreases |acts|
  {
    if acts == [] {
    } else {
      var n := |acts| - 1;
      var h :| IsRun(f, acts[..n], h) && Enabled(h, acts[n]) && Next(h, acts[n]) == g;
      RunKeepsInv(f, acts[..n], h);
      NextKeepsInv(h, acts[n]);
    }
  }

  /** Gap-free delivery in every interleaving: a subscriber's events are a contiguous segment
      of the published sequence from the first one after it joined, and reach the latest
      while it is registered and the publisher is idle. */
  lemma EveryRunIsGapFree(acts: seq<Action>, f: FeedState, id: nat)
    requires IsRun(INIT, acts, f) && id in f.joined
    ensures id in f.received && id in f.chans
    ensures
      var j, got := f.joined[id], Delivered(f, id);
      && j + |got| <= |f.published| && got == f.published[j..j + |got|]
      && (id in f.subs && f.phase.Idle? ==> got == f.published[j..])
  {
    RunKeepsInv(INIT, acts, f);
    assert GapFree(f, id);
  }

  /** Channel safety in every interleaving: no send on a closed queue, no second close, no
      queue over its bound, registered exactly if joined and open, and the next handle is new. */
  lemma EveryRunIsSafe(acts: seq<Action>, f: FeedState, id: nat)
    requires IsRun(INIT, acts, f)
    ensures !f.panicked && f.nextId + 1 !in f.chans
    ensures id in f.chans ==> |f.chans[id].buf| <= SUB_BUFFER_SIZE
    ensures id in f.subs <==> id in f.joined && id in f.chans && !f.chans[id].closed
  {
    RunKeepsInv(INIT, acts, f);
  }

  lemma StaysClosed(f: FeedState, a: Action, id: nat)
    requires Inv(f) && Enabled(f, a) && id in f.joined && id !in f.subs
    ensures
      var g := Next(f, a);
      id in g.joined && id !in g.subs && id in g.received && id in g.chans && g.chans[id].closed &&
      Delivered(g, id) == Delivered(f, id)
  {
    hide GapFree;
    assert a.Send? ==> a.id in f.subs;
    assert a.Join? ==> a.id !in f.joined;
    assert a.Draw? ==> f.nextId + 1 != id;
  }

  /** A subscriber that is gone stays gone: its handle and queue are never used again. */
  lemma {:induction false} GoneForGood(f: FeedState, acts: seq<Action>, g: FeedState, id: nat)
    requires Inv(f) && IsRun(f, acts, g) && id in f.joined && id !in f.subs
    ensures Inv(g) && id in g.joined && id !in g.subs && g.chans[id].closed && Delivered(g, id) == Delivered(f, id)
    decreases |acts|
  {
    if acts == [] {
    } else {
      var n := |acts| - 1;
      var h :| IsRun(f, acts[..n], h) && Enabled(h, acts[n]) && Next(h, acts[n]) == g;
      GoneForGood(f, acts[..n], h, id);
      StaysClosed(h, acts[n], id);
      NextKeepsInv(h, acts[n]);
    }
  }

  /** Leaving takes exactly that subscriber out and closes its queue, with what it holds still in it;
      leaving twice, or before joining, does nothing. */
  lemma LeaveRemoves(f: FeedState, id: nat)
    requires Inv(f) && Enabled(f, Leave(id))
    ensures
      var g := Next(f, Leave(id));
      if id in f.subs then
        id in f.chans && g == f.(subs := f.subs - {id}, chans := f.chans[id := Chan(f.chans[id].buf, true)])
      else g == f
  {
  }

  lemma StepKeepsJoined(f: FeedState, a: Action)
    requires Inv(f) && Enabled(f, a)
    ensures f.joined.Keys <= Next(f, a).joined.Keys
    ensures a.Join? ==> a.id in Next(f, a).joined
  {
    hide GapFree, QueuesOk;
  }

  lemma {:induction false} JoinedStays(acts: seq<Action>, f: FeedState, id: nat)
    requires IsRun(INIT, acts, f) && Join(id) in acts
    ensures id in f.joined
    decreases |acts|
  {
    hide Inv, Next, Enabled;
    var n := |acts| - 1;
    var h :| IsRun(INIT, acts[..n], h) && Enabled(h, acts[n]) && Next(h, acts[n]) == f;
    RunKeepsInv(INIT, acts[..n], h);
    StepKeepsJoined(h, acts[n]);
    if acts[n] != Join(id) {
      assert acts == acts[..n] + [acts[n]];
      JoinedStays(acts[..n], h, id);
    }
  }

  lemma GoneIsClosed(f: FeedState, id: nat)
    requires Inv(f) && id in f.joined && id !in f.subs
    ensures id in f.chans && f.chans[id].closed && id in f.received
  {
    hide GapFree;
  }

  /** After any interleaving in which a subscriber left behind its joining, it is not registered
      and its queue is closed. */
  lemma {:induction false} LeftIsGone(acts: seq<Action>, f: FeedState, id: nat, j: nat, k: nat)
    requires IsRun(INIT, acts, f) && j < k < |acts| && acts[j] == Join(id) && acts[k] == Leave(id)
    ensures id in f.joined && id !in f.subs && id in f.chans && f.chans[id].closed && id in f.received
    decreases |acts|
  {
    hide Inv, Next, Enabled;
    var n := |acts| - 1;
    var h :| IsRun(INIT, acts[..n], h) && Enabled(h, acts[n]) && Next(h, acts[n]) == f;
    RunKeepsInv(INIT, acts[..n], h);
    RunKeepsInv(INIT, acts, f);
    assert acts[..n][j] == acts[j];
    JoinedStays(acts[..n], h, id);
    StepKeepsJoined(h, acts[n]);
    if k < n {
      LeftIsGone(acts[..n], h, id, j, k);
      StaysClosed(h, acts[n], id);
    } else {
      LeaveRemoves(h, id);
    }
    GoneIsClosed(f, id);
  }

  /** And whatever happens afterwards, it never gets another event. */
  lemma LeaveEndsDelivery(acts: seq<Action>, f: FeedState, more: seq<Action>, g: FeedState, id: nat, j: nat, k: nat)
    requires IsRun(INIT, acts, f) && j < k < |acts| && acts[j] == Join(id) && acts[k] == Leave(id)
    requires IsRun(f, more, g)
    ensures id in f.received && id in f.chans && id in g.received && id in g.chans
    ensures id !in g.subs && g.chans[id].closed && Delivered(g, id) == Delivered(f, id)
  {
    hide IsRun, GapFree;
    LeftIsGone(acts, f, id, j, k);
    RunKeepsInv(INIT, acts, f);
    GoneForGood(f, more, g, id);
  }

  /** A subscriber that is offered an event with fewer than 64 in its queue gets it and stays. */
  lemma OfferTaken(f: FeedState, id: nat)
    requires Inv(f) && Enabled(f, Send(id)) && |f.chans[id].buf| < 64
    ensures
      var g := Next(f, Send(id));
      && id in g.subs && g.chans[id] == Chan(f.chans[id].buf + [f.phase.ev], false)
      && g.phase.Sending? && g.phase.dead == f.phase.dead && id !in g.phase.dead
  {
    hide GapFree;
  }

  /** Noted as full by the publication under way. */
  predicate Dead(f: FeedState, id: nat) {
    !f.phase.Idle? && id in f.phase.dead
  }

  /** The two causes of a removal: an Unsubscribe, or an offer that found the queue full. */
  ghost predicate Cause(acts: seq<Action>, id: nat) {
    || Leave(id) in acts
    || exists k, h ::
         && 0 <= k < |acts| && acts[k] == Send(id) && IsRun(INIT, acts[..k], h)
         && id in h.chans && |h.chans[id].buf| == SUB_BUFFER_SIZE
  }

  lemma CauseStays(acts: seq<Action>, n: nat, id: nat)
    requires n <= |acts| && Cause(acts[..n], id)
    ensures Cause(acts, id)
  {
    hide IsRun;
    if Leave(id) !in acts[..n] {
      var k, h :| 0 <= k < n && acts[..n][k] == Send(id) && IsRun(INIT, acts[..n][..k], h)
                  && id in h.chans && |h.chans[id].buf| == SUB_BUFFER_SIZE;
      assert acts[..n][..k] == acts[..k];
    }
  }

  lemma RemovalStep(f: FeedState, a: Action, id: nat)
    requires Inv(f) && Enabled(f, a) && !(id in f.joined && id !in f.subs) && !Dead(f, id)
    requires (id in Next(f, a).joined && id !in Next(f, a).subs) || Dead(Next(f, a), id)
    ensures a == Leave(id) || (a == Send(id) && id in f.chans && |f.chans[id].buf| == SUB_BUFFER_SIZE)
  {
    hide GapFree;
  }

  /** No subscriber is removed without cause: who joined and is not registered any more, or is
      about to be dropped, left or was offered an event with a full queue. */
  lemma {:induction false} RemovedForCause(acts: seq<Action>, f: FeedState, id: nat)
    requires IsRun(INIT, acts, f)
    requires (id in f.joined && id !in f.subs) || Dead(f, id)
    ensures Cause(acts, id)
    decreases |acts|
  {
    hide Inv, Next, Enabled;
    if acts == [] {
      assert false;
    } else {
      var n := |acts| - 1;
      var h :| IsRun(INIT, acts[..n], h) && Enabled(h, acts[n]) && Next(h, acts[n]) == f;
      if (id in h.joined && id !in h.subs) || Dead(h, id) {
        RemovedForCause(acts[..n], h, id);
        CauseStays(acts, n, id);
      } else {
        RunKeepsInv(INIT, acts[..n], h);
        RemovalStep(h, acts[n], id);
      }
    }
  }

  // ---- Publishing with nobody in between ----

  function Full(f: FeedState): set<nat> {
    set id | id in f.subs && id in f.chans && |f.chans[id].buf| >= SUB_BUFFER_SIZE
  }

  /** The queues after an event was offered to the given subscribers. */
  function Offered(chans: map<nat, Chan>, subs: set<nat>, ev: Event): map<nat, Chan> {
    map id | id in chans ::
      if id in subs && |chans[id].buf| < SUB_BUFFER_SIZE then chans[id].(buf := chans[id].buf + [ev]) else chans[id]
  }

  function Closed(chans: map<nat, Chan>, ids: set<nat>): map<nat, Chan> {
    map id | id in chans :: if id in ids then chans[id].(closed := true) else chans[id]
  }

  /** One whole publication: the event to every subscriber with room, the others closed and gone. */
  function PublishAlone(f: FeedState, ev: Event): FeedState {
    f.(published := f.published + [ev],
       chans := Closed(Offered(f.chans, f.subs, ev), Full(f)),
       subs := f.subs - Full(f))
  }

  function PublishOpt(f: FeedState, ev: Option<Event>): FeedState {
    if ev.None? then f else PublishAlone(f, ev.value)
  }

  lemma {:induction false} RunConcat(f: FeedState, a: seq<Action>, g: FeedState, b: seq<Action>, h: FeedState)
    requires IsRun(f, a, g) && IsRun(g, b, h)
    ensures IsRun(f, a + b, h)
    decreases |b|
  {
    if b == [] {
      assert a + b == a;
    } else {
      var n := |b| - 1;
      var k :| IsRun(g, b[..n], k) && Enabled(k, b[n]) && Next(k, b[n]) == h;
      RunConcat(f, a, g, b[..n], k);
      assert (a + b)[..|a + b| - 1] == a + b[..n];
    }
  }

  lemma RunOne(f: FeedState, a: Action)
    requires Enabled(f, a)
    ensures IsRun(f, [a], Next(f, a))
  {
    assert IsRun(f, [a][..0], f);
  }

  /** Where the send loop ends. */
  function Sent(f: FeedState): FeedState
    requires f.phase.Sending?
  {
    f.(chans := Offered(f.chans, f.phase.todo, f.phase.ev),
       phase := Sending(f.phase.ev, {}, f.phase.dead + (f.phase.todo * Full(f))))
  }

  /** Where the dropping ends. */
  function Dropped(f: FeedState): FeedState
    requires f.phase.Dropping?
  {
    f.(chans := Closed(f.chans, f.phase.dead), subs := f.subs - f.phase.dead, phase := Dropping({}))
  }

  lemma SendTowardsSent(f: FeedState, id: nat)
    requires Inv(f) && Enabled(f, Send(id))
    ensures Sent(Next(f, Send(id))) == Sent(f)
  {
    var g := Next(f, Send(id));
    assert Offered(g.chans, g.phase.todo, f.phase.ev) == Offered(f.chans, f.phase.todo, f.phase.ev);
    assert g.phase.dead + (g.phase.todo * Full(g)) == f.phase.dead + (f.phase.todo * Full(f));
  }

  lemma DropTowardsDropped(f: FeedState, id: nat)
    requires Inv(f) && Enabled(f, Drop(id)) && f.phase.dead <= f.subs
    ensures Dropped(Next(f, Drop(id))) == Dropped(f)
  {
    var g := Next(f, Drop(id));
    assert Closed(g.chans, g.phase.dead) == Closed(f.chans, f.phase.dead);
    assert g.subs - g.phase.dead == f.subs - f.phase.dead;
  }

  lemma RunNone(f: FeedState)
    ensures IsRun(f, [], f)
  {
  }

  lemma {:induction false} SendLoop(f: FeedState) returns (acts: seq<Action>)
    requires Inv(f) && f.phase.Sending?
    ensures IsRun(f, acts, Sent(f)) && Inv(Sent(f))
    decreases f.phase.todo
  {
    hide GapFree, IsRun;
    if f.phase.todo == {} {
      acts := [];
      assert Offered(f.chans, {}, f.phase.ev) == f.chans;
      assert f.phase.dead + ({} * Full(f)) == f.phase.dead;
      assert Sent(f) == f;
      RunNone(f);
    } else {
      var id :| id in f.phase.todo;
      RunOne(f, Send(id));
      NextKeepsInv(f, Send(id));
      SendTowardsSent(f, id);
      var rest := SendLoop(Next(f, Send(id)));
      acts := [Send(id)] + rest;
      RunConcat(f, [Send(id)], Next(f, Send(id)), rest, Sent(f));
    }
  }

  lemma {:induction false} DropLoop(f: FeedState) returns (acts: seq<Action>)
    requires Inv(f) && f.phase.Dropping? && f.phase.dead <= f.subs
    ensures IsRun(f, acts, Dropped(f))
    decreases f.phase.dead
  {
    hide GapFree, IsRun, QueuesOk;
    if f.phase.dead == {} {
      acts := [];
      assert Closed(f.chans, {}) == f.chans && f.subs - {} == f.subs;
      RunNone(f);
    } else {
      var id :| id in f.phase.dead;
      RunOne(f, Drop(id));
      NextKeepsInv(f, Drop(id));
      DropTowardsDropped(f, id);
      var rest := DropLoop(Next(f, Drop(id)));
      acts := [Drop(id)] + rest;
      RunConcat(f, [Drop(id)], Next(f, Drop(id)), rest, Dropped(f));
    }
  }

  /** The uninterrupted publication is one of the interleavings. */
  lemma PublishAloneIsARun(f: FeedState, ev: Event)
    returns (acts: seq<Action>)
    requires Inv(f) && f.phase.Idle?
    ensures IsRun(f, acts, PublishAlone(f, ev))
  {
    hide IsRun, GapFree;
    var f1 := Next(f, Publish(ev));
    RunOne(f, Publish(ev));
    NextKeepsInv(f, Publish(ev));
    var sends := SendLoop(f1);
    var f2 := Sent(f1);
    assert f2.phase.dead == Full(f);
    RunConcat(f, [Publish(ev)], f1, sends, f2);
    var f3 := Next(f2, SendsDone);
    RunOne(f2, SendsDone);
    NextKeepsInv(f2, SendsDone);
    RunConcat(f, [Publish(ev)] + sends, f2, [SendsDone], f3);
    var drops := DropLoop(f3);
    var f4 := Dropped(f3);
    RunConcat(f, [Publish(ev)] + sends + [SendsDone], f3, drops, f4);
    RunOne(f4, PublishDone);
    acts := [Publish(ev)] + sends + [SendsDone] + drops + [PublishDone];
    RunConcat(f, [Publish(ev)] + sends + [SendsDone] + drops, f4, [PublishDone], PublishAlone(f, ev));
  }
}
