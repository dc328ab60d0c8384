/** The feed as an object: subscriptions and queues updated in place.  Its methods are the
    runs of FeedSteps that nobody interrupts.  In the source these fields sit beside the
    store in one struct, under a lock of their own. */
module EventFeed {
  import opened CallModel
  import opened FeedSteps

  /** The send loop: the event to every queue with room, the other handles noted. */
  method OfferAll(chans: map<nat, Chan>, subs: set<nat>, ev: Event) returns (r: map<nat, Chan>, dead: set<nat>)
    requires subs <= chans.Keys
    ensures r == Offered(chans, subs, ev)
    ensures dead == set id | id in subs && |chans[id].buf| >= SUB_BUFFER_SIZE
  {
    r, dead := chans, {};
    var todo := subs;
    while todo != {}
      invariant todo <= subs && r == Offered(chans, subs - todo, ev)
      invariant dead == set id | id in subs - todo && |chans[id].buf| >= SUB_BUFFER_SIZE
      decreases todo
    {
      var id :| id in todo;
      if |r[id].buf| < SUB_BUFFER_SIZE {
        r := r[id := r[id].(buf := r[id].buf + [ev])];
      } else {
        dead := dead + {id};
      }
      todo := todo - {id};
    }
    assert subs - {} == subs;
  }

  /** The clean-up loop: closes every dead subscriber's queue. */
  method CloseAll(chans: map<nat, Chan>, dead: set<nat>) returns (r: map<nat, Chan>)
    requires dead <= chans.Keys
    ensures r == Closed(chans, dead)
  {
    r := chans;
    var todo := dead;
    while todo != {}
      invariant todo <= dead && r == Closed(chans, dead - todo)
      decreases todo
    {
      var id :| id in todo;
      r := r[id := r[id].(closed := true)];
      todo := todo - {id};
    }
    assert dead - {} == dead;
  }

  lemma PublishAloneKeeps(f: FeedState, ev: Event)
    requires Inv(f) && f.phase.Idle?
    ensures Inv(PublishAlone(f, ev))
  {
    var acts := PublishAloneIsARun(f, ev);
    RunKeepsInv(f, acts, PublishAlone(f, ev));
  }

  /** Every subscriber with fewer than 64 queued events gets the event and stays; every other is
      closed as it is and gone; nobody else notices. */
  ghost predicate Delivers(
    chans: map<nat, Chan>, subs: set<nat>, chans': map<nat, Chan>, subs': set<nat>, ev: Event)
  {
    && chans'.Keys == chans.Keys && subs' <= subs
    && forall id :: id in chans ==>
         var was := chans[id];
         if id !in subs then id !in subs' && chans'[id] == was
         else if |was.buf| < 64 then id in subs' && chans'[id] == Chan(was.buf + [ev], false)
         else id !in subs' && chans'[id] == Chan(was.buf, true)
  }

  lemma PublishAloneDelivers(f: FeedState, ev: Event)
    requires Inv(f)
    ensures var g := PublishAlone(f, ev); Delivers(f.chans, f.subs, g.chans, g.subs, ev)
  {
    hide GapFree;
  }

  class Feed {
    var nextSubId: nat
    var subs: set<nat>
    var chans: map<nat, Chan>
    ghost var log: seq<Event>
    ghost var joined: map<nat, nat>
    ghost var received: map<nat, seq<Event>>

    ghost function Abs(): FeedState
      reads this
    {
      FeedState(nextSubId, {}, subs, chans, Idle, log, joined, received, false)
    }

    ghost predicate Valid()
      reads this
    {
      Inv(Abs())
    }

    constructor ()
      ensures Valid() && Abs() == INIT
    {
      nextSubId, subs, chans, log, joined, received := 0, {}, map[], [], map[], map[];
    }

    method Subscribe() returns (id: nat)
      requires Valid()
      modifies this
      ensures Valid() && id !in old(chans) && id in subs && id == old(nextSubId) + 1
      ensures Abs() == Next(Next(old(Abs()), Draw), Join(id))
      ensures subs == old(subs) + {id} && chans == old(chans)[id := Chan([], false)]
      ensures joined == old(joined)[id := |old(log)|] && log == old(log)
    {
      DrawKeeps(Abs());
      nextSubId := nextSubId + 1;
      id := nextSubId;
      JoinKeeps(Next(old(Abs()), Draw), id);
      chans := chans[id := Chan([], false)];
      subs := subs + {id};
      joined, received := joined[id := |log|], received[id := []];
      assert {} + {id} - {id} == {};
    }

    method Unsubscribe(id: nat)
      requires Valid()
      modifies this`subs, this`chans
      ensures Valid() && Abs() == Next(old(Abs()), Leave(id))
      ensures id in old(subs) ==>
        id in old(chans) && subs == old(subs) - {id} && chans == old(chans)[id := Chan(old(chans)[id].buf, true)]
      ensures id !in old(subs) ==> subs == old(subs) && chans == old(chans)
    {
      UnsubscribeKeeps(Abs(), id);
      if id in subs {
        subs := subs - {id};
        chans := chans[id := chans[id].(closed := true)];
      }
    }

    /** Offers the event to every subscriber, then unsubscribes those without room. */
    method Publish(ev: Event)
      requires Valid()
      modifies this`subs, this`chans, this`log
      ensures Valid() && Abs() == PublishAlone(old(Abs()), ev)
      ensures log == old(log) + [ev] && Delivers(old(chans), old(subs), chans, subs, ev)
    {
      hide Delivers;
      PublishAloneKeeps(Abs(), ev);
      PublishAloneDelivers(Abs(), ev);
      var dead: set<nat>;
      log := log + [ev];
      chans, dead := OfferAll(chans, subs, ev);
      chans := CloseAll(chans, dead);
      subs := subs - dead;
      assert dead == Full(old(Abs()));
    }
  }
}
