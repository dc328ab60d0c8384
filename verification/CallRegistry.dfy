/** The registry itself: maps and channel objects updated in place, events published to the
    feed.  Each method is proved against the step of CallModel. */
module CallRegistry {
  import opened Basics
  import opened StableSort
  import opened CallModel
  import opened CallViews
  import opened EventFeed
  import opened FeedSteps

  /** A channel on the heap; the registry edits it in place and publishes copies. */
  class ChannelRef {
    var value: Channel

    constructor (value: Channel)
      ensures this.value == value
    {
      this.value := value;
    }
  }

  // ---- Bridge counting ----

  function BridgeCount(s: seq<Channel>, b: string): nat {
    if s == [] then 0
    else BridgeCount(s[..|s| - 1], b) + if s[|s| - 1].bridgeId == b then 1 else 0
  }

  lemma {:induction false} BridgeCountOne(s: seq<Channel>, b: string)
    ensures BridgeCount(s, b) >= 1 <==> exists i :: 0 <= i < |s| && s[i].bridgeId == b
  {
    if s == [] {
    } else {
      var n := |s| - 1;
      BridgeCountOne(s[..n], b);
      assert forall i :: 0 <= i < n ==> s[..n][i] == s[i];
    }
  }

  lemma {:induction false} BridgeCountTwo(s: seq<Channel>, b: string)
    ensures BridgeCount(s, b) >= 2 <==> exists i, j :: 0 <= i < j < |s| && s[i].bridgeId == b == s[j].bridgeId
  {
    if s == [] {
    } else {
      var n := |s| - 1;
      BridgeCountOne(s[..n], b);
      BridgeCountTwo(s[..n], b);
      assert forall i :: 0 <= i < n ==> s[..n][i] == s[i];
      if BridgeCount(s, b) >= 2 && s[n].bridgeId == b {
        var i :| 0 <= i < |s[..n]| && s[..n][i].bridgeId == b;
        assert s[i].bridgeId == b == s[n].bridgeId;
      }
    }
  }

  ghost predicate Counts(m: map<string, nat>, s: seq<Channel>) {
    forall b :: (b in m <==> b != "" && BridgeCount(s, b) > 0) && (b in m ==> m[b] == BridgeCount(s, b))
  }

  lemma CountsDecideBridged(m: map<string, nat>, s: seq<Channel>)
    requires Counts(m, s)
    ensures SharedBridge(s) <==> exists b :: b in m && m[b] >= 2
  {
    if b :| b in m && m[b] >= 2 {
      BridgeCountTwo(s, b);
    }
    if SharedBridge(s) {
      var i, j :| 0 <= i < j < |s| && s[i].bridgeId != "" && s[i].bridgeId == s[j].bridgeId;
      BridgeCountTwo(s, s[i].bridgeId);
    }
  }

  // ---- The fold of the view loop ----

  lemma ViewExtends(s: seq<Channel>, c: Channel)
    ensures Earliest(s + [c]) == if s == [] || c.createdAt < Earliest(s) then c.createdAt else Earliest(s)
    ensures Latest(s + [c]) == if s == [] || c.updatedAt > Latest(s) then c.updatedAt else Latest(s)
  {
    assert (s + [c])[..|s + [c]| - 1] == s;
  }

  /** The times found in the store are set, so the zero sentinel means "no channel yet". */
  lemma LookupTimes(st: State, uids: seq<string>)
    requires WellKeyed(st) && Lookup(st.channels, uids) != []
    ensures Earliest(Lookup(st.channels, uids)) != ZERO_TIME
    ensures Latest(Lookup(st.channels, uids)) > ZERO_TIME
  {
    var s := Lookup(st.channels, uids);
    EarliestIsMin(s);
    LatestIsMax(s);
    var i :| 0 <= i < |s| && Earliest(s) == s[i].createdAt;
    LookupMember(st.channels, uids, s[i]);
    LookupMember(st.channels, uids, s[0]);
  }

  lemma LookupNone(channels: map<string, Channel>)
    ensures Lookup(channels, []) == []
  {
  }

  /** Counting one more channel. */
  function Counted(m: map<string, nat>, b: string): map<string, nat> {
    if b == "" then m else m[b := 1 + if b in m then m[b] else 0]
  }

  lemma CountsNone()
    ensures Counts(map[], [])
  {
  }

  lemma CountsExtend(m: map<string, nat>, s: seq<Channel>, c: Channel)
    requires Counts(m, s)
    ensures Counts(Counted(m, c.bridgeId), s + [c])
  {
    assert (s + [c])[..|s + [c]| - 1] == s;
  }

  // ---- The snapshot loop ----

  lemma SeenGrows(seen: map<string, Call>, l: string, c: Call)
    requires l !in seen && forall k :: k in seen ==> seen[k].linkedid == k
    requires c.linkedid == l
    ensures multiset(seen[l := c].Values) == multiset(seen.Values) + multiset{c}
  {
    ValuesOfUpdate(seen, l, c);
    NotAmongOthers(seen, c);
  }

  class Registry {
    var channels: map<string, ChannelRef>
    var byCall: map<string, seq<string>>
    const feed: Feed

    /** The stored values, without the heap. */
    ghost function Abs(): State
      reads this`channels, this`byCall, channels.Values
    {
      State(map u | u in channels :: channels[u].value, byCall)
    }

    /** Soundness includes that a channel's own Uniqueid is its key, so no object is shared. */
    ghost predicate StoreValid()
      reads this`channels, this`byCall, channels.Values
    {
      Sound(Abs())
    }

    ghost predicate Valid()
      reads this`channels, this`byCall, channels.Values, feed
    {
      StoreValid() && feed.Valid()
    }

    /** The registry never adopts a channel object from outside. */
    twostate predicate KeptOrFresh()
      reads this`channels
    {
      forall u :: u in channels ==> fresh(channels[u]) || (u in old(channels) && channels[u] == old(channels)[u])
    }

    constructor ()
      ensures Valid() && Abs() == EMPTY && fresh(feed) && feed.Abs() == INIT
    {
      channels, byCall := map[], map[];
      feed := new Feed();
    }

    // ---- Views ----

    /** One pass over a call's Uniqueids, gathering what its view needs. */
    method Tally(uids: seq<string>)
      returns (chans: seq<Channel>, earliest: Time, latest: Time, bridgeIds: map<string, nat>)
      requires StoreValid()
      ensures chans == Lookup(Abs().channels, uids)
      ensures chans != [] ==> earliest == Earliest(chans) && latest == Latest(chans)
      ensures Counts(bridgeIds, chans)
    {
      hide Earliest, Latest, Counts, Listed;
      chans, earliest, latest, bridgeIds := [], ZERO_TIME, ZERO_TIME, map[];
      CountsNone();
      for i := 0 to |uids|
        invariant chans == Lookup(Abs().channels, uids[..i])
        invariant if chans == [] then earliest == latest == ZERO_TIME
                  else earliest == Earliest(chans) && latest == Latest(chans)
        invariant Counts(bridgeIds, chans)
      {
        assert uids[..i + 1][..i] == uids[..i];
        if uids[i] in channels {
          var ch := channels[uids[i]].value;
          assert ch == Abs().channels[uids[i]];
          ViewExtends(chans, ch);
          CountsExtend(bridgeIds, chans, ch);
          if chans != [] { LookupTimes(Abs(), uids[..i]); }
          chans := chans + [ch];
          if earliest == ZERO_TIME || ch.createdAt < earliest { earliest := ch.createdAt; }
          if ch.updatedAt > latest { latest := ch.updatedAt; }
          bridgeIds := Counted(bridgeIds, ch.bridgeId);
        }
      }
      assert uids[..|uids|] == uids;
    }

    static method AnyShared(counts: map<string, nat>) returns (shared: bool)
      ensures shared <==> exists b :: b in counts && counts[b] >= 2
    {
      var keys := counts.Keys;
      shared := false;
      while keys != {}
        invariant keys <= counts.Keys && !shared
        invariant forall b :: b in counts && b !in keys ==> counts[b] < 2
        decreases keys
      {
        var b :| b in keys;
        if counts[b] >= 2 { return true; }
        keys := keys - {b};
      }
    }

    /** Builds the view of a call from its listed channels. */
    method CallLocked(l: string) returns (call: Option<Call>)
      requires StoreValid()
      ensures StoreValid() && Abs() == old(Abs())
      ensures call == View(Abs(), l)
    {
      hide Sound, Lookup, Sort, Earliest, Latest;
      if l !in byCall || byCall[l] == [] {
        assert Members(Abs(), l) == [] by { LookupNone(Abs().channels); }
        return None;
      }
      var chans, earliest, latest, bridgeIds := Tally(byCall[l]);
      if chans == [] {
        return None;
      }
      var sorted := SortedCopy(chans, CreatedAt);
      var bridged := AnyShared(bridgeIds);
      CountsDecideBridged(bridgeIds, chans);
      return Some(Call(l, sorted, earliest, latest, bridged));
    }

    method PublishUpdate(call: Option<Call>, now: Time)
      requires Valid()
      modifies feed
      ensures Valid()
      ensures feed.Abs() == PublishOpt(old(feed.Abs()), if call.None? then None else Some(Updated(call.value, now)))
    {
      if call.Some? {
        feed.Publish(Updated(call.value, now));
      }
    }

    /** Puts a channel in both indexes, as a new object. */
    method Enter(c: Channel)
      requires StoreValid() && Sound(Register(Abs(), c))
      modifies this`channels, this`byCall
      ensures StoreValid() && KeptOrFresh()
      ensures Abs() == Register(old(Abs()), c)
    {
      hide Sound;
      var ref := new ChannelRef(c);
      channels := channels[c.uniqueid := ref];
      if c.uniqueid !in ListOf(byCall, c.linkedid) {
        byCall := byCall[c.linkedid := ListOf(byCall, c.linkedid) + [c.uniqueid]];
      }
      assert Abs() == Register(old(Abs()), c);
    }

    /** Announces a channel, new or seen before. */
    method ApplyNewchannel(c: Channel, now: Time)
      requires Valid() && now > ZERO_TIME
      modifies this`channels, this`byCall, feed
      ensures Valid() && KeptOrFresh()
      ensures Abs() == Step(old(Abs()), Newchannel(c), now).st
      ensures feed.Abs() == PublishOpt(old(feed.Abs()), Step(old(Abs()), Newchannel(c), now).ev)
    {
      hide View, Sound, Inv, Register;
      assert feed.Valid();
      if c.uniqueid == "" { return; }
      var c' := c;
      if c'.createdAt == ZERO_TIME { c' := c'.(createdAt := now); }
      c' := c'.(updatedAt := now);
      if c'.linkedid == "" { c' := c'.(linkedid := c'.uniqueid); }
      assert c' == Stamp(c, now);
      RegisterKeepsSound(Abs(), c');
      var existed := c.uniqueid in channels;
      Enter(c');
      var call := CallLocked(c'.linkedid);
      if call.None? { return; }
      if existed || |call.value.channels| > 1 {
        feed.Publish(Updated(call.value, now));
      } else {
        feed.Publish(Started(call.value, now));
      }
      assert Abs() == Register(old(Abs()), c');
    }

    /** Writes an edit into a channel's object, field by field. */
    static method EditFields(ch: ChannelRef, op: Op, now: Time)
      requires !op.Reset? && !op.Newchannel? && !op.Hangup?
      modifies ch
      ensures ch.value == Edit(op, old(ch.value)).(updatedAt := now)
    {
      match op {
        case Newstate(_, state, stateDesc) =>
          if state != "" { ch.value := ch.value.(channelState := state); }
          if stateDesc != "" { ch.value := ch.value.(channelStateDesc := stateDesc); }
        case CallerID(_, num, name) =>
          if NormaliseUnknown(num) != "" { ch.value := ch.value.(callerIdNum := NormaliseUnknown(num)); }
          if NormaliseUnknown(name) != "" { ch.value := ch.value.(callerIdName := NormaliseUnknown(name)); }
        case ConnectedLine(_, num, name) =>
          if NormaliseUnknown(num) != "" { ch.value := ch.value.(connectedLineNum := NormaliseUnknown(num)); }
          if NormaliseUnknown(name) != "" { ch.value := ch.value.(connectedLineName := NormaliseUnknown(name)); }
        case Extension(_, exten, context) =>
          if exten != "" { ch.value := ch.value.(exten := exten); }
          if context != "" { ch.value := ch.value.(context := context); }
        case BridgeEnter(_, bridgeId) => ch.value := ch.value.(bridgeId := bridgeId);
        case BridgeLeave(_) => ch.value := ch.value.(bridgeId := "");
      }
      ch.value := ch.value.(updatedAt := now);
    }

    /** Edits one live channel's object; no other channel shares it. */
    method EditInPlace(u: string, op: Op, now: Time)
      requires StoreValid() && u in channels && !op.Reset? && !op.Newchannel? && !op.Hangup?
      modifies channels[u]
      ensures
        var st := old(Abs());
        Abs() == st.(channels := st.channels[u := Edit(op, st.channels[u]).(updatedAt := now)])
    {
      hide Edit, Listed;
      assert forall v :: v in channels ==> Abs().channels[v].uniqueid == v;
      EditFields(channels[u], op, now);
    }

    /** Edits a live channel and announces its call. */
    method MutateChannel(op: Op, now: Time)
      requires Valid() && now > ZERO_TIME
      requires !op.Reset? && !op.Newchannel? && !op.Hangup?
      modifies channels.Values, feed
      ensures Valid()
      ensures Abs() == Step(old(Abs()), op, now).st
      ensures feed.Abs() == PublishOpt(old(feed.Abs()), Step(old(Abs()), op, now).ev)
    {
      hide View, Sound, Inv, Edit;
      assert feed.Valid();
      var u := op.uniqueid;
      if u == "" || u !in channels { return; }
      StepKeepsSound(Abs(), op, now);
      EditKeeps(op, Abs().channels[u]);
      EditInPlace(u, op, now);
      assert Abs() == Step(old(Abs()), op, now).st && StoreValid();
      var call := CallLocked(channels[u].value.linkedid);
      PublishUpdate(call, now);
    }

    /** The list without its first v. */
    static method RemoveString(s: seq<string>, v: string) returns (r: seq<string>)
      ensures r == RemoveFirst(s, v)
    {
      for i := 0 to |s|
        invariant v !in s[..i]
      {
        if s[i] == v {
          RemoveFirstAt(s, i);
          return s[..i] + s[i + 1..];
        }
      }
      return s;
    }

    /** Takes a live channel out of both indexes. */
    method Withdraw(u: string)
      requires StoreValid() && u in channels
      modifies this`channels, this`byCall
      ensures StoreValid() && KeptOrFresh()
      ensures Abs() == Remove(old(Abs()), u)
    {
      hide Sound;
      RemoveKeepsSound(Abs(), u);
      var l := channels[u].value.linkedid;
      channels := channels - {u};
      var list := RemoveString(ListOf(byCall, l), u);
      byCall := if list == [] then byCall - {l} else byCall[l := list];
      assert Abs() == Remove(old(Abs()), u);
    }

    /** Takes a channel out; the last one of a call ends it. */
    method ApplyHangup(u: string, now: Time)
      requires Valid() && now > ZERO_TIME
      modifies this`channels, this`byCall, feed
      ensures Valid() && KeptOrFresh()
      ensures Abs() == Step(old(Abs()), Hangup(u), now).st
      ensures feed.Abs() == PublishOpt(old(feed.Abs()), Step(old(Abs()), Hangup(u), now).ev)
    {
      hide View, Sound, Inv, Remove;
      assert feed.Valid();
      if u == "" || u !in channels { return; }
      var ch := channels[u].value;
      Withdraw(u);
      if ListOf(byCall, ch.linkedid) == [] {
        feed.Publish(Ended(Call(ch.linkedid, [ch], ch.createdAt, now, false), now));
      } else {
        var call := CallLocked(ch.linkedid);
        PublishUpdate(call, now);
      }
      assert Abs() == Remove(old(Abs()), u);
    }

    /** Forgets everything, silently. */
    method Reset()
      requires Valid()
      modifies this`channels, this`byCall
      ensures Valid() && Abs() == EMPTY && channels == map[]
    {
      channels, byCall := map[], map[];
    }

    /** The live calls in the index's arbitrary order. */
    method AllCalls() returns (calls: seq<Call>)
      requires StoreValid()
      ensures multiset(calls) == multiset(SnapMap(Abs()).Values)
    {
      hide Sound, View, SnapMap;
      calls := [];
      ghost var all := SnapMap(Abs());
      ghost var seen: map<string, Call> := map[];
      var todo := byCall.Keys;
      SnapMapListed(Abs());
      while todo != {}
        invariant todo <= byCall.Keys
        invariant forall l :: l in seen <==> l in all && l !in todo
        invariant forall l :: l in seen ==> seen[l] == all[l]
        invariant multiset(calls) == multiset(seen.Values)
        decreases todo
      {
        var l :| l in todo;
        var c := CallLocked(l);
        SnapMapIs(Abs(), l);
        todo := todo - {l};
        if c.Some? {
          SeenGrows(seen, l, c.value);
          calls := calls + [c.value];
          seen := seen[l := c.value];
        }
      }
      assert seen == all;
    }

    /** The current calls, oldest first.  The order of the index is arbitrary, and so is the
        order of calls that started at the same instant. */
    method Snapshot() returns (out: seq<Call>)
      requires Valid()
      ensures forall i, j :: 0 <= i < j < |out| ==> out[i].startedAt <= out[j].startedAt
      ensures multiset(out) == multiset(SnapMap(Abs()).Values) && |out| == |SnapMap(Abs())|
    {
      hide Sound, Inv, SnapMap, View;
      var calls := AllCalls();
      out := SortedCopy(calls, StartedAt);
      SnapMapListed(Abs());
      AsManyCalls(SnapMap(Abs()));
      assert |out| == |multiset(out)|;
    }
  }
}
