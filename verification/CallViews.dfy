/** The meaning of the roll-up view, and what a step does to views and indexes. */
module CallViews {
  import opened Basics
  import opened StableSort
  import opened CallModel

  lemma {:induction false} EarliestIsMin(s: seq<Channel>)
    requires s != []
    ensures forall i :: 0 <= i < |s| ==> Earliest(s) <= s[i].createdAt
    ensures exists i :: 0 <= i < |s| && Earliest(s) == s[i].createdAt
  {
    var n := |s| - 1;
    assert s == s[..n] + [s[n]];
    if n == 0 {
    } else {
      EarliestIsMin(s[..n]);
      var i :| 0 <= i < n && Earliest(s[..n]) == s[..n][i].createdAt;
      assert s[..n][i] == s[i];
      assert forall i :: 0 <= i < n ==> s[i] == s[..n][i];
    }
    assert Earliest(s) == s[n].createdAt || exists i :: 0 <= i < |s| && Earliest(s) == s[i].createdAt;
  }

  lemma {:induction false} LatestIsMax(s: seq<Channel>)
    requires s != []
    ensures forall i :: 0 <= i < |s| ==> s[i].updatedAt <= Latest(s)
    ensures exists i :: 0 <= i < |s| && Latest(s) == s[i].updatedAt
  {
    var n := |s| - 1;
    assert s == s[..n] + [s[n]];
    if n == 0 {
    } else {
      LatestIsMax(s[..n]);
      var i :| 0 <= i < n && Latest(s[..n]) == s[..n][i].updatedAt;
      assert s[..n][i] == s[i];
      assert forall i :: 0 <= i < n ==> s[i] == s[..n][i];
    }
    assert Latest(s) == s[n].updatedAt || exists i :: 0 <= i < |s| && Latest(s) == s[i].updatedAt;
  }

  /** The full meaning of a view: the members in stable creation order, the first of them
      the start of the call, the latest update, and bridged exactly if two share a bridge. */
  lemma ViewMeaning(st: State, l: string)
    requires View(st, l).Some?
    ensures
      var call, members := View(st, l).value, Members(st, l);
      && call.linkedid == l && |call.channels| == |members| > 0
      && StablySorted(call.channels, members, CreatedAt)
      && multiset(call.channels) == multiset(members)
      && call.startedAt == call.channels[0].createdAt
      && (forall c :: c in members ==> call.startedAt <= c.createdAt && c.updatedAt <= call.updatedAt)
      && (exists c :: c in members && c.updatedAt == call.updatedAt)
      && (call.bridged <==>
           exists i, j :: 0 <= i < j < |members| && members[i].bridgeId == members[j].bridgeId != "")
  {
    var call, members := View(st, l).value, Members(st, l);
    SortIsStable(members, CreatedAt);
    assert |call.channels| == |multiset(call.channels)|;
    EarliestIsMin(members);
    LatestIsMax(members);
    var first := call.channels[0];
    assert first in multiset(call.channels);
    var i :| 0 <= i < |members| && Earliest(members) == members[i].createdAt;
    assert members[i] in multiset(call.channels);
    var j :| 0 <= j < |call.channels| && call.channels[j] == members[i];
    assert CreatedAt(first) <= CreatedAt(call.channels[j]);
    var k :| 0 <= k < |members| && Latest(members) == members[k].updatedAt;
    assert members[k] in members;
  }

  // ---- Which channels a list names ----

  lemma {:induction false} LookupMember(channels: map<string, Channel>, uids: seq<string>, c: Channel)
    ensures c in Lookup(channels, uids) <==> exists u :: u in uids && u in channels && channels[u] == c
  {
    if uids == [] {
    } else {
      var n := |uids| - 1;
      assert uids == uids[..n] + [uids[n]];
      LookupMember(channels, uids[..n], c);
    }
  }

  lemma {:induction false} LookupSame(
    channels: map<string, Channel>, channels': map<string, Channel>, uids: seq<string>)
    requires forall u :: u in uids ==> (u in channels <==> u in channels')
    requires forall u :: u in uids && u in channels ==> channels[u] == channels'[u]
    ensures Lookup(channels, uids) == Lookup(channels', uids)
  {
    if uids == [] {
    } else {
      LookupSame(channels, channels', uids[..|uids| - 1]);
    }
  }

  /** Where every listed Uniqueid is live, the members are exactly the listed channels, one each. */
  lemma {:induction false} LookupAll(channels: map<string, Channel>, uids: seq<string>)
    requires forall u :: u in uids ==> u in channels
    ensures |Lookup(channels, uids)| == |uids|
    ensures forall i :: 0 <= i < |uids| ==> Lookup(channels, uids)[i] == channels[uids[i]]
  {
    if uids == [] {
    } else {
      LookupAll(channels, uids[..|uids| - 1]);
    }
  }

  /** A call is shown exactly if one of the Uniqueids listed for it is live. */
  lemma ViewExists(st: State, l: string)
    ensures View(st, l).Some? <==> exists u :: u in ListOf(st.byCall, l) && u in st.channels
  {
    var m := Members(st, l);
    if u :| u in ListOf(st.byCall, l) && u in st.channels {
      LookupMember(st.channels, st.byCall[l], st.channels[u]);
    }
    if m != [] {
      LookupMember(st.channels, st.byCall[l], m[0]);
    }
  }

  /** Steps that leave a call's list and its listed channels alone leave its view alone. */
  lemma SameView(st: State, st': State, l: string)
    requires ListOf(st.byCall, l) == ListOf(st'.byCall, l)
    requires forall u :: u in ListOf(st.byCall, l) ==> (u in st.channels <==> u in st'.channels)
    requires forall u :: u in ListOf(st.byCall, l) && u in st.channels ==> st.channels[u] == st'.channels[u]
    ensures View(st, l) == View(st', l)
  {
    LookupSame(st.channels, st'.channels, ListOf(st.byCall, l));
  }

  // ---- The snapshot as a map ----

  lemma SnapMapListed(st: State)
    ensures SnapMap(st).Keys <= st.byCall.Keys
    ensures forall l :: l in SnapMap(st) ==> SnapMap(st)[l].linkedid == l
  {
  }

  lemma SnapMapIs(st: State, l: string)
    ensures l in SnapMap(st) <==> View(st, l).Some?
    ensures l in SnapMap(st) ==> SnapMap(st)[l] == View(st, l).value && SnapMap(st)[l].linkedid == l
  {
  }

  /** A call is not among calls that are filed under their own, other Linkedids. */
  lemma NotAmongOthers(m: map<string, Call>, c: Call)
    requires c.linkedid !in m && forall l :: l in m ==> m[l].linkedid == l
    ensures c !in m.Values
  {
  }

  /** Distinct Linkedids make distinct calls. */
  lemma {:induction false} AsManyCalls(m: map<string, Call>)
    requires forall l :: l in m ==> m[l].linkedid == l
    ensures |m.Values| == |m|
  {
    if l :| l in m {
      var rest := m - {l};
      AsManyCalls(rest);
      assert m == rest[l := m[l]];
      ValuesOfUpdate(rest, l, m[l]);
      assert m[l] !in rest.Values by { NotAmongOthers(rest, m[l]); }
    } else {
      assert m == map[];
    }
  }

  // ---- Soundness: kept by every step, with no assumption about Linkedids ----

  lemma RegisterKeepsSound(st: State, c: Channel)
    requires Sound(st)
    requires c.uniqueid != "" && c.linkedid != "" && c.createdAt != ZERO_TIME && c.updatedAt > ZERO_TIME
    ensures Sound(Register(st, c))
    ensures View(Register(st, c), c.linkedid).Some?
  {
    hide View;
    var st' := Register(st, c);
    assert c.uniqueid in ListOf(st'.byCall, c.linkedid);
    assert forall l :: l != c.linkedid ==> ListOf(st'.byCall, l) == ListOf(st.byCall, l);
    forall l | l in st'.byCall
      ensures st'.byCall[l] != [] && NoDup(st'.byCall[l])
    {
      assert l == c.linkedid || l in st.byCall;
    }
    assert Listed(st') && WellKeyed(st');
    ViewExists(st', c.linkedid);
  }

  lemma RemoveKeepsSound(st: State, u: string)
    requires Sound(st) && u in st.channels
    ensures Sound(Remove(st, u))
  {
    var l := st.channels[u].linkedid;
    var st' := Remove(st, u);
    RemoveFirstNoDup(ListOf(st.byCall, l), u);
    forall v | v in st'.channels
      ensures v in ListOf(st'.byCall, st'.channels[v].linkedid)
    {
      assert v in ListOf(st.byCall, st.channels[v].linkedid);
    }
  }

  lemma EditKeeps(op: Op, ch: Channel)
    ensures Edit(op, ch).uniqueid == ch.uniqueid && Edit(op, ch).linkedid == ch.linkedid
    ensures Edit(op, ch).createdAt == ch.createdAt
  {
  }

  lemma EditKeepsSound(st: State, op: Op, u: string, now: Time)
    requires Sound(st) && now > ZERO_TIME && u in st.channels
    ensures Sound(st.(channels := st.channels[u := Edit(op, st.channels[u]).(updatedAt := now)]))
  {
    hide Edit;
    EditKeeps(op, st.channels[u]);
  }

  lemma {:induction false} StepKeepsSound(st: State, op: Op, now: Time)
    requires Sound(st) && now > ZERO_TIME
    ensures Sound(Step(st, op, now).st)
  {
    hide View;
    match op
    case Reset =>
    case Newchannel(c) => if c.uniqueid != "" { RegisterKeepsSound(st, Stamp(c, now)); }
    case Hangup(u) => if u in st.channels { RemoveKeepsSound(st, u); }
    case _ => if op.uniqueid in st.channels { EditKeepsSound(st, op, op.uniqueid, now); }
  }

  // ---- Agreement of the two indexes ----

  /** The guard of the branch that breaks agreement: a live Uniqueid announced under another Linkedid. */
  predicate StableOp(st: State, op: Op) {
    op.Newchannel? && op.c.uniqueid in st.channels ==>
      st.channels[op.c.uniqueid].linkedid == Keep(op.c.linkedid, op.c.uniqueid)
  }

  lemma RegisterAgreement(st: State, c: Channel)
    requires IndexAgrees(st)
    ensures IndexAgrees(Register(st, c)) <==>
      (c.uniqueid in st.channels ==> st.channels[c.uniqueid].linkedid == c.linkedid)
  {
    var st', u := Register(st, c), c.uniqueid;
    if u in st.channels && st.channels[u].linkedid != c.linkedid {
      var l := st.channels[u].linkedid;
      assert AgreesAt(st, l);
      assert u in ListOf(st'.byCall, l) && st'.channels[u].linkedid != l;
      assert !AgreesAt(st', l);
    } else {
      assert AgreesAt(st, c.linkedid);
      forall l
        ensures AgreesAt(st', l)
      {
        assert AgreesAt(st, l);
      }
    }
  }

  lemma RemoveAgreement(st: State, u: string)
    requires IndexAgrees(st) && u in st.channels
    ensures IndexAgrees(Remove(st, u))
  {
    var st', l := Remove(st, u), st.channels[u].linkedid;
    RemoveFirstNoDup(ListOf(st.byCall, l), u);
    forall k
      ensures AgreesAt(st', k)
    {
      assert AgreesAt(st, k);
    }
  }

  lemma EditAgreement(st: State, u: string, ch: Channel)
    requires IndexAgrees(st) && u in st.channels && ch.linkedid == st.channels[u].linkedid
    ensures IndexAgrees(st.(channels := st.channels[u := ch]))
  {
    var st' := st.(channels := st.channels[u := ch]);
    forall k
      ensures AgreesAt(st', k)
    {
      assert AgreesAt(st, k);
    }
  }

  /** One step keeps the indexes in agreement exactly if it is not such an announcement. */
  lemma StepKeepsAgreement(st: State, op: Op, now: Time)
    requires Sound(st) && IndexAgrees(st)
    ensures IndexAgrees(Step(st, op, now).st) <==> StableOp(st, op)
  {
    match op
    case Reset =>
    case Newchannel(c) => if c.uniqueid != "" { RegisterAgreement(st, Stamp(c, now)); }
    case Hangup(u) => if u != "" && u in st.channels { RemoveAgreement(st, u); }
    case _ =>
      if op.uniqueid in st.channels {
        EditKeeps(op, st.channels[op.uniqueid]);
        EditAgreement(st, op.uniqueid, Edit(op, st.channels[op.uniqueid]).(updatedAt := now));
      }
  }

  /** A channel with its identifiers and nothing else set. */
  function Bare(uniqueid: string, linkedid: string): Channel {
    Channel(uniqueid, linkedid, "", "", "", "", "", "", "", "", "", "", ZERO_TIME, ZERO_TIME)
  }

  lemma EmptyIsFine()
    ensures Sound(EMPTY) && IndexAgrees(EMPTY)
  {
    assert forall l :: AgreesAt(EMPTY, l);
  }

  /** Such an announcement: channel 1 of call a is announced again under call b.  It stays listed
      under a, and the call shown as a holds a channel of b. */
  lemma ReannouncedUnderTwo()
    ensures
      var st := Step(EMPTY, Newchannel(Bare("1", "a")), 1).st;
      var st' := Step(st, Newchannel(Bare("1", "b")), 2).st;
      && Sound(st) && IndexAgrees(st) && !StableOp(st, Newchannel(Bare("1", "b")))
      && ListOf(st'.byCall, "a") == ["1"] == ListOf(st'.byCall, "b") && st'.channels["1"].linkedid == "b"
      && !IndexAgrees(st')
  {
    hide View, IndexAgrees, Sound;
    assert Sound(EMPTY) && IndexAgrees(EMPTY) by { EmptyIsFine(); }
    var st := Step(EMPTY, Newchannel(Bare("1", "a")), 1).st;
    StepKeepsSound(EMPTY, Newchannel(Bare("1", "a")), 1);
    StepKeepsAgreement(EMPTY, Newchannel(Bare("1", "a")), 1);
    StepKeepsAgreement(st, Newchannel(Bare("1", "b")), 2);
  }

  lemma {:induction false} NoDupOnce<T>(s: seq<T>, x: T)
    requires NoDup(s)
    ensures multiset(s)[x] == if x in s then 1 else 0
  {
    if s == [] {
    } else {
      assert s == [s[0]] + s[1..];
      NoDupOnce(s[1..], x);
      assert s[0] !in s[1..];
    }
  }

  /** The members of a call are distinct, and exactly the live channels of its Linkedid. */
  lemma MembersExact(st: State, l: string, c: Channel)
    requires Sound(st) && IndexAgrees(st)
    ensures NoDup(Members(st, l))
    ensures c in Members(st, l) <==>
      c.uniqueid in st.channels && st.channels[c.uniqueid] == c && c.linkedid == l
  {
    assert AgreesAt(st, l);
    var list, m := ListOf(st.byCall, l), Members(st, l);
    LookupAll(st.channels, list);
    LookupMember(st.channels, list, c);
    assert forall i :: 0 <= i < |m| ==> m[i] == st.channels[list[i]] && m[i].uniqueid == list[i];
  }

  /** With agreeing indexes the snapshot partitions the live channels: each is shown once, in
      the call of its Linkedid, and nothing else is shown. */
  lemma SnapshotPartitions(st: State, l: string, c: Channel)
    requires Sound(st) && IndexAgrees(st)
    ensures
      (if l in SnapMap(st) then multiset(SnapMap(st)[l].channels)[c] else 0) ==
      if c.uniqueid in st.channels && st.channels[c.uniqueid] == c && c.linkedid == l then 1 else 0
  {
    hide SnapMap, IndexAgrees, Sound, CallOf;
    SnapMapIs(st, l);
    MembersExact(st, l, c);
    NoDupOnce(Members(st, l), c);
    if View(st, l).Some? {
      ViewMeaning(st, l);
    }
  }
}
