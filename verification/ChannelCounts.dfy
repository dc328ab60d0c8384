/** The exporter's channel counts, and their agreement with the registry seeded from the same
    list of channels. */
module ChannelCounts {
  import opened Basics
  import opened AmiMessage
  import opened Text
  import opened AmiProtocol
  import opened AmiListener
  import opened CallModel
  import opened CallViews
  import opened RegistryRuns
  import opened Lifecycle

  function FirstNonEmpty(vals: seq<string>): (r: string)
    ensures r == "" ==> forall i :: 0 <= i < |vals| ==> vals[i] == ""
    ensures r != "" ==> exists i :: 0 <= i < |vals| && vals[i] == r && forall j :: 0 <= j < i ==> vals[j] == ""
  {
    if vals == [] then "" else if vals[0] != "" then vals[0] else FirstNonEmpty(vals[1..])
  }

  function StateOf(m: Fields): string {
    FirstNonEmpty([Get(m, "ChannelStateDesc"), Get(m, "ChannelState"), "Unknown"])
  }

  function CallIdOf(m: Fields): string {
    FirstNonEmpty([Get(m, "Linkedid"), Get(m, "Uniqueid")])
  }

  lemma FirstOf(v: string, rest: seq<string>)
    ensures FirstNonEmpty([v] + rest) == if v != "" then v else FirstNonEmpty(rest)
  {
    assert ([v] + rest)[1..] == rest;
  }

  /** A row counts under its state's description, or else its number, or else as unknown, and for
      the call of its Linkedid, or else of its Uniqueid. */
  lemma RowKeys(m: Fields)
    ensures
      var desc, state := Get(m, "ChannelStateDesc"), Get(m, "ChannelState");
      StateOf(m) == if desc != "" then desc else if state != "" then state else "Unknown"
    ensures CallIdOf(m) == if Get(m, "Linkedid") != "" then Get(m, "Linkedid") else Get(m, "Uniqueid")
  {
    hide Get;
    FirstOf(Get(m, "ChannelStateDesc"), [Get(m, "ChannelState"), "Unknown"]);
    FirstOf(Get(m, "ChannelState"), ["Unknown"]);
    FirstOf("Unknown", []);
    FirstOf(Get(m, "Linkedid"), [Get(m, "Uniqueid")]);
    FirstOf(Get(m, "Uniqueid"), []);
  }

  function States(items: seq<Fields>): seq<string> {
    if items == [] then [] else States(items[..|items| - 1]) + [StateOf(items[|items| - 1])]
  }

  // ---- A tally and its sum ----

  ghost predicate IsTally(m: map<string, nat>, s: multiset<string>) {
    forall k :: (k in m <==> k in s) && (k in m ==> m[k] == s[k])
  }

  ghost function Sum(m: map<string, nat>): nat {
    if m == map[] then 0 else var k :| k in m; m[k] + Sum(m - {k})
  }

  /** A tally's counts sum to the number of things tallied. */
  lemma {:induction false} TallySum(m: map<string, nat>, s: multiset<string>)
    requires IsTally(m, s)
    ensures Sum(m) == |s|
  {
    if m == map[] {
      assert forall k :: k !in s;
      assert s == multiset{};
    } else {
      var k :| k in m && Sum(m) == m[k] + Sum(m - {k});
      TallySum(m - {k}, s[k := 0]);
      assert s == s[k := 0] + multiset{}[k := s[k]];
    }
  }

  /** Counting one more. */
  function Bump(m: map<string, nat>, k: string): map<string, nat> {
    m[k := 1 + if k in m then m[k] else 0]
  }

  lemma BumpTally(m: map<string, nat>, s: seq<string>, k: string)
    requires IsTally(m, multiset(s))
    ensures IsTally(Bump(m, k), multiset(s + [k]))
  {
  }

  /** The call ids the exporter counts. */
  function ExportedIds(items: seq<Fields>): set<string> {
    set m | m in items && CallIdOf(m) != "" :: CallIdOf(m)
  }

  lemma ExportedIdsAppend(items: seq<Fields>, m: Fields)
    ensures ExportedIds(items + [m]) == ExportedIds(items) + if CallIdOf(m) != "" then {CallIdOf(m)} else {}
  {
    hide CallIdOf;
  }

  lemma NothingCounted()
    ensures IsTally(map[], multiset([])) && ExportedIds([]) == {}
  {
  }

  /** The gauges for one answer to CoreShowChannels. */
  method CollectChannels(items: seq<Fields>)
    returns (channels: nat, byState: map<string, nat>, linkedids: set<string>)
    ensures channels == |items|
    ensures IsTally(byState, multiset(States(items)))
    ensures linkedids == ExportedIds(items)
  {
    hide StateOf, CallIdOf, IsTally, ExportedIds, Bump;
    channels, byState, linkedids := |items|, map[], {};
    NothingCounted();
    for i := 0 to |items|
      invariant IsTally(byState, multiset(States(items[..i])))
      invariant linkedids == ExportedIds(items[..i])
    {
      assert items[..i + 1] == items[..i] + [items[i]];
      assert items[..i + 1][..i] == items[..i];
      var state, id := StateOf(items[i]), CallIdOf(items[i]);
      BumpTally(byState, States(items[..i]), state);
      ExportedIdsAppend(items[..i], items[i]);
      byState := Bump(byState, state);
      if id != "" {
        linkedids := linkedids + {id};
      }
    }
    assert items[..|items|] == items;
  }

  lemma {:induction false} StatesLength(items: seq<Fields>)
    ensures |States(items)| == |items|
  {
    if items == [] {
    } else {
      StatesLength(items[..|items| - 1]);
    }
  }

  /** The per-state counts sum to the number of channels listed. */
  lemma {:induction false} StatesSumToChannels(items: seq<Fields>, byState: map<string, nat>)
    requires IsTally(byState, multiset(States(items)))
    ensures Sum(byState) == |items|
  {
    TallySum(byState, multiset(States(items)));
    StatesLength(items);
  }

  // ---- The registry seeded from a channel list ----

  /** A list of channels arriving on an empty registry. */
  predicate IsSeed(ins: seq<Input>) {
    forall i :: 0 <= i < |ins| ==> ins[i].op.Newchannel?
  }

  /** The call ids the listed channels with a Uniqueid stand for. */
  ghost function SeedIds(ins: seq<Input>): set<string>
    requires IsSeed(ins)
  {
    set i | 0 <= i < |ins| && ins[i].op.c.uniqueid != "" :: Keep(ins[i].op.c.linkedid, ins[i].op.c.uniqueid)
  }

  ghost predicate AllListedLive(st: State) {
    forall l, u :: u in ListOf(st.byCall, l) ==> u in st.channels
  }

  lemma RegisterSeeds(st: State, c: Channel)
    requires Sound(st) && AllListedLive(st)
    ensures AllListedLive(Register(st, c))
    ensures Register(st, c).byCall.Keys == st.byCall.Keys + {c.linkedid}
  {
    if c.uniqueid in ListOf(st.byCall, c.linkedid) {
      assert c.linkedid in st.byCall;
    }
    forall l, u | u in ListOf(Register(st, c).byCall, l)
      ensures u in Register(st, c).channels
    {
      assert u == c.uniqueid || u in ListOf(st.byCall, l);
    }
  }

  lemma NoSeedIds()
    ensures SeedIds([]) == {}
  {
  }

  lemma IgnoredChannel(st: State, c: Channel, now: Time)
    requires c.uniqueid == ""
    ensures Step(st, Newchannel(c), now).st == st
  {
  }

  lemma NewchannelRegisters(st: State, c: Channel, now: Time)
    requires c.uniqueid != ""
    ensures Step(st, Newchannel(c), now).st == Register(st, Stamp(c, now))
  {
  }

  lemma SeedIdsAppend(ins: seq<Input>)
    requires IsSeed(ins) && ins != []
    ensures
      var n := |ins| - 1;
      var c := ins[n].op.c;
      SeedIds(ins) == SeedIds(ins[..n]) + if c.uniqueid != "" then {Keep(c.linkedid, c.uniqueid)} else {}
  {
    var n := |ins| - 1;
    assert forall i :: 0 <= i < n ==> ins[..n][i] == ins[i];
    forall x
      ensures x in SeedIds(ins) <==>
        (x in SeedIds(ins[..n]) ||
         (ins[n].op.c.uniqueid != "" && x == Keep(ins[n].op.c.linkedid, ins[n].op.c.uniqueid)))
    {
      if x in SeedIds(ins) {
        var i :| 0 <= i < |ins| && ins[i].op.c.uniqueid != "" && x == Keep(ins[i].op.c.linkedid, ins[i].op.c.uniqueid);
        assert i < n ==> ins[..n][i] == ins[i];
      }
    }
  }

  /** Seeding leaves one entry per call id, each with a live channel, whether or not a
      Uniqueid is repeated under several Linkedids. */
  lemma {:induction false} SeededIndex(ins: seq<Input>)
    requires IsSeed(ins) && Timed(ins)
    ensures AllListedLive(After(ins)) && After(ins).byCall.Keys == SeedIds(ins)
  {
    hide Step, Register, SeedIds;
    if ins == [] {
      assert SeedIds([]) == {} by { NoSeedIds(); }
    } else {
      var n := |ins| - 1;
      var c := ins[n].op.c;
      SeededIndex(ins[..n]);
      RunSound(ins[..n]);
      SeedIdsAppend(ins);
      if c.uniqueid == "" {
        IgnoredChannel(After(ins[..n]), c, ins[n].now);
      } else {
        NewchannelRegisters(After(ins[..n]), c, ins[n].now);
        RegisterSeeds(After(ins[..n]), Stamp(c, ins[n].now));
      }
    }
  }

  lemma {:induction false} SeededSnapshot(ins: seq<Input>)
    requires IsSeed(ins) && Timed(ins)
    ensures SnapMap(After(ins)).Keys == SeedIds(ins)
  {
    hide After, SeedIds, View;
    SeededIndex(ins);
    RunSound(ins);
    var st := After(ins);
    SnapMapListed(st);
    forall l | l in st.byCall
      ensures l in SnapMap(st)
    {
      assert st.byCall[l] != [] && st.byCall[l][0] in ListOf(st.byCall, l);
      ViewExists(st, l);
      SnapMapIs(st, l);
    }
  }

  /** A wipe makes everything before it irrelevant. */
  lemma {:induction false} AfterReset(pre: seq<Input>, t: Time, ins: seq<Input>)
    ensures After(pre + [Input(Reset, t)] + ins) == After(ins)
    decreases |ins|
  {
    hide Step;
    var all := pre + [Input(Reset, t)] + ins;
    if ins == [] {
      assert all == pre + [Input(Reset, t)] && all[..|pre|] == pre;
      ResetEmpties(After(pre), t);
    } else {
      var n := |ins| - 1;
      assert all[..|all| - 1] == pre + [Input(Reset, t)] + ins[..n] && all[|all| - 1] == ins[n];
      AfterReset(pre, t, ins[..n]);
    }
  }

  // ---- Both sides on the same rows ----

  /** The two parsers' results for one row of the answer. */
  ghost predicate SameRow(m: FieldMap, f: Fields) {
    TypeOf(m) == "CoreShowChannel" && forall key :: GetIn(m, key) == Get(f, key)
  }

  /** The registry's inputs for the rows, dispatched at the given times. */
  ghost predicate SeedsFrom(ins: seq<Input>, rows: seq<FieldMap>) {
    |ins| == |rows| && forall i :: 0 <= i < |ins| ==> Route(rows[i]) == Some(ins[i].op)
  }

  /** A channel without a Uniqueid, which only the exporter counts, names a call that another row has. */
  ghost predicate StrayRowsCovered(items: seq<Fields>) {
    forall m :: m in items && Get(m, "Uniqueid") == "" && Get(m, "Linkedid") != "" ==>
      exists m' :: m' in items && Get(m', "Uniqueid") != "" && CallIdOf(m') == CallIdOf(m)
  }

  lemma CallIds(m: Fields)
    ensures CallIdOf(m) == Keep(Get(m, "Linkedid"), Get(m, "Uniqueid"))
  {
    hide Get;
    var a, b := Get(m, "Linkedid"), Get(m, "Uniqueid");
    assert [a, b][1..] == [b] && [b][1..] == [];
    assert FirstNonEmpty([b]) == b;
  }

  lemma SeedIdsOfRows(ins: seq<Input>, rows: seq<FieldMap>, items: seq<Fields>)
    requires |rows| == |items| && SeedsFrom(ins, rows)
    requires forall i :: 0 <= i < |rows| ==> SameRow(rows[i], items[i])
    ensures IsSeed(ins)
    ensures SeedIds(ins) == set m | m in items && Get(m, "Uniqueid") != "" :: CallIdOf(m)
  {
    hide Get, GetIn, CallIdOf;
    forall i | 0 <= i < |ins|
      ensures ins[i].op.Newchannel? && ins[i].op.c.uniqueid == Get(items[i], "Uniqueid")
      ensures Keep(ins[i].op.c.linkedid, ins[i].op.c.uniqueid) == CallIdOf(items[i])
    {
      assert SameRow(rows[i], items[i]) && Route(rows[i]) == Some(ins[i].op);
      CallIds(items[i]);
    }
  }

  lemma {:induction false} SubsetSize<T>(a: set<T>, b: set<T>)
    requires a <= b
    ensures |a| <= |b| && (|a| == |b| <==> a == b)
  {
    if x :| x in a {
      SubsetSize(a - {x}, b - {x});
      assert a == (a - {x}) + {x} && b == (b - {x}) + {x};
    }
  }

  lemma IdsNonEmpty(items: seq<Fields>)
    ensures forall m :: m in items && Get(m, "Uniqueid") != "" ==> CallIdOf(m) != ""
  {
    hide Get;
    forall m | m in items && Get(m, "Uniqueid") != ""
      ensures CallIdOf(m) != ""
    {
      CallIds(m);
    }
  }

  /** After a wipe and the dispatch of the listed rows, the snapshot has as many calls as the
      exporter reports active exactly if every row without a Uniqueid names a call of a row
      with one; in particular if all rows have Uniqueids. */
  lemma {:induction false} SameNumberOfCalls(
    pre: seq<Input>, t: Time, ins: seq<Input>, rows: seq<FieldMap>, items: seq<Fields>)
    requires Timed(ins) && |rows| == |items| && SeedsFrom(ins, rows)
    requires forall i :: 0 <= i < |rows| ==> SameRow(rows[i], items[i])
    ensures |SnapMap(After(pre + [Input(Reset, t)] + ins))| == |ExportedIds(items)| <==> StrayRowsCovered(items)
  {
    hide Get, GetIn, CallIdOf, After, SnapMap, SameRow, SeedsFrom;
    AfterReset(pre, t, ins);
    SeedIdsOfRows(ins, rows, items);
    SeededSnapshot(ins);
    var seeded := set m | m in items && Get(m, "Uniqueid") != "" :: CallIdOf(m);
    assert SnapMap(After(ins)).Keys == seeded;
    assert |SnapMap(After(ins))| == |SnapMap(After(ins)).Keys|;
    IdsNonEmpty(items);
    SubsetSize(seeded, ExportedIds(items));
    if StrayRowsCovered(items) {
      forall x | x in ExportedIds(items)
        ensures x in seeded
      {
        var m :| m in items && CallIdOf(m) != "" && CallIdOf(m) == x;
        if Get(m, "Uniqueid") == "" {
          CallIds(m);
        }
      }
    }
    if seeded == ExportedIds(items) {
      forall m | m in items && Get(m, "Uniqueid") == "" && Get(m, "Linkedid") != ""
        ensures exists m' :: m' in items && Get(m', "Uniqueid") != "" && CallIdOf(m') == CallIdOf(m)
      {
        CallIds(m);
        assert CallIdOf(m) in seeded;
      }
    }
  }

  lemma DifferentKeys()
    ensures !EqualFold("Linkedid", "Uniqueid")
  {
    assert ToLower("Linkedid")[0] == 'l' && ToLower("Uniqueid")[0] == 'u';
  }

  /** Such a row: without a Uniqueid it counts as a call for the exporter and is none in the snapshot. */
  lemma StrayRowCounted()
    ensures
      var items := [[Field("Linkedid", "a")]];
      ExportedIds(items) == {"a"} && !StrayRowsCovered(items)
      && SnapMap(After([Input(Newchannel(Bare("", "a")), 1)])) == map[]
  {
    hide View;
    var m := [Field("Linkedid", "a")];
    var ins := [Input(Newchannel(Bare("", "a")), 1)];
    DifferentKeys();
    assert m[1..] == [];
    assert Get(m, "Linkedid") == "a" && Get(m, "Uniqueid") == "";
    CallIds(m);
    assert m in [m];
    assert ins[..0] == [];
    IgnoredChannel(EMPTY, ins[0].op.c, 1);
    SnapMapListed(EMPTY);
  }
}
