/** The exporter's request-response client: one action out, one response or a list of events back. */
module AmiClient {
  import opened Basics
  import opened Text
  import opened AmiMessage

  // ---- Action identifiers ----

  function Digit(d: nat): char
    requires d < 10
  {
    ('0' as int + d) as char
  }

  /** A counter in decimal. */
  function Decimal(n: nat): string {
    if n < 10 then [Digit(n)] else Decimal(n / 10) + [Digit(n % 10)]
  }

  function Value(s: string): int {
    if s == "" then 0 else 10 * Value(s[..|s| - 1]) + (s[|s| - 1] as int - '0' as int)
  }

  lemma {:induction false} ValueOfDecimal(n: nat)
    ensures Decimal(n) != "" && Value(Decimal(n)) == n
  {
    if n >= 10 {
      ValueOfDecimal(n / 10);
      assert (Decimal(n / 10) + [Digit(n % 10)])[..|Decimal(n / 10)|] == Decimal(n / 10);
    } else {
      assert [Digit(n)][..0] == "";
    }
  }

  /** No two actions of a client share an identifier, so a late reply to an earlier action is
      another action's message. */
  lemma IdsDiffer(m: nat, n: nat)
    requires m != n
    ensures Decimal(m) != Decimal(n) && Decimal(m) != ""
  {
    ValueOfDecimal(m);
    ValueOfDecimal(n);
  }

  // ---- What belongs to a list ----

  predicate Foreign(m: Fields, id: string) {
    Get(m, "ActionID") != "" && Get(m, "ActionID") != id
  }

  predicate Completes(m: Fields, id: string, complete: string) {
    !Foreign(m, id) && EqualFold(Get(m, "Event"), complete)
  }

  predicate IsItem(m: Fields, id: string) {
    !Foreign(m, id) && Get(m, "Event") != ""
  }

  /** The list on a stream of messages: the items before the first completion, if one comes. */
  function Items(ms: seq<Fields>, id: string): seq<Fields> {
    if ms == [] then []
    else Items(ms[..|ms| - 1], id) + if IsItem(ms[|ms| - 1], id) then [ms[|ms| - 1]] else []
  }

  datatype ListResult = Listed(items: seq<Fields>) | Failed

  /** The list loop over unread input, with the items found so far. */
  function CollectFrom(input: string, id: string, complete: string, items: seq<Fields>): (ListResult, string)
    decreases |input|
  {
    var (r, rest) := ReadFrom(input, []);
    if !r.Got? then (Failed, rest)
    else if Foreign(r.fields, id) then CollectFrom(rest, id, complete, items)
    else if EqualFold(Get(r.fields, "Event"), complete) then (Listed(items), rest)
    else if Get(r.fields, "Event") == "" then CollectFrom(rest, id, complete, items)
    else CollectFrom(rest, id, complete, items + [r.fields])
  }

  /** A list action's answer: the first message must be a success, the list follows. */
  function ListAnswer(input: string, id: string, complete: string): (ListResult, string) {
    var (first, rest) := ReadFrom(input, []);
    if !first.Got? || !EqualFold(Get(first.fields, "Response"), "Success") then (Failed, rest)
    else CollectFrom(rest, id, complete, [])
  }

  class Client {
    var open: bool
    const reader: Reader
    var actions: nat
    var written: string

    constructor (reader: Reader)
      ensures open && this.reader == reader && actions == 0 && written == ""
    {
      open, this.reader, actions, written := true, reader, 0, "";
    }

    method NextActionId() returns (id: string)
      modifies this`actions
      ensures actions == old(actions) + 1 && id == Decimal(actions)
    {
      actions := actions + 1;
      id := Decimal(actions);
    }

    method CollectItems(id: string, complete: string) returns (res: ListResult)
      modifies reader
      ensures (res, reader.rest) == CollectFrom(old(reader.rest), id, complete, [])
    {
      var items: seq<Fields> := [];
      while true
        invariant CollectFrom(old(reader.rest), id, complete, []) == CollectFrom(reader.rest, id, complete, items)
        decreases |reader.rest|
      {
        var r := ReadMessage(reader);
        if !r.Got? {
          return Failed;
        }
        var aid := Get(r.fields, "ActionID");
        if aid != "" && aid != id {
          continue;
        }
        if EqualFold(Get(r.fields, "Event"), complete) {
          return Listed(items);
        }
        if Get(r.fields, "Event") == "" {
          continue;
        }
        items := items + [r.fields];
      }
    }

    /** Sends a list action under a fresh identifier and reads its answer. */
    method ListAction(req: Fields, completeEvent: string) returns (res: ListResult)
      modifies this`actions, this`written, reader
      ensures actions == old(actions) + 1
      ensures !open ==> res == Failed && reader.rest == old(reader.rest) && written == old(written)
      ensures open ==>
        && written == old(written) + Encode(Set(req, "ActionID", Decimal(actions)))
        && (res, reader.rest) == ListAnswer(old(reader.rest), Decimal(actions), ToLower(completeEvent))
    {
      var id := NextActionId();
      if !open { return Failed; }
      var msg := new Message();
      msg.fields := req;
      msg.SetValue("ActionID", id);
      var text := msg.EncodeMessage();
      written := written + text;
      var first := ReadMessage(reader);
      if !first.Got? || !EqualFold(Get(first.fields, "Response"), "Success") {
        return Failed;
      }
      res := CollectItems(id, ToLower(completeEvent));
    }

    /** Sends a plain action; a response to another action is an error. */
    method Action(req: Fields) returns (res: Result<Fields>)
      modifies this`actions, this`written, reader
      ensures actions == old(actions) + 1
      ensures !open ==> res.Err? && reader.rest == old(reader.rest) && written == old(written)
      ensures open ==>
        var (r, rest) := ReadFrom(old(reader.rest), []);
        && written == old(written) + Encode(Set(req, "ActionID", Decimal(actions)))
        && reader.rest == rest
        && (if r.Got? && Get(r.fields, "ActionID") in {"", Decimal(actions)} then res == Ok(r.fields) else res.Err?)
    {
      var id := NextActionId();
      if !open { return Err("connection closed"); }
      var msg := new Message();
      msg.fields := req;
      msg.SetValue("ActionID", id);
      var text := msg.EncodeMessage();
      written := written + text;
      var resp := ReadMessage(reader);
      if !resp.Got? { return Err("read"); }
      if Foreign(resp.fields, id) { return Err("ActionID mismatch"); }
      return Ok(resp.fields);
    }
  }

  // ---- The list on any stream ----

  /** The position of the first completion, or the number of messages if there is none. */
  function FirstCompletion(ms: seq<Fields>, id: string, complete: string): (k: nat)
    ensures k <= |ms|
    ensures forall i :: 0 <= i < k ==> !Completes(ms[i], id, complete)
    ensures k < |ms| ==> Completes(ms[k], id, complete)
  {
    if ms == [] || Completes(ms[0], id, complete) then 0
    else
      assert forall i :: 1 <= i < |ms| ==> ms[i] == ms[1..][i - 1];
      1 + FirstCompletion(ms[1..], id, complete)
  }

  /** What a list action makes of the messages it can read: the items before the first
      completion, in order, or a failure if none comes. */
  function Chosen(ms: seq<Fields>, id: string, complete: string): ListResult {
    var k := FirstCompletion(ms, id, complete);
    if k < |ms| then Listed(Items(ms[..k], id)) else Failed
  }

  /** The text left unread after the first n messages. */
  function Unread(input: string, n: nat): string
    requires n <= |ReadAll(input).0|
    decreases n
  {
    if n == 0 then input else Unread(ReadFrom(input, []).1, n - 1)
  }

  lemma {:induction false} ItemsHead(m: Fields, ms: seq<Fields>, id: string)
    ensures Items([m] + ms, id) == (if IsItem(m, id) then [m] else []) + Items(ms, id)
  {
    hide IsItem;
    if ms == [] {
      assert [m] + ms == [m] && [m][..0] == [];
    } else {
      assert ([m] + ms)[..|ms|] == [m] + ms[..|ms| - 1];
      ItemsHead(m, ms[..|ms| - 1], id);
    }
  }

  /** Items found earlier go in front of those still to come. */
  function Prepend(items: seq<Fields>, r: ListResult): ListResult {
    if r.Listed? then Listed(items + r.items) else Failed
  }

  lemma ChosenHead(m: Fields, ms: seq<Fields>, id: string, complete: string, items: seq<Fields>)
    ensures Prepend(items, Chosen([m] + ms, id, complete)) ==
      if Completes(m, id, complete) then Listed(items)
      else Prepend(if IsItem(m, id) then items + [m] else items, Chosen(ms, id, complete))
  {
    hide Completes, IsItem;
    var all := [m] + ms;
    assert all[1..] == ms;
    var k := FirstCompletion(all, id, complete);
    if k == 0 {
      assert all[..0] == [];
      assert items + Items([], id) == items;
    } else {
      assert all[..k] == [m] + ms[..k - 1];
      ItemsHead(m, ms[..k - 1], id);
      var found := Items(ms[..k - 1], id);
      assert items + ([m] + found) == items + [m] + found && items + ([] + found) == items + found;
    }
  }

  lemma CollectStep(input: string, id: string, complete: string, items: seq<Fields>)
    ensures
      var (r, rest) := ReadFrom(input, []);
      CollectFrom(input, id, complete, items) ==
        if !r.Got? then (Failed, rest)
        else if Completes(r.fields, id, complete) then (Listed(items), rest)
        else CollectFrom(rest, id, complete, if IsItem(r.fields, id) then items + [r.fields] else items)
  {
    hide ReadFrom, Get, EqualFold;
  }

  lemma NothingChosen(id: string, complete: string)
    ensures Chosen([], id, complete) == Failed
  {
  }

  /** For every input whatsoever, complete or not, the list loop returns what is chosen from the
      messages that can be read, so nothing but those messages matters. */
  lemma {:induction false} CollectIsChosen(input: string, id: string, complete: string, items: seq<Fields>)
    ensures CollectFrom(input, id, complete, items).0 == Prepend(items, Chosen(ReadAll(input).0, id, complete))
    decreases |input|
  {
    hide ReadFrom, ReadAll, CollectFrom, Completes, IsItem, Chosen;
    var (r, rest) := ReadFrom(input, []);
    CollectStep(input, id, complete, items);
    ReadAllOnce(input);
    if r.Got? {
      ChosenHead(r.fields, ReadAll(rest).0, id, complete, items);
      if !Completes(r.fields, id, complete) {
        CollectIsChosen(rest, id, complete, if IsItem(r.fields, id) then items + [r.fields] else items);
      }
    } else {
      assert Chosen([], id, complete) == Failed by { NothingChosen(id, complete); }
    }
  }

  lemma {:induction false} StopsThere(input: string, k: nat, id: string, complete: string, items: seq<Fields>)
    requires k < |ReadAll(input).0| && Completes(ReadAll(input).0[k], id, complete)
    requires forall i :: 0 <= i < k ==> !Completes(ReadAll(input).0[i], id, complete)
    ensures CollectFrom(input, id, complete, items).1 == Unread(input, k + 1)
    decreases k
  {
    hide ReadFrom, CollectFrom, Completes, IsItem, ReadAll;
    var (r, rest) := ReadFrom(input, []);
    var ms := ReadAll(input).0;
    CollectStep(input, id, complete, items);
    ReadAllOnce(input);
    assert r.Got? && ms[0] == r.fields;
    if k == 0 {
      assert Unread(input, 1) == Unread(rest, 0);
    } else {
      assert forall i :: 0 <= i < k ==> ReadAll(rest).0[i] == ms[i + 1];
      StopsThere(rest, k - 1, id, complete, if IsItem(r.fields, id) then items + [r.fields] else items);
    }
  }

  /** Up to the first completion, the list is exactly the items, in order, and reading stops there. */
  lemma {:induction false} ListUpToCompletion(
    input: string, k: nat, id: string, complete: string, items: seq<Fields>)
    requires k < |ReadAll(input).0| && Completes(ReadAll(input).0[k], id, complete)
    requires forall i :: 0 <= i < k ==> !Completes(ReadAll(input).0[i], id, complete)
    ensures CollectFrom(input, id, complete, items) ==
      (Listed(items + Items(ReadAll(input).0[..k], id)), Unread(input, k + 1))
  {
    hide ReadFrom, CollectFrom, Completes, ReadAll, Items;
    var ms := ReadAll(input).0;
    assert FirstCompletion(ms, id, complete) == k;
    CollectIsChosen(input, id, complete, items);
    StopsThere(input, k, id, complete, items);
  }

  /** Input without a completion is an error and no partial list, however the input ends: at end
      of file or in the middle of a message. */
  lemma NoCompletionFails(input: string, id: string, complete: string, items: seq<Fields>)
    requires forall i :: 0 <= i < |ReadAll(input).0| ==> !Completes(ReadAll(input).0[i], id, complete)
    ensures CollectFrom(input, id, complete, items).0 == Failed
  {
    hide ReadAll, CollectFrom, Completes;
    CollectIsChosen(input, id, complete, items);
  }

  /** The messages that do not belong to other actions. */
  function WithoutForeign(ms: seq<Fields>, id: string): seq<Fields> {
    if ms == [] then []
    else (if Foreign(ms[0], id) then [] else [ms[0]]) + WithoutForeign(ms[1..], id)
  }

  lemma PrependNothing(r: ListResult)
    ensures Prepend([], r) == r
  {
    assert r.Listed? ==> [] + r.items == r.items;
  }

  lemma {:induction false} ForeignUnseen(ms: seq<Fields>, id: string, complete: string)
    ensures Chosen(ms, id, complete) == Chosen(WithoutForeign(ms, id), id, complete)
  {
    hide Chosen, Foreign;
    if ms == [] {
    } else {
      var m, rest := ms[0], ms[1..];
      var kept := WithoutForeign(rest, id);
      ForeignUnseen(rest, id, complete);
      assert ms == [m] + rest;
      ChosenHead(m, rest, id, complete, []);
      PrependNothing(Chosen(ms, id, complete));
      if Foreign(m, id) {
        assert WithoutForeign(ms, id) == kept;
        assert !Completes(m, id, complete) && !IsItem(m, id);
        PrependNothing(Chosen(rest, id, complete));
      } else {
        ChosenHead(m, kept, id, complete, []);
        PrependNothing(Chosen([m] + kept, id, complete));
      }
    }
  }

  /** Messages of other actions, any number of them anywhere, never change the list: two inputs
      whose messages are the same without them give the same answer. */
  lemma NoiseChangesNothing(input: string, input': string, id: string, complete: string, items: seq<Fields>)
    requires WithoutForeign(ReadAll(input).0, id) == WithoutForeign(ReadAll(input').0, id)
    ensures CollectFrom(input, id, complete, items).0 == CollectFrom(input', id, complete, items).0
  {
    hide ReadAll, CollectFrom, Chosen, WithoutForeign;
    CollectIsChosen(input, id, complete, items);
    CollectIsChosen(input', id, complete, items);
    ForeignUnseen(ReadAll(input).0, id, complete);
    ForeignUnseen(ReadAll(input').0, id, complete);
  }

  predicate Accepted(first: Fields) {
    EqualFold(Get(first, "Response"), "Success")
  }

  /** For every input, a list action answers with exactly its items up to the first completion
      behind an accepting first message, and fails otherwise. */
  lemma ListAnswerExact(input: string, id: string, complete: string)
    ensures
      var ms := ReadAll(input).0;
      ListAnswer(input, id, complete).0 ==
        if ms == [] || !Accepted(ms[0]) then Failed else Chosen(ms[1..], id, complete)
  {
    hide ReadFrom, ReadAll, CollectFrom, Chosen, Get, EqualFold;
    var (first, rest) := ReadFrom(input, []);
    ReadAllOnce(input);
    if first.Got? {
      assert ([first.fields] + ReadAll(rest).0)[1..] == ReadAll(rest).0;
      CollectIsChosen(rest, id, complete, []);
      PrependNothing(Chosen(ReadAll(rest).0, id, complete));
    }
  }

  /** Behind the first message, other actions' messages never change a list action's answer. */
  lemma AnswerIgnoresNoise(input: string, input': string, id: string, complete: string)
    requires ReadAll(input).0 != [] && ReadAll(input').0 != [] && ReadAll(input).0[0] == ReadAll(input').0[0]
    requires WithoutForeign(ReadAll(input).0[1..], id) == WithoutForeign(ReadAll(input').0[1..], id)
    ensures ListAnswer(input, id, complete).0 == ListAnswer(input', id, complete).0
  {
    hide ReadAll, ListAnswer, Chosen, WithoutForeign, Get, EqualFold;
    ListAnswerExact(input, id, complete);
    ListAnswerExact(input', id, complete);
    ForeignUnseen(ReadAll(input).0[1..], id, complete);
    ForeignUnseen(ReadAll(input').0[1..], id, complete);
  }

  // ---- The answer told from the messages' own headers ----

  /** The positions, in order, at which a list finds its items. */
  ghost predicate Finds(at: seq<nat>, ms: seq<Fields>, id: string) {
    && (forall i, j :: 0 <= i < j < |at| ==> at[i] < at[j])
    && forall k: nat :: k in at <==> k < |ms| && Get(ms[k], "ActionID") in {"", id} && Get(ms[k], "Event") != ""
  }

  lemma FindsMore(at: seq<nat>, ms: seq<Fields>, m: Fields, id: string)
    requires Finds(at, ms, id)
    ensures Finds(at + if IsItem(m, id) then [|ms|] else [], ms + [m], id)
    ensures forall i :: 0 <= i < |at| ==> at[i] < |ms|
  {
    hide Get;
    var all, more := ms + [m], at + if IsItem(m, id) then [|ms|] else [];
    assert forall i :: 0 <= i < |at| ==> at[i] in at;
    assert forall k: nat :: k in more <==> k in at || (k == |ms| && IsItem(m, id));
    assert forall k: nat :: k < |ms| ==> all[k] == ms[k];
  }

  /** The items of a list are the messages at those positions. */
  lemma {:induction false} ItemsAre(ms: seq<Fields>, id: string) returns (at: seq<nat>)
    ensures Finds(at, ms, id) && |at| == |Items(ms, id)|
    ensures forall i :: 0 <= i < |at| ==> at[i] < |ms| && Items(ms, id)[i] == ms[at[i]]
  {
    if ms == [] {
      at := [];
    } else {
      hide Finds, IsItem;
      var n := |ms| - 1;
      assert ms == ms[..n] + [ms[n]];
      var before := ItemsAre(ms[..n], id);
      FindsMore(before, ms[..n], ms[n], id);
      at := before + if IsItem(ms[n], id) then [n] else [];
    }
  }

  /** A list answer in full: the first message accepts, a completion of this action comes at end,
      none before, and the items are exactly the events of this action in between, in order. */
  lemma ListAnswerMeans(input: string, id: string, complete: string) returns (at: seq<nat>, end: nat)
    requires ListAnswer(input, id, complete).0.Listed?
    ensures
      var ms, items := ReadAll(input).0, ListAnswer(input, id, complete).0.items;
      && 0 < end < |ms| && EqualFold(Get(ms[0], "Response"), "Success")
      && Get(ms[end], "ActionID") in {"", id} && EqualFold(Get(ms[end], "Event"), complete)
      && (forall i :: 0 < i < end && Get(ms[i], "ActionID") in {"", id} ==> !EqualFold(Get(ms[i], "Event"), complete))
      && Finds(at, ms[1..end], id) && |items| == |at|
      && forall i :: 0 <= i < |at| ==> at[i] + 1 < end && items[i] == ms[at[i] + 1]
  {
    hide ListAnswer, ReadAll, Get, EqualFold, Items, Finds;
    ListAnswerExact(input, id, complete);
    var ms := ReadAll(input).0;
    var k := FirstCompletion(ms[1..], id, complete);
    end := k + 1;
    assert ms[1..][..k] == ms[1..end] && ms[1..][k] == ms[end];
    assert forall i :: 0 < i < end ==> ms[1..][i - 1] == ms[i];
    at := ItemsAre(ms[1..end], id);
  }

  /** So whatever is listed is an event of this action, or of none that it names. */
  lemma ListedIsOwn(input: string, id: string, complete: string, m: Fields)
    requires ListAnswer(input, id, complete).0.Listed? && m in ListAnswer(input, id, complete).0.items
    ensures m in ReadAll(input).0 && Get(m, "ActionID") in {"", id} && Get(m, "Event") != ""
  {
    hide ListAnswer, ReadAll, Get, EqualFold;
    var at, end := ListAnswerMeans(input, id, complete);
    var i :| 0 <= i < |at| && ListAnswer(input, id, complete).0.items[i] == m;
    assert at[i] in at;
    assert ReadAll(input).0[1..end][at[i]] == m;
  }

  /** A list is answered exactly if the first message accepts and a completion of this action follows. */
  lemma ListAnswered(input: string, id: string, complete: string)
    ensures
      var ms := ReadAll(input).0;
      ListAnswer(input, id, complete).0.Listed? <==>
        && ms != [] && EqualFold(Get(ms[0], "Response"), "Success")
        && exists k :: 0 < k < |ms| && Get(ms[k], "ActionID") in {"", id} && EqualFold(Get(ms[k], "Event"), complete)
  {
    hide ListAnswer, ReadAll, Get, EqualFold, Items;
    ListAnswerExact(input, id, complete);
    var ms := ReadAll(input).0;
    if ms != [] {
      var rest := ms[1..];
      var k := FirstCompletion(rest, id, complete);
      assert forall i :: 0 < i < |ms| ==> rest[i - 1] == ms[i];
      assert k < |rest| ==> rest[k] == ms[k + 1];
    }
  }

  // ---- The list on printed messages ----

  ghost predicate Sendable(ms: seq<Fields>) {
    forall i :: 0 <= i < |ms| ==> ms[i] != [] && AllReadable(ms[i])
  }

  lemma {:induction false} AllSent(ms: seq<Fields>)
    requires Sendable(ms)
    ensures NonEmpty(ms) == ms
  {
    hide AllReadable;
    if ms == [] {
    } else {
      AllSent(ms[1..]);
      assert ms == [ms[0]] + ms[1..];
    }
  }

  lemma {:induction false} UnreadPrinted(ms: seq<Fields>, n: nat, tail: string)
    requires Sendable(ms) && n <= |ms| && n <= |ReadAll(EncodeAll(ms) + tail).0|
    ensures Unread(EncodeAll(ms) + tail, n) == EncodeAll(ms[n..]) + tail
    decreases n
  {
    hide ReadFrom, Encode, AllReadable, ReadAll;
    if n == 0 {
      assert ms[0..] == ms;
    } else {
      assert EncodeAll(ms) + tail == Encode(ms[0]) + (EncodeAll(ms[1..]) + tail);
      ReadBack(ms[0], EncodeAll(ms[1..]) + tail, []);
      ReadAllOnce(EncodeAll(ms) + tail);
      UnreadPrinted(ms[1..], n - 1, tail);
      assert ms[1..][n - 1..] == ms[n..];
    }
  }

  /** On printed messages with anything behind them: the items up to the first completion, with
      the bytes behind it unread. */
  lemma {:induction false} PrintedList(
    ms: seq<Fields>, k: nat, tail: string, id: string, complete: string, items: seq<Fields>)
    requires Sendable(ms) && k < |ms| && Completes(ms[k], id, complete)
    requires forall i :: 0 <= i < k ==> !Completes(ms[i], id, complete)
    ensures CollectFrom(EncodeAll(ms) + tail, id, complete, items) ==
      (Listed(items + Items(ms[..k], id)), EncodeAll(ms[k + 1..]) + tail)
  {
    hide CollectFrom, Completes, IsItem, Encode, EncodeAll, ReadAll, AllReadable, Unread, NonEmpty;
    var input := EncodeAll(ms) + tail;
    StreamThenTail(ms, tail);
    AllSent(ms);
    assert ReadAll(input).0[..k] == ms[..k];
    ListUpToCompletion(input, k, id, complete, items);
    UnreadPrinted(ms, k + 1, tail);
  }
}
