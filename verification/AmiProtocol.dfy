/** The listener's codec: a message is a map from lower-case key to trimmed value. */
module AmiProtocol {
  import opened Text
  import opened AmiMessage

  type FieldMap = map<string, string>

  function GetIn(fields: FieldMap, key: string): string {
    if ToLower(key) in fields then fields[ToLower(key)] else ""
  }

  /** The kind of message: its event name, or else its response. */
  function TypeOf(fields: FieldMap): string {
    if GetIn(fields, "Event") != "" then GetIn(fields, "Event") else GetIn(fields, "Response")
  }

  datatype MapResult = GotMap(fields: FieldMap) | MapEof

  /** A header overwrites what its key held; a line without a colon is a banner. */
  function StoreLine(fields: FieldMap, line: string): FieldMap {
    var i := IndexOf(line, ':');
    if i < 0 then fields["banner" := line]
    else fields[ToLower(TrimSpace(line[..i])) := TrimSpace(line[i + 1..])]
  }

  lemma BannerIsLower()
    ensures ToLower("banner") == "banner"
  {
  }

  /** What a line stores: up to the first colon the lower-case trimmed key, behind it the trimmed
      value, over whatever the key held; without a colon all of it as banner.  No other key changes. */
  lemma StoreMeaning(fields: FieldMap, key: string, value: string, other: string)
    requires ':' !in key
    ensures
      var after := StoreLine(fields, key + ":" + value);
      GetIn(after, other) == if EqualFold(other, TrimSpace(key)) then TrimSpace(value) else GetIn(fields, other)
    ensures
      var after := StoreLine(fields, key);
      GetIn(after, other) == if EqualFold(other, "banner") then key else GetIn(fields, other)
  {
    hide IndexOf, TrimSpace, ToLower;
    var line := key + ":" + value;
    assert line[..|key|] == key && line[|key| + 1..] == value;
    IndexIs(line, ':', |key|);
    BannerIsLower();
  }

  /** Reads on from the middle of a message; at end of file what was seen is the message. */
  function ReadMapFrom(input: string, fields: FieldMap, saw: bool): (r: (MapResult, string))
    decreases |input|
  {
    var i := IndexOf(input, '\n');
    if i < 0 then (if saw then GotMap(fields) else MapEof, "")
    else
      var line, rest := TrimEol(input[..i + 1]), input[i + 1..];
      if line != "" then ReadMapFrom(rest, StoreLine(fields, line), true)
      else if !saw then ReadMapFrom(rest, fields, saw)
      else (GotMap(fields), rest)
  }

  method ReadMapMessage(r: Reader) returns (res: MapResult)
    modifies r
    ensures (res, r.rest) == ReadMapFrom(old(r.rest), map[], false)
  {
    var fields: FieldMap, saw := map[], false;
    while true
      invariant ReadMapFrom(old(r.rest), map[], false) == ReadMapFrom(r.rest, fields, saw)
      decreases |r.rest|
    {
      ghost var before := r.rest;
      var line, eof := r.ReadLine();
      if eof {
        return if saw then GotMap(fields) else MapEof;
      }
      assert r.rest == before[|line|..];
      line := TrimEol(line);
      if line == "" {
        if saw {
          return GotMap(fields);
        }
      } else {
        saw := true;
        fields := StoreLine(fields, line);
      }
    }
  }

  /** Prints an action's headers in the caller's order. */
  method WriteAction(headers: Fields) returns (text: string)
    ensures text == Encode(headers)
  {
    text := "";
    for i := 0 to |headers|
      invariant text == EncodeFields(headers[..i])
    {
      assert headers[..i + 1] == headers[..i] + [headers[i]];
      EncodeAppend(headers[..i], headers[i]);
      text := text + headers[i].key + ": " + headers[i].value + "\r\n";
    }
    assert headers[..|headers|] == headers;
    text := text + "\r\n";
  }

  // ---- The two codecs side by side ----

  /** A header both parsers read as it was meant: printable as it is, and trimmed. */
  predicate Trimmed(f: Field) {
    Readable(f) && TrimSpace(f.key) == f.key && TrimSpace(f.value) == f.value
  }

  predicate AllTrimmed(fields: Fields) {
    forall i :: 0 <= i < |fields| ==> Trimmed(fields[i])
  }

  /** The map a header list leaves behind: later headers overwrite earlier ones. */
  function Stored(fields: FieldMap, headers: Fields): FieldMap
    decreases |headers|
  {
    if headers == [] then fields
    else Stored(fields[ToLower(headers[0].key) := headers[0].value], headers[1..])
  }

  lemma ReadMapLine(line: string, rest: string, fields: FieldMap, saw: bool)
    requires '\n' !in line
    ensures ReadMapFrom(line + "\n" + rest, fields, saw) ==
      if TrimEol(line) != "" then ReadMapFrom(rest, StoreLine(fields, TrimEol(line)), true)
      else if !saw then ReadMapFrom(rest, fields, saw)
      else (GotMap(fields), rest)
  {
    hide StoreLine;
    var input := line + "\n" + rest;
    assert input[..|line|] == line && input[..|line| + 1] == line + ['\n'] && input[|line| + 1..] == rest;
    IndexIs(input, '\n', |line|);
    TrimEolStep(line, '\n');
  }

  lemma TrimSpaceBlank(s: string)
    ensures TrimSpace(" " + s) == TrimSpace(s)
  {
    assert (" " + s)[1..] == s;
  }

  lemma StorePrinted(f: Field, fields: FieldMap)
    requires Trimmed(f)
    ensures StoreLine(fields, Header(f)) == fields[ToLower(f.key) := f.value]
  {
    hide IndexOf, TrimSpace, ToLower;
    var body := f.key + ": " + f.value;
    assert body[..|f.key|] == f.key && body[|f.key| + 1..] == " " + f.value;
    IndexIs(body, ':', |f.key|);
    TrimSpaceBlank(f.value);
  }

  lemma ReadMapOne(f: Field, tail: string, fields: FieldMap, saw: bool)
    requires Trimmed(f)
    ensures ReadMapFrom(EncodeField(f) + tail, fields, saw) ==
            ReadMapFrom(tail, fields[ToLower(f.key) := f.value], true)
  {
    hide ReadMapFrom, StoreLine, TrimSpace, ToLower, Header, EncodeField;
    EncodedLine(f, tail);
    TrimPrinted(f);
    ReadMapLine(Header(f) + ['\r'], tail, fields, saw);
    StorePrinted(f, fields);
  }

  lemma ReadMapBlank(tail: string, fields: FieldMap)
    ensures ReadMapFrom("\r\n" + tail, fields, true) == (GotMap(fields), tail)
  {
    hide ReadMapFrom, StoreLine;
    assert "\r\n" + tail == ([] + ['\r']) + "\n" + tail;
    ReadMapLine([] + ['\r'], tail, fields, true);
    TrimEolStep([], '\r');
  }

  lemma {:induction false} ReadMapBack(headers: Fields, tail: string, fields: FieldMap, saw: bool)
    requires AllTrimmed(headers) && (saw || headers != [])
    ensures ReadMapFrom(Encode(headers) + tail, fields, saw) == (GotMap(Stored(fields, headers)), tail)
  {
    hide ReadMapFrom, EncodeField, ToLower;
    if headers == [] {
      assert Encode(headers) + tail == "\r\n" + tail;
      ReadMapBlank(tail, fields);
    } else {
      assert Encode(headers) + tail == EncodeField(headers[0]) + (Encode(headers[1..]) + tail);
      ReadMapOne(headers[0], Encode(headers[1..]) + tail, fields, saw);
      ReadMapBack(headers[1..], tail, fields[ToLower(headers[0].key) := headers[0].value], true);
    }
  }

  /** The last header with the key, where Get finds the first. */
  function LastValue(headers: Fields, key: string): string {
    if headers == [] then ""
    else if EqualFold(headers[|headers| - 1].key, key) then headers[|headers| - 1].value
    else LastValue(headers[..|headers| - 1], key)
  }

  lemma {:induction false} StoredAppend(fields: FieldMap, headers: Fields, f: Field)
    ensures Stored(fields, headers + [f]) == Stored(fields, headers)[ToLower(f.key) := f.value]
    decreases |headers|
  {
    hide ToLower;
    if headers == [] {
      assert [] + [f] == [f] && [f][1..] == [];
    } else {
      assert (headers + [f])[1..] == headers[1..] + [f];
      StoredAppend(fields[ToLower(headers[0].key) := headers[0].value], headers[1..], f);
    }
  }

  lemma {:induction false} GetInStored(headers: Fields, key: string)
    ensures GetIn(Stored(map[], headers), key) == LastValue(headers, key)
  {
    hide ToLower;
    if headers == [] {
    } else {
      var n := |headers| - 1;
      assert headers == headers[..n] + [headers[n]];
      StoredAppend(map[], headers[..n], headers[n]);
      GetInStored(headers[..n], key);
    }
  }

  /** A key's headers, first to last, as its first and last occurrence: where they carry one value. */
  ghost predicate FirstIsLast(headers: Fields) {
    forall i, j ::
      0 <= i <= j < |headers| && EqualFold(headers[i].key, headers[j].key)
      && (forall k :: 0 <= k < i ==> !EqualFold(headers[k].key, headers[i].key))
      && (forall k :: j < k < |headers| ==> !EqualFold(headers[k].key, headers[i].key))
      ==> headers[i].value == headers[j].value
  }

  lemma {:induction false} GetIsFirst(headers: Fields, i: nat, key: string)
    requires i < |headers| && EqualFold(headers[i].key, key)
    requires forall k :: 0 <= k < i ==> !EqualFold(headers[k].key, key)
    ensures Get(headers, key) == headers[i].value
  {
    if i == 0 {
    } else {
      GetIsFirst(headers[1..], i - 1, key);
    }
  }

  lemma {:induction false} LastValueIsLast(headers: Fields, j: nat, key: string)
    requires j < |headers| && EqualFold(headers[j].key, key)
    requires forall k :: j < k < |headers| ==> !EqualFold(headers[k].key, key)
    ensures LastValue(headers, key) == headers[j].value
  {
    if j == |headers| - 1 {
    } else {
      LastValueIsLast(headers[..|headers| - 1], j, key);
    }
  }

  lemma {:induction false} NoneGet(headers: Fields, key: string)
    requires !Has(headers, key)
    ensures Get(headers, key) == ""
  {
    if headers == [] {
    } else {
      assert !EqualFold(headers[0].key, key);
      NoneGet(headers[1..], key);
    }
  }

  lemma {:induction false} NoneIsEmpty(headers: Fields, key: string)
    requires !Has(headers, key)
    ensures Get(headers, key) == "" == LastValue(headers, key)
  {
    if headers == [] {
    } else {
      var n := |headers| - 1;
      assert !EqualFold(headers[0].key, key) && !EqualFold(headers[n].key, key);
      NoneGet(headers, key);
      NoneIsEmpty(headers[..n], key);
    }
  }

  /** The first and the last header with a key that occurs. */
  lemma Ends(headers: Fields, key: string) returns (i: nat, j: nat)
    requires Has(headers, key)
    ensures i <= j < |headers| && EqualFold(headers[i].key, key) && EqualFold(headers[j].key, key)
    ensures forall k :: 0 <= k < i ==> !EqualFold(headers[k].key, key)
    ensures forall k :: j < k < |headers| ==> !EqualFold(headers[k].key, key)
  {
    i := 0;
    while !EqualFold(headers[i].key, key)
      invariant i < |headers|
      invariant forall k :: 0 <= k < i ==> !EqualFold(headers[k].key, key)
      decreases |headers| - i
    {
      i := i + 1;
    }
    j := |headers| - 1;
    while !EqualFold(headers[j].key, key)
      invariant i <= j < |headers|
      invariant forall k :: j < k < |headers| ==> !EqualFold(headers[k].key, key)
      decreases j
    {
      j := j - 1;
    }
  }

  /** The first and last header with a key are those of the first one's own key. */
  lemma SameKey(headers: Fields, i: nat, j: nat, key: string)
    requires i <= j < |headers| && EqualFold(headers[i].key, key) && EqualFold(headers[j].key, key)
    requires forall k :: 0 <= k < i ==> !EqualFold(headers[k].key, key)
    requires forall k :: j < k < |headers| ==> !EqualFold(headers[k].key, key)
    ensures EqualFold(headers[i].key, headers[j].key)
    ensures forall k :: 0 <= k < i ==> !EqualFold(headers[k].key, headers[i].key)
    ensures forall k :: j < k < |headers| ==> !EqualFold(headers[k].key, headers[i].key)
  {
    hide ToLower;
  }

  /** Where first and last carry one value, the two lookups agree. */
  lemma {:induction false} SameValueAgrees(headers: Fields, key: string)
    requires FirstIsLast(headers)
    ensures Get(headers, key) == LastValue(headers, key)
  {
    hide EqualFold, Get, LastValue;
    if Has(headers, key) {
      var i, j := Ends(headers, key);
      GetIsFirst(headers, i, key);
      LastValueIsLast(headers, j, key);
      SameKey(headers, i, j, key);
    } else {
      NoneIsEmpty(headers, key);
    }
  }

  lemma {:induction false} DisagreeingKey(headers: Fields) returns (key: string)
    requires !FirstIsLast(headers)
    ensures Get(headers, key) != LastValue(headers, key)
  {
    hide ToLower, Get, LastValue;
    var i, j :|
      0 <= i <= j < |headers| && EqualFold(headers[i].key, headers[j].key)
      && (forall k :: 0 <= k < i ==> !EqualFold(headers[k].key, headers[i].key))
      && (forall k :: j < k < |headers| ==> !EqualFold(headers[k].key, headers[i].key))
      && headers[i].value != headers[j].value;
    key := headers[i].key;
    GetIsFirst(headers, i, key);
    LastValueIsLast(headers, j, key);
  }

  /** The two lookups agree on every key exactly if every repeated key, up to case, carries
      the same value in its first and its last header. */
  lemma LookupsAgreeExactly(headers: Fields)
    ensures (forall key :: Get(headers, key) == GetIn(Stored(map[], headers), key)) <==> FirstIsLast(headers)
  {
    hide EqualFold, ToLower, Get, LastValue, Stored, GetIn, FirstIsLast;
    forall key
      ensures GetIn(Stored(map[], headers), key) == LastValue(headers, key)
    {
      GetInStored(headers, key);
    }
    if FirstIsLast(headers) {
      forall key
        ensures Get(headers, key) == LastValue(headers, key)
      {
        SameValueAgrees(headers, key);
      }
    } else {
      var key := DisagreeingKey(headers);
      assert Get(headers, key) != GetIn(Stored(map[], headers), key);
    }
  }

  /** Such headers: the same key twice, in another case, with different values. */
  lemma RepeatedKeyDiffers()
    ensures
      var headers := [Field("Key", "first"), Field("KEY", "last")];
      Get(headers, "key") == "first" && GetIn(Stored(map[], headers), "key") == "last"
  {
    var headers := [Field("Key", "first"), Field("KEY", "last")];
    assert ToLower("Key") == "key" == ToLower("KEY") && ToLower("key") == "key";
    GetInStored(headers, "key");
  }

  /** Keys that differ even up to case. */
  predicate DistinctKeys(headers: Fields) {
    forall i, j :: 0 <= i < j < |headers| ==> !EqualFold(headers[i].key, headers[j].key)
  }

  /** On the bytes of trimmed headers, followed by anything, both parsers consume the same bytes,
      and they answer every lookup alike exactly if first and last header of each key carry one value. */
  lemma CodecsAgreeExactly(headers: Fields, tail: string)
    requires AllTrimmed(headers) && headers != []
    ensures
      var (l, lrest) := ReadFrom(Encode(headers) + tail, []);
      var (m, mrest) := ReadMapFrom(Encode(headers) + tail, map[], false);
      && l.Got? && m.GotMap? && lrest == mrest == tail
      && ((forall key :: Get(l.fields, key) == GetIn(m.fields, key)) <==> FirstIsLast(headers))
  {
    hide ReadFrom, ReadMapFrom, Encode, TrimSpace, ToLower, Get, GetIn, Stored, FirstIsLast;
    ReadBack(headers, tail, []);
    assert [] + headers == headers;
    ReadMapBack(headers, tail, map[], false);
    LookupsAgreeExactly(headers);
  }

  /** With distinct keys both parsers answer every lookup alike. */
  lemma CodecsAgree(headers: Fields, tail: string, key: string)
    requires AllTrimmed(headers) && DistinctKeys(headers) && headers != []
    ensures
      var (l, lrest) := ReadFrom(Encode(headers) + tail, []);
      var (m, mrest) := ReadMapFrom(Encode(headers) + tail, map[], false);
      l.Got? && m.GotMap? && lrest == mrest == tail && Get(l.fields, key) == GetIn(m.fields, key)
  {
    hide ReadFrom, ReadMapFrom, Encode, TrimSpace, ToLower, Get, GetIn, Stored;
    CodecsAgreeExactly(headers, tail);
    assert FirstIsLast(headers) by {
      forall i, j | 0 <= i <= j < |headers| && EqualFold(headers[i].key, headers[j].key)
        ensures i == j
      {
      }
    }
  }

  // ---- Messages that the end of the input cuts off ----

  /** The complete lines of the input, without their line ends. */
  function CompleteLines(input: string): seq<string>
    decreases |input|
  {
    var i := IndexOf(input, '\n');
    if i < 0 then [] else [TrimEol(input[..i + 1])] + CompleteLines(input[i + 1..])
  }

  /** A message is open, from before or by a line that is not blank, and no blank line closes it. */
  ghost predicate CutOff(lines: seq<string>, open: bool) {
    if open then forall k :: 0 <= k < |lines| ==> lines[k] != ""
    else
      && (exists k :: 0 <= k < |lines| && lines[k] != "")
      && (forall j, k :: 0 <= j < k < |lines| && lines[j] != "" ==> lines[k] != "")
  }

  lemma CutOffHead(line: string, rest: seq<string>, open: bool)
    ensures CutOff([line] + rest, open) <==>
      if line != "" then CutOff(rest, true) else !open && CutOff(rest, false)
  {
    var all := [line] + rest;
    assert all[0] == line && forall k :: 0 <= k < |rest| ==> all[k + 1] == rest[k];
    assert forall k :: 1 <= k < |all| ==> all[k] == rest[k - 1];
  }

  lemma NothingCutOff(open: bool)
    ensures CutOff([], open) == open
  {
  }

  /** Both parsers after one line of input, from where neither or both have begun a message. */
  lemma {:induction false} ReadAlike(input: string, acc: Fields, fields: FieldMap, saw: bool)
    requires saw <==> acc != []
    ensures
      var (l, lrest) := ReadFrom(input, acc);
      var (m, mrest) := ReadMapFrom(input, fields, saw);
      && lrest == mrest
      && (l.Got? ==> m.GotMap?)
      && ((l.Got? <==> m.GotMap?) <==> !CutOff(CompleteLines(input), saw))
    decreases |input|
  {
    hide ParseLine, StoreLine, TrimEol, IndexOf, CutOff;
    var i := IndexOf(input, '\n');
    if i < 0 {
      assert CutOff([], saw) == saw by { NothingCutOff(saw); }
    } else {
      var line, rest := TrimEol(input[..i + 1]), input[i + 1..];
      CutOffHead(line, CompleteLines(rest), saw);
      if line != "" {
        ReadAlike(rest, acc + [ParseLine(line)], StoreLine(fields, line), true);
      } else if !saw {
        ReadAlike(rest, acc, fields, saw);
      }
    }
  }

  /** For every input both parsers consume the same bytes and find a message in the same cases,
      unless the input begins a message with a complete line and ends before a complete blank line:
      then, and only then, the listener's returns what it has where the exporter's reports an error. */
  lemma ReadersDifferExactly(input: string)
    ensures
      var (l, lrest) := ReadFrom(input, []);
      var (m, mrest) := ReadMapFrom(input, map[], false);
      && lrest == mrest
      && (l.Got? ==> m.GotMap?)
      && (m.GotMap? && !l.Got? <==> CutOff(CompleteLines(input), false))
  {
    hide ReadFrom, ReadMapFrom, CutOff, CompleteLines;
    ReadAlike(input, [], map[], false);
  }

  /** Such an input: printed headers without the blank line at the end, which the exporter reports
      as a broken message and the listener takes as whole. */
  lemma {:induction false} TruncatedDiffers(headers: Fields, acc: Fields, fields: FieldMap, saw: bool)
    requires AllTrimmed(headers) && (headers != [] || (acc != [] && saw))
    ensures ReadFrom(EncodeFields(headers), acc).0 == UnexpectedEof
    ensures ReadMapFrom(EncodeFields(headers), fields, saw).0 == GotMap(Stored(fields, headers))
  {
    hide TrimSpace, ToLower, EncodeField;
    if headers == [] {
    } else {
      ReadOneField(headers[0], EncodeFields(headers[1..]), acc);
      ReadMapOne(headers[0], EncodeFields(headers[1..]), fields, saw);
      TruncatedDiffers(headers[1..], acc + [headers[0]], fields[ToLower(headers[0].key) := headers[0].value], true);
    }
  }
}
