/** The exporter's codec: a message is an ordered list of fields. */
module AmiMessage {
  import opened Text

  datatype Field = Field(key: string, value: string)

  type Fields = seq<Field>

  // ---- Lookup and update ----

  function Get(fields: Fields, key: string): string {
    if fields == [] then ""
    else if EqualFold(fields[0].key, key) then fields[0].value
    else Get(fields[1..], key)
  }

  predicate Has(fields: Fields, key: string) {
    exists i :: 0 <= i < |fields| && EqualFold(fields[i].key, key)
  }

  /** Replaces the value of the first field with that key, or appends one. */
  function Set(fields: Fields, key: string, value: string): Fields {
    if fields == [] then [Field(key, value)]
    else if EqualFold(fields[0].key, key) then [fields[0].(value := value)] + fields[1..]
    else [fields[0]] + Set(fields[1..], key, value)
  }

  lemma HasCons(f: Field, fields: Fields, key: string)
    ensures Has([f] + fields, key) <==> EqualFold(f.key, key) || Has(fields, key)
  {
    var all := [f] + fields;
    if i :| 0 <= i < |all| && EqualFold(all[i].key, key) {
      assert i > 0 ==> all[i] == fields[i - 1];
    }
    if i :| 0 <= i < |fields| && EqualFold(fields[i].key, key) {
      assert all[i + 1] == fields[i];
    }
    assert all[0] == f;
  }

  lemma {:induction false} GetAfterSet(fields: Fields, key: string, value: string, other: string)
    ensures Get(Set(fields, key, value), other) == if EqualFold(key, other) then value else Get(fields, other)
    ensures Has(Set(fields, key, value), other) <==> EqualFold(key, other) || Has(fields, other)
  {
    if fields == [] {
    } else {
      var f, rest := fields[0], fields[1..];
      assert fields == [f] + rest;
      HasCons(f, rest, other);
      if EqualFold(f.key, key) {
        HasCons(f.(value := value), rest, other);
      } else {
        GetAfterSet(rest, key, value, other);
        HasCons(f, Set(rest, key, value), other);
      }
    }
  }

  lemma {:induction false} SetAt(fields: Fields, i: nat, key: string, value: string)
    requires i <= |fields| && forall k :: 0 <= k < i ==> !EqualFold(fields[k].key, key)
    requires i < |fields| ==> EqualFold(fields[i].key, key)
    ensures Set(fields, key, value) ==
      if i < |fields| then fields[i := fields[i].(value := value)] else fields + [Field(key, value)]
  {
    hide EqualFold;
    if i > 0 {
      assert fields == [fields[0]] + fields[1..];
      SetAt(fields[1..], i - 1, key, value);
    } else if fields != [] {
      assert fields[0 := fields[0].(value := value)] == [fields[0].(value := value)] + fields[1..];
    }
  }

  // ---- Printing ----

  function EncodeField(f: Field): string {
    f.key + ": " + f.value + "\r\n"
  }

  function EncodeFields(fields: Fields): string {
    if fields == [] then "" else EncodeField(fields[0]) + EncodeFields(fields[1..])
  }

  function Encode(fields: Fields): string {
    EncodeFields(fields) + "\r\n"
  }

  lemma {:induction false} EncodeAppend(fields: Fields, f: Field)
    ensures EncodeFields(fields + [f]) == EncodeFields(fields) + EncodeField(f)
  {
    if fields == [] {
      assert [] + [f] == [f] && [f][1..] == [];
    } else {
      assert (fields + [f])[1..] == fields[1..] + [f];
      EncodeAppend(fields[1..], f);
    }
  }

  // ---- Reading ----

  datatype ReadResult = Got(fields: Fields) | Eof | UnexpectedEof

  /** A line with a colon is a header; one without is free-form output. */
  function ParseLine(line: string): Field {
    var i := IndexOf(line, ':');
    if i < 0 then Field("Output", line) else Field(line[..i], TrimBlanks(line[i + 1..]))
  }

  /** What a line says: up to the first colon the key as it stands, behind it the value without its
      leading blanks; without a colon all of it is output. */
  lemma LineMeaning(key: string, blanks: string, value: string)
    requires ':' !in key && (forall i :: 0 <= i < |blanks| ==> blanks[i] == ' ') && (value != "" ==> value[0] != ' ')
    ensures ParseLine(key + ":" + blanks + value) == Field(key, value)
    ensures ParseLine(key) == Field("Output", key)
  {
    hide IndexOf, TrimBlanks;
    var line := key + ":" + blanks + value;
    assert line[..|key|] == key && line[|key| + 1..] == blanks + value;
    IndexIs(line, ':', |key|);
    TrimAllBlanks(blanks, value);
  }

  /** Reads on from the middle of a message with the fields acc; returns the unread rest too. */
  function ReadFrom(input: string, acc: Fields): (r: (ReadResult, string))
    ensures r.0.Got? ==> |r.1| < |input|
    decreases |input|
  {
    var i := IndexOf(input, '\n');
    if i < 0 then (if acc == [] && input == "" then Eof else UnexpectedEof, "")
    else
      var line, rest := TrimEol(input[..i + 1]), input[i + 1..];
      if line != "" then ReadFrom(rest, acc + [ParseLine(line)])
      else if acc == [] then ReadFrom(rest, acc)
      else (Got(acc), rest)
  }

  class Message {
    var fields: Fields

    constructor ()
      ensures fields == []
    {
      fields := [];
    }

    method GetValue(key: string) returns (value: string)
      ensures value == Get(fields, key)
    {
      for i := 0 to |fields|
        invariant Get(fields, key) == Get(fields[i..], key)
      {
        if EqualFold(fields[i].key, key) {
          return fields[i].value;
        }
        assert fields[i..][1..] == fields[i + 1..];
      }
      return "";
    }

    method HasKey(key: string) returns (has: bool)
      ensures has <==> Has(fields, key)
    {
      for i := 0 to |fields|
        invariant forall k :: 0 <= k < i ==> !EqualFold(fields[k].key, key)
      {
        if EqualFold(fields[i].key, key) {
          return true;
        }
      }
      return false;
    }

    method SetValue(key: string, value: string)
      modifies this
      ensures fields == Set(old(fields), key, value)
    {
      for i := 0 to |fields|
        invariant fields == old(fields)
        invariant forall k :: 0 <= k < i ==> !EqualFold(fields[k].key, key)
      {
        if EqualFold(fields[i].key, key) {
          SetAt(fields, i, key, value);
          fields := fields[i := fields[i].(value := value)];
          return;
        }
      }
      SetAt(fields, |fields|, key, value);
      fields := fields + [Field(key, value)];
    }

    method EncodeMessage() returns (text: string)
      ensures text == Encode(fields)
    {
      text := "";
      for i := 0 to |fields|
        invariant text == EncodeFields(fields[..i])
      {
        assert fields[..i + 1] == fields[..i] + [fields[i]];
        EncodeAppend(fields[..i], fields[i]);
        text := text + fields[i].key + ": " + fields[i].value + "\r\n";
      }
      assert fields[..|fields|] == fields;
      text := text + "\r\n";
    }
  }

  method ReadMessage(r: Reader) returns (res: ReadResult)
    modifies r
    ensures (res, r.rest) == ReadFrom(old(r.rest), [])
  {
    var fields: Fields := [];
    while true
      invariant ReadFrom(old(r.rest), []) == ReadFrom(r.rest, fields)
      decreases |r.rest|
    {
      ghost var before := r.rest;
      var line, eof := r.ReadLine();
      if eof {
        assert line == before;
        return if fields == [] && line == "" then Eof else UnexpectedEof;
      }
      assert r.rest == before[|line|..];
      line := TrimEol(line);
      if line != "" {
        fields := fields + [ParseLine(line)];
      } else if fields != [] {
        return Got(fields);
      }
    }
  }

  // ---- Round trips ----

  /** A field that survives printing and reading. */
  predicate Readable(f: Field) {
    && ':' !in f.key && '\n' !in f.key && '\n' !in f.value
    && (f.value != "" ==> f.value[0] != ' ' && f.value[|f.value| - 1] != '\r')
  }

  predicate AllReadable(fields: Fields) {
    forall i :: 0 <= i < |fields| ==> Readable(fields[i])
  }

  /** What reading does with one line, given without its LF. */
  function ReadOneLine(line: string, rest: string, acc: Fields): (ReadResult, string) {
    if TrimEol(line) != "" then ReadFrom(rest, acc + [ParseLine(TrimEol(line))])
    else if acc == [] then ReadFrom(rest, acc)
    else (Got(acc), rest)
  }

  lemma ReadFromLine(line: string, rest: string, acc: Fields)
    requires '\n' !in line
    ensures ReadFrom(line + "\n" + rest, acc) == ReadOneLine(line, rest, acc)
  {
    hide ParseLine;
    var input := line + "\n" + rest;
    assert input[..|line|] == line && input[..|line| + 1] == line + ['\n'] && input[|line| + 1..] == rest;
    IndexIs(input, '\n', |line|);
    TrimEolStep(line, '\n');
  }

  /** A printed header without its line end, which trimming recovers. */
  function Header(f: Field): string {
    f.key + ": " + f.value
  }

  lemma ParsePrinted(f: Field)
    requires Readable(f)
    ensures ParseLine(Header(f)) == f
  {
    hide IndexOf, TrimBlanks;
    var body := f.key + ": " + f.value;
    assert body[..|f.key|] == f.key && body[|f.key| + 1..] == " " + f.value;
    IndexIs(body, ':', |f.key|);
    TrimOneBlank(f.value);
  }

  lemma TrimPrinted(f: Field)
    requires Readable(f)
    ensures TrimEol(Header(f) + ['\r']) == Header(f) != ""
    ensures '\n' !in Header(f) + ['\r']
  {
    hide TrimEol;
    var body := Header(f);
    var n := |body| - 1;
    TrimEolStep(body, '\r');
    TrimEolStep(body[..n], body[n]);
    assert body == body[..n] + [body[n]];
  }

  lemma EncodedLine(f: Field, tail: string)
    ensures EncodeField(f) + tail == (Header(f) + ['\r']) + "\n" + tail
  {
  }

  /** Reading over one printed field. */
  lemma {:induction false} ReadOneField(f: Field, tail: string, acc: Fields)
    requires Readable(f)
    ensures ReadFrom(EncodeField(f) + tail, acc) == ReadFrom(tail, acc + [f])
  {
    hide ReadFrom, ParseLine, Header, EncodeField;
    EncodedLine(f, tail);
    TrimPrinted(f);
    ReadFromLine(Header(f) + ['\r'], tail, acc);
    ParsePrinted(f);
  }

  lemma {:induction false} ReadBlank(tail: string, acc: Fields)
    ensures ReadFrom("\r\n" + tail, acc) == if acc == [] then ReadFrom(tail, acc) else (Got(acc), tail)
  {
    hide ReadFrom, ParseLine;
    assert "\r\n" + tail == ([] + ['\r']) + "\n" + tail;
    ReadFromLine([] + ['\r'], tail, acc);
    TrimEolStep([], '\r');
  }

  /** Printing then reading gives the fields back, and leaves what follows unread. */
  lemma {:induction false} ReadBack(fields: Fields, tail: string, acc: Fields)
    requires AllReadable(fields) && acc + fields != []
    ensures ReadFrom(Encode(fields) + tail, acc) == (Got(acc + fields), tail)
  {
    hide ReadFrom, EncodeField;
    if fields == [] {
      assert Encode(fields) + tail == "\r\n" + tail;
      ReadBlank(tail, acc);
      assert acc + [] == acc;
    } else {
      assert Encode(fields) + tail == EncodeField(fields[0]) + (Encode(fields[1..]) + tail);
      ReadOneField(fields[0], Encode(fields[1..]) + tail, acc);
      ReadBack(fields[1..], tail, acc + [fields[0]]);
      assert acc + fields == acc + [fields[0]] + fields[1..];
    }
  }

  /** An empty message prints as a blank line, which reading skips. */
  lemma EmptySkipped(tail: string)
    ensures ReadFrom(Encode([]) + tail, []) == ReadFrom(tail, [])
  {
    hide ReadFrom;
    assert Encode([]) + tail == "\r\n" + tail;
    ReadBlank(tail, []);
  }

  function EncodeAll(msgs: seq<Fields>): string {
    if msgs == [] then "" else Encode(msgs[0]) + EncodeAll(msgs[1..])
  }

  /** Reads until there is no further message: the messages, and how it ended. */
  function ReadAll(input: string): (seq<Fields>, ReadResult)
    decreases |input|
  {
    var (r, rest) := ReadFrom(input, []);
    if r.Got? then
      var (more, end) := ReadAll(rest);
      ([r.fields] + more, end)
    else ([], r)
  }

  function NonEmpty(msgs: seq<Fields>): seq<Fields> {
    if msgs == [] then [] else (if msgs[0] == [] then [] else [msgs[0]]) + NonEmpty(msgs[1..])
  }

  lemma AtEof()
    ensures ReadFrom("", []) == (Eof, "")
  {
  }

  lemma ReadAllOnce(input: string)
    ensures
      var (r, rest) := ReadFrom(input, []);
      ReadAll(input) == if r.Got? then ([r.fields] + ReadAll(rest).0, ReadAll(rest).1) else ([], r)
  {
  }

  /** Reading over one printed message of readable fields; an empty one leaves no trace. */
  lemma ReadAllPrinted(fields: Fields, tail: string)
    requires AllReadable(fields)
    ensures ReadAll(Encode(fields) + tail) ==
      ((if fields == [] then [] else [fields]) + ReadAll(tail).0, ReadAll(tail).1)
  {
    hide ReadFrom, Encode, AllReadable, ReadAll;
    ReadAllOnce(Encode(fields) + tail);
    if fields == [] {
      EmptySkipped(tail);
      ReadAllOnce(tail);
      assert [] + ReadAll(tail).0 == ReadAll(tail).0;
    } else {
      ReadBack(fields, tail, []);
      assert [] + fields == fields;
    }
  }

  /** Stream round trip: the concatenated messages come back in order, then what follows them. */
  lemma {:induction false} StreamThenTail(msgs: seq<Fields>, tail: string)
    requires forall i :: 0 <= i < |msgs| ==> AllReadable(msgs[i])
    ensures ReadAll(EncodeAll(msgs) + tail) == (NonEmpty(msgs) + ReadAll(tail).0, ReadAll(tail).1)
  {
    hide Encode, AllReadable, ReadAll;
    if msgs == [] {
      assert EncodeAll([]) + tail == tail && NonEmpty([]) + ReadAll(tail).0 == ReadAll(tail).0;
    } else {
      var after, head := EncodeAll(msgs[1..]) + tail, if msgs[0] == [] then [] else [msgs[0]];
      assert EncodeAll(msgs) + tail == Encode(msgs[0]) + after;
      StreamThenTail(msgs[1..], tail);
      ReadAllPrinted(msgs[0], after);
      assert head + NonEmpty(msgs[1..]) + ReadAll(tail).0 == head + (NonEmpty(msgs[1..]) + ReadAll(tail).0);
    }
  }

  /** With nothing behind them, the messages come back and then end of file. */
  lemma StreamRoundTrip(msgs: seq<Fields>)
    requires forall i :: 0 <= i < |msgs| ==> AllReadable(msgs[i])
    ensures ReadAll(EncodeAll(msgs)) == (NonEmpty(msgs), Eof)
  {
    hide ReadFrom, EncodeAll, NonEmpty, AllReadable;
    AtEof();
    StreamThenTail(msgs, "");
    assert EncodeAll(msgs) + "" == EncodeAll(msgs) && NonEmpty(msgs) + [] == NonEmpty(msgs);
  }

  // ---- Exactly which messages survive ----

  /** A text with a LF in it is its first line, the LF and the rest. */
  lemma SplitAtLf(text: string) returns (line: string, rest: string)
    requires '\n' in text
    ensures text == line + "\n" + rest && '\n' !in line
  {
    var i := IndexOf(text, '\n');
    line, rest := text[..i], text[i + 1..];
  }

  lemma GotHasLf(input: string, acc: Fields)
    requires ReadFrom(input, acc).0.Got?
    ensures '\n' in input
  {
  }

  lemma TrimNoLf(line: string)
    requires '\n' !in line
    ensures '\n' !in TrimEol(line)
  {
  }

  lemma ParsedKey(line: string)
    requires '\n' !in line
    ensures '\n' !in ParseLine(line).key
  {
    hide TrimBlanks;
  }

  /** Reading only appends, and no key it reads holds a LF. */
  lemma {:induction false} ReadExtends(input: string, acc: Fields)
    requires ReadFrom(input, acc).0.Got?
    ensures acc <= ReadFrom(input, acc).0.fields
    ensures forall j :: |acc| <= j < |ReadFrom(input, acc).0.fields| ==> '\n' !in ReadFrom(input, acc).0.fields[j].key
    decreases |input|
  {
    hide ReadFrom, ParseLine, TrimEol;
    GotHasLf(input, acc);
    var line, rest := SplitAtLf(input);
    ReadFromLine(line, rest, acc);
    if TrimEol(line) != "" {
      TrimNoLf(line);
      ParsedKey(TrimEol(line));
      ReadExtends(rest, acc + [ParseLine(TrimEol(line))]);
    } else if acc == [] {
      ReadExtends(rest, acc);
    }
  }

  /** The value of a header: no leading blank, no LF, and no trailing CR where the line has none. */
  lemma ParsedValue(s: string)
    requires '\n' !in s && (s != "" ==> s[|s| - 1] != '\r')
    ensures
      var v := TrimBlanks(s);
      '\n' !in v && (v != "" ==> v[0] != ' ' && v[|v| - 1] != '\r')
  {
    hide TrimBlanks;
    var v := TrimBlanks(s);
    assert forall k :: 0 <= k < |v| ==> v[k] == s[|s| - |v| + k];
  }

  lemma ParsedLine(t: string)
    requires '\n' !in t && ':' in t && t[|t| - 1] != '\r'
    ensures Readable(ParseLine(t))
  {
    hide IndexOf, TrimBlanks;
    var i := IndexOf(t, ':');
    var s := t[i + 1..];
    assert s != "" ==> s[|s| - 1] == t[|t| - 1];
    ParsedValue(s);
  }

  lemma {:induction false} TrimKeepsColon(line: string)
    ensures ':' in line <==> ':' in TrimEol(line)
  {
    if line == "" || line[|line| - 1] !in {'\r', '\n'} {
    } else {
      assert line == line[..|line| - 1] + [line[|line| - 1]];
      TrimKeepsColon(line[..|line| - 1]);
    }
  }

  /** A header line never yields a field that reading cannot reproduce. */
  lemma ParsedHeader(line: string)
    requires '\n' !in line && ':' in line
    ensures Readable(ParseLine(TrimEol(line)))
  {
    hide TrimEol, ParseLine, Readable;
    TrimKeepsColon(line);
    TrimNoLf(line);
    ParsedLine(TrimEol(line));
  }

  lemma SplitPrinted(f: Field, tail: string)
    ensures EncodeField(f) + tail == f.key + ":" + (" " + f.value + "\r\n" + tail)
  {
  }

  /** Without a LF in its key, a printed field starts with a line holding key and colon. */
  lemma FirstLine(f: Field, tail: string) returns (line: string, rest: string)
    requires '\n' !in f.key
    ensures EncodeField(f) + tail == line + "\n" + rest && '\n' !in line && ':' in line
  {
    hide EncodeField;
    var after := " " + f.value + "\r\n" + tail;
    SplitPrinted(f, tail);
    assert after[|f.value| + 2] == '\n';
    var first, behind := SplitAtLf(after);
    line, rest := f.key + ":" + first, behind;
    assert line[|f.key|] == ':';
    assert f.key + ":" + (first + "\n" + behind) == line + "\n" + rest;
  }

  /** A printed field that is not readable is not read back in its place. */
  lemma BadFieldLost(f: Field, tail: string, acc: Fields)
    requires !Readable(f) && ReadFrom(EncodeField(f) + tail, acc).0.Got?
    ensures ReadFrom(EncodeField(f) + tail, acc).0.fields == acc ||
      (|acc| < |ReadFrom(EncodeField(f) + tail, acc).0.fields| &&
       ReadFrom(EncodeField(f) + tail, acc).0.fields[|acc|] != f)
  {
    hide ParseLine, Readable, EncodeField;
    var input := EncodeField(f) + tail;
    var res := ReadFrom(input, acc).0.fields;
    ReadExtends(input, acc);
    if '\n' !in f.key && res != acc {
      var line, rest := FirstLine(f, tail);
      ReadFromLine(line, rest, acc);
      TrimKeepsColon(line);
      ParsedHeader(line);
      ReadExtends(rest, acc + [ParseLine(TrimEol(line))]);
    }
  }

  /** Which messages survive printing and reading: exactly those whose fields are all readable. */
  lemma {:induction false} ReadBackExactly(fields: Fields, tail: string, acc: Fields)
    requires acc + fields != []
    ensures ReadFrom(Encode(fields) + tail, acc).0 == Got(acc + fields) <==> AllReadable(fields)
  {
    hide ReadFrom, Readable;
    if AllReadable(fields) {
      ReadBack(fields, tail, acc);
    } else if Readable(fields[0]) {
      assert Encode(fields) + tail == EncodeField(fields[0]) + (Encode(fields[1..]) + tail);
      ReadOneField(fields[0], Encode(fields[1..]) + tail, acc);
      ReadBackExactly(fields[1..], tail, acc + [fields[0]]);
      assert acc + fields == acc + [fields[0]] + fields[1..];
      assert forall i :: 1 <= i < |fields| ==> fields[i] == fields[1..][i - 1];
      assert !AllReadable(fields[1..]);
    } else {
      assert Encode(fields) + tail == EncodeField(fields[0]) + (Encode(fields[1..]) + tail);
      if ReadFrom(Encode(fields) + tail, acc).0.Got? {
        BadFieldLost(fields[0], Encode(fields[1..]) + tail, acc);
      }
    }
  }
}
