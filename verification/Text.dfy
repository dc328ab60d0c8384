/** Text helpers shared by the codecs and parsers, over ASCII characters. */
module Text {

  function LowerChar(c: char): char {
    if 'A' <= c <= 'Z' then (c as int + 32) as char else c
  }

  function ToLower(s: string): (r: string)
    ensures |r| == |s|
  {
    seq(|s|, i requires 0 <= i < |s| => LowerChar(s[i]))
  }

  function UpperChar(c: char): char {
    if 'a' <= c <= 'z' then (c as int - 32) as char else c
  }

  function ToUpper(s: string): (r: string)
    ensures |r| == |s|
  {
    seq(|s|, i requires 0 <= i < |s| => UpperChar(s[i]))
  }

  predicate EqualFold(s: string, t: string) {
    ToLower(s) == ToLower(t)
  }

  /** The first position of c in s, or -1. */
  function IndexOf(s: string, c: char): (i: int)
    ensures -1 <= i < |s|
    ensures i == -1 <==> c !in s
    ensures i >= 0 ==> s[i] == c && c !in s[..i]
  {
    if s == "" then -1
    else if s[0] == c then 0
    else
      var i := IndexOf(s[1..], c);
      assert s == [s[0]] + s[1..];
      assert i >= 0 ==> s[..i + 1] == [s[0]] + s[1..][..i];
      if i < 0 then -1 else i + 1
  }

  /** Drops trailing line-end characters. */
  function TrimEol(s: string): (r: string)
    ensures r <= s
    ensures r != "" ==> r[|r| - 1] != '\r' && r[|r| - 1] != '\n'
  {
    if s != "" && s[|s| - 1] in {'\r', '\n'} then TrimEol(s[..|s| - 1]) else s
  }

  /** Drops leading blanks, and only blanks. */
  function TrimBlanks(s: string): (r: string)
    ensures |r| <= |s| && r == s[|s| - |r|..]
    ensures r != "" ==> r[0] != ' '
  {
    if s != "" && s[0] == ' ' then TrimBlanks(s[1..]) else s
  }

  predicate IsSpace(c: char) {
    c in {' ', '\t', '\n', '\U{0B}', '\U{0C}', '\r'}
  }

  function TrimSpaceLeft(s: string): string {
    if s != "" && IsSpace(s[0]) then TrimSpaceLeft(s[1..]) else s
  }

  function TrimSpaceRight(s: string): string {
    if s != "" && IsSpace(s[|s| - 1]) then TrimSpaceRight(s[..|s| - 1]) else s
  }

  function TrimSpace(s: string): string {
    TrimSpaceRight(TrimSpaceLeft(s))
  }

  lemma {:induction false} TrimLeftMeaning(s: string) returns (left: string)
    ensures s == left + TrimSpaceLeft(s) && (forall c :: c in left ==> IsSpace(c))
    ensures TrimSpaceLeft(s) != "" ==> !IsSpace(TrimSpaceLeft(s)[0])
  {
    left := "";
    if s != "" && IsSpace(s[0]) {
      var rest := TrimLeftMeaning(s[1..]);
      left := [s[0]] + rest;
      assert s == [s[0]] + s[1..];
    }
  }

  lemma {:induction false} TrimRightMeaning(s: string) returns (right: string)
    ensures s == TrimSpaceRight(s) + right && (forall c :: c in right ==> IsSpace(c))
    ensures TrimSpaceRight(s) != "" ==> !IsSpace(TrimSpaceRight(s)[|TrimSpaceRight(s)| - 1])
  {
    right := "";
    if s != "" && IsSpace(s[|s| - 1]) {
      var n := |s| - 1;
      var rest := TrimRightMeaning(s[..n]);
      right := rest + [s[n]];
      assert s == s[..n] + [s[n]];
    }
  }

  /** Trimming takes off all blanks at both ends and nothing else. */
  lemma TrimSpaceMeaning(s: string) returns (left: string, right: string)
    ensures s == left + TrimSpace(s) + right
    ensures (forall c :: c in left + right ==> IsSpace(c))
    ensures TrimSpace(s) != "" ==> !IsSpace(TrimSpace(s)[0]) && !IsSpace(TrimSpace(s)[|TrimSpace(s)| - 1])
  {
    left := TrimLeftMeaning(s);
    right := TrimRightMeaning(TrimSpaceLeft(s));
  }

  /** Equal up to case: the same length, and at each place the same character or the two cases of
      one ASCII letter. */
  lemma EqualFoldMeaning(s: string, t: string)
    ensures EqualFold(s, t) <==>
      |s| == |t| && forall i :: 0 <= i < |s| ==>
        || s[i] == t[i]
        || ('A' <= s[i] <= 'Z' && t[i] as int == s[i] as int + 32)
        || ('A' <= t[i] <= 'Z' && s[i] as int == t[i] as int + 32)
  {
    assert EqualFold(s, t) ==> forall i :: 0 <= i < |s| ==> ToLower(s)[i] == ToLower(t)[i];
    assert forall i :: 0 <= i < |s| ==> ToLower(s)[i] == LowerChar(s[i]);
    assert forall i :: 0 <= i < |t| ==> ToLower(t)[i] == LowerChar(t[i]);
  }

  /** Changing the case of a string gives its one spelling without letters of the other case. */
  lemma CasesMeaning(s: string)
    ensures EqualFold(s, ToLower(s)) && forall c :: c in ToLower(s) ==> !('A' <= c <= 'Z')
    ensures EqualFold(s, ToUpper(s)) && forall c :: c in ToUpper(s) ==> !('a' <= c <= 'z')
  {
    EqualFoldMeaning(s, ToLower(s));
    EqualFoldMeaning(s, ToUpper(s));
  }

  /** Trimming sees through one more line-end character, and stops at anything else. */
  lemma TrimEolStep(s: string, c: char)
    ensures TrimEol(s + [c]) == if c in {'\r', '\n'} then TrimEol(s) else s + [c]
  {
    assert (s + [c])[..|s|] == s;
  }

  lemma {:induction false} IndexIs(s: string, c: char, k: nat)
    requires k < |s| && s[k] == c && c !in s[..k]
    ensures IndexOf(s, c) == k
  {
    if k == 0 {
    } else {
      assert s[0] in s[..k];
      assert s[1..][..k - 1] == s[..k][1..];
      IndexIs(s[1..], c, k - 1);
    }
  }

  lemma {:induction false} TrimAllBlanks(blanks: string, s: string)
    requires (forall i :: 0 <= i < |blanks| ==> blanks[i] == ' ') && (s != "" ==> s[0] != ' ')
    ensures TrimBlanks(blanks + s) == s
  {
    if blanks == "" {
      assert blanks + s == s;
    } else {
      assert (blanks + s)[1..] == blanks[1..] + s;
      TrimAllBlanks(blanks[1..], s);
    }
  }

  lemma TrimOneBlank(s: string)
    requires s != "" ==> s[0] != ' '
    ensures TrimBlanks(" " + s) == s
  {
    assert (" " + s)[1..] == s;
  }

  /** Buffered input; ReadLine takes up to and including the next LF, or all there is. */
  class Reader {
    var rest: string

    constructor (text: string)
      ensures rest == text
    {
      rest := text;
    }

    method ReadLine() returns (line: string, eof: bool)
      modifies this
      ensures line + rest == old(rest)
      ensures eof <==> '\n' !in old(rest)
      ensures eof ==> rest == ""
      ensures !eof ==> line == old(rest)[..IndexOf(old(rest), '\n') + 1]
    {
      var i := IndexOf(rest, '\n');
      if i < 0 {
        line, rest, eof := rest, "", true;
      } else {
        line, rest, eof := rest[..i + 1], rest[i + 1..], false;
      }
    }
  }
}
