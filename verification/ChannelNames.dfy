/** Extension-shaped channel names: the Go parser against the SQL regular expression, and the
    call direction each of them infers. */
module ChannelNames {
  import opened Text

  // ---- The parser ----

  predicate IsLetter(c: char) { 'a' <= c <= 'z' || 'A' <= c <= 'Z' }

  predicate IsDigit(c: char) { '0' <= c <= '9' }

  predicate IsWord(c: char) { IsLetter(c) || IsDigit(c) || c == '_' }

  predicate IsBoundary(c: char) { c == '-' || c == '@' }

  predicate AllWord(s: string) {
    forall i :: 0 <= i < |s| ==> IsWord(s[i])
  }

  predicate HasDigit(s: string) {
    exists i :: 0 <= i < |s| && IsDigit(s[i])
  }

  const MAX_EXTENSION := 32

  method LooksLikeExtension(s: string) returns (looks: bool)
    ensures looks <==> |s| <= MAX_EXTENSION && AllWord(s) && HasDigit(s)
  {
    if s == "" || |s| > MAX_EXTENSION { return false; }
    var hasDigit := false;
    for i := 0 to |s|
      invariant AllWord(s[..i]) && (hasDigit <==> HasDigit(s[..i]))
    {
      assert s[..i + 1] == s[..i] + [s[i]];
      assert s[..i + 1][i] == s[i];
      if IsDigit(s[i]) {
        hasDigit := true;
      } else if !IsLetter(s[i]) && s[i] != '_' {
        return false;
      }
    }
    assert s[..|s|] == s;
    return hasDigit;
  }

  function CutAt(s: string, c: char): string {
    if IndexOf(s, c) >= 0 then s[..IndexOf(s, c)] else s
  }

  /** What stands behind the first slash. */
  function Tail(channel: string): string {
    channel[IndexOf(channel, '/') + 1..]
  }

  /** What stands between the slash and the first '-' or '@', or the end. */
  function Token(channel: string): string {
    CutAt(CutAt(Tail(channel), '@'), '-')
  }

  function ExtractExtension(channel: string): string {
    var slash := IndexOf(channel, '/');
    if slash < 0 || slash == |channel| - 1 then ""
    else if |Token(channel)| <= MAX_EXTENSION && AllWord(Token(channel)) && HasDigit(Token(channel)) then Token(channel)
    else ""
  }

  // ---- The regular expression ----

  datatype Class = Letter | Slash | Word | Digit | Boundary

  predicate InClass(c: char, k: Class) {
    match k
    case Letter => IsLetter(c)
    case Slash => c == '/'
    case Word => IsWord(c)
    case Digit => IsDigit(c)
    case Boundary => IsBoundary(c)
  }

  datatype Re = One(k: Class) | Many(k: Class) | Cat(left: Re, right: Re)

  ghost predicate Matches(re: Re, s: string) {
    match re
    case One(k) => |s| == 1 && InClass(s[0], k)
    case Many(k) => forall i :: 0 <= i < |s| ==> InClass(s[i], k)
    case Cat(l, r) => exists i :: 0 <= i <= |s| && Matches(l, s[..i]) && Matches(r, s[i..])
  }

  /** The tail of the pattern from the token on: word characters around a digit, then a boundary. */
  const TOKEN_PATTERN: Re := Cat(Many(Word), Cat(One(Digit), Cat(Many(Word), One(Boundary))))

  /** Letters, a slash, word characters with a digit among them, a '-' or '@'. */
  const EXT_PATTERN: Re := Cat(One(Letter), Cat(Many(Letter), Cat(One(Slash), TOKEN_PATTERN)))

  /** The pattern is anchored at the start only. */
  ghost predicate RegexMatches(s: string) {
    exists n :: 0 <= n <= |s| && Matches(EXT_PATTERN, s[..n])
  }

  ghost predicate AllIn(s: string, k: Class) {
    forall i :: 0 <= i < |s| ==> InClass(s[i], k)
  }

  lemma OneThen(k: Class, r: Re, s: string)
    ensures Matches(Cat(One(k), r), s) <==> s != "" && InClass(s[0], k) && Matches(r, s[1..])
  {
    if s != "" && InClass(s[0], k) && Matches(r, s[1..]) {
      assert s[..1] == [s[0]];
      assert Matches(One(k), s[..1]) && Matches(r, s[1..]);
    }
  }

  lemma ManyThen(k: Class, r: Re, s: string)
    ensures Matches(Cat(Many(k), r), s) <==> exists i :: 0 <= i <= |s| && AllIn(s[..i], k) && Matches(r, s[i..])
  {
    if i :| 0 <= i <= |s| && AllIn(s[..i], k) && Matches(r, s[i..]) {
      assert Matches(Many(k), s[..i]) && Matches(r, s[i..]);
    }
    if Matches(Cat(Many(k), r), s) {
      var i :| 0 <= i <= |s| && Matches(Many(k), s[..i]) && Matches(r, s[i..]);
      assert AllIn(s[..i], k);
    }
  }

  lemma BoundaryEnd(s: string)
    ensures Matches(Cat(Many(Word), One(Boundary)), s) <==>
      s != "" && AllIn(s[..|s| - 1], Word) && IsBoundary(s[|s| - 1])
  {
    ManyThen(Word, One(Boundary), s);
    if s != "" && AllIn(s[..|s| - 1], Word) && IsBoundary(s[|s| - 1]) {
      assert s[|s| - 1..] == [s[|s| - 1]];
      assert Matches(One(Boundary), s[|s| - 1..]);
    }
  }

  /** Word characters around a digit, before a boundary at the end. */
  ghost predicate TokenShape(s: string) {
    s != "" && AllWord(s[..|s| - 1]) && HasDigit(s[..|s| - 1]) && IsBoundary(s[|s| - 1])
  }

  lemma TokenPatternAt(s: string, i: nat)
    requires i < |s|
    ensures Matches(Cat(One(Digit), Cat(Many(Word), One(Boundary))), s[i..]) <==>
      IsDigit(s[i]) && i + 1 < |s| && AllIn(s[i + 1..|s| - 1], Word) && IsBoundary(s[|s| - 1])
  {
    hide Matches, IsWord, IsDigit, IsBoundary;
    OneThen(Digit, Cat(Many(Word), One(Boundary)), s[i..]);
    assert s[i..][1..] == s[i + 1..];
    BoundaryEnd(s[i + 1..]);
    if i + 1 < |s| {
      assert s[i + 1..][..|s| - i - 2] == s[i + 1..|s| - 1];
    }
  }

  lemma DigitIsWord(c: char)
    requires IsDigit(c)
    ensures IsWord(c)
  {
  }

  lemma WordAround(s: string, i: nat)
    requires i < |s| && IsDigit(s[i])
    ensures HasDigit(s)
    ensures AllWord(s) <==> AllIn(s[..i], Word) && AllIn(s[i + 1..], Word)
  {
    DigitIsWord(s[i]);
    assert s == s[..i] + [s[i]] + s[i + 1..];
    if AllWord(s) {
      var rest := s[i + 1..];
      assert forall m :: 0 <= m < |rest| ==> rest[m] == s[i + 1 + m];
    }
  }

  lemma TokenPatternMeaning(s: string)
    ensures Matches(TOKEN_PATTERN, s) <==> TokenShape(s)
  {
    hide Matches, IsWord, IsDigit, IsBoundary;
    var n := |s| - 1;
    var fromDigit := Cat(One(Digit), Cat(Many(Word), One(Boundary)));
    ManyThen(Word, fromDigit, s);
    if i :| 0 <= i <= |s| && AllIn(s[..i], Word) && Matches(fromDigit, s[i..]) {
      OneThen(Digit, Cat(Many(Word), One(Boundary)), s[i..]);
      TokenPatternAt(s, i);
      DigitIsWord(s[i]);
      WordAround(s[..n], i);
    }
    if TokenShape(s) {
      var i :| 0 <= i < n && IsDigit(s[..n][i]);
      WordAround(s[..n], i);
      assert s[..n][..i] == s[..i] && s[..n][i + 1..] == s[i + 1..n];
      TokenPatternAt(s, i);
    }
  }

  /** A name with a letters-only technology up to p and a token with its boundary at e. */
  ghost predicate Shaped(s: string, p: int, e: int) {
    && 1 <= p < e < |s| && s[p] == '/' && IsBoundary(s[e])
    && (forall i :: 0 <= i < p ==> IsLetter(s[i]))
    && AllWord(s[p + 1..e]) && HasDigit(s[p + 1..e])
  }

  lemma RegexToShape(s: string, n: nat) returns (p: nat)
    requires n <= |s| && Matches(EXT_PATTERN, s[..n])
    ensures Shaped(s, p, n - 1)
  {
    hide Matches, IsLetter, IsWord, IsDigit, IsBoundary;
    var t := s[..n];
    var fromSlash := Cat(One(Slash), TOKEN_PATTERN);
    OneThen(Letter, Cat(Many(Letter), fromSlash), t);
    ManyThen(Letter, fromSlash, t[1..]);
    var j :| 0 <= j <= |t[1..]| && AllIn(t[1..][..j], Letter) && Matches(fromSlash, t[1..][j..]);
    p := 1 + j;
    assert t[1..][j..] == t[p..];
    OneThen(Slash, TOKEN_PATTERN, t[p..]);
    var tok := t[p..][1..];
    assert tok == s[p + 1..n];
    TokenPatternMeaning(tok);
    assert tok[..|tok| - 1] == s[p + 1..n - 1];
    forall m | 0 <= m < p
      ensures IsLetter(s[m])
    {
      assert m > 0 ==> t[1..][..j][m - 1] == s[m];
    }
  }

  lemma ShapeToRegex(s: string, p: int, e: int)
    requires Shaped(s, p, e)
    ensures RegexMatches(s)
  {
    hide Matches, IsLetter, IsWord, IsDigit, IsBoundary;
    var t := s[..e + 1];
    var fromSlash := Cat(One(Slash), TOKEN_PATTERN);
    var tok := t[p..][1..];
    assert tok[..|tok| - 1] == s[p + 1..e] && tok[|tok| - 1] == s[e];
    TokenPatternMeaning(tok);
    OneThen(Slash, TOKEN_PATTERN, t[p..]);
    assert t[1..][p - 1..] == t[p..];
    assert t[1..][..p - 1] == s[1..p];
    assert AllIn(s[1..p], Letter);
    ManyThen(Letter, fromSlash, t[1..]);
    OneThen(Letter, Cat(Many(Letter), fromSlash), t);
  }

  lemma RegexShape(s: string)
    ensures RegexMatches(s) <==> exists p, e :: Shaped(s, p, e)
  {
    hide Matches;
    if RegexMatches(s) {
      var n :| 0 <= n <= |s| && Matches(EXT_PATTERN, s[..n]);
      var p := RegexToShape(s, n);
      assert Shaped(s, p, n - 1);
    }
    if p, e :| Shaped(s, p, e) {
      ShapeToRegex(s, p, e);
    }
  }

  // ---- Parser and regular expression ----

  lemma CutAtMeaning(s: string, c: char)
    ensures CutAt(s, c) <= s && c !in CutAt(s, c)
    ensures CutAt(s, c) != s ==> s[|CutAt(s, c)|] == c
  {
  }

  lemma TwoCuts(tail: string, cut: string, tok: string)
    requires cut <= tail && '@' !in cut && (cut != tail ==> tail[|cut|] == '@')
    requires tok <= cut && '-' !in tok && (tok != cut ==> cut[|tok|] == '-')
    ensures tok <= tail && (forall i :: 0 <= i < |tok| ==> !IsBoundary(tok[i]))
    ensures tok != tail ==> IsBoundary(tail[|tok|])
  {
    forall i | 0 <= i < |tok|
      ensures !IsBoundary(tok[i])
    {
      assert tok[i] == cut[i] && cut[i] in cut && tok[i] in tok;
    }
    if tok != cut {
      assert tail[|tok|] == cut[|tok|];
    }
  }

  /** The token runs up to the first boundary character of the tail, or to its end. */
  lemma {:induction false} TokenMeaning(channel: string)
    ensures Token(channel) <= Tail(channel)
    ensures forall i :: 0 <= i < |Token(channel)| ==> !IsBoundary(Token(channel)[i])
    ensures Token(channel) != Tail(channel) ==> IsBoundary(Tail(channel)[|Token(channel)|])
  {
    hide CutAt, Tail, IsBoundary;
    var tail := Tail(channel);
    CutAtMeaning(tail, '@');
    CutAtMeaning(CutAt(tail, '@'), '-');
    TwoCuts(tail, CutAt(tail, '@'), Token(channel));
  }

  /** The name has a slash with an extension-like token behind it, whatever its length. */
  ghost predicate ExtLike(channel: string) {
    '/' in channel && AllWord(Token(channel)) && HasDigit(Token(channel))
  }

  /** What the regular expression asks beyond that: a technology of letters, and a boundary. */
  ghost predicate Framed(channel: string) {
    var p := IndexOf(channel, '/');
    p >= 1 && (forall i :: 0 <= i < p ==> IsLetter(channel[i])) && p + 1 + |Token(channel)| < |channel|
  }

  lemma ParserMeaning(channel: string)
    ensures ExtractExtension(channel) != "" <==> ExtLike(channel) && |Token(channel)| <= MAX_EXTENSION
  {
    TokenMeaning(channel);
  }

  /** The first boundary is where the word characters end. */
  lemma TokenEnds(tail: string, tok: string, n: nat)
    requires n < |tail| && IsBoundary(tail[n]) && AllWord(tail[..n])
    requires tok <= tail && (forall i :: 0 <= i < |tok| ==> !IsBoundary(tok[i]))
    requires tok != tail ==> IsBoundary(tail[|tok|])
    ensures tok == tail[..n]
  {
    if |tok| < n {
      assert false;
    }
    if n < |tok| {
      assert false;
    }
  }

  lemma RegexMeaning(channel: string)
    ensures RegexMatches(channel) <==> ExtLike(channel) && Framed(channel)
  {
    hide CutAt, IndexOf, Matches, Token;
    RegexShape(channel);
    TokenMeaning(channel);
    var tok, q := Token(channel), IndexOf(channel, '/');
    if p, e :| Shaped(channel, p, e) {
      IndexIs(channel, '/', p);
      var tail := channel[p + 1..];
      assert tail[e - p - 1] == channel[e];
      assert channel[p + 1..e] == tail[..e - p - 1];
      TokenEnds(tail, tok, e - p - 1);
      assert Framed(channel) && ExtLike(channel);
    }
    if ExtLike(channel) && Framed(channel) {
      var e := q + 1 + |tok|;
      assert channel[q + 1..e] == tok;
      assert channel[q + 1..][|tok|] == channel[e];
      assert Shaped(channel, q, e);
    }
  }

  /** When parser and regular expression agree on a name, for all names: never on an overlong
      token in a frame, and on a short one only in a frame. */
  lemma AgreeExactly(channel: string)
    ensures (ExtractExtension(channel) != "" <==> RegexMatches(channel)) <==>
      (ExtLike(channel) ==> (|Token(channel)| <= MAX_EXTENSION <==> Framed(channel)))
  {
    ParserMeaning(channel);
    RegexMeaning(channel);
  }

  predicate ConventionalParts(tech: string, tok: string, rest: string) {
    && tech != "" && (forall i :: 0 <= i < |tech| ==> IsLetter(tech[i]))
    && |tok| <= MAX_EXTENSION && (forall i :: 0 <= i < |tok| ==> !IsBoundary(tok[i]))
    && rest != "" && IsBoundary(rest[0])
  }

  /** The token of a name whose slash is at p and whose token ends the name or stands before a boundary. */
  lemma TokenIs(channel: string, p: nat, tok: string)
    requires p < |channel| && channel[p] == '/' && '/' !in channel[..p]
    requires tok <= channel[p + 1..] && (forall i :: 0 <= i < |tok| ==> !IsBoundary(tok[i]))
    requires tok != channel[p + 1..] ==> IsBoundary(channel[p + 1 + |tok|])
    ensures IndexOf(channel, '/') == p && Token(channel) == tok
  {
    hide Token, IndexOf;
    IndexIs(channel, '/', p);
    TokenMeaning(channel);
    var tail, t := channel[p + 1..], Token(channel);
    if |t| < |tok| {
      assert false;
    } else if |tok| < |t| {
      assert false;
    }
    assert t == tail[..|t|] && tok == tail[..|tok|];
  }

  lemma TokenOfParts(tech: string, tok: string, rest: string)
    requires '/' !in tech && '-' !in tok && '@' !in tok && (rest != "" ==> rest[0] == '-' || rest[0] == '@')
    ensures
      var channel := tech + "/" + tok + rest;
      IndexOf(channel, '/') == |tech| && Token(channel) == tok && channel[..|tech|] == tech
  {
    hide Token, IndexOf;
    var channel, tail := tech + "/" + tok + rest, tok + rest;
    assert channel[..|tech|] == tech && channel[|tech| + 1..] == tail;
    assert tail[..|tok|] == tok;
    assert tok != tail ==> channel[|tech| + 1 + |tok|] == rest[0];
    TokenIs(channel, |tech|, tok);
  }

  /** The shape of an extension, by its characters: only ASCII letters, digits and '_', at most 32
      of them, and at least one digit. */
  ghost predicate ExtensionShape(tok: string) {
    && |tok| <= 32
    && (forall c :: c in tok ==> 'a' <= c <= 'z' || 'A' <= c <= 'Z' || '0' <= c <= '9' || c == '_')
    && exists c :: c in tok && '0' <= c <= '9'
  }

  lemma ShapeByPosition(tok: string)
    ensures ExtensionShape(tok) <==> |tok| <= MAX_EXTENSION && AllWord(tok) && HasDigit(tok)
  {
    assert forall i :: 0 <= i < |tok| ==> tok[i] in tok;
    if c :| c in tok && '0' <= c <= '9' {
      var i :| 0 <= i < |tok| && tok[i] == c;
      assert IsDigit(tok[i]);
    }
    if i :| 0 <= i < |tok| && IsDigit(tok[i]) {
      assert tok[i] in tok;
    }
  }

  /** What the parser makes of a technology, a slash, a token without boundary characters and what
      follows, nothing or a boundary and anything: the token if it has the shape, else nothing. */
  lemma ExtensionOfParts(tech: string, tok: string, rest: string)
    requires '/' !in tech && '-' !in tok && '@' !in tok && (rest != "" ==> rest[0] == '-' || rest[0] == '@')
    ensures ExtractExtension(tech + "/" + tok + rest) == if ExtensionShape(tok) then tok else ""
  {
    hide Token, IndexOf, ExtensionShape;
    TokenOfParts(tech, tok, rest);
    ShapeByPosition(tok);
    if |tech + "/" + tok + rest| == |tech| + 1 {
      assert tok == "";
    }
  }

  /** A name of technology, slash, the token 45 and what follows. */
  lemma NameOf45(tech: string, rest: string)
    requires '/' !in tech && (rest != "" ==> IsBoundary(rest[0]))
    ensures
      var channel := tech + "/" + "45" + rest;
      && IndexOf(channel, '/') == |tech| && Token(channel) == "45" && ExtLike(channel)
      && ExtractExtension(channel) == "45" && channel[..|tech|] == tech
  {
    hide Token, IndexOf, ExtractExtension;
    var channel, tok := tech + "/" + "45" + rest, "45";
    assert tok[0] == '4' && tok[1] == '5';
    TokenOfParts(tech, tok, rest);
    ExtensionOfParts(tech, tok, rest);
    ShapeByPosition(tok);
    assert HasDigit(tok) && AllWord(tok);
    assert '/' in channel by { assert channel[|tech|] == '/'; }
  }

  /** Names on which they differ: no boundary behind the token, and a technology with a digit. */
  lemma ParserAcceptsMore()
    ensures ExtractExtension("PJSIP/45") == "45" && !RegexMatches("PJSIP/45")
    ensures ExtractExtension("IAX2/45-1") == "45" && !RegexMatches("IAX2/45-1")
  {
    hide RegexMatches, Token, IndexOf, ExtractExtension, ExtLike;
    NameOf45("PJSIP", "");
    assert "PJSIP/45" == "PJSIP" + "/" + "45" + "";
    RegexMeaning("PJSIP/45");
    NameOf45("IAX2", "-1");
    assert "IAX2/45-1" == "IAX2" + "/" + "45" + "-1";
    RegexMeaning("IAX2/45-1");
    assert !IsLetter("IAX2/45-1"[3]);
  }

  /** Names as Asterisk makes them: a letters-only technology, a slash, a token of at most 32
      characters, a '-' or '@', and anything; or no name at all. */
  ghost predicate Conventional(channel: string) {
    channel == "" || exists tech, tok, rest ::
      ConventionalParts(tech, tok, rest) && channel == tech + "/" + tok + rest
  }

  lemma ConventionalFramed(channel: string, tech: string, tok: string, rest: string)
    requires ConventionalParts(tech, tok, rest) && channel == tech + "/" + tok + rest
    ensures Framed(channel) && Token(channel) == tok
  {
    hide Token, IndexOf;
    assert channel[..|tech|] == tech;
    assert '/' !in channel[..|tech|];
    IndexIs(channel, '/', |tech|);
    TokenMeaning(channel);
    var tail := channel[|tech| + 1..];
    assert tail == tok + rest;
    assert tail[|tok|] == rest[0];
    var t := Token(channel);
    if |t| < |tok| {
      assert false;
    } else if |tok| < |t| {
      assert false;
    }
    assert t == tail[..|tok|] == tok;
  }

  /** On conventional names the parser finds an extension exactly where the regular expression matches. */
  lemma ParserEqualsRegex(channel: string)
    requires Conventional(channel)
    ensures ExtractExtension(channel) != "" <==> RegexMatches(channel)
  {
    hide Token, IndexOf, Matches, Framed;
    AgreeExactly(channel);
    if channel != "" {
      var tech, tok, rest :| ConventionalParts(tech, tok, rest) && channel == tech + "/" + tok + rest;
      ConventionalFramed(channel, tech, tok, rest);
    }
  }

  // ---- Direction ----

  /** The direction the first leg's channel pair suggests. */
  function InferDirection(dstchannel: string, channel: string): string {
    var srcExt, dstExt := ExtractExtension(channel), ExtractExtension(dstchannel);
    if srcExt != "" && dstExt != "" && srcExt != dstExt then "internal"
    else if srcExt == "" && dstExt != "" then "inbound"
    else if srcExt != "" && dstExt == "" then "outbound"
    else "unknown"
  }

  /** The query's filter on the first leg's channel pair. */
  ghost predicate DirectionClause(direction: string, dstchannel: string, channel: string) {
    var d := ToLower(direction);
    if d == "inbound" then !RegexMatches(channel) && RegexMatches(dstchannel)
    else if d == "outbound" then RegexMatches(channel) && !RegexMatches(dstchannel)
    else if d == "internal" then RegexMatches(channel) && RegexMatches(dstchannel)
    else RegexMatches(channel) || RegexMatches(dstchannel)
  }

  lemma LowerIsItself(s: string)
    requires s in {"inbound", "outbound", "internal", "unknown", ""}
    ensures ToLower(s) == s
  {
  }

  /** On conventional names: inbound and outbound are what their filters select; the internal
      filter also selects an extension calling itself, which is inferred as unknown; and the
      default filter drops the rest of the unknown. */
  lemma DirectionsAgree(dstchannel: string, channel: string)
    requires Conventional(dstchannel) && Conventional(channel)
    ensures
      var d := InferDirection(dstchannel, channel);
      var toItself := ExtractExtension(channel) != "" && ExtractExtension(channel) == ExtractExtension(dstchannel);
      && (d == "inbound" <==> DirectionClause("inbound", dstchannel, channel))
      && (d == "outbound" <==> DirectionClause("outbound", dstchannel, channel))
      && (d == "internal" <==> DirectionClause("internal", dstchannel, channel) && !toItself)
      && (d != "unknown" <==> DirectionClause("", dstchannel, channel) && !toItself)
  {
    hide ExtractExtension, RegexMatches, ToLower;
    ParserEqualsRegex(dstchannel);
    ParserEqualsRegex(channel);
    LowerIsItself("inbound");
    LowerIsItself("outbound");
    LowerIsItself("internal");
    LowerIsItself("");
  }

  /** A call of an extension to itself: selected by the default and the internal filter, and
      inferred as unknown. */
  lemma SelfCallKept()
    ensures Conventional("SIP/45-1") && Conventional("SIP/45-2")
    ensures InferDirection("SIP/45-2", "SIP/45-1") == "unknown"
    ensures DirectionClause("", "SIP/45-2", "SIP/45-1") && DirectionClause("internal", "SIP/45-2", "SIP/45-1")
  {
    hide RegexMatches, ToLower, Token, IndexOf, ExtractExtension, ExtLike;
    assert "SIP/45-1" == "SIP" + "/" + "45" + "-1" && "SIP/45-2" == "SIP" + "/" + "45" + "-2";
    NameOf45("SIP", "-1");
    NameOf45("SIP", "-2");
    assert ConventionalParts("SIP", "45", "-1") && ConventionalParts("SIP", "45", "-2");
    ParserEqualsRegex("SIP/45-1");
    ParserEqualsRegex("SIP/45-2");
    LowerIsItself("internal");
    LowerIsItself("");
  }

  lemma NameOf46()
    ensures ExtractExtension("SIP/46-1") == "46"
  {
    hide Token, IndexOf, ExtractExtension, AllWord, HasDigit;
    var tok := "46";
    assert "SIP/46-1" == "SIP" + "/" + tok + "-1";
    assert tok[0] == '4' && tok[1] == '6' && '4' in tok;
    ExtensionOfParts("SIP", tok, "-1");
  }

  lemma NoSlash()
    ensures ExtractExtension("") == ""
  {
  }

  /** Towards an extension is inbound, from one is outbound, and between two is internal, and each
      filter says so. */
  lemma DirectionsOfCalls()
    ensures InferDirection("SIP/45-1", "") == "inbound" && DirectionClause("inbound", "SIP/45-1", "")
    ensures InferDirection("", "SIP/45-1") == "outbound" && DirectionClause("outbound", "", "SIP/45-1")
    ensures InferDirection("SIP/46-1", "SIP/45-1") == "internal" && DirectionClause("internal", "SIP/46-1", "SIP/45-1")
  {
    hide RegexMatches, ToLower, Token, IndexOf, ExtractExtension, ExtLike, ExtensionShape, DirectionClause;
    assert "SIP/45-1" == "SIP" + "/" + "45" + "-1" && "SIP/46-1" == "SIP" + "/" + "46" + "-1";
    NameOf45("SIP", "-1");
    NameOf46();
    assert ConventionalParts("SIP", "45", "-1") && ConventionalParts("SIP", "46", "-1");
    assert ExtractExtension("") == "" by { NoSlash(); }
    DirectionsAgree("SIP/45-1", "");
    DirectionsAgree("", "SIP/45-1");
    DirectionsAgree("SIP/46-1", "SIP/45-1");
  }
}
