/** RTP quality: parsing Asterisk's key=value report, the R-factor to MOS conversion of
    Annex B of ITU-T G.107, and the worst-of-both-directions quality band. */
module RtpQos {
  import opened Basics
  import opened Text

  // ---- From R-factor to MOS ----

  function Cubic(r: real): real {
    1.0 + 0.035 * r + r * (r - 60.0) * (100.0 - r) * 0.000007
  }

  function MesToMos(mes: real): real {
    if mes <= 0.0 then 0.0
    else if mes >= 100.0 then 4.5
    else if mes <= 6.5 then 1.0
    else
      var mos := Cubic(mes);
      if mos < 1.0 then 1.0 else if mos > 4.5 then 4.5 else mos
  }

  lemma Positive(x: real, y: real)
    requires x > 0.0 && y > 0.0
    ensures x * y > 0.0
  {
  }

  lemma NonNegative(x: real, y: real)
    requires x >= 0.0 && y >= 0.0
    ensures x * y >= 0.0
  {
  }

  /** The slope of the line through two points of the cubic. */
  function Slope(a: real, b: real): real {
    0.035 + 0.000007 * (160.0 * (a + b) - (a * a + a * b + b * b) - 6000.0)
  }

  lemma CubicDifference(a: real, b: real)
    ensures Cubic(b) - Cubic(a) == (b - a) * Slope(a, b)
  {
    var p := (r: real) => r * (r - 60.0) * (100.0 - r);
    assert p(a) == 160.0 * (a * a) - a * a * a - 6000.0 * a;
    assert p(b) == 160.0 * (b * b) - b * b * b - 6000.0 * b;
    assert (b - a) * (a + b) == b * b - a * a;
    assert (b - a) * (a * a + a * b + b * b) == b * b * b - a * a * a;
  }

  /** Between any two points of [6.5, 100] the slope is positive. */
  lemma SlopePositive(a: real, b: real)
    requires 6.5 <= a <= 100.0 && 6.5 <= b <= 100.0
    ensures Slope(a, b) > 0.0
  {
    NonNegative(a - 6.5, 100.0 - a);
    NonNegative(b - 6.5, 100.0 - b);
    assert a * a <= 106.5 * a - 650.0;
    assert b * b <= 106.5 * b - 650.0;
    if a <= b { NonNegative(b - a, b - a); } else { NonNegative(a - b, a - b); }
    assert 2.0 * (a * b) <= a * a + b * b;
  }

  lemma CubicIncreasing(a: real, b: real)
    requires 6.5 <= a < b <= 100.0
    ensures Cubic(a) < Cubic(b)
  {
    hide Cubic, Slope;
    CubicDifference(a, b);
    SlopePositive(a, b);
    Positive(b - a, Slope(a, b));
  }

  /** The upper clamp is never needed, the lower one exactly below the smaller root of
      r*r - 160r + 1000, about 6.515. */
  lemma Clamps(r: real)
    requires 6.5 < r < 100.0
    ensures Cubic(r) < 4.5
    ensures Cubic(r) < 1.0 <==> r * r - 160.0 * r + 1000.0 > 0.0
  {
    CubicIncreasing(r, 100.0);
    assert Cubic(100.0) == 4.5;
    var excess := 0.035 + 0.000007 * ((r - 60.0) * (100.0 - r));
    assert Cubic(r) == 1.0 + r * excess;
    assert excess == -0.000007 * (r * r - 160.0 * r + 1000.0);
    if excess < 0.0 {
      Positive(r, -excess);
    } else if excess > 0.0 {
      Positive(r, excess);
    }
  }

  /** The lower clamp is needed: just above 6.5 the formula drops below 1. */
  lemma LowerClampNeeded()
    ensures Cubic(6.51) < 1.0 && MesToMos(6.51) == 1.0
  {
    Clamps(6.51);
  }

  /** MOS never falls when the R-factor rises, over all reals. */
  lemma MosMonotone(a: real, b: real)
    requires a <= b
    ensures MesToMos(a) <= MesToMos(b)
  {
    if 6.5 < a < b < 100.0 {
      CubicIncreasing(a, b);
    }
    if 6.5 < b < 100.0 { Clamps(b); }
    if 6.5 < a < 100.0 { Clamps(a); }
  }

  /** MOS is 0 exactly without a report, and else between 1 and 4.5. */
  lemma MosRange(mes: real)
    ensures MesToMos(mes) == 0.0 <==> mes <= 0.0
    ensures mes > 0.0 ==> 1.0 <= MesToMos(mes) <= 4.5
  {
  }

  /** Between 0 and 100 the MOS is the formula's, but 1 up to 6.5 and where the formula is below 1. */
  lemma MosExactly(r: real)
    requires 0.0 < r < 100.0
    ensures MesToMos(r) == 1.0 <==> r <= 6.5 || r * r - 160.0 * r + 1000.0 >= 0.0
    ensures r > 6.5 && r * r - 160.0 * r + 1000.0 < 0.0 ==>
      MesToMos(r) == 1.0 + 0.035 * r + r * (r - 60.0) * (100.0 - r) * 0.000007
  {
    if r > 6.5 {
      Clamps(r);
      var excess := 0.035 + 0.000007 * ((r - 60.0) * (100.0 - r));
      assert Cubic(r) == 1.0 + r * excess;
      assert excess == -0.000007 * (r * r - 160.0 * r + 1000.0);
      if excess != 0.0 {
        Positive(r, if excess > 0.0 then excess else -excess);
      }
    }
  }

  /** Above that, the MOS grows strictly up to 4.5 at 100. */
  lemma MosGrows(a: real, b: real)
    requires 6.5 < a < b <= 100.0 && a * a - 160.0 * a + 1000.0 < 0.0
    ensures MesToMos(a) < MesToMos(b)
    ensures MesToMos(100.0) == 4.5
  {
    hide Cubic;
    Clamps(a);
    CubicIncreasing(a, b);
    if b < 100.0 { Clamps(b); }
  }

  // ---- The band ----

  datatype Band = Unknown | Bad | Poor | Fair | Good | Excellent

  /** Worse bands rank lower; Unknown does not take part. */
  function Rank(b: Band): int {
    match b
    case Unknown => 0 case Bad => 1 case Poor => 2 case Fair => 3 case Good => 4 case Excellent => 5
  }

  /** The worst of the two directions, as the source picks it. */
  function Quality(rx: real, tx: real): Band {
    var worst := if tx > 0.0 && (rx == 0.0 || tx < rx) then tx else rx;
    if worst == 0.0 then Unknown
    else if worst >= 4.3 then Excellent
    else if worst >= 4.0 then Good
    else if worst >= 3.6 then Fair
    else if worst >= 3.1 then Poor
    else Bad
  }

  function QualityOfMes(rxMes: real, txMes: real): Band {
    Quality(MesToMos(rxMes), MesToMos(txMes))
  }

  /** Swapping the directions does not change the band. */
  lemma QualitySymmetric(rxMes: real, txMes: real)
    ensures QualityOfMes(rxMes, txMes) == QualityOfMes(txMes, rxMes)
  {
    MosRange(rxMes);
    MosRange(txMes);
  }

  /** The band is the worse of the bands each direction has on its own. */
  lemma QualityIsWorse(rxMes: real, txMes: real)
    ensures QualityOfMes(rxMes, txMes) == Unknown <==> rxMes <= 0.0 && txMes <= 0.0
    ensures rxMes <= 0.0 ==> QualityOfMes(rxMes, txMes) == QualityOfMes(txMes, 0.0)
    ensures rxMes > 0.0 && txMes > 0.0 ==>
      var a, b := QualityOfMes(rxMes, 0.0), QualityOfMes(txMes, 0.0);
      QualityOfMes(rxMes, txMes) == if Rank(a) <= Rank(b) then a else b
  {
    MosRange(rxMes);
    MosRange(txMes);
  }

  /** The band never worsens when a direction's positive score rises. */
  lemma QualityMonotone(rxMes: real, rxMes': real, txMes: real)
    requires 0.0 < rxMes <= rxMes'
    ensures Rank(QualityOfMes(rxMes, txMes)) <= Rank(QualityOfMes(rxMes', txMes))
    ensures Rank(QualityOfMes(txMes, rxMes)) <= Rank(QualityOfMes(txMes, rxMes'))
  {
    MosMonotone(rxMes, rxMes');
    MosRange(rxMes);
    MosRange(rxMes');
    MosRange(txMes);
  }

  /** A direction that starts to report never improves a known band. */
  lemma AppearingNeverImproves(rxMes: real, rxMes': real, txMes: real)
    requires rxMes <= 0.0 < rxMes' && txMes > 0.0
    ensures Rank(QualityOfMes(rxMes', txMes)) <= Rank(QualityOfMes(rxMes, txMes))
  {
    QualityIsWorse(rxMes, txMes);
    QualityIsWorse(rxMes', txMes);
  }

  /** The MOS thresholds of the bands lie at a score of exactly 60 and, each between two whole
      scores, at 70 to 71, 79 to 80 and 88 to 89. */
  lemma MosAtThresholds()
    ensures MesToMos(60.0) == 3.1
    ensures 3.1 < MesToMos(70.0) < 3.6 < MesToMos(71.0) < MesToMos(79.0) < 4.0
    ensures 4.0 < MesToMos(80.0) < MesToMos(88.0) < 4.3 < MesToMos(89.0)
  {
  }

  lemma BelowSixty(r: real)
    requires 0.0 < r < 60.0
    ensures MesToMos(r) < 3.1
  {
    if r > 6.5 {
      CubicIncreasing(r, 60.0);
      Clamps(r);
    }
  }

  lemma BandOfScore(r: real)
    requires r > 0.0
    ensures MesToMos(r) < 3.1 <==> r < 60.0
    ensures r <= 70.0 ==> MesToMos(r) < 3.6
    ensures 71.0 <= r <= 79.0 ==> 3.6 <= MesToMos(r) < 4.0
    ensures 80.0 <= r <= 88.0 ==> 4.0 <= MesToMos(r) < 4.3
    ensures 89.0 <= r ==> 4.3 <= MesToMos(r)
  {
    MosAtThresholds();
    hide MesToMos;
    if r < 60.0 { BelowSixty(r); } else { MosMonotone(60.0, r); }
    if r <= 70.0 { MosMonotone(r, 70.0); }
    if 71.0 <= r { MosMonotone(71.0, r); }
    if r <= 79.0 { MosMonotone(r, 79.0); }
    if 80.0 <= r { MosMonotone(80.0, r); }
    if r <= 88.0 { MosMonotone(r, 88.0); }
    if 89.0 <= r { MosMonotone(89.0, r); }
  }

  /** The band of a call, told from its scores: unknown without a positive one; else the worse
      positive score decides. */
  lemma BandOfScores(rxMes: real, txMes: real)
    ensures
      var band := QualityOfMes(rxMes, txMes);
      if rxMes <= 0.0 && txMes <= 0.0 then band == Unknown
      else
        var worst := if rxMes <= 0.0 || 0.0 < txMes < rxMes then txMes else rxMes;
        && (band == Bad <==> worst < 60.0)
        && (band == Poor <==> 60.0 <= worst && MesToMos(worst) < 3.6)
        && (band == Fair <==> 3.6 <= MesToMos(worst) < 4.0)
        && (band == Good <==> 4.0 <= MesToMos(worst) < 4.3)
        && (band == Excellent <==> 4.3 <= MesToMos(worst))
        && (60.0 <= worst <= 70.0 ==> band == Poor) && (71.0 <= worst <= 79.0 ==> band == Fair)
        && (80.0 <= worst <= 88.0 ==> band == Good) && (89.0 <= worst ==> band == Excellent)
  {
    hide MesToMos;
    MosRange(rxMes);
    MosRange(txMes);
    if rxMes > 0.0 || txMes > 0.0 {
      var worst := if rxMes <= 0.0 || 0.0 < txMes < rxMes then txMes else rxMes;
      if rxMes > 0.0 && txMes > 0.0 {
        MosMonotone(worst, rxMes);
        MosMonotone(worst, txMes);
      }
      BandOfScore(worst);
    }
  }

  // ---- Parsing ----

  /** What the number parsers return, whether or not they also report an error. */
  datatype Numbers = Numbers(toInt: string -> int, toFloat: string -> real, floatOk: string -> bool)

  datatype Readings = Readings(
    rxLoss: int, txLoss: int, rxCount: int, txCount: int,
    rxJitterMs: real, txJitterMs: real, rttMs: real, rxMes: real, txMes: real)

  const NOTHING := Readings(0, 0, 0, 0, 0.0, 0.0, 0.0, 0.0, 0.0)

  datatype Report = Report(
    raw: string, readings: Readings, rxLossPercent: real, txLossPercent: real,
    rxMos: real, txMos: real, quality: Band)

  function Split(s: string, sep: char): (parts: seq<string>)
    ensures parts != []
    decreases |s|
  {
    var i := IndexOf(s, sep);
    if i < 0 then [s] else [s[..i]] + Split(s[i + 1..], sep)
  }

  /** A part's key and value, unless it has no key or no value. */
  function Pair(part: string): Option<(string, string)> {
    var eq := IndexOf(part, '=');
    if eq <= 0 then None
    else
      var value := TrimSpace(part[eq + 1..]);
      if value == "" then None else Some((TrimSpace(part[..eq]), value))
  }

  /** The last value a key is given among those that count. */
  function Last(parts: seq<string>, key: string, counts: string -> bool): Option<string> {
    if parts == [] then None
    else
      var p := Pair(parts[|parts| - 1]);
      if p.Some? && p.value.0 == key && counts(p.value.1) then Some(p.value.1)
      else Last(parts[..|parts| - 1], key, counts)
  }

  function Any(s: string): bool { true }

  function IntOf(v: Option<string>, num: Numbers): int {
    if v.None? then 0 else num.toInt(v.value)
  }

  function FloatOf(v: Option<string>, num: Numbers): real {
    if v.None? then 0.0 else num.toFloat(v.value)
  }

  /** What a report reads: for every known key its last value, where for the times only values
      that parse count. */
  function ReadingsOf(parts: seq<string>, num: Numbers): Readings {
    Readings(
      IntOf(Last(parts, "lp", Any), num), IntOf(Last(parts, "rlp", Any), num),
      IntOf(Last(parts, "rxcount", Any), num), IntOf(Last(parts, "txcount", Any), num),
      1000.0 * FloatOf(Last(parts, "rxjitter", num.floatOk), num),
      1000.0 * FloatOf(Last(parts, "txjitter", num.floatOk), num),
      1000.0 * FloatOf(Last(parts, "rtt", num.floatOk), num),
      FloatOf(Last(parts, "rxmes", Any), num), FloatOf(Last(parts, "txmes", Any), num))
  }

  function Percent(loss: int, count: int): real {
    if count + loss > 0 then 100.0 * loss as real / (count + loss) as real else 0.0
  }

  lemma Quotient(a: real, t: real)
    requires t > 0.0 && 0.0 <= a <= 100.0 * t
    ensures 0.0 <= a / t <= 100.0
  {
    var q := a / t;
    assert q * t == a;
    if q > 100.0 {
      Positive(q - 100.0, t);
    }
    if q < 0.0 {
      Positive(-q, t);
    }
  }

  /** Loss shares of counters that are not negative are percentages. */
  lemma PercentRange(loss: nat, count: nat)
    ensures 0.0 <= Percent(loss, count) <= 100.0
  {
    if count + loss > 0 {
      Quotient(100.0 * loss as real, (count + loss) as real);
    }
  }

  /** Parses a report with one pass over its parts. */
  method ParseReport(raw: string, num: Numbers) returns (q: Option<Report>)
    ensures q.None? <==> TrimSpace(raw) == ""
    ensures q.Some? ==>
      var r := ReadingsOf(Split(TrimSpace(raw), ';'), num);
      && q.value.raw == TrimSpace(raw) && q.value.readings == r
      && q.value.rxLossPercent == Percent(r.rxLoss, r.rxCount)
      && q.value.txLossPercent == Percent(r.txLoss, r.txCount)
      && q.value.rxMos == MesToMos(r.rxMes) && q.value.txMos == MesToMos(r.txMes)
      && q.value.quality == QualityOfMes(r.rxMes, r.txMes)
  {
    hide Pair, Split, TrimSpace, MesToMos, Quality;
    var text := TrimSpace(raw);
    if text == "" { return None; }
    var parts := Split(text, ';');
    var r := NOTHING;
    for i := 0 to |parts|
      invariant r == ReadingsOf(parts[..i], num)
    {
      assert parts[..i + 1][..i] == parts[..i];
      var p := Pair(parts[i]);
      if p.Some? {
        var (key, value) := p.value;
        match key
        case "lp" => r := r.(rxLoss := num.toInt(value));
        case "rlp" => r := r.(txLoss := num.toInt(value));
        case "rxjitter" => if num.floatOk(value) { r := r.(rxJitterMs := num.toFloat(value) * 1000.0); }
        case "txjitter" => if num.floatOk(value) { r := r.(txJitterMs := num.toFloat(value) * 1000.0); }
        case "rxcount" => r := r.(rxCount := num.toInt(value));
        case "txcount" => r := r.(txCount := num.toInt(value));
        case "rtt" => if num.floatOk(value) { r := r.(rttMs := num.toFloat(value) * 1000.0); }
        case "rxmes" => r := r.(rxMes := num.toFloat(value));
        case "txmes" => r := r.(txMes := num.toFloat(value));
        case _ =>
      }
    }
    assert parts[..|parts|] == parts;
    var rxLossPercent, txLossPercent := 0.0, 0.0;
    if r.rxCount + r.rxLoss > 0 {
      rxLossPercent := 100.0 * r.rxLoss as real / (r.rxCount + r.rxLoss) as real;
    }
    if r.txCount + r.txLoss > 0 {
      txLossPercent := 100.0 * r.txLoss as real / (r.txCount + r.txLoss) as real;
    }
    var rxMos, txMos := MesToMos(r.rxMes), MesToMos(r.txMes);
    return Some(Report(text, r, rxLossPercent, txLossPercent, rxMos, txMos, Quality(rxMos, txMos)));
  }

  const KNOWN_KEYS: set<string> :=
    {"lp", "rlp", "rxjitter", "txjitter", "rxcount", "txcount", "rtt", "rxmes", "txmes"}

  lemma {:induction false} LastSkips(a: seq<string>, part: string, b: seq<string>, key: string, counts: string -> bool)
    requires Pair(part).Some? ==> Pair(part).value.0 != key
    ensures Last(a + [part] + b, key, counts) == Last(a + b, key, counts)
  {
    hide Pair;
    if b == [] {
      assert (a + [part] + b)[..|a|] == a && a + b == a;
    } else {
      var n := |b| - 1;
      assert (a + [part] + b)[..|a| + 1 + n] == a + [part] + b[..n];
      assert (a + b)[..|a| + n] == a + b[..n];
      LastSkips(a, part, b[..n], key, counts);
    }
  }

  /** Parts with a key nobody knows, or malformed ones, change nothing wherever they stand. */
  lemma UnknownIgnored(a: seq<string>, part: string, b: seq<string>, num: Numbers)
    requires Pair(part).Some? ==> Pair(part).value.0 !in KNOWN_KEYS
    ensures ReadingsOf(a + [part] + b, num) == ReadingsOf(a + b, num)
  {
    hide Pair, Last;
    forall key, counts: string -> bool | key in KNOWN_KEYS
      ensures Last(a + [part] + b, key, counts) == Last(a + b, key, counts)
    {
      LastSkips(a, part, b, key, counts);
    }
  }

  // ---- What the text says ----

  /** The parts with the separator between them. */
  function Join(parts: seq<string>, sep: char): string {
    if parts == [] then "" else if |parts| == 1 then parts[0] else parts[0] + [sep] + Join(parts[1..], sep)
  }

  /** Splitting loses nothing and leaves no separator in a part, which determines it. */
  lemma {:induction false} SplitRejoins(s: string, sep: char)
    ensures Join(Split(s, sep), sep) == s
    ensures forall i :: 0 <= i < |Split(s, sep)| ==> sep !in Split(s, sep)[i]
    decreases |s|
  {
    var i := IndexOf(s, sep);
    if i < 0 {
    } else {
      var rest := s[i + 1..];
      SplitRejoins(rest, sep);
      var parts := [s[..i]] + Split(rest, sep);
      assert parts[1..] == Split(rest, sep);
      assert s == s[..i] + [sep] + rest;
    }
  }

  /** A part "key=value" has exactly one reading, with blanks around both dropped; it has none if
      the value is blank, and no other part has any. */
  lemma PairOf(key: string, value: string)
    requires '=' !in key
    ensures key != "" && TrimSpace(value) != "" ==>
      Pair(key + "=" + value) == Some((TrimSpace(key), TrimSpace(value)))
    ensures key == "" || TrimSpace(value) == "" ==> Pair(key + "=" + value) == None
    ensures Pair(key) == None
  {
    hide TrimSpace, IndexOf;
    var part := key + "=" + value;
    assert part[..|key|] == key && part[|key| + 1..] == value;
    IndexIs(part, '=', |key|);
  }

  lemma LastAppend(parts: seq<string>, part: string, key: string, counts: string -> bool)
    ensures
      var p := Pair(part);
      Last(parts + [part], key, counts) ==
        if p.Some? && p.value.0 == key && counts(p.value.1) then Some(p.value.1) else Last(parts, key, counts)
  {
    hide Pair;
    var all := parts + [part];
    assert all[..|all| - 1] == parts;
  }

  /** The keys are trimmed and hold no '='. */
  lemma KeysAreKeys(key: string)
    requires key in KNOWN_KEYS
    ensures key != "" && TrimSpace(key) == key && '=' !in key
  {
  }

  /** One more part with a key, by its text: which reading it fills, and that it fills no other. */
  lemma KeyFills(parts: seq<string>, key: string, v: string, num: Numbers)
    requires key in KNOWN_KEYS && v != "" && TrimSpace(v) == v
    ensures
      var was, got := ReadingsOf(parts, num), ReadingsOf(parts + [key + "=" + v], num);
      got ==
        if key == "lp" then was.(rxLoss := num.toInt(v))
        else if key == "rlp" then was.(txLoss := num.toInt(v))
        else if key == "rxcount" then was.(rxCount := num.toInt(v))
        else if key == "txcount" then was.(txCount := num.toInt(v))
        else if key == "rxmes" then was.(rxMes := num.toFloat(v))
        else if key == "txmes" then was.(txMes := num.toFloat(v))
        else if !num.floatOk(v) then was
        else if key == "rxjitter" then was.(rxJitterMs := 1000.0 * num.toFloat(v))
        else if key == "txjitter" then was.(txJitterMs := 1000.0 * num.toFloat(v))
        else was.(rttMs := 1000.0 * num.toFloat(v))
  {
    hide Pair, Last, TrimSpace;
    KeysAreKeys(key);
    PairOf(key, v);
    forall k, counts: string -> bool
      ensures Last(parts + [key + "=" + v], k, counts) ==
        if key == k && counts(v) then Some(v) else Last(parts, k, counts)
    {
      LastAppend(parts, key + "=" + v, k, counts);
    }
  }

  /** The loss share is the lost part of all packets. */
  lemma PercentMeaning(loss: nat, count: nat)
    ensures Percent(loss, count) * (count + loss) as real == 100.0 * loss as real
  {
  }
}
