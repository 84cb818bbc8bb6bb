/**
 Mouse reports in the SGR encoding: `ESC [ < button ; column ; row M` for a press or motion and
 `... m` for a release, columns and rows counted from one on the wire and from zero inside.
 */
module Mouse {
  import opened Common

  const U16_MAX: nat := 0xffff
  const U32_MAX: nat := 0xffff_ffff

  const PRESS: Byte := 0x4d
  const RELEASE: Byte := 0x6d
  const SEMICOLON: Byte := 0x3b
  const PLUS: Byte := 0x2b
  const ZERO: Byte := 0x30
  const INTRODUCER: seq<Byte> := [ESC, 0x5b, 0x3c]

  datatype Button = Left | Middle | Right

  datatype Kind = Down(button: Button) | Up(button: Button) | Drag(button: Button) | Move | ScrollUp | ScrollDown

  datatype Report = Report(kind: Kind, col: nat, row: nat, rawButton: nat, press: bool)

  /** Bit 6 is the wheel, bit 5 motion, the low two bits the button. */
  function DecodeButton(b: nat, press: bool): Option<Kind>
  {
    var wheel := b / 0x40 % 2 == 1;
    var motion := b / 0x20 % 2 == 1;
    var low := b % 4;
    if wheel then Some(if low == 0 then ScrollUp else ScrollDown)
    else if low == 3 then (if motion then Some(Move) else None)
    else
      var button := if low == 0 then Left else if low == 1 then Middle else Right;
      Some(if motion then Drag(button) else if press then Down(button) else Up(button))
  }

  function ButtonAt(low: nat): Button
    requires low < 3
  {
    if low == 0 then Left else if low == 1 then Middle else Right
  }

  /**
   What a button number means, put together from its parts: two bits of button, three of modifiers,
   one each for motion and the wheel, and the rest. Modifiers and the rest make no difference, the
   wheel only scrolls, and the fourth button is the pointer moving with none held.
   */
  lemma ButtonsMean(low: nat, modifiers: nat, motion: bool, wheel: bool, more: nat, press: bool)
    requires low < 4 && modifiers < 8
    ensures var b := low + 4 * modifiers + (if motion then 32 else 0) + (if wheel then 64 else 0) + 128 * more;
      DecodeButton(b, press)
      == if wheel then Some(if low == 0 then ScrollUp else ScrollDown)
         else if low == 3 then (if motion then Some(Move) else None)
         else Some(if motion then Drag(ButtonAt(low)) else if press then Down(ButtonAt(low)) else Up(ButtonAt(low)))
  {
    var b := low + 4 * modifiers + (if motion then 32 else 0) + (if wheel then 64 else 0) + 128 * more;
    assert b % 4 == low;
    assert b / 32 == (if motion then 1 else 0) + (if wheel then 2 else 0) + 4 * more;
    assert b / 64 == (if wheel then 1 else 0) + 2 * more;
  }

  predicate IsTerminator(b: Byte) { b == PRESS || b == RELEASE }

  predicate IsDigit(b: Byte) { ZERO <= b <= 0x39 }

  /** The first terminator at or after `from`, or the end. */
  function Terminator(s: seq<Byte>, from: nat): (end: nat)
    requires from <= |s|
    ensures from <= end <= |s|
    ensures forall i :: from <= i < end ==> !IsTerminator(s[i])
    ensures end < |s| ==> IsTerminator(s[end])
    decreases |s| - from
  {
    if from == |s| || IsTerminator(s[from]) then from else Terminator(s, from + 1)
  }

  function Split(s: seq<Byte>): (parts: seq<seq<Byte>>)
    ensures parts != []
  {
    if s == [] then [[]]
    else if s[0] == SEMICOLON then [[]] + Split(s[1..])
    else
      var rest := Split(s[1..]);
      [[s[0]] + rest[0]] + rest[1..]
  }

  /** The value of a string of digits, most significant first. */
  function Value(digits: seq<Byte>): int
  {
    if digits == [] then 0 else
    var n := |digits| - 1;
    10 * Value(digits[..n]) + (digits[n] - ZERO)
  }

  lemma {:induction false} ValueIsNatural(digits: seq<Byte>)
    requires AllDigits(digits)
    ensures Value(digits) >= 0
  {
    if digits != [] {
      var n := |digits| - 1;
      ValueIsNatural(digits[..n]);
      assert IsDigit(digits[n]);
    }
  }

  predicate AllDigits(s: seq<Byte>) { forall i :: 0 <= i < |s| ==> IsDigit(s[i]) }

  /** Rust's unsigned `parse`: one optional plus sign, at least one digit, nothing else, no overflow. */
  function ParseNumber(s: seq<Byte>, max: nat): Option<nat>
  {
    var digits := if s != [] && s[0] == PLUS then s[1..] else s;
    if digits == [] || !AllDigits(digits) || Value(digits) > max then None else
    ValueIsNatural(digits);
    Some(Value(digits))
  }

  function ParseBody(body: seq<Byte>, press: bool): Option<Report>
  {
    var parts := Split(body);
    if |parts| != 3 then None else
    match (ParseNumber(parts[0], U32_MAX), ParseNumber(parts[1], U16_MAX), ParseNumber(parts[2], U16_MAX))
    case (Some(b), Some(x), Some(y)) =>
      (match DecodeButton(b, press)
       case Some(kind) => Some(Report(kind, SatSub(x, 1), SatSub(y, 1), b, press))
       case None => None)
    case _ => None
  }

  predicate HasIntroducer(s: seq<Byte>) { INTRODUCER <= s }

  /** The report at the front of `s` and its length, if there is a complete one. */
  function Parsed(s: seq<Byte>): (r: Option<(Report, nat)>)
    ensures r.Some? ==> 3 < r.value.1 <= |s|
  {
    if !HasIntroducer(s) then None else
    var end := Terminator(s, 3);
    if end == |s| then None else
    match ParseBody(s[3..end], s[end] == PRESS)
    case Some(report) => Some((report, end + 1))
    case None => None
  }

  method Parse(bytes: seq<Byte>) returns (r: Option<(Report, nat)>)
    ensures r == Parsed(bytes)
  {
    if |bytes| < 4 || bytes[0] != ESC || bytes[1] != 0x5b || bytes[2] != 0x3c {
      assert HasIntroducer(bytes) ==> |bytes| == 3;
      return None;
    }
    var end := 3;
    while end < |bytes| && !IsTerminator(bytes[end])
      invariant 3 <= end <= |bytes|
      invariant Terminator(bytes, 3) == Terminator(bytes, end)
    {
      end := end + 1;
    }
    if end >= |bytes| {
      return None;
    }
    var report := ParseBody(bytes[3..end], bytes[end] == PRESS);
    r := if report.Some? then Some((report.value, end + 1)) else None;
  }

  /** A report cut off before its terminator. */
  predicate IsPartial(s: seq<Byte>)
  {
    HasIntroducer(s) && forall i :: 0 <= i < |s| ==> !IsTerminator(s[i])
  }

  /** Exactly `ESC` or `ESC [`. */
  predicate IsIntroducerPrefix(s: seq<Byte>)
  {
    s != [] && s < INTRODUCER
  }

  /** What the introducer starts: a report, a cut-off report, or a malformed one with a terminator. */
  lemma PartialHasNoTerminator(s: seq<Byte>)
    requires HasIntroducer(s)
    ensures IsPartial(s) <==> Terminator(s, 3) == |s|
  {
    assert !IsTerminator(s[0]) && !IsTerminator(s[1]) && !IsTerminator(s[2]);
  }

  // ---------------------------------------------------------------- printing

  function Decimal(n: nat): seq<Byte>
  {
    (if n < 10 then [] else Decimal(n / 10)) + [ZERO + n % 10]
  }

  function Body(b: nat, x: nat, y: nat): seq<Byte>
  {
    Decimal(b) + [SEMICOLON] + Decimal(x) + [SEMICOLON] + Decimal(y)
  }

  function EncodeSgr(rawButton: nat, col: nat, row: nat, press: bool): seq<Byte>
  {
    INTRODUCER + Body(rawButton, col + 1, row + 1) + [if press then PRESS else RELEASE]
  }

  lemma OneMoreDigit(s: seq<Byte>, d: nat)
    requires AllDigits(s) && d < 10
    ensures Value(s + [ZERO + d]) == 10 * Value(s) + d && AllDigits(s + [ZERO + d])
  {
    assert (s + [ZERO + d])[..|s|] == s;
  }

  lemma {:induction false} DecimalValue(n: nat)
    ensures Value(Decimal(n)) == n && Decimal(n) != [] && AllDigits(Decimal(n))
  {
    if n < 10 {
      assert Decimal(n) == [ZERO + n] && [ZERO + n][..0] == [];
    } else {
      DecimalValue(n / 10);
      OneMoreDigit(Decimal(n / 10), n % 10);
    }
  }

  /** A printed number reads back exactly when it is in range. */
  lemma DecimalParses(n: nat, max: nat)
    ensures ParseNumber(Decimal(n), max) == if n <= max then Some(n) else None
  {
    DecimalValue(n);
    assert IsDigit(Decimal(n)[0]);
  }

  lemma {:induction false} SplitAt(a: seq<Byte>, rest: seq<Byte>)
    requires SEMICOLON !in a
    ensures Split(a + [SEMICOLON] + rest) == [a] + Split(rest)
    ensures Split(a) == [a]
  {
    var s := a + [SEMICOLON] + rest;
    if a == [] {
      assert s[1..] == rest;
    } else {
      assert s[1..] == a[1..] + [SEMICOLON] + rest;
      SplitAt(a[1..], rest);
      assert [a[0]] + a[1..] == a;
    }
  }

  lemma SplitThree(a: seq<Byte>, b: seq<Byte>, c: seq<Byte>)
    requires SEMICOLON !in a && SEMICOLON !in b && SEMICOLON !in c
    ensures Split(a + [SEMICOLON] + b + [SEMICOLON] + c) == [a, b, c]
  {
    assert a + [SEMICOLON] + b + [SEMICOLON] + c == a + [SEMICOLON] + (b + [SEMICOLON] + c);
    SplitAt(a, b + [SEMICOLON] + c);
    SplitAt(b, c);
    SplitAt(c, []);
    assert [a] + ([b] + [c]) == [a, b, c];
  }

  lemma PlainNumber(n: nat)
    ensures SEMICOLON !in Decimal(n) && forall i :: 0 <= i < |Decimal(n)| ==> !IsTerminator(Decimal(n)[i])
  {
    DecimalValue(n);
  }

  lemma BodySplits(b: nat, x: nat, y: nat)
    ensures Split(Body(b, x, y)) == [Decimal(b), Decimal(x), Decimal(y)]
    ensures forall i :: 0 <= i < |Body(b, x, y)| ==> !IsTerminator(Body(b, x, y)[i])
  {
    PlainNumber(b);
    PlainNumber(x);
    PlainNumber(y);
    SplitThree(Decimal(b), Decimal(x), Decimal(y));
  }

  lemma EncodedFront(b: nat, col: nat, row: nat, press: bool, rest: seq<Byte>)
    ensures var s := EncodeSgr(b, col, row, press) + rest;
            var n := |EncodeSgr(b, col, row, press)|;
            && HasIntroducer(s) && Terminator(s, 3) == n - 1 && (s[n - 1] == PRESS <==> press)
            && s[3..n - 1] == Body(b, col + 1, row + 1)
  {
    BodySplits(b, col + 1, row + 1);
    var body := Body(b, col + 1, row + 1);
    var s := EncodeSgr(b, col, row, press) + rest;
    assert s[..3] == INTRODUCER;
    assert s[3..3 + |body|] == body;
    assert forall i :: 3 <= i < 3 + |body| ==> s[i] == body[i - 3];
    assert IsTerminator(s[3 + |body|]);
  }

  /** The button a body announces and the coordinates it gives, when all are in range. */
  lemma BodyParses(b: nat, x: nat, y: nat, press: bool)
    requires b <= U32_MAX
    ensures ParseBody(Body(b, x, y), press) ==
            if x <= U16_MAX && y <= U16_MAX && DecodeButton(b, press).Some?
            then Some(Report(DecodeButton(b, press).value, SatSub(x, 1), SatSub(y, 1), b, press)) else None
  {
    BodySplits(b, x, y);
    DecimalParses(b, U32_MAX);
    DecimalParses(x, U16_MAX);
    DecimalParses(y, U16_MAX);
  }

  predicate InRange(b: nat, col: nat, row: nat) { b <= U32_MAX && col <= U16_MAX && row <= U16_MAX }

  /**
   Round trip: an encoded report, whatever follows it, reads back as itself and to its full length
   exactly when its button decodes and neither coordinate is the largest 16-bit value.
   */
  lemma EncodedReadsBack(b: nat, col: nat, row: nat, press: bool, rest: seq<Byte>)
    requires InRange(b, col, row)
    ensures var s := EncodeSgr(b, col, row, press);
            && Parsed(s + rest).Some? == (DecodeButton(b, press).Some? && col < U16_MAX && row < U16_MAX)
            && (Parsed(s + rest).Some? ==>
                  Parsed(s + rest).value == (Report(DecodeButton(b, press).value, col, row, b, press), |s|))
  {
    var s := EncodeSgr(b, col, row, press) + rest;
    var n := |EncodeSgr(b, col, row, press)|;
    hide Parsed, Terminator, EncodeSgr, ParseBody, Body, HasIntroducer, DecodeButton;
    EncodedFront(b, col, row, press, rest);
    ParsedAt(s, n);
    BodyParses(b, col + 1, row + 1, press);
  }

  lemma ParsedAt(s: seq<Byte>, n: nat)
    requires HasIntroducer(s) && Terminator(s, 3) == n - 1 < |s|
    ensures 3 < n
    ensures Parsed(s) == match ParseBody(s[3..n - 1], s[n - 1] == PRESS)
                         case Some(report) => Some((report, n))
                         case None => None
  {
  }

  /** A number as it is printed: digits without a leading zero. */
  predicate Canonical(s: seq<Byte>) { s != [] && AllDigits(s) && (s[0] == ZERO ==> |s| == 1) }

  lemma DigitPrints(b: Byte)
    requires IsDigit(b)
    ensures Value([b]) == b - ZERO && Decimal(b - ZERO) == [b]
  {
    assert [b][..0] == [];
  }

  lemma {:induction false} CanonicalPrints(s: seq<Byte>)
    requires Canonical(s)
    ensures Value(s) >= 0 && Decimal(Value(s)) == s && (s[0] != ZERO ==> Value(s) > 0)
  {
    hide Value, Decimal;
    var n := |s| - 1;
    LastDigit(s);
    if n > 0 {
      var front := s[..n];
      assert Canonical(front) && front[0] == s[0];
      CanonicalPrints(front);
      DecimalStep(Value(front), s[n] - ZERO);
      assert s == front + [s[n]];
    } else {
      assert s == [s[0]];
      DigitPrints(s[0]);
    }
  }

  lemma DecimalStep(v: nat, d: nat)
    requires v > 0 && d < 10
    ensures Decimal(10 * v + d) == Decimal(v) + [ZERO + d]
  {
    assert (10 * v + d) / 10 == v && (10 * v + d) % 10 == d;
  }

  lemma LastDigit(s: seq<Byte>)
    requires s != [] && AllDigits(s)
    ensures var n := |s| - 1; Value(s) == 10 * Value(s[..n]) + (s[n] - ZERO) && IsDigit(s[n])
  {
  }

  lemma {:induction false} DecimalIsCanonical(n: nat)
    ensures Canonical(Decimal(n)) && (Decimal(n)[0] == ZERO ==> n == 0)
  {
    if n >= 10 {
      DecimalIsCanonical(n / 10);
      assert Decimal(n)[0] == Decimal(n / 10)[0];
    }
  }

  /** A report's text is what the encoder would print: canonical numbers, and no zero coordinate. */
  predicate CanonicalBody(body: seq<Byte>)
  {
    var parts := Split(body);
    && |parts| == 3
    && (forall k :: 0 <= k < 3 ==> Canonical(parts[k]))
    && parts[1] != [ZERO] && parts[2] != [ZERO]
  }

  /** Joining the pieces of a split gives back the text. */
  function Join(parts: seq<seq<Byte>>): seq<Byte>
    requires parts != []
  {
    if |parts| == 1 then parts[0] else parts[0] + [SEMICOLON] + Join(parts[1..])
  }

  lemma JoinEmpty(rest: seq<seq<Byte>>)
    requires rest != []
    ensures Join([[]] + rest) == [SEMICOLON] + Join(rest)
  {
    assert ([[]] + rest)[1..] == rest;
  }

  lemma JoinMany(parts: seq<seq<Byte>>)
    requires |parts| > 1
    ensures Join(parts) == parts[0] + [SEMICOLON] + Join(parts[1..])
  {
  }

  lemma Regroup(a: seq<Byte>, b: seq<Byte>, c: seq<Byte>, d: seq<Byte>)
    ensures a + b + c + d == a + (b + c + d)
  {
  }

  lemma JoinLonger(c: Byte, rest: seq<seq<Byte>>)
    requires rest != []
    ensures Join([[c] + rest[0]] + rest[1..]) == [c] + Join(rest)
  {
    if |rest| > 1 {
      hide Join;
      var longer := [[c] + rest[0]] + rest[1..];
      assert longer[1..] == rest[1..];
      JoinMany(longer);
      JoinMany(rest);
      Regroup([c], rest[0], [SEMICOLON], Join(rest[1..]));
    }
  }

  lemma SplitFirst(s: seq<Byte>)
    requires s != []
    ensures var rest := Split(s[1..]);
            Split(s) == if s[0] == SEMICOLON then [[]] + rest else [[s[0]] + rest[0]] + rest[1..]
  {
  }

  lemma {:induction false} JoinSplit(s: seq<Byte>)
    ensures Join(Split(s)) == s
  {
    if s != [] {
      hide Split, Join;
      JoinSplit(s[1..]);
      SplitFirst(s);
      JoinEmpty(Split(s[1..]));
      JoinLonger(s[0], Split(s[1..]));
      assert s == [s[0]] + s[1..];
    }
  }

  lemma JoinThree(parts: seq<seq<Byte>>)
    requires |parts| == 3
    ensures Join(parts) == parts[0] + [SEMICOLON] + parts[1] + [SEMICOLON] + parts[2]
  {
    assert parts[1..][1..] == [parts[2]];
    assert Join(parts[1..]) == parts[1] + [SEMICOLON] + parts[2];
  }

  lemma CanonicalNumber(s: seq<Byte>, max: nat)
    requires ParseNumber(s, max).Some?
    ensures Decimal(ParseNumber(s, max).value) == s <==> Canonical(s)
    ensures Canonical(s) && s != [ZERO] ==> ParseNumber(s, max).value > 0
  {
    var v := ParseNumber(s, max).value;
    if Canonical(s) {
      assert s[0] != PLUS;
      CanonicalPrints(s);
    }
    DecimalIsCanonical(v);
  }

  lemma SmallNumbers()
    ensures Decimal(0) == [ZERO] && Decimal(1) == [ZERO + 1] && ParseNumber([ZERO + 1], U16_MAX) == Some(1)
    ensures ParseNumber([ZERO], U16_MAX) == Some(0) && Canonical([ZERO])
  {
    DecimalParses(0, U16_MAX);
    DecimalParses(1, U16_MAX);
  }

  lemma CoordinatePrints(s: seq<Byte>)
    requires ParseNumber(s, U16_MAX).Some?
    ensures Decimal(SatSub(ParseNumber(s, U16_MAX).value, 1) + 1) == s <==> Canonical(s) && s != [ZERO]
  {
    hide ParseNumber, Decimal, Canonical;
    CanonicalNumber(s, U16_MAX);
    SmallNumbers();
  }

  /** A body is its three parts: printed numbers make it up exactly when each makes up its part. */
  lemma BodyIsItsParts(body: seq<Byte>, b: nat, x: nat, y: nat)
    ensures Body(b, x, y) == body <==> Split(body) == [Decimal(b), Decimal(x), Decimal(y)]
  {
    BodySplits(b, x, y);
    if Split(body) == [Decimal(b), Decimal(x), Decimal(y)] {
      JoinSplit(body);
      JoinThree(Split(body));
    }
  }

  lemma BodyPrints(body: seq<Byte>, press: bool)
    requires ParseBody(body, press).Some?
    ensures var ev := ParseBody(body, press).value;
            Body(ev.rawButton, ev.col + 1, ev.row + 1) == body <==> CanonicalBody(body)
  {
    hide Body, Decimal, Canonical, Split, ParseNumber;
    var ev := ParseBody(body, press).value;
    var parts := Split(body);
    BodyIsItsParts(body, ev.rawButton, ev.col + 1, ev.row + 1);
    PartsPrint(parts[0], parts[1], parts[2], ev.rawButton, ev.col, ev.row);
    assert parts == [parts[0], parts[1], parts[2]];
  }

  lemma PartsPrint(b: seq<Byte>, x: seq<Byte>, y: seq<Byte>, button: nat, col: nat, row: nat)
    requires ParseNumber(b, U32_MAX) == Some(button)
    requires ParseNumber(x, U16_MAX).Some? && col == SatSub(ParseNumber(x, U16_MAX).value, 1)
    requires ParseNumber(y, U16_MAX).Some? && row == SatSub(ParseNumber(y, U16_MAX).value, 1)
    ensures Decimal(button) == b && Decimal(col + 1) == x && Decimal(row + 1) == y
       <==> Canonical(b) && Canonical(x) && Canonical(y) && x != [ZERO] && y != [ZERO]
  {
    hide *;
    assert Decimal(button) == b <==> Canonical(b) by { CanonicalNumber(b, U32_MAX); }
    assert Decimal(col + 1) == x <==> Canonical(x) && x != [ZERO] by { CoordinatePrints(x); }
    assert Decimal(row + 1) == y <==> Canonical(y) && y != [ZERO] by { CoordinatePrints(y); }
  }

  /** Forwarding is faithful: a parsed report re-encodes to the bytes it came from exactly when those are canonical. */
  lemma ParsedPrintsBack(s: seq<Byte>)
    requires Parsed(s).Some?
    ensures var (ev, n) := Parsed(s).value;
            EncodeSgr(ev.rawButton, ev.col, ev.row, ev.press) == s[..n] <==> CanonicalBody(s[3..n - 1])
  {
    hide Parsed, Body, ParseBody, CanonicalBody;
    var (ev, n) := Parsed(s).value;
    var printed := Body(ev.rawButton, ev.col + 1, ev.row + 1);
    ParsedShape(s);
    assert printed == s[3..n - 1] <==> CanonicalBody(s[3..n - 1]) by { BodyPrints(s[3..n - 1], ev.press); }
    PrintedFrame(s, n, printed, ev.press);
  }

  lemma ParsedShape(s: seq<Byte>)
    requires Parsed(s).Some?
    ensures var (ev, n) := Parsed(s).value;
            && HasIntroducer(s) && IsTerminator(s[n - 1]) && (ev.press <==> s[n - 1] == PRESS)
            && ParseBody(s[3..n - 1], ev.press) == Some(ev)
  {
    hide Split, ParseNumber, DecodeButton;
  }

  lemma PrintedFrame(s: seq<Byte>, n: nat, printed: seq<Byte>, press: bool)
    requires HasIntroducer(s) && 3 < n <= |s| && IsTerminator(s[n - 1]) && (press <==> s[n - 1] == PRESS)
    ensures INTRODUCER + printed + [if press then PRESS else RELEASE] == s[..n] <==> printed == s[3..n - 1]
  {
    var last := [if press then PRESS else RELEASE];
    assert s[..n] == INTRODUCER + s[3..n - 1] + last;
    if INTRODUCER + printed + last == s[..n] {
      assert printed == (INTRODUCER + printed + last)[3..3 + |printed|];
    }
  }

  // ---------------------------------------------------------------- on the wire

  /** The bytes of ASCII text. */
  function Ascii(text: string): seq<Byte>
    requires forall i :: 0 <= i < |text| ==> text[i] < '\U{0080}'
  {
    seq(|text|, i requires 0 <= i < |text| => text[i] as int)
  }

  lemma SmallDecimals()
    ensures Decimal(0) == [0x30] && Decimal(1) == [0x31] && Decimal(2) == [0x32] && Decimal(5) == [0x35]
    ensures Decimal(10) == [0x31, 0x30]
  {
    assert Decimal(10) == Decimal(1) + [0x30];
  }

  lemma PressOnTheWire()
    ensures EncodeSgr(0, 9, 4, true) == [ESC] + Ascii("[<0;10;5M")
  {
    hide Decimal;
    SmallDecimals();
    assert Body(0, 10, 5) == [0x30, 0x3b, 0x31, 0x30, 0x3b, 0x35];
  }

  lemma ReleaseOnTheWire()
    ensures EncodeSgr(2, 0, 0, false) == [ESC] + Ascii("[<2;1;1m")
  {
    hide Decimal;
    SmallDecimals();
    assert Body(2, 1, 1) == [0x32, 0x3b, 0x31, 0x3b, 0x31];
  }

  /** A left press in the tenth column of the fifth row, and the right button released in the corner. */
  lemma ClicksOnTheWire()
    ensures Parsed([ESC] + Ascii("[<0;10;5M")) == Some((Report(Down(Left), 9, 4, 0, true), 10))
    ensures Parsed([ESC] + Ascii("[<2;1;1m")) == Some((Report(Up(Right), 0, 0, 2, false), 9))
  {
    hide Parsed, EncodeSgr;
    PressOnTheWire();
    ReleaseOnTheWire();
    EncodedReadsBack(0, 9, 4, true, []);
    EncodedReadsBack(2, 0, 0, false, []);
    assert EncodeSgr(0, 9, 4, true) + [] == EncodeSgr(0, 9, 4, true);
    assert EncodeSgr(2, 0, 0, false) + [] == EncodeSgr(2, 0, 0, false);
  }

  lemma {:induction false} ValueOfLeading(d: Byte, s: seq<Byte>)
    ensures d == ZERO ==> Value([d] + s) == Value(s)
  {
    if s == [] {
      assert ([d] + s)[..0] == [];
    } else {
      var n := |s| - 1;
      ValueOfLeading(d, s[..n]);
      assert ([d] + s)[..n + 1] == [d] + s[..n];
    }
  }

  /** A plus sign and leading zeros make no difference to a number. */
  lemma SignAndZerosDoNotMatter(s: seq<Byte>, max: nat)
    requires s != [] && AllDigits(s)
    ensures ParseNumber([PLUS] + s, max) == ParseNumber(s, max) == ParseNumber([ZERO] + s, max)
    ensures ParseNumber(s, max) == if Value(s) <= max then Some(Value(s)) else None
  {
    ValueOfLeading(ZERO, s);
    ValueIsNatural(s);
    assert ([PLUS] + s)[1..] == s;
    assert IsDigit(s[0]);
    assert AllDigits([ZERO] + s);
  }

  // ---------------------------------------------------------------- what a report is made of

  lemma NumberHasNoEscape(s: seq<Byte>, max: nat)
    requires ParseNumber(s, max).Some?
    ensures ESC !in s
  {
    var digits := if s != [] && s[0] == PLUS then s[1..] else s;
    forall i | 0 <= i < |s| ensures s[i] != ESC {
      if |digits| == |s| {
        assert IsDigit(digits[i]);
      } else if i > 0 {
        assert IsDigit(digits[i - 1]);
      }
    }
  }

  lemma BodyHasNoEscape(body: seq<Byte>, press: bool)
    requires ParseBody(body, press).Some?
    ensures ESC !in body
  {
    var parts := Split(body);
    NumberHasNoEscape(parts[0], U32_MAX);
    NumberHasNoEscape(parts[1], U16_MAX);
    NumberHasNoEscape(parts[2], U16_MAX);
    JoinSplit(body);
    JoinThree(parts);
  }

  /** A report starts with its only escape. */
  lemma ReportHasOneEscape(s: seq<Byte>, k: nat)
    requires Parsed(s).Some? && 0 < k < Parsed(s).value.1
    ensures s[0] == ESC && s[k] != ESC
  {
    hide Parsed, ParseBody;
    ParsedShape(s);
    var (ev, n) := Parsed(s).value;
    assert s[0] == INTRODUCER[0] && s[1] == INTRODUCER[1] && s[2] == INTRODUCER[2];
    if 3 <= k < n - 1 {
      BodyHasNoEscape(s[3..n - 1], ev.press);
      assert s[k] == s[3..n - 1][k - 3];
    }
  }
}
