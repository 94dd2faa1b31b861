/** Paging cursors: an offset printed in decimal, then in base64url without padding
    (sections 5 and 3.2 of RFC 4648). */
module Cursor {
  import opened Outcomes

  // ---- Decimal, as `str` prints it and `int` reads it.

  function Digit(d: nat): char
    requires d < 10
  {
    ('0' as int + d) as char
  }

  function Decimal(n: nat): (r: string)
    ensures r != ""
    ensures forall i :: 0 <= i < |r| ==> IsDigit(r[i])
  {
    if n < 10 then [Digit(n)] else Decimal(n / 10) + [Digit(n % 10)]
  }

  predicate IsDigit(c: char) {
    '0' <= c <= '9'
  }

  /** Digits, with single underscores allowed between them. */
  function ParseDigits(s: string): Option<nat> {
    if s == "" then None else
      var c := s[|s| - 1];
      if !IsDigit(c) then None else
        var d := c as int - '0' as int;
        var front := s[..|s| - 1];
        if front == "" then Some(d) else
          match ParseDigits(if front[|front| - 1] == '_' then front[..|front| - 1] else front)
          case None => None
          case Some(n) => Some(10 * n + d)
  }

  predicate IsAsciiSpace(c: char) {
    c == ' ' || '\t' <= c <= '\r' || '\U{1c}' <= c <= '\U{1f}'
  }

  function TrimLeft(s: string): string {
    if s != "" && IsAsciiSpace(s[0]) then TrimLeft(s[1..]) else s
  }

  function TrimRight(s: string): string {
    if s != "" && IsAsciiSpace(s[|s| - 1]) then TrimRight(s[..|s| - 1]) else s
  }

  /** `int(s)` for an ASCII string: surrounding space, one sign, digits. */
  function ParseInt(s: string): Option<int> {
    ParseSigned(TrimRight(TrimLeft(s)))
  }

  function ParseSigned(s: string): Option<int> {
    if s == "" then None
    else if s[0] == '-' then
      match ParseDigits(s[1..])
      case None => None
      case Some(n) => Some(0 - n as int)
    else
      match ParseDigits(if s[0] == '+' then s[1..] else s)
      case None => None
      case Some(n) => Some(n)
  }

  lemma {:induction false} DigitsParse(n: nat)
    ensures ParseDigits(Decimal(n)) == Some(n)
  {
    if n >= 10 {
      DigitsParse(n / 10);
      var s := Decimal(n);
      assert s[..|s| - 1] == Decimal(n / 10);
    }
  }

  /** `int` undoes `str`. */
  lemma {:induction false} DecimalRoundTrip(n: nat)
    ensures ParseInt(Decimal(n)) == Some(n)
  {
    DigitsParse(n);
    assert IsDigit(Decimal(n)[0]);
  }

  // ---- Base64url. A byte is an ASCII character here; a sextet is a number below 64.

  /** A-Z, a-z, 0-9, then `-` and `_`. */
  function Sextet(v: nat): char
    requires v < 64
  {
    if v < 26 then ('A' as int + v) as char
    else if v < 52 then ('a' as int + (v - 26)) as char
    else if v < 62 then ('0' as int + (v - 52)) as char
    else if v == 62 then '-' else '_'
  }

  /** The value of an alphabet character. `urlsafe_b64decode` rewrites `-_` to `+/`, so it
      reads both spellings of the last two. */
  function SextetValue(c: char): (r: Option<nat>)
    ensures r.Some? ==> r.value < 64
  {
    if 'A' <= c <= 'Z' then Some(c as int - 'A' as int)
    else if 'a' <= c <= 'z' then Some(c as int - 'a' as int + 26)
    else if '0' <= c <= '9' then Some(c as int - '0' as int + 52)
    else if c == '-' || c == '+' then Some(62)
    else if c == '_' || c == '/' then Some(63)
    else None
  }

  lemma SextetRoundTrip(v: nat)
    requires v < 64
    ensures SextetValue(Sextet(v)) == Some(v) && Sextet(v) != '='
  {
  }

  type Byte = b: int | 0 <= b < 256

  type Bytes = seq<Byte>

  /** Three bytes as four characters. */
  function Group(a: Byte, b: Byte, c: Byte): string {
    [Sextet(a / 4), Sextet(a % 4 * 16 + b / 16), Sextet(b % 16 * 4 + c / 64), Sextet(c % 64)]
  }

  /** A last group of one or two bytes: two or three characters. */
  function OneByte(a: Byte): string {
    [Sextet(a / 4), Sextet(a % 4 * 16)]
  }

  function TwoBytes(a: Byte, b: Byte): string {
    [Sextet(a / 4), Sextet(a % 4 * 16 + b / 16), Sextet(b % 16 * 4)]
  }

  /** `urlsafe_b64encode(...)` with the padding stripped. */
  function EncodeBytes(s: Bytes): string {
    if |s| == 0 then ""
    else if |s| == 1 then OneByte(s[0])
    else if |s| == 2 then TwoBytes(s[0], s[1])
    else Group(s[0], s[1], s[2]) + EncodeBytes(s[3..])
  }

  /** The decoder's registers: how many sextets of the current group it has read, and the
      bits of them not yet written out. */
  datatype Quad = Quad(read: nat, left: nat)

  /** What one more sextet completes, and the registers after it. */
  function Written(q: Quad, v: nat): Bytes
    requires q.read < 4 && q.left < 64 && v < 64
  {
    match q.read
    case 0 => []
    case 1 => [q.left * 4 + v / 16]
    case 2 => [q.left % 16 * 16 + v / 4]
    case _ => [q.left % 4 * 64 + v]
  }

  function Advance(q: Quad, v: nat): (r: Quad)
    requires q.read < 4 && q.left < 64 && v < 64
    ensures r.read < 4 && r.left < 64
  {
    match q.read
    case 0 => Quad(1, v)
    case 1 => Quad(2, v % 16)
    case 2 => Quad(3, v % 4)
    case _ => Quad(0, 0)
  }

  function Prepend(bytes: Bytes, rest: Option<Bytes>): Option<Bytes> {
    match rest
    case None => None
    case Some(more) => Some(bytes + more)
  }

  /** Base64 decoding as Python does it without `validate`: characters outside the alphabet
      are skipped, padding ends the input once the group is complete, and input that stops
      inside a group is an error. */
  function DecodeFrom(s: string, q: Quad, pads: nat): Option<Bytes>
    requires q.read < 4 && q.left < 64
  {
    if s == "" then
      if q.read == 0 then Some([]) else None
    else if s[0] == '=' then
      if q.read >= 2 && q.read + pads + 1 >= 4 then Some([])
      else DecodeFrom(s[1..], q, if q.read >= 2 then pads + 1 else pads)
    else
      match SextetValue(s[0])
      case None => DecodeFrom(s[1..], q, pads)
      case Some(v) => Prepend(Written(q, v), DecodeFrom(s[1..], Advance(q, v), 0))
  }

  function DecodeBytes(s: string): Option<Bytes> {
    DecodeFrom(s, Quad(0, 0), 0)
  }

  function Padding(n: nat): string {
    if n == 0 then "" else "=" + Padding(n - 1)
  }

  /** `-len % 4`, Python's remainder. */
  function Missing(n: nat): nat {
    (4 - n % 4) % 4
  }

  lemma DecodeSextet(v: nat, rest: string, q: Quad)
    requires q.read < 4 && q.left < 64 && v < 64
    ensures DecodeFrom([Sextet(v)] + rest, q, 0) == Prepend(Written(q, v), DecodeFrom(rest, Advance(q, v), 0))
  {
    SextetRoundTrip(v);
    assert ([Sextet(v)] + rest)[1..] == rest;
  }

  lemma PrependTwice(front: Bytes, middle: Bytes, rest: Option<Bytes>)
    ensures Prepend(front, Prepend(middle, rest)) == Prepend(front + middle, rest)
  {
    if rest.Some? {
      assert front + (middle + rest.value) == front + middle + rest.value;
    }
  }

  /** The bytes of a group, from the first register on. */
  lemma DecodeThreeSextets(x: nat, y: nat, z: nat, rest: string)
    requires x < 64 && y < 64 && z < 64
    ensures var q1 := Quad(1, x); var q2 := Advance(q1, y);
            DecodeBytes([Sextet(x)] + ([Sextet(y)] + ([Sextet(z)] + rest))) ==
            Prepend(Written(q1, y) + Written(q2, z), DecodeFrom(rest, Advance(q2, z), 0))
  {
    var q1 := Quad(1, x);
    var q2 := Advance(q1, y);
    var q3 := Advance(q2, z);
    var s2 := [Sextet(z)] + rest;
    var s1 := [Sextet(y)] + s2;
    DecodeSextet(x, s1, Quad(0, 0));
    DecodeSextet(y, s2, q1);
    DecodeSextet(z, rest, q2);
    PrependTwice(Written(q1, y), Written(q2, z), DecodeFrom(rest, q3, 0));
    PrependTwice([], Written(q1, y) + Written(q2, z), DecodeFrom(rest, q3, 0));
    assert [] + (Written(q1, y) + Written(q2, z)) == Written(q1, y) + Written(q2, z);
  }

  /** The sextets of a group hold its three bytes. */
  lemma GroupRegisters(a: Byte, b: Byte, c: Byte)
    ensures var y, z, w := a % 4 * 16 + b / 16, b % 16 * 4 + c / 64, c % 64;
            var q1 := Quad(1, a / 4); var q2 := Advance(q1, y); var q3 := Advance(q2, z);
            && Written(q1, y) == [a] && Written(q2, z) == [b] && Written(q3, w) == [c]
            && Advance(q3, w) == Quad(0, 0)
  {
    var y, z := a % 4 * 16 + b / 16, b % 16 * 4 + c / 64;
    assert y / 16 == a % 4 && y % 16 == b / 16;
    assert z / 4 == b % 16 && z % 4 == c / 64;
  }

  lemma DecodeGroup(a: Byte, b: Byte, c: Byte, rest: string)
    ensures DecodeBytes(Group(a, b, c) + rest) == Prepend([a, b, c], DecodeBytes(rest))
  {
    var x, y, z, w := a / 4, a % 4 * 16 + b / 16, b % 16 * 4 + c / 64, c % 64;
    assert Group(a, b, c) + rest == [Sextet(x)] + ([Sextet(y)] + ([Sextet(z)] + ([Sextet(w)] + rest)));
    DecodeThreeSextets(x, y, z, [Sextet(w)] + rest);
    DecodeSextet(w, rest, Advance(Advance(Quad(1, x), y), z));
    GroupRegisters(a, b, c);
    PrependTwice([a] + [b], [c], DecodeBytes(rest));
    assert [a] + [b] + [c] == [a, b, c];
  }

  lemma DecodeOneByte(a: Byte)
    ensures DecodeBytes(OneByte(a) + "==") == Some([a])
  {
    var x, y := a / 4, a % 4 * 16;
    assert "=="[1..] == "=";
    assert DecodeFrom("=", Quad(2, y % 16), 1) == Some([]);
    DecodeSextet(y, "==", Quad(1, x));
    DecodeSextet(x, [Sextet(y)] + "==", Quad(0, 0));
    assert OneByte(a) + "==" == [Sextet(x)] + ([Sextet(y)] + "==");
    assert [] + ([a] + []) == [a];
  }

  lemma DecodeTwoBytes(a: Byte, b: Byte)
    ensures DecodeBytes(TwoBytes(a, b) + "=") == Some([a, b])
  {
    var x, y, z := a / 4, a % 4 * 16 + b / 16, b % 16 * 4;
    assert TwoBytes(a, b) + "=" == [Sextet(x)] + ([Sextet(y)] + ([Sextet(z)] + "="));
    DecodeThreeSextets(x, y, z, "=");
    GroupRegisters(a, b, 0);
    PaddingEnds(Advance(Advance(Quad(1, x), y), z));
    assert [a] + [b] + [] == [a, b];
  }

  lemma PaddingEnds(q: Quad)
    requires q.read == 3 && q.left < 64
    ensures DecodeFrom("=", q, 0) == Some([])
  {
  }

  /** Decoding undoes encoding once the stripped padding is put back. */
  lemma {:induction false} BytesRoundTrip(s: Bytes)
    ensures DecodeBytes(EncodeBytes(s) + Padding(Missing(|EncodeBytes(s)|))) == Some(s)
  {
    if |s| < 3 {
      ShortRoundTrip(s);
    } else {
      BytesRoundTrip(s[3..]);
      var e, tail := EncodeBytes(s), EncodeBytes(s[3..]);
      var group := Group(s[0], s[1], s[2]);
      GroupKeepsPadding(group, tail);
      DecodeGroup(s[0], s[1], s[2], tail + Padding(Missing(|tail|)));
      assert s == [s[0], s[1], s[2]] + s[3..];
    }
  }

  lemma GroupKeepsPadding(group: string, tail: string)
    requires |group| == 4
    ensures group + tail + Padding(Missing(|group + tail|)) == group + (tail + Padding(Missing(|tail|)))
  {
    assert Missing(|group + tail|) == Missing(|tail|);
  }

  lemma ShortRoundTrip(s: Bytes)
    requires |s| < 3
    ensures DecodeBytes(EncodeBytes(s) + Padding(Missing(|EncodeBytes(s)|))) == Some(s)
  {
    assert Padding(0) == "" && Padding(1) == "=" && Padding(2) == "==";
    if |s| == 0 {
      assert EncodeBytes(s) + "" == "";
    } else if |s| == 1 {
      DecodeOneByte(s[0]);
      assert s == [s[0]];
    } else {
      DecodeTwoBytes(s[0], s[1]);
      assert s == [s[0], s[1]];
    }
  }

  // ---- Cursors.

  predicate IsAscii(s: Bytes) {
    forall i :: 0 <= i < |s| ==> s[i] < 128
  }

  function AsciiText(s: Bytes): (r: string)
    requires IsAscii(s)
    ensures |r| == |s| && forall i :: 0 <= i < |s| ==> r[i] as int == s[i]
  {
    seq(|s|, i requires 0 <= i < |s| => s[i] as char)
  }

  function AsciiBytes(s: string): (r: Bytes)
    requires forall i :: 0 <= i < |s| ==> s[i] as int < 128
    ensures |r| == |s| && forall i :: 0 <= i < |s| ==> r[i] == s[i] as int
  {
    seq(|s|, i requires 0 <= i < |s| => s[i] as int)
  }

  lemma AsciiRoundTrip(s: string)
    requires forall i :: 0 <= i < |s| ==> s[i] as int < 128
    ensures IsAscii(AsciiBytes(s)) && AsciiText(AsciiBytes(s)) == s
  {
  }

  function EncodeCursor(offset: nat): string {
    EncodeBytes(AsciiBytes(Decimal(offset)))
  }

  function DecodeCursor(cursor: Option<string>): Result<nat> {
    match cursor
    case None => Ok(0)
    case Some(s) =>
      match DecodeBytes(s + Padding(Missing(|s|)))
      case None => Err(InvalidCursor)
      case Some(bytes) =>
        if !IsAscii(bytes) then Err(InvalidCursor) else
          match ParseInt(AsciiText(bytes))
          case None => Err(InvalidCursor)
          case Some(n) => if n < 0 then Err(InvalidCursor) else Ok(n)
  }

  /** Every offset a page can stop at survives the trip through its cursor. */
  lemma CursorRoundTrip(offset: nat)
    ensures DecodeCursor(Some(EncodeCursor(offset))) == Ok(offset)
  {
    AsciiRoundTrip(Decimal(offset));
    BytesRoundTrip(AsciiBytes(Decimal(offset)));
    DecimalRoundTrip(offset);
  }

  lemma {:induction false} TrimLeftSpace(space: string, core: string)
    requires forall i :: 0 <= i < |space| ==> IsAsciiSpace(space[i])
    requires core != "" && !IsAsciiSpace(core[0])
    ensures TrimLeft(space + core) == core
  {
    if space == "" {
      assert space + core == core;
    } else {
      assert (space + core)[1..] == space[1..] + core;
      TrimLeftSpace(space[1..], core);
    }
  }

  lemma {:induction false} TrimRightSpace(core: string, space: string)
    requires forall i :: 0 <= i < |space| ==> IsAsciiSpace(space[i])
    requires core != "" && !IsAsciiSpace(core[|core| - 1])
    ensures TrimRight(core + space) == core
  {
    if space == "" {
      assert core + space == core;
    } else {
      var n := |space| - 1;
      assert (core + space)[..|core| + n] == core + space[..n];
      TrimRightSpace(core, space[..n]);
    }
  }

  /** A cursor is refused whenever it reads as a negative number, however that number is
      spelled and however it is encoded; minus zero is zero. */
  lemma NegativeIsRefused(cursor: string, before: string, digits: string, after: string, n: nat, bytes: Bytes)
    requires forall i :: 0 <= i < |before| ==> IsAsciiSpace(before[i])
    requires forall i :: 0 <= i < |after| ==> IsAsciiSpace(after[i])
    requires ParseDigits(digits) == Some(n)
    requires DecodeBytes(cursor + Padding(Missing(|cursor|))) == Some(bytes)
    requires IsAscii(bytes) && AsciiText(bytes) == before + "-" + digits + after
    ensures DecodeCursor(Some(cursor)) == if n > 0 then Err(InvalidCursor) else Ok(0)
  {
    var core := "-" + digits;
    assert before + "-" + digits + after == before + (core + after);
    TrimLeftSpace(before, core + after);
    TrimRightSpace(core, after);
    assert core[1..] == digits;
  }

  lemma NoSpaceAround(text: string, digits: string)
    requires text == "-" + digits
    ensures "" + "-" + digits + "" == text
  {
  }

  /** Such cursors exist for every negative number. */
  lemma NegativeCanBePrinted(offset: nat)
    requires offset > 0
    ensures DecodeCursor(Some(EncodeBytes(AsciiBytes("-" + Decimal(offset))))) == Err(InvalidCursor)
  {
    var text := "-" + Decimal(offset);
    AsciiRoundTrip(text);
    BytesRoundTrip(AsciiBytes(text));
    DigitsParse(offset);
    NoSpaceAround(text, Decimal(offset));
    NegativeIsRefused(EncodeBytes(AsciiBytes(text)), "", Decimal(offset), "", offset, AsciiBytes(text));
  }

  // ---- Which cursors are read at all.

  /** Digits, with single underscores between them. */
  ghost predicate IsNumeral(s: string) {
    && s != "" && s[0] != '_' && s[|s| - 1] != '_'
    && (forall i :: 0 <= i < |s| ==> '0' <= s[i] <= '9' || s[i] == '_')
    && (forall i, j :: 0 <= i < |s| && j == i + 1 < |s| ==> s[i] != '_' || s[j] != '_')
  }

  /** What it counts, underscores aside. */
  function ValueOf(s: string): nat {
    if s == "" then 0 else
      var front, c := ValueOf(s[..|s| - 1]), s[|s| - 1];
      if '0' <= c <= '9' then 10 * front + (c as int - '0' as int) else front
  }

  /** A string is read as digits exactly when it is a numeral, and then for its value. */
  lemma {:induction false} DigitsAreNumerals(s: string)
    ensures ParseDigits(s).Some? <==> IsNumeral(s)
    ensures ParseDigits(s).Some? ==> ParseDigits(s).value == ValueOf(s)
  {
    if s != "" && IsDigit(s[|s| - 1]) {
      var front := s[..|s| - 1];
      if front == "" {
        assert IsNumeral(s);
      } else if front[|front| - 1] == '_' {
        var shorter := front[..|front| - 1];
        DigitsAreNumerals(shorter);
        ShorterNumeral(s, shorter);
        assert ValueOf(front) == ValueOf(shorter);
      } else {
        DigitsAreNumerals(front);
        ShorterNumeral(s, front);
      }
    }
  }

  /** A last digit, with or without an underscore before it, is one digit more. */
  lemma ShorterNumeral(s: string, shorter: string)
    requires |s| >= 2 && IsDigit(s[|s| - 1])
    requires if s[|s| - 2] == '_' then shorter == s[..|s| - 2] else shorter == s[..|s| - 1]
    ensures IsNumeral(s) <==> IsNumeral(shorter)
  {
    var n := |shorter|;
    assert forall i :: 0 <= i < n ==> shorter[i] == s[i];
    assert s[n] == '_' || n == |s| - 1;
    if IsNumeral(s) {
      assert n > 0 && s[n - 1] != '_';
    }
  }

  /** The space characters of ASCII. */
  ghost predicate IsSpaces(s: string) {
    forall i :: 0 <= i < |s| ==> s[i] as int in {9, 10, 11, 12, 13, 28, 29, 30, 31, 32}
  }

  /** `text` spells the number `v`: a numeral, at most one sign right before it, and space
      around both. */
  ghost predicate Spells(text: string, v: int) {
    exists before, sign, digits, after :: SpelledAs(text, v, before, sign, digits, after)
  }

  ghost predicate SpelledAs(text: string, v: int, before: string, sign: string, digits: string, after: string) {
    && text == before + sign + digits + after
    && IsSpaces(before) && IsSpaces(after) && IsNumeral(digits)
    && (sign == "" || sign == "+" || sign == "-")
    && v == (if sign == "-" then 0 - ValueOf(digits) else ValueOf(digits))
  }

  lemma {:induction false} TrimLeftTakesSpace(s: string) returns (before: string)
    ensures IsSpaces(before) && s == before + TrimLeft(s)
    ensures TrimLeft(s) != "" ==> !IsAsciiSpace(TrimLeft(s)[0])
  {
    before := "";
    if s != "" && IsAsciiSpace(s[0]) {
      before := TrimLeftTakesSpace(s[1..]);
      before := [s[0]] + before;
    }
  }

  lemma {:induction false} TrimRightTakesSpace(s: string) returns (after: string)
    ensures IsSpaces(after) && s == TrimRight(s) + after
  {
    after := "";
    if s != "" && IsAsciiSpace(s[|s| - 1]) {
      after := TrimRightTakesSpace(s[..|s| - 1]);
      after := after + [s[|s| - 1]];
    }
  }

  /** `int` reads exactly what spells a number, for that number. */
  lemma IntReadsExactly(text: string, v: int)
    ensures ParseInt(text) == Some(v) <==> Spells(text, v)
  {
    if ParseInt(text) == Some(v) {
      ReadIsSpelled(text, v);
    }
    forall before, sign, digits, after | SpelledAs(text, v, before, sign, digits, after)
      ensures ParseInt(text) == Some(v)
    {
      SpelledIsRead(text, v, before, sign, digits, after);
    }
  }

  /** A sign and a numeral. */
  ghost predicate IsSigned(core: string, v: int, sign: string, digits: string) {
    && core == sign + digits && IsNumeral(digits)
    && (sign == "" || sign == "+" || sign == "-")
    && v == (if sign == "-" then 0 - ValueOf(digits) else ValueOf(digits))
  }

  lemma SignedIsSigned(core: string, v: int) returns (sign: string, digits: string)
    requires ParseSigned(core) == Some(v)
    ensures IsSigned(core, v, sign, digits)
  {
    sign := if core[0] == '-' then "-" else if core[0] == '+' then "+" else "";
    digits := core[|sign|..];
    DigitsAreNumerals(digits);
    assert core == sign + digits;
  }

  lemma SignedIsParsed(core: string, v: int, sign: string, digits: string)
    requires IsSigned(core, v, sign, digits)
    ensures ParseSigned(core) == Some(v) && !IsAsciiSpace(core[0]) && !IsAsciiSpace(core[|core| - 1])
  {
    DigitsAreNumerals(digits);
    assert core[|sign|..] == digits;
    assert core[|core| - 1] == digits[|digits| - 1];
  }

  lemma ReadIsSpelled(text: string, v: int)
    requires ParseInt(text) == Some(v)
    ensures Spells(text, v)
  {
    var before := TrimLeftTakesSpace(text);
    var after := TrimRightTakesSpace(TrimLeft(text));
    var sign, digits := SignedIsSigned(TrimRight(TrimLeft(text)), v);
    Regrouped(before, sign, digits, after);
    assert SpelledAs(text, v, before, sign, digits, after);
  }

  lemma Regrouped(before: string, sign: string, digits: string, after: string)
    ensures before + sign + digits + after == before + ((sign + digits) + after)
  {
  }

  lemma SpelledIsRead(text: string, v: int, before: string, sign: string, digits: string, after: string)
    requires SpelledAs(text, v, before, sign, digits, after)
    ensures ParseInt(text) == Some(v)
  {
    var core := sign + digits;
    Regrouped(before, sign, digits, after);
    SignedIsParsed(core, v, sign, digits);
    TrimLeftSpace(before, core + after);
    TrimRightSpace(core, after);
  }

  /** A cursor is read as an offset exactly when it decodes to ASCII text that spells it;
      every other cursor is refused. */
  lemma CursorIsReadExactly(cursor: string, offset: nat)
    ensures DecodeCursor(Some(cursor)) == Ok(offset) <==>
            exists bytes :: && DecodeBytes(cursor + Padding(Missing(|cursor|))) == Some(bytes)
                            && IsAscii(bytes) && Spells(AsciiText(bytes), offset)
    ensures DecodeCursor(Some(cursor)).Err? ==> DecodeCursor(Some(cursor)) == Err(InvalidCursor)
  {
    var decoded := DecodeBytes(cursor + Padding(Missing(|cursor|)));
    if decoded.Some? && IsAscii(decoded.value) {
      IntReadsExactly(AsciiText(decoded.value), offset);
    }
  }

  ghost predicate IsAlphabet(s: string) {
    forall i :: 0 <= i < |s| ==> SextetValue(s[i]).Some?
  }

  /** Letters of the alphabet fill the registers one by one, whatever comes after. */
  lemma {:induction false} AlphabetFills(s: string, q: Quad, tail: string) returns (q': Quad)
    requires IsAlphabet(s) && q.read < 4 && q.left < 64
    ensures q'.read == (q.read + |s|) % 4 && q'.left < 64
    ensures s != "" ==> (DecodeFrom(s + tail, q, 0).Some? <==> DecodeFrom(tail, q', 0).Some?)
    ensures s == "" ==> q' == q
  {
    q' := q;
    if s != "" {
      assert s[0] != '=';
      var next := Advance(q, SextetValue(s[0]).value);
      assert (s + tail)[1..] == s[1..] + tail;
      q' := AlphabetFills(s[1..], next, tail);
      assert s[1..] == "" ==> s[1..] + tail == tail;
    }
  }

  /** A cursor in the alphabet decodes to some bytes exactly unless its length is one more
      than a multiple of four. */
  lemma AlphabetDecodesExactly(cursor: string)
    requires IsAlphabet(cursor)
    ensures DecodeBytes(cursor + Padding(Missing(|cursor|))).Some? <==> |cursor| % 4 != 1
  {
    var pad := Padding(Missing(|cursor|));
    var q := AlphabetFills(cursor, Quad(0, 0), pad);
    PaddingCloses(q);
    assert cursor == "" ==> cursor + pad == pad;
  }

  lemma PaddingCloses(q: Quad)
    requires q.read < 4 && q.left < 64
    ensures DecodeFrom(Padding(Missing(q.read)), q, 0).Some? <==> q.read != 1
  {
    assert Padding(0) == "" && Padding(1) == "=" && Padding(2) == "==" && Padding(3) == "===";
    assert "==="[1..] == "==" && "=="[1..] == "=" && "="[1..] == "";
    if q.read == 1 {
      assert DecodeFrom("", q, 0) == None;
      assert DecodeFrom("=", q, 0) == None;
      assert DecodeFrom("==", q, 0) == None;
    } else if q.read == 2 {
      assert DecodeFrom("=", q, 1) == Some([]);
    }
  }

  /** Characters outside the alphabet, padding apart, make no difference. */
  lemma {:induction false} StrangersAreSkipped(s: string, q: Quad, pads: nat)
    requires q.read < 4 && q.left < 64
    ensures DecodeFrom(s, q, pads) == DecodeFrom(Known(s), q, pads)
  {
    if s != "" {
      var known := Known(s[1..]);
      assert ([s[0]] + known)[1..] == known && "" + known == known;
      StrangersAreSkipped(s[1..], q, pads);
      StrangersAreSkipped(s[1..], q, pads + 1);
      if SextetValue(s[0]).Some? {
        StrangersAreSkipped(s[1..], Advance(q, SextetValue(s[0]).value), 0);
      }
    }
  }

  function Known(s: string): string {
    if s == "" then "" else (if s[0] == '=' || SextetValue(s[0]).Some? then [s[0]] else "") + Known(s[1..])
  }
}
