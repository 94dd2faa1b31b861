/** What the bytes of a cursor are, three of them to four letters, as section 4 of RFC 4648
    counts them: twenty-four bits a group. */
module Base64 {
  import opened Outcomes
  import opened Cursor

  const CAPITALS := "ABCDEFGHIJKLMNOPQRSTUVWXYZ"
  const SMALL := "abcdefghijklmnopqrstuvwxyz"
  const ALPHABET := CAPITALS + SMALL + "0123456789-_"

  lemma Capitals(i: nat)
    requires i < 26
    ensures CAPITALS[i] as int == 'A' as int + i
  {
  }

  lemma Small(i: nat)
    requires i < 26
    ensures SMALL[i] as int == 'a' as int + i
  {
  }

  lemma LettersInTurn(v: nat)
    requires v < 64
    ensures Sextet(v) == ALPHABET[v]
  {
    if v < 26 {
      Capitals(v);
    } else if v < 52 {
      Small(v - 26);
    }
  }

  /** The decoder reads that alphabet, and the two letters of the other one. */
  lemma LettersExactly(c: char, v: nat)
    ensures SextetValue(c) == Some(v) <==>
            v < 64 && (c == ALPHABET[v] || (v == 62 && c == '+') || (v == 63 && c == '/'))
  {
    if v < 64 {
      LettersInTurn(v);
    }
  }

  // ---- Encoding.

  function ByteAt(s: Bytes, i: nat): Byte {
    if i < |s| then s[i] else 0
  }

  /** The bits of group `g`; missing bytes are zero. */
  function GroupBits(s: Bytes, g: nat): nat {
    ThreeBytes(ByteAt(s, 3 * g), ByteAt(s, 3 * g + 1), ByteAt(s, 3 * g + 2))
  }

  function ThreeBytes(a: nat, b: nat, c: nat): nat {
    a * 65536 + b * 256 + c
  }

  /** Six of the twenty-four, from the left. */
  function SixBits(bits: nat, k: nat): (r: nat)
    ensures r < 64
  {
    (if k % 4 == 0 then bits / 262144 else if k % 4 == 1 then bits / 4096 else if k % 4 == 2 then bits / 64 else bits) % 64
  }

  lemma BitsOfGroup(a: Byte, b: Byte, c: Byte)
    ensures var bits := a * 65536 + b * 256 + c;
            && bits / 262144 == a / 4 && bits / 4096 % 64 == a % 4 * 16 + b / 16
            && bits / 64 % 64 == b % 16 * 4 + c / 64 && bits % 64 == c % 64
  {
    var bits := a * 65536 + b * 256 + c;
    assert bits / 262144 == a / 4;
    assert bits / 4096 == a * 16 + b / 16;
    assert bits / 64 == a * 1024 + b * 4 + c / 64;
  }

  /** A cursor has six bits a letter, as many letters as the bytes need, and letter k is the
      one for the k-th six bits. */
  lemma {:induction false} EncodesInGroups(s: Bytes)
    ensures |EncodeBytes(s)| == (8 * |s| + 5) / 6
    ensures forall k :: 0 <= k < |EncodeBytes(s)| ==> IsLetter(s, k, EncodeBytes(s)[k])
  {
    forall k | 0 <= k < |EncodeBytes(s)| && k < 4
      ensures IsLetter(s, k, EncodeBytes(s)[k])
    {
      FirstGroup(s, k);
    }
    if |s| >= 3 {
      EncodesInGroups(s[3..]);
      forall k | 4 <= k < |EncodeBytes(s)|
        ensures IsLetter(s, k, EncodeBytes(s)[k])
      {
        assert EncodeBytes(s)[k] == EncodeBytes(s[3..])[k - 4];
        LaterLetter(s, k, EncodeBytes(s)[k]);
      }
    }
  }

  ghost predicate IsLetter(s: Bytes, k: nat, c: char) {
    c == ALPHABET[SixBits(GroupBits(s, k / 4), k)]
  }

  lemma LaterLetter(s: Bytes, k: nat, c: char)
    requires |s| >= 3 && k >= 4 && IsLetter(s[3..], k - 4, c)
    ensures IsLetter(s, k, c)
  {
    LaterGroup(s, k / 4);
    assert (k - 4) / 4 == k / 4 - 1 && (k - 4) % 4 == k % 4;
  }

  lemma LaterGroup(s: Bytes, g: nat)
    requires |s| >= 3 && g > 0
    ensures GroupBits(s, g) == GroupBits(s[3..], g - 1)
  {
  }

  lemma FirstGroup(s: Bytes, k: nat)
    requires k < |EncodeBytes(s)| && k < 4
    ensures IsLetter(s, k, EncodeBytes(s)[k])
  {
    var v := FirstSix(ByteAt(s, 0), ByteAt(s, 1), ByteAt(s, 2), k);
    FirstLetter(s, k, v);
    LettersInTurn(v);
    LetterFor(s, k, v, EncodeBytes(s)[k]);
  }

  lemma LetterFor(s: Bytes, k: nat, v: nat, c: char)
    requires k < 4 && v == SixBits(GroupBits(s, 0), k) && c == ALPHABET[v]
    ensures IsLetter(s, k, c)
  {
    assert k / 4 == 0;
  }

  lemma FirstSix(a: Byte, b: Byte, c: Byte, k: nat) returns (v: nat)
    requires k < 4
    ensures v == [a / 4, a % 4 * 16 + b / 16, b % 16 * 4 + c / 64, c % 64][k] == SixBits(ThreeBytes(a, b, c), k)
  {
    BitsOfGroup(a, b, c);
    v := SixBits(ThreeBytes(a, b, c), k);
  }

  lemma FirstLetter(s: Bytes, k: nat, v: nat)
    requires k < |EncodeBytes(s)| && k < 4 && v < 64
    requires var a, b, c := ByteAt(s, 0), ByteAt(s, 1), ByteAt(s, 2);
             v == [a / 4, a % 4 * 16 + b / 16, b % 16 * 4 + c / 64, c % 64][k]
    ensures EncodeBytes(s)[k] == Sextet(v)
  {
  }

  // ---- Decoding.

  function LetterAt(s: string, k: nat): (r: nat)
    ensures r < 64
  {
    if k < |s| && SextetValue(s[k]).Some? then SextetValue(s[k]).value else 0
  }

  /** The bits of the g-th four letters; missing letters are zero. */
  function LetterBits(s: string, g: nat): nat {
    LetterAt(s, 4 * g) * 262144 + LetterAt(s, 4 * g + 1) * 4096 + LetterAt(s, 4 * g + 2) * 64 + LetterAt(s, 4 * g + 3)
  }

  lemma DecodeLetter(c: char, rest: string, q: Quad)
    requires SextetValue(c).Some? && q.read < 4 && q.left < 64
    ensures var v := SextetValue(c).value;
            DecodeFrom([c] + rest, q, 0) == Prepend(Written(q, v), DecodeFrom(rest, Advance(q, v), 0))
  {
    assert ([c] + rest)[1..] == rest;
    assert c != '=';
  }

  /** The registers after two, three and four letters. */
  lemma DecodeTwoLetters(c: char, d: char, rest: string)
    requires SextetValue(c).Some? && SextetValue(d).Some?
    ensures var q := Quad(1, SextetValue(c).value); var y := SextetValue(d).value;
            DecodeBytes([c] + ([d] + rest)) == Prepend(Written(q, y), DecodeFrom(rest, Advance(q, y), 0))
  {
    var q := Quad(1, SextetValue(c).value);
    var y := SextetValue(d).value;
    DecodeLetter(c, [d] + rest, Quad(0, 0));
    DecodeLetter(d, rest, q);
    PrependTwice([], Written(q, y), DecodeFrom(rest, Advance(q, y), 0));
    assert [] + Written(q, y) == Written(q, y);
  }

  lemma DecodeThreeLetters(c: char, d: char, e: char, rest: string)
    requires SextetValue(c).Some? && SextetValue(d).Some? && SextetValue(e).Some?
    ensures var q1, y, z := Quad(1, SextetValue(c).value), SextetValue(d).value, SextetValue(e).value;
            var q2 := Advance(q1, y);
            DecodeBytes([c] + ([d] + ([e] + rest))) ==
            Prepend(Written(q1, y) + Written(q2, z), DecodeFrom(rest, Advance(q2, z), 0))
  {
    var q1, y, z := Quad(1, SextetValue(c).value), SextetValue(d).value, SextetValue(e).value;
    var q2 := Advance(q1, y);
    DecodeTwoLetters(c, d, [e] + rest);
    DecodeLetter(e, rest, q2);
    PrependTwice(Written(q1, y), Written(q2, z), DecodeFrom(rest, Advance(q2, z), 0));
  }

  lemma DecodeFourLetters(c: char, d: char, e: char, f: char, rest: string)
    requires SextetValue(c).Some? && SextetValue(d).Some? && SextetValue(e).Some? && SextetValue(f).Some?
    ensures var q1, y, z, w := Quad(1, SextetValue(c).value), SextetValue(d).value, SextetValue(e).value, SextetValue(f).value;
            var q2 := Advance(q1, y); var q3 := Advance(q2, z);
            DecodeBytes([c] + ([d] + ([e] + ([f] + rest)))) ==
            Prepend(Written(q1, y) + Written(q2, z) + Written(q3, w), DecodeFrom(rest, Advance(q3, w), 0))
  {
    var q1, y, z, w := Quad(1, SextetValue(c).value), SextetValue(d).value, SextetValue(e).value, SextetValue(f).value;
    var q2 := Advance(q1, y);
    var q3 := Advance(q2, z);
    DecodeThreeLetters(c, d, e, [f] + rest);
    DecodeLetter(f, rest, q3);
    PrependTwice(Written(q1, y) + Written(q2, z), Written(q3, w), DecodeFrom(rest, Advance(q3, w), 0));
  }

  /** The bytes of a group against its letters: the same bits, but for those of the letters
      that no byte is left to hold. */
  ghost predicate SameBits(s: string, bytes: Bytes, g: nat) {
    var left := if 3 * g + 3 <= |bytes| then 1 else if 3 * g + 2 == |bytes| then 256 else 65536;
    GroupBits(bytes, g) <= LetterBits(s, g) < GroupBits(bytes, g) + left
  }

  /** `bytes` are the whole bytes among the bits of the letters. */
  ghost predicate AreBytesOf(s: string, bytes: Bytes) {
    |bytes| == 6 * |s| / 8 && forall g :: 0 <= 3 * g < |bytes| ==> SameBits(s, bytes, g)
  }

  /** What one more letter writes, and leaves. */
  lemma WrittenBits(q: Quad, v: nat) returns (byte: Byte, left: nat)
    requires 1 <= q.read < 4 && v < 64 && q.left < (if q.read == 1 then 64 else if q.read == 2 then 16 else 4)
    ensures Written(q, v) == [byte] && Advance(q, v) == Quad((q.read + 1) % 4, left)
    ensures q.left * 64 + v == (if q.read == 1 then byte * 16 else if q.read == 2 then byte * 4 else byte) + left
    ensures left < if q.read == 1 then 16 else if q.read == 2 then 4 else 1
  {
    byte, left := Written(q, v)[0], Advance(q, v).left;
  }

  lemma DecodeFirstBytes(s: string, rest: string) returns (a: Byte, b: Byte, c: Byte)
    requires |s| >= 4 && IsAlphabet(s)
    ensures ThreeBytes(a, b, c) == LetterBits(s, 0)
    ensures DecodeBytes(s[..4] + rest) == Prepend([a, b, c], DecodeBytes(rest))
  {
    assert s[..4] + rest == [s[0]] + ([s[1]] + ([s[2]] + ([s[3]] + rest)));
    DecodeFourLetters(s[0], s[1], s[2], s[3], rest);
    var l, m, n;
    a, l := WrittenBits(Quad(1, LetterAt(s, 0)), LetterAt(s, 1));
    b, m := WrittenBits(Quad(2, l), LetterAt(s, 2));
    c, n := WrittenBits(Quad(3, m), LetterAt(s, 3));
    assert [a] + [b] + [c] == [a, b, c];
  }

  /** A cursor in the alphabet, unless one letter is left over, decodes to its whole bytes;
      bits left over are dropped, whatever they are. */
  lemma {:induction false} DecodesInGroups(cursor: string) returns (bytes: Bytes)
    requires IsAlphabet(cursor) && |cursor| % 4 != 1
    ensures DecodeBytes(cursor + Padding(Missing(|cursor|))) == Some(bytes) && AreBytesOf(cursor, bytes)
  {
    if |cursor| < 4 {
      bytes := LastLetters(cursor);
    } else {
      var tail := cursor[4..];
      var more := DecodesInGroups(tail);
      assert Missing(|cursor|) == Missing(|tail|);
      assert cursor + Padding(Missing(|cursor|)) == cursor[..4] + (tail + Padding(Missing(|tail|)));
      var a, b, c := DecodeFirstBytes(cursor, tail + Padding(Missing(|tail|)));
      bytes := [a, b, c] + more;
      MoreBytes(cursor, a, b, c, more);
    }
  }

  lemma MoreBytes(s: string, a: Byte, b: Byte, c: Byte, more: Bytes)
    requires |s| >= 4 && AreBytesOf(s[4..], more) && ThreeBytes(a, b, c) == LetterBits(s, 0)
    ensures AreBytesOf(s, [a, b, c] + more)
  {
    var bytes := [a, b, c] + more;
    forall g | 0 <= 3 * g < |bytes|
      ensures SameBits(s, bytes, g)
    {
      if g > 0 {
        assert bytes[3..] == more;
        LaterGroup(bytes, g);
        LaterLetters(s, g);
        assert SameBits(s[4..], more, g - 1);
      }
    }
  }

  lemma LaterLetters(s: string, g: nat)
    requires |s| >= 4 && g > 0
    ensures LetterBits(s, g) == LetterBits(s[4..], g - 1)
  {
  }

  lemma LastLetters(s: string) returns (bytes: Bytes)
    requires IsAlphabet(s) && |s| < 4 && |s| != 1
    ensures DecodeBytes(s + Padding(Missing(|s|))) == Some(bytes) && AreBytesOf(s, bytes)
  {
    if |s| == 0 {
      bytes := [];
      assert s + Padding(0) == "";
    } else if |s| == 2 {
      bytes := LastTwoLetters(s);
    } else {
      bytes := LastThreeLetters(s);
    }
  }

  lemma LastTwoLetters(s: string) returns (bytes: Bytes)
    requires IsAlphabet(s) && |s| == 2
    ensures DecodeBytes(s + Padding(2)) == Some(bytes) && AreBytesOf(s, bytes)
  {
    var a, l := WrittenBits(Quad(1, LetterAt(s, 0)), LetterAt(s, 1));
    bytes := [a];
    assert s + "==" == [s[0]] + ([s[1]] + "==");
    DecodeTwoLetters(s[0], s[1], "==");
    PairEnds(Quad(2, l));
    assert bytes + [] == bytes;
  }

  lemma PairEnds(q: Quad)
    requires q.read == 2 && q.left < 64
    ensures DecodeFrom("==", q, 0) == Some([]) && Padding(2) == "=="
  {
    assert Padding(1) == "=" && "=="[1..] == "=";
    assert DecodeFrom("=", q, 1) == Some([]);
  }

  lemma LastThreeLetters(s: string) returns (bytes: Bytes)
    requires IsAlphabet(s) && |s| == 3
    ensures DecodeBytes(s + Padding(1)) == Some(bytes) && AreBytesOf(s, bytes)
  {
    var a, l := WrittenBits(Quad(1, LetterAt(s, 0)), LetterAt(s, 1));
    var b, m := WrittenBits(Quad(2, l), LetterAt(s, 2));
    bytes := [a, b];
    assert s + "=" == [s[0]] + ([s[1]] + ([s[2]] + "="));
    DecodeThreeLetters(s[0], s[1], s[2], "=");
    PaddingEnds(Quad(3, m));
    assert Padding(1) == "=" && [a] + [b] + [] == bytes;
    TwoBytesOf(s, a, b, l, m);
  }

  lemma TwoBytesOf(s: string, a: Byte, b: Byte, l: nat, m: nat)
    requires |s| == 3 && m < 4
    requires LetterAt(s, 0) * 64 + LetterAt(s, 1) == a * 16 + l && l * 64 + LetterAt(s, 2) == b * 4 + m
    ensures AreBytesOf(s, [a, b])
  {
    assert forall g :: 0 <= 3 * g < 2 ==> g == 0;
    assert SameBits(s, [a, b], 0);
  }
}
