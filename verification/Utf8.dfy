/** UTF-8 as sections 3 and 4 of RFC 3629 lay it out, against the widths that paging counts. */
module Utf8 {
  import opened Outcomes
  import Paging

  /** The bytes of a character. */
  function Encode(c: char): (r: seq<nat>)
    ensures forall i :: 0 <= i < |r| ==> r[i] < 256
  {
    var code := c as int;
    if code < 0x80 then [code]
    else if code < 0x800 then [0xC0 + code / 64, Tail(code)]
    else if code < 0x10000 then [0xE0 + code / 4096, Tail(code / 64), Tail(code)]
    else [0xF0 + code / 262144, Tail(code / 4096), Tail(code / 64), Tail(code)]
  }

  /** A continuation byte: the last six bits of `code`. */
  function Tail(code: nat): nat {
    0x80 + code % 64
  }

  function EncodeAll(s: string): seq<nat> {
    if s == "" then [] else EncodeAll(s[..|s| - 1]) + Encode(s[|s| - 1])
  }

  /** The code point at the head of `bytes`: the lead byte says how many more there are. */
  function DecodeFirst(bytes: seq<nat>): Option<nat> {
    if bytes == [] then None
    else if bytes[0] < 0x80 then Some(bytes[0])
    else if 0xC0 <= bytes[0] < 0xE0 && |bytes| >= 2 then Some((bytes[0] - 0xC0) * 64 + bytes[1] % 64)
    else if 0xE0 <= bytes[0] < 0xF0 && |bytes| >= 3 then
      Some((bytes[0] - 0xE0) * 4096 + bytes[1] % 64 * 64 + bytes[2] % 64)
    else if 0xF0 <= bytes[0] && |bytes| >= 4 then
      Some((bytes[0] - 0xF0) * 262144 + bytes[1] % 64 * 4096 + bytes[2] % 64 * 64 + bytes[3] % 64)
    else None
  }

  /** An encoded character reads back, whatever follows; its width is the one counted. */
  lemma EncodedReadsBack(c: char, rest: seq<nat>)
    ensures DecodeFirst(Encode(c) + rest) == Some(c as int)
    ensures |Encode(c)| == Paging.Width(c)
  {
    var code := c as int;
    Sextets(code);
    if code >= 0x10000 {
      FourBytes(code, rest);
    } else if code >= 0x800 {
      ThreeBytes(code, rest);
    }
  }

  lemma Sextets(code: nat)
    ensures code == code / 64 * 64 + code % 64
    ensures code == code / 4096 * 4096 + code / 64 % 64 * 64 + code % 64
    ensures code == code / 262144 * 262144 + code / 4096 % 64 * 4096 + code / 64 % 64 * 64 + code % 64
    ensures Tail(code) % 64 == code % 64
  {
  }

  lemma ThreeBytes(code: nat, rest: seq<nat>)
    requires 0x800 <= code < 0x10000
    ensures DecodeFirst([0xE0 + code / 4096, Tail(code / 64), Tail(code)] + rest) == Some(code)
  {
    Sextets(code);
    Sextets(code / 64);
  }

  lemma FourBytes(code: nat, rest: seq<nat>)
    requires 0x10000 <= code < 0x110000
    ensures DecodeFirst([0xF0 + code / 262144, Tail(code / 4096), Tail(code / 64), Tail(code)] + rest) == Some(code)
  {
    Sextets(code);
    Sextets(code / 64);
    Sextets(code / 4096);
  }

  /** The encoded length that the byte ceiling is held against is the length of the encoding. */
  lemma {:induction false} LengthIsCounted(s: string)
    ensures |EncodeAll(s)| == Paging.EncodedLength(s)
  {
    if s != "" {
      LengthIsCounted(s[..|s| - 1]);
      EncodedReadsBack(s[|s| - 1], []);
    }
  }
}
