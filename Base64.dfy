/**
  Base64 as the report travels by e-mail: the browser encodes the PDF bytes
  with `btoa(String.fromCharCode(...bytes))`, which is the encoding of
  section 4 of RFC 4648 with `=` padding, and the server decodes the text
  with `Buffer.from(text, 'base64')`, Node's lenient decoder.
 */
module Base64 {

  import opened Wrappers

  newtype byte = x: int | 0 <= x < 256

  // ---------------------------------------------------------------- encode

  /** The character of the RFC 4648 alphabet for a six-bit value. */
  function Letter(v: nat): (c: char)
    requires v < 64
  {
    if v < 26 then ('A' as int + v) as char
    else if v < 52 then ('a' as int + v - 26) as char
    else if v < 62 then ('0' as int + v - 52) as char
    else if v == 62 then '+'
    else '/'
  }

  predicate Sixbit(vs: seq<nat>) {
    forall i :: 0 <= i < |vs| ==> vs[i] < 64
  }

  /** Three bytes as four six-bit values, most significant bits first. */
  function SplitGroup(b0: byte, b1: byte, b2: byte): (vs: seq<nat>)
    ensures |vs| == 4 && Sixbit(vs)
  {
    [b0 as int / 4, b0 as int % 4 * 16 + b1 as int / 16, b1 as int % 16 * 4 + b2 as int / 64, b2 as int % 64]
  }

  /**
    The six-bit groups of the bytes: four for every three bytes, and a last
    group of one or two bytes filled out with zero bits and cut to two or
    three values.
   */
  function Sextets(bs: seq<byte>): (vs: seq<nat>)
    ensures Sixbit(vs)
    ensures |vs| == |bs| / 3 * 4 + (if |bs| % 3 == 0 then 0 else |bs| % 3 + 1)
  {
    if |bs| == 0 then []
    else if |bs| == 1 then SplitGroup(bs[0], 0, 0)[..2]
    else if |bs| == 2 then SplitGroup(bs[0], bs[1], 0)[..3]
    else SplitGroup(bs[0], bs[1], bs[2]) + Sextets(bs[3..])
  }

  function Spell(vs: seq<nat>): (s: string)
    requires Sixbit(vs)
    ensures |s| == |vs|
  {
    if vs == [] then "" else [Letter(vs[0])] + Spell(vs[1..])
  }

  /** The `=` signs that fill the last group out to four characters. */
  function Padding(n: nat): (pad: string)
    ensures pad == "" || pad[0] == '='
  {
    if n % 3 == 1 then "==" else if n % 3 == 2 then "=" else ""
  }

  /**
    `btoa` of the bytes read as Latin-1 characters: the alphabet letters of
    the six-bit groups, padded with `=` to a multiple of four characters.
   */
  function Encode(bs: seq<byte>): (s: string)
    ensures |s| == 4 * ((|bs| + 2) / 3)
  {
    Spell(Sextets(bs)) + Padding(|bs|)
  }

  // ---------------------------------------------------------------- decode

  /**
    The six-bit value of a character the decoder accepts: the RFC 4648
    alphabet and also the URL-safe one of RFC 4648 section 5 (`-` and `_`).
   */
  function SextetOf(c: char): (r: Option<nat>)
    ensures r.Some? ==> r.value < 64
  {
    if 'A' <= c <= 'Z' then Some(c as int - 'A' as int)
    else if 'a' <= c <= 'z' then Some(c as int - 'a' as int + 26)
    else if '0' <= c <= '9' then Some(c as int - '0' as int + 52)
    else if c == '+' || c == '-' then Some(62)
    else if c == '/' || c == '_' then Some(63)
    else None
  }

  /**
    The values the decoder reads: it stops at the first `=` and skips every
    character outside the alphabets (line breaks, spaces, stray symbols).
   */
  function ReadSextets(s: string): (vs: seq<nat>)
    ensures Sixbit(vs)
  {
    if s == [] || s[0] == '=' then []
    else match SextetOf(s[0])
      case None => ReadSextets(s[1..])
      case Some(v) => [v] + ReadSextets(s[1..])
  }

  /** Four six-bit values as three bytes. */
  function JoinGroup(v0: nat, v1: nat, v2: nat, v3: nat): (bs: seq<byte>)
    requires v0 < 64 && v1 < 64 && v2 < 64 && v3 < 64
    ensures |bs| == 3
  {
    [(v0 * 4 + v1 / 16) as byte, (v1 % 16 * 16 + v2 / 4) as byte, (v2 % 4 * 64 + v3) as byte]
  }

  /**
    Four values give three bytes; a last group of three or two values gives
    the first two or one of the bytes it would give filled out with zero
    bits, and a single left-over value gives none.
   */
  function Bytes(vs: seq<nat>): seq<byte>
    requires Sixbit(vs)
  {
    if |vs| >= 4 then JoinGroup(vs[0], vs[1], vs[2], vs[3]) + Bytes(vs[4..])
    else if |vs| == 3 then JoinGroup(vs[0], vs[1], vs[2], 0)[..2]
    else if |vs| == 2 then JoinGroup(vs[0], vs[1], 0, 0)[..1]
    else []
  }

  /** `Buffer.from(text, 'base64')`. */
  function Decode(s: string): seq<byte> {
    Bytes(ReadSextets(s))
  }

  // ---------------------------------------------------------------- round trip

  lemma LetterSextet(v: nat)
    requires v < 64
    ensures SextetOf(Letter(v)) == Some(v)
  {
  }

  /** The decoder reads back every letter the encoder wrote and stops at the padding. */
  lemma {:induction false} ReadSpell(vs: seq<nat>, pad: string)
    requires Sixbit(vs)
    requires pad == "" || pad[0] == '='
    ensures ReadSextets(Spell(vs) + pad) == vs
  {
    if vs == [] {
      assert Spell(vs) + pad == pad;
    } else {
      LetterSextet(vs[0]);
      ReadSpell(vs[1..], pad);
      assert (Spell(vs) + pad)[1..] == Spell(vs[1..]) + pad;
    }
  }

  /** Regrouping the six-bit values into bytes gives the bytes back. */
  lemma {:induction false} BytesOfSextets(bs: seq<byte>)
    ensures Bytes(Sextets(bs)) == bs
  {
    if |bs| >= 3 {
      var g := SplitGroup(bs[0], bs[1], bs[2]);
      var vs := Sextets(bs);
      BytesOfSextets(bs[3..]);
      GroupRoundTrip(bs[0], bs[1], bs[2]);
      assert vs[..4] == g && vs[4..] == Sextets(bs[3..]);
      assert bs == [bs[0], bs[1], bs[2]] + bs[3..];
    } else if |bs| == 2 {
      GroupRoundTrip(bs[0], bs[1], 0);
    } else if |bs| == 1 {
      GroupRoundTrip(bs[0], 0, 0);
    }
  }

  lemma GroupRoundTrip(b0: byte, b1: byte, b2: byte)
    ensures var g := SplitGroup(b0, b1, b2);
      JoinGroup(g[0], g[1], g[2], g[3]) == [b0, b1, b2]
    ensures b2 == 0 ==> SplitGroup(b0, b1, b2)[3] == 0
    ensures b1 == 0 && b2 == 0 ==> SplitGroup(b0, b1, b2)[2] == 0
  {
    GroupOfThree(b0 as int, b1 as int, b2 as int);
  }

  lemma GroupOfThree(b0: int, b1: int, b2: int)
    requires 0 <= b0 < 256 && 0 <= b1 < 256 && 0 <= b2 < 256
    ensures (b0 / 4) * 4 + (b0 % 4 * 16 + b1 / 16) / 16 == b0
    ensures (b0 % 4 * 16 + b1 / 16) % 16 * 16 + (b1 % 16 * 4 + b2 / 64) / 4 == b1
    ensures (b1 % 16 * 4 + b2 / 64) % 4 * 64 + b2 % 64 == b2
  {
  }

  /** The server decodes exactly the bytes the browser encoded. */
  lemma DecodeEncode(bs: seq<byte>)
    ensures Decode(Encode(bs)) == bs
  {
    ReadSpell(Sextets(bs), Padding(|bs|));
    BytesOfSextets(bs);
  }

  /** Only the empty byte sequence encodes to the empty text. */
  lemma EncodeEmpty(bs: seq<byte>)
    ensures Encode(bs) == "" <==> bs == []
  {
  }
}
