/** Which byte sequences are UTF-8 text, as in section 4 of RFC 3629. */
module Utf8 {
  import opened Bytes

  predicate IsTail(c: byte) { 0x80 <= c <= 0xBF }

  // The length of the character at the front (table 3-7 of the Unicode standard); 0 when there is none.
  function CharLength(b: seq<byte>): (n: nat)
    requires b != []
    ensures n <= |b|
  {
    var c := b[0];
    if c < 0x80 then 1
    else if |b| >= 2 && 0xC2 <= c <= 0xDF && IsTail(b[1]) then 2
    else if |b| >= 3 && IsTail(b[1]) && IsTail(b[2]) && 0xE0 <= c <= 0xEF
            && (c == 0xE0 ==> 0xA0 <= b[1]) && (c == 0xED ==> b[1] <= 0x9F) then 3
    else if |b| >= 4 && IsTail(b[1]) && IsTail(b[2]) && IsTail(b[3]) && 0xF0 <= c <= 0xF4
            && (c == 0xF0 ==> 0x90 <= b[1]) && (c == 0xF4 ==> b[1] <= 0x8F) then 4
    else 0
  }

  predicate IsUtf8(b: seq<byte>)
    decreases |b|
  {
    b == [] || (CharLength(b) > 0 && IsUtf8(b[CharLength(b)..]))
  }

  lemma {:induction false} AsciiIsUtf8(b: seq<byte>)
    requires forall i :: 0 <= i < |b| ==> b[i] < 0x80
    ensures IsUtf8(b)
  {
    if b != [] {
      AsciiIsUtf8(b[1..]);
    }
  }

  // ---- the encoder of section 3 of RFC 3629 ----

  type scalar = c: nat | c < 0xD800 || 0xE000 <= c < 0x11_0000

  function Tail(n: nat): byte { 0x80 + n % 0x40 }

  function Encode(c: scalar): (b: seq<byte>)
    ensures b != []
  {
    if c < 0x80 then [c]
    else if c < 0x800 then [0xC0 + c / 0x40, Tail(c)]
    else if c < 0x1_0000 then [0xE0 + c / 0x1000, Tail(c / 0x40), Tail(c)]
    else [0xF0 + c / 0x4_0000, Tail(c / 0x1000), Tail(c / 0x40), Tail(c)]
  }

  function EncodeAll(chars: seq<scalar>): seq<byte> {
    if chars == [] then [] else Encode(chars[0]) + EncodeAll(chars[1..])
  }

  // The bits of a character, six at a time from the lowest.
  lemma SixBits(c: nat)
    returns (x0: nat, x1: nat, x2: nat, x3: nat)
    ensures x0 < 0x40 && x1 < 0x40 && x2 < 0x40 && c == x0 + 0x40 * x1 + 0x1000 * x2 + 0x4_0000 * x3
    ensures Tail(c) == 0x80 + x0 && Tail(c / 0x40) == 0x80 + x1 && Tail(c / 0x1000) == 0x80 + x2
    ensures c / 0x40 == x1 + 0x40 * x2 + 0x1000 * x3 && c / 0x1000 == x2 + 0x40 * x3 && c / 0x4_0000 == x3
  {
    x0, x1, x2, x3 := c % 0x40, c / 0x40 % 0x40, c / 0x1000 % 0x40, c / 0x4_0000;
    assert c / 0x40 / 0x40 == c / 0x1000 && c / 0x1000 / 0x40 == c / 0x4_0000;
  }

  lemma EncodedIsChar(c: scalar, rest: seq<byte>)
    ensures CharLength(Encode(c) + rest) == |Encode(c)|
  {
    var x0, x1, x2, x3 := SixBits(c);
  }

  lemma TwoBytes(a: nat, x: nat) returns (c: scalar)
    requires 2 <= a < 0x20 && x < 0x40
    ensures Encode(c) == [0xC0 + a, 0x80 + x]
  {
    c := 0x40 * a + x;
  }

  lemma ThreeBytes(a: nat, y: nat, x: nat) returns (c: scalar)
    requires a < 0x10 && y < 0x40 && x < 0x40 && (a == 0 ==> 0x20 <= y) && (a == 0xD ==> y < 0x20)
    ensures Encode(c) == [0xE0 + a, 0x80 + y, 0x80 + x]
  {
    c := 0x1000 * a + 0x40 * y + x;
    assert c / 0x40 == 0x40 * a + y && c / 0x1000 == a;
  }

  lemma FourBytes(a: nat, z: nat, y: nat, x: nat) returns (c: scalar)
    requires a <= 4 && z < 0x40 && y < 0x40 && x < 0x40 && (a == 0 ==> 0x10 <= z) && (a == 4 ==> z < 0x10)
    ensures Encode(c) == [0xF0 + a, 0x80 + z, 0x80 + y, 0x80 + x]
  {
    c := 0x4_0000 * a + 0x1000 * z + 0x40 * y + x;
    assert c / 0x40 == 0x1000 * a + 0x40 * z + y && c / 0x1000 == 0x40 * a + z && c / 0x4_0000 == a;
  }

  lemma CharIsEncoded(b: seq<byte>) returns (c: scalar)
    requires b != [] && CharLength(b) > 0
    ensures Encode(c) == b[..CharLength(b)]
  {
    match CharLength(b)
    case 1 => c := b[0];
    case 2 => c := TwoBytes(b[0] - 0xC0, b[1] - 0x80);
    case 3 => c := ThreeBytes(b[0] - 0xE0, b[1] - 0x80, b[2] - 0x80);
    case _ => c := FourBytes(b[0] - 0xF0, b[1] - 0x80, b[2] - 0x80, b[3] - 0x80);
  }

  lemma {:induction false} EncodedIsUtf8(chars: seq<scalar>)
    ensures IsUtf8(EncodeAll(chars))
  {
    if chars != [] {
      var b, rest := EncodeAll(chars), EncodeAll(chars[1..]);
      EncodedIsChar(chars[0], rest);
      EncodedIsUtf8(chars[1..]);
      assert b[CharLength(b)..] == rest;
    }
  }

  lemma {:induction false} Utf8IsEncoded(b: seq<byte>) returns (chars: seq<scalar>)
    requires IsUtf8(b)
    ensures EncodeAll(chars) == b
    decreases |b|
  {
    chars := [];
    if b != [] {
      var c := CharIsEncoded(b);
      var rest := Utf8IsEncoded(b[CharLength(b)..]);
      chars := [c] + rest;
      assert chars[1..] == rest;
    }
  }

  // Text is exactly what the encoder writes.
  lemma Utf8IsWhatIsEncoded(b: seq<byte>)
    ensures IsUtf8(b) <==> exists chars :: EncodeAll(chars) == b
  {
    if IsUtf8(b) {
      var chars := Utf8IsEncoded(b);
    }
    if chars :| EncodeAll(chars) == b {
      EncodedIsUtf8(chars);
    }
  }
}
