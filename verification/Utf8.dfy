/** Bytes, and well-formed byte strings by the grammar in section 4 of RFC 3629. */
module Utf8 {
  type Byte = x: int | 0 <= x < 256

  predicate Tail(b: Byte) { 0x80 <= b <= 0xBF }

  // utf8.RuneStart: the byte is not a continuation byte.
  predicate RuneStart(b: Byte) { !Tail(b) }

  // Length of the character at the front of s, or 0 when there is none.
  function CharLen(s: seq<Byte>): (n: nat)
    ensures n <= |s|
    ensures n > 0 ==> RuneStart(s[0]) && forall i :: 0 < i < n ==> Tail(s[i])
  {
    if |s| >= 1 && s[0] <= 0x7F then 1
    else if |s| >= 2 && 0xC2 <= s[0] <= 0xDF && Tail(s[1]) then 2
    else if |s| >= 3 && Lead3(s[0], s[1]) && Tail(s[2]) then 3
    else if |s| >= 4 && Lead4(s[0], s[1]) && Tail(s[2]) && Tail(s[3]) then 4
    else 0
  }

  predicate Lead3(a: Byte, b: Byte) {
    || (a == 0xE0 && 0xA0 <= b <= 0xBF)
    || (0xE1 <= a <= 0xEC && Tail(b))
    || (a == 0xED && 0x80 <= b <= 0x9F)
    || (0xEE <= a <= 0xEF && Tail(b))
  }

  predicate Lead4(a: Byte, b: Byte) {
    || (a == 0xF0 && 0x90 <= b <= 0xBF)
    || (0xF1 <= a <= 0xF3 && Tail(b))
    || (a == 0xF4 && 0x80 <= b <= 0x8F)
  }

  predicate WellFormed(s: seq<Byte>) {
    s == [] || (CharLen(s) > 0 && WellFormed(s[CharLen(s)..]))
  }

  lemma {:induction false} WellFormedConcat(a: seq<Byte>, b: seq<Byte>)
    requires WellFormed(a) && WellFormed(b)
    ensures WellFormed(a + b)
  {
    if a == [] {
      assert a + b == b;
    } else {
      var n := CharLen(a);
      assert CharLen(a + b) == n;
      assert (a + b)[n..] == a[n..] + b;
      WellFormedConcat(a[n..], b);
    }
  }

  // The encoding of a character, section 3 of RFC 3629.
  function Encode(c: char): seq<Byte> {
    var n := c as int;
    if n < 0x80 then [n]
    else if n < 0x800 then [0xC0 + n / 0x40, 0x80 + n % 0x40]
    else if n < 0x10000 then [0xE0 + n / 0x1000, 0x80 + n / 0x40 % 0x40, 0x80 + n % 0x40]
    else [0xF0 + n / 0x40000, 0x80 + n / 0x1000 % 0x40, 0x80 + n / 0x40 % 0x40, 0x80 + n % 0x40]
  }

  function EncodeAll(s: string): seq<Byte> {
    if s == "" then [] else EncodeAll(s[..|s| - 1]) + Encode(s[|s| - 1])
  }

  lemma {:induction false} EncodeWellFormed(c: char)
    ensures CharLen(Encode(c)) == |Encode(c)| && WellFormed(Encode(c))
  {
    var n := c as int;
    assert n < 0xD800 || 0xE000 <= n < 0x110000;
    if n < 0x80 {
    } else if n < 0x800 {
      assert 0xC2 <= Encode(c)[0] <= 0xDF && Tail(Encode(c)[1]);
    } else if n < 0x10000 {
      ThreeBytes(n);
    } else {
      FourBytes(n);
    }
    assert Encode(c)[|Encode(c)|..] == [];
  }

  lemma {:induction false} ThreeBytes(n: int)
    requires 0x800 <= n < 0xD800 || 0xE000 <= n < 0x10000
    ensures Lead3(0xE0 + n / 0x1000, 0x80 + n / 0x40 % 0x40) && Tail(0x80 + n % 0x40)
  {
    assert n / 0x40 % 0x40 == n / 0x40 - 0x40 * (n / 0x1000);
  }

  lemma {:induction false} FourBytes(n: int)
    requires 0x10000 <= n < 0x110000
    ensures Lead4(0xF0 + n / 0x40000, 0x80 + n / 0x1000 % 0x40)
    ensures Tail(0x80 + n / 0x40 % 0x40) && Tail(0x80 + n % 0x40)
  {
    assert n / 0x1000 % 0x40 == n / 0x1000 - 0x40 * (n / 0x40000);
  }
}
