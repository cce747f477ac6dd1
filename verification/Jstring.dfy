/** Modified UTF-8 as libcutils/strdup16to8.c writes it and libcutils/strdup8to16.c reads it (section 4.4.7
    of the Java Virtual Machine Specification). Strings of bytes are C strings without their terminator;
    shifts and masks are written as quotients and remainders. */
module Jstring {
  import opened Bytes

  type unit16 = x: int | 0 <= x < 0x1_0000

  const REPLACEMENT: unit16 := 0xfffd
  const UPPER_LIMIT: nat := 0x10fffd

  // ----- Encoding

  /** One unit of strncpy16to8; zero takes two bytes. */
  function EncodeUnit(u: unit16): (s: seq<byte>)
    ensures 1 <= |s| <= 3
  {
    if u > 0x7ff then [0xe0 + u / 0x1000, 0x80 + u / 0x40 % 0x40, 0x80 + u % 0x40]
    else if u > 0x7f || u == 0 then [0xc0 + u / 0x40, 0x80 + u % 0x40]
    else [u]
  }

  function Encode(us: seq<unit16>): seq<byte> {
    if us == [] then [] else Encode(us[..|us| - 1]) + EncodeUnit(us[|us| - 1])
  }

  // ----- Decoding

  predicate IsExtension(b: byte) { b / 0x40 == 2 }

  function Power4(n: nat): nat
    ensures Power4(n) > 0
  {
    if n == 0 then 1 else 4 * Power4(n - 1)
  }

  /** UTF8_SEQ_LENGTH: two bits out of a table in one word, picked by the high half of the byte. */
  function SeqLength(b: byte): nat { 0xe500_0000 / Power4(b / 16) % 4 + 1 }

  lemma SeqLengthIs(b: byte)
    ensures SeqLength(b) == if b < 0xc0 then 1 else if b < 0xe0 then 2 else if b < 0xf0 then 3 else 4
  {
    Powers();
    var n := b / 16;
    assert n == 0 || n == 1 || n == 2 || n == 3 || n == 4 || n == 5 || n == 6 || n == 7
        || n == 8 || n == 9 || n == 10 || n == 11 || n == 12 || n == 13 || n == 14 || n == 15;
  }

  lemma Powers()
    ensures Power4(0) == 1 && Power4(1) == 0x4 && Power4(2) == 0x10 && Power4(3) == 0x40
    ensures Power4(4) == 0x100 && Power4(5) == 0x400 && Power4(6) == 0x1000 && Power4(7) == 0x4000
    ensures Power4(8) == 0x1_0000 && Power4(9) == 0x4_0000 && Power4(10) == 0x10_0000 && Power4(11) == 0x40_0000
    ensures Power4(12) == 0x100_0000 && Power4(13) == 0x400_0000 && Power4(14) == 0x1000_0000 && Power4(15) == 0x4000_0000
  {
    assert Power4(4) == 4 * Power4(3);
    assert Power4(7) == 4 * Power4(6);
    assert Power4(10) == 4 * Power4(9);
    assert Power4(13) == 4 * Power4(12);
  }

  /** The leader byte without its length bits. */
  function Lead(b: byte): nat {
    match SeqLength(b)
    case 1 => b
    case 2 => b % 0x20
    case 3 => b % 0x10
    case _ => b % 0x08
  }

  datatype Read = Read(code: nat, rest: seq<byte>)

  /** The loop of getUtf32FromUtf8 over `n` more bytes. */
  function Follow(s: seq<byte>, code: nat, n: nat): (r: Read)
    ensures |r.rest| <= |s|
    decreases n
  {
    if n == 0 then Read(code, s)
    else if s == [] || !IsExtension(s[0]) then Read(REPLACEMENT as int, s)
    else Follow(s[1..], code * 0x40 + s[0] % 0x40, n - 1)
  }

  /** getUtf32FromUtf8. */
  function Next(s: seq<byte>): (r: Read)
    requires s != []
    ensures |r.rest| < |s|
  {
    if IsExtension(s[0]) then Read(REPLACEMENT as int, s[1..])
    else Follow(s[1..], Lead(s[0]), SeqLength(s[0]) - 1)
  }

  /** What strcpy8to16 stores for one code. */
  function Units(code: nat): (s: seq<unit16>)
    ensures 1 <= |s| <= 2
  {
    if code <= 0xffff then [code]
    else if code <= UPPER_LIMIT then [0xd800 + (code - 0x1_0000) / 0x400, 0xdc00 + (code - 0x1_0000) % 0x400]
    else [REPLACEMENT]
  }

  /** strcpy8to16. */
  function Decode(s: seq<byte>): seq<unit16>
    decreases |s|
  {
    if s == [] then [] else Units(Next(s).code) + Decode(Next(s).rest)
  }

  // ----- Decoding undoes encoding

  lemma FollowTwo(code: nat, x: byte, y: byte, t: seq<byte>)
    requires IsExtension(x) && IsExtension(y)
    ensures Follow([x, y] + t, code, 2) == Read((code * 0x40 + x % 0x40) * 0x40 + y % 0x40, t)
  {
    var s := [x, y] + t;
    assert s[1..] == [y] + t;
    FollowOne(code * 0x40 + x % 0x40, y, t);
  }

  lemma FollowOne(code: nat, x: byte, t: seq<byte>)
    requires IsExtension(x)
    ensures Follow([x] + t, code, 1) == Read(code * 0x40 + x % 0x40, t)
  {
    assert ([x] + t)[1..] == t;
  }

  lemma NextOfUnit(u: unit16, t: seq<byte>)
    ensures Next(EncodeUnit(u) + t) == Read(u, t)
  {
    hide SeqLength, Follow;
    var e := EncodeUnit(u);
    var s := e + t;
    SeqLengthIs(e[0]);
    if u > 0x7ff {
      assert s[1..] == [e[1], e[2]] + t;
      FollowTwo(u / 0x1000, e[1], e[2], t);
      assert u == (u / 0x1000 * 0x40 + u / 0x40 % 0x40) * 0x40 + u % 0x40;
    } else if u > 0x7f || u == 0 {
      assert s[1..] == [e[1]] + t;
      FollowOne(u / 0x40, e[1], t);
    } else {
      assert s[1..] == t;
      FollowNone(u, t);
    }
  }

  lemma FollowNone(code: nat, t: seq<byte>)
    ensures Follow(t, code, 0) == Read(code, t)
  {
  }

  lemma DecodeUnit(u: unit16, t: seq<byte>)
    ensures Decode(EncodeUnit(u) + t) == [u] + Decode(t)
  {
    hide EncodeUnit, Next;
    NextOfUnit(u, t);
  }

  lemma {:induction false} DecodeConcat(us: seq<unit16>, t: seq<byte>)
    ensures Decode(Encode(us) + t) == us + Decode(t)
  {
    hide EncodeUnit, Decode;
    if us == [] {
      assert Encode(us) + t == t;
    } else {
      var init, u := us[..|us| - 1], us[|us| - 1];
      assert Encode(us) + t == Encode(init) + (EncodeUnit(u) + t);
      DecodeConcat(init, EncodeUnit(u) + t);
      DecodeUnit(u, t);
      assert init + ([u] + Decode(t)) == us + Decode(t);
    }
  }

  /** Every sequence of units comes back, zeros and lone surrogates included. */
  lemma DecodeInvertsEncode(us: seq<unit16>)
    ensures Decode(Encode(us)) == us
  {
    DecodeConcat(us, []);
    assert Encode(us) + [] == Encode(us);
    assert Decode([]) == [];
  }

  /** No byte of an encoding is zero: it can be stored as a C string. */
  lemma {:induction false} EncodeHasNoZero(us: seq<unit16>, i: nat)
    requires i < |Encode(us)|
    ensures Encode(us)[i] != 0
  {
    var before := Encode(us[..|us| - 1]);
    if i < |before| {
      EncodeHasNoZero(us[..|us| - 1], i);
    }
  }

  // ----- The standard forms

  /** Every unit takes the shortest form that can hold it, but for zero, which takes two bytes; the bits of
      the unit stand behind the length bits, six to a byte. */
  lemma EncodeUnitIs(u: unit16)
    ensures var s := EncodeUnit(u);
            && |s| == (if 1 <= u <= 0x7f then 1 else if u <= 0x7ff then 2 else 3)
            && (|s| == 1 ==> s[0] == u)
            && (|s| == 2 ==> 0xc0 <= s[0] < 0xe0 && 0x80 <= s[1] < 0xc0
                             && (s[0] as int - 0xc0) * 0x40 + (s[1] as int - 0x80) == u)
            && (|s| == 3 ==> 0xe0 <= s[0] < 0xf0 && 0x80 <= s[1] < 0xc0 && 0x80 <= s[2] < 0xc0
                             && (s[0] as int - 0xe0) * 0x1000 + (s[1] as int - 0x80) * 0x40 + (s[2] as int - 0x80) == u)
  {
    Digits(u);
  }

  /** A number in groups of six bits. */
  lemma Digits(n: nat)
    ensures n / 0x1000 * 0x40 + n / 0x40 % 0x40 == n / 0x40 && n / 0x40 * 0x40 + n % 0x40 == n
    ensures n / 0x4_0000 * 0x40 + n / 0x1000 % 0x40 == n / 0x1000
  {
    assert n / 0x40 / 0x40 == n / 0x1000 && n / 0x1000 / 0x40 == n / 0x4_0000;
  }

  /** A code outside the first plane becomes a high and a low surrogate, in that order. */
  lemma UnitsAreSurrogates(code: nat)
    requires 0x1_0000 <= code <= 0x10fffd
    ensures var s := Units(code);
            && |s| == 2 && 0xd800 <= s[0] < 0xdc00 && 0xdc00 <= s[1] < 0xe000
            && 0x1_0000 + (s[0] as int - 0xd800) * 0x400 + (s[1] as int - 0xdc00) == code
  {
  }

  /** The four bytes of a code in UTF-8. */
  function FourBytes(code: nat): (s: seq<byte>)
    requires code < 0x20_0000
    ensures |s| == 4
  {
    [0xf0 + code / 0x4_0000, 0x80 + code / 0x1000 % 0x40, 0x80 + code / 0x40 % 0x40, 0x80 + code % 0x40]
  }

  /** Modified UTF-8 does not use them, but they are understood: as two surrogates, or as the replacement
      where there are none. */
  lemma DecodeFourBytes(code: nat, t: seq<byte>)
    requires 0x1_0000 <= code < 0x20_0000
    ensures Decode(FourBytes(code) + t) == (if code <= 0x10fffd then Units(code) else [0xfffd]) + Decode(t)
  {
    hide Decode, Next, FourBytes;
    DecodeNext(FourBytes(code) + t);
    NextOfFour(code, t);
  }

  lemma NextOfFour(code: nat, t: seq<byte>)
    requires code < 0x20_0000
    ensures Next(FourBytes(code) + t) == Read(code, t)
  {
    hide Follow, SeqLength;
    var f := FourBytes(code);
    SeqLengthIs(f[0]);
    assert (f + t)[1..] == [f[1], f[2], f[3]] + t;
    FollowThree(code / 0x4_0000, f[1], f[2], f[3], t);
    Digits(code);
  }

  lemma DecodeNext(s: seq<byte>)
    requires s != []
    ensures Decode(s) == Units(Next(s).code) + Decode(Next(s).rest)
  {
    hide Next, Units;
  }

  lemma FollowThree(code: nat, b: byte, c: byte, d: byte, t: seq<byte>)
    requires IsExtension(b) && IsExtension(c) && IsExtension(d)
    ensures Follow([b, c, d] + t, code, 3) ==
            Read(((code * 0x40 + b % 0x40) * 0x40 + c % 0x40) * 0x40 + d % 0x40, t)
  {
    assert ([b, c, d] + t)[1..] == [c, d] + t;
    FollowTwo(code * 0x40 + b % 0x40, c, d, t);
  }

  /** U+1F600. */
  lemma SmileExample(code: nat)
    requires code == 0x1_f600
    ensures Decode([0xf0, 0x9f, 0x98, 0x80]) == [0xd83d, 0xde00]
  {
    assert FourBytes(code) == [0xf0, 0x9f, 0x98, 0x80] && Units(code) == [0xd83d, 0xde00];
    assert Decode([]) == [];
    hide *;
    DecodeFourBytes(code, []);
    assert [0xf0, 0x9f, 0x98, 0x80] + [] == [0xf0, 0x9f, 0x98, 0x80];
  }

  /** A continuation byte in front, or a sequence that breaks off, is replaced. */
  lemma BrokenIsReplaced(s: seq<byte>)
    requires s != []
    ensures 0x80 <= s[0] < 0xc0 ==> Decode(s) == [0xfffd] + Decode(s[1..])
    ensures 0xc0 <= s[0] && (|s| == 1 || !(0x80 <= s[1] < 0xc0)) ==> Decode(s) == [0xfffd] + Decode(s[1..])
  {
    SeqLengthIs(s[0]);
    DecodeNext(s);
    hide Decode;
  }

  // ----- The length that is set aside

  /** strlen8to16, with the count of extension bytes still expected. */
  function Counted(s: seq<byte>, expected: int): nat {
    if s == [] then 0
    else if IsExtension(s[0]) then (if expected - 1 < 0 then 1 else 0) + Counted(s[1..], expected - 1)
    else (if SeqLength(s[0]) == 4 then 2 else 1) + Counted(s[1..], SeqLength(s[0]) - 1)
  }

  /** Four bytes count as the two units they become. */
  lemma CountedFourBytes(code: nat, t: seq<byte>)
    requires code < 0x20_0000
    ensures Counted(FourBytes(code) + t, 0) == 2 + Counted(t, 0)
  {
    hide SeqLength;
    var f := FourBytes(code);
    SeqLengthIs(f[0]);
    assert (f + t)[1..] == [f[1], f[2], f[3]] + t;
    assert ([f[1], f[2], f[3]] + t)[1..] == [f[2], f[3]] + t;
    assert ([f[2], f[3]] + t)[1..] == [f[3]] + t;
    assert ([f[3]] + t)[1..] == t;
    assert Counted([f[3]] + t, 1) == Counted(t, 0);
    assert Counted([f[2], f[3]] + t, 2) == Counted(t, 0);
    assert Counted([f[1], f[2], f[3]] + t, 3) == Counted(t, 0);
  }

  /** Expected extension bytes cost nothing, and what follows them is counted as if afresh. */
  lemma {:induction false} FollowCounted(s: seq<byte>, code: nat, n: nat) returns (left: nat)
    ensures var r := Follow(s, code, n).rest;
            && Counted(s, n) == Counted(r, left)
            && (r != [] && IsExtension(r[0]) ==> left == 0)
    decreases n
  {
    if n == 0 || s == [] || !IsExtension(s[0]) {
      left := n;
    } else {
      left := FollowCounted(s[1..], code * 0x40 + s[0] % 0x40, n - 1);
    }
  }

  lemma {:induction false} FollowIsSmall(s: seq<byte>, code: nat, n: nat, bound: nat)
    requires code < bound && n <= 3
    ensures Follow(s, code, n).code < bound * Power64(n) || Follow(s, code, n).code == REPLACEMENT as int
    decreases n
  {
    if n > 0 && s != [] && IsExtension(s[0]) {
      FollowIsSmall(s[1..], code * 0x40 + s[0] % 0x40, n - 1, bound * 0x40);
      assert bound * 0x40 * Power64(n - 1) == bound * Power64(n);
    }
  }

  function Power64(n: nat): nat { if n == 0 then 1 else 0x40 * Power64(n - 1) }

  /** Only a leader of four bytes gives more than one unit. */
  lemma OneUnitEach(s: seq<byte>)
    requires s != [] && !IsExtension(s[0]) && SeqLength(s[0]) < 4
    ensures |Units(Next(s).code)| == 1
  {
    hide SeqLength;
    SeqLengthIs(s[0]);
    var n := SeqLength(s[0]) - 1;
    assert Power64(0) == 1 && Power64(1) == 0x40 && Power64(2) == 0x1000;
    FollowIsSmall(s[1..], Lead(s[0]), n, if n == 0 then 0x100 else if n == 1 then 0x20 else 0x10);
  }

  /** For every byte string, valid or not, the decoder stores at most the units that were counted. */
  lemma {:induction false} DecodeFits(s: seq<byte>, expected: int)
    requires s != [] && IsExtension(s[0]) ==> expected <= 0
    ensures |Decode(s)| <= Counted(s, expected)
    decreases |s|
  {
    hide SeqLength, Lead;
    if s != [] {
      if IsExtension(s[0]) {
        DecodeFits(s[1..], expected - 1);
      } else {
        SeqLengthIs(s[0]);
        var n := SeqLength(s[0]) - 1;
        var left := FollowCounted(s[1..], Lead(s[0]), n);
        DecodeFits(Next(s).rest, left);
        if n < 3 {
          OneUnitEach(s);
        }
      }
    }
  }

  lemma CountedUnit(u: unit16, t: seq<byte>, expected: int)
    ensures Counted(EncodeUnit(u) + t, expected) == 1 + Counted(t, 0)
  {
    hide SeqLength;
    var e := EncodeUnit(u);
    var s := e + t;
    SeqLengthIs(e[0]);
    if u > 0x7ff {
      assert s[1..] == [e[1], e[2]] + t;
      SkipTwo(e[1], e[2], t);
    } else if u > 0x7f || u == 0 {
      assert s[1..] == [e[1]] + t;
      SkipOne(e[1], t);
    } else {
      assert s[1..] == t;
    }
  }

  lemma SkipOne(x: byte, t: seq<byte>)
    requires IsExtension(x)
    ensures Counted([x] + t, 1) == Counted(t, 0)
  {
    assert ([x] + t)[1..] == t;
  }

  lemma SkipTwo(x: byte, y: byte, t: seq<byte>)
    requires IsExtension(x) && IsExtension(y)
    ensures Counted([x, y] + t, 2) == Counted(t, 0)
  {
    assert ([x, y] + t)[1..] == [y] + t;
    SkipOne(y, t);
  }

  /** For an encoding the count is exact. */
  lemma {:induction false} CountedEncoding(us: seq<unit16>, t: seq<byte>, expected: int)
    requires us == [] ==> expected == 0
    ensures Counted(Encode(us) + t, expected) == |us| + Counted(t, 0)
  {
    hide EncodeUnit, Counted;
    if us == [] {
      assert Encode(us) + t == t;
    } else {
      var init, u := us[..|us| - 1], us[|us| - 1];
      assert Encode(us) + t == Encode(init) + (EncodeUnit(u) + t);
      if init == [] {
        assert Encode(init) + (EncodeUnit(u) + t) == EncodeUnit(u) + t;
        CountedUnit(u, t, expected);
      } else {
        CountedEncoding(init, EncodeUnit(u) + t, expected);
        CountedUnit(u, t, 0);
      }
    }
  }
}
