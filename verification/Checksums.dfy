/** The cyclic redundancy check that guards a sector. */
module Checksums {
  import opened Tokens

  const ALL_ONES: bv32 := 0xFFFF_FFFF
  const POLYNOMIAL: bv32 := 0xEDB8_8320

  /** One bit of the shift register. */
  function Shift(c: bv32): bv32 {
    if c & 1 == 1 then POLYNOMIAL ^ (c >> 1) else c >> 1
  }

  /** The entry of the table for one byte. */
  function Entry(c: bv32): bv32 {
    Shift(Shift(Shift(Shift(Shift(Shift(Shift(Shift(c))))))))
  }

  /** As in the table of the source. */
  lemma TableEntries()
    ensures Entry(0) == 0 && Entry(1) == 0x7707_3096 && Entry(2) == 0xEE0E_612C && Entry(0x80) == 0xEDB8_8320
    ensures Entry(0xFF) == 0x2D02_EF8D
  {
  }

  function UpdateBits(crc: bv32, b: bv32): bv32 {
    Entry((crc ^ b) & 0xFF) ^ (crc >> 8)
  }

  function Update(crc: bv32, b: Byte): bv32 {
    UpdateBits(crc, b as bv32)
  }

  /** The register after the bytes of s. */
  function Register(crc: bv32, s: seq<Byte>): bv32
    decreases |s|
  {
    if s == [] then crc else Update(Register(crc, s[..|s| - 1]), s[|s| - 1])
  }

  /** The checksum of s, going on from the checksum of what lies before it. */
  function Crc32(crc: bv32, s: seq<Byte>): bv32 {
    Flip(Register(Flip(crc), s))
  }

  function Flip(c: bv32): bv32 {
    c ^ ALL_ONES
  }

  /** The customary check value, of the digits 1 to 9. */
  lemma CheckValue()
    ensures Crc32(0, [0x31, 0x32, 0x33, 0x34, 0x35, 0x36, 0x37, 0x38, 0x39]) == 0xCBF4_3926
  {
    hide Update;
    var s: seq<Byte> := [0x31, 0x32, 0x33, 0x34, 0x35, 0x36, 0x37, 0x38, 0x39];
    CheckSteps();
    assert s[..0] == [] && s[..9] == s;
    forall k | 0 <= k < 9
      ensures s[..k + 1][..k] == s[..k]
    {
    }
    assert Register(0xFFFF_FFFF, s[..1]) == 0x7C23_1048 && Register(0xFFFF_FFFF, s[..2]) == 0xB0AC_BB32;
    assert Register(0xFFFF_FFFF, s[..3]) == 0x77B7_9C2D && Register(0xFFFF_FFFF, s[..4]) == 0x641C_1F5C;
    assert Register(0xFFFF_FFFF, s[..5]) == 0x340A_C5E3 && Register(0xFFFF_FFFF, s[..6]) == 0xF68D_2C9E;
    assert Register(0xFFFF_FFFF, s[..7]) == 0xAFFC_9660 && Register(0xFFFF_FFFF, s[..8]) == 0x651F_2550;
    assert Register(0xFFFF_FFFF, s[..9]) == 0x340B_C6D9;
  }

  lemma CheckSteps()
    ensures Update(0xFFFF_FFFF, 0x31) == 0x7C23_1048 && Update(0x7C23_1048, 0x32) == 0xB0AC_BB32
    ensures Update(0xB0AC_BB32, 0x33) == 0x77B7_9C2D && Update(0x77B7_9C2D, 0x34) == 0x641C_1F5C
    ensures Update(0x641C_1F5C, 0x35) == 0x340A_C5E3 && Update(0x340A_C5E3, 0x36) == 0xF68D_2C9E
    ensures Update(0xF68D_2C9E, 0x37) == 0xAFFC_9660 && Update(0xAFFC_9660, 0x38) == 0x651F_2550
    ensures Update(0x651F_2550, 0x39) == 0x340B_C6D9
  {
  }

  method ComputeCrc32(crc: bv32, buf: seq<Byte>) returns (r: bv32)
    ensures r == Crc32(crc, buf)
  {
    hide Update, Flip;
    r := Flip(crc);
    var i := 0;
    while i < |buf|
      invariant 0 <= i <= |buf| && r == Register(Flip(crc), buf[..i])
    {
      assert buf[..i + 1][..i] == buf[..i];
      r := Update(r, buf[i]);
      i := i + 1;
    }
    assert buf[..i] == buf;
    r := Flip(r);
  }

  lemma {:induction false} RegisterConcat(crc: bv32, a: seq<Byte>, b: seq<Byte>)
    ensures Register(crc, a + b) == Register(Register(crc, a), b)
    decreases |b|
  {
    hide Update;
    if b == [] {
      assert a + b == a;
    } else {
      var n := |b| - 1;
      assert (a + b)[..|a| + n] == a + b[..n] && (a + b)[|a| + n] == b[n];
      RegisterConcat(crc, a, b[..n]);
    }
  }

  lemma FlipTwice(c: bv32)
    ensures Flip(Flip(c)) == c
  {
  }

  /** A checksum can be computed piece by piece. */
  lemma CrcConcat(crc: bv32, a: seq<Byte>, b: seq<Byte>)
    ensures Crc32(Crc32(crc, a), b) == Crc32(crc, a + b)
  {
    hide Register, Flip;
    RegisterConcat(Flip(crc), a, b);
    FlipTwice(Register(Flip(crc), a));
  }

  // ---------------------------------------------------------------- changed bytes

  /** The highest bytes of the table are all different. */
  lemma TopByteDiffers(x: bv32, y: bv32)
    requires x <= 0xFF && y <= 0xFF && Entry(x) >> 24 == Entry(y) >> 24
    ensures x == y
  {
  }

  lemma LowByte(c: bv32, v: bv32, x: bv32)
    requires x == (c ^ v) & 0xFF
    ensures x <= 0xFF
  {
  }

  lemma TopsEqual(a: bv32, c: bv32, a': bv32, c': bv32)
    requires a ^ (c >> 8) == a' ^ (c' >> 8)
    ensures a >> 24 == a' >> 24 && (a == a' ==> c >> 8 == c' >> 8)
  {
  }

  lemma LowsEqual(x: bv32, h: bv32, c: bv32, v: bv32, c': bv32, v': bv32)
    requires v <= 0xFF && v' <= 0xFF && x == (c ^ v) & 0xFF && x == (c' ^ v') & 0xFF && h == c >> 8 && h == c' >> 8
    ensures c == c' <==> v == v'
  {
  }

  lemma PartsEqual(h: bv32, x: bv32, c: bv32, v: bv32, h': bv32, x': bv32, c': bv32, v': bv32)
    requires v <= 0xFF && v' <= 0xFF && x == (c ^ v) & 0xFF && x' == (c' ^ v') & 0xFF
    requires h == c >> 8 && h' == c' >> 8 && x == x' && h == h'
    ensures c == c' <==> v == v'
  {
    LowsEqual(x, h, c, v, c', v');
  }

  /** The bit pattern of a byte. */
  lemma {:induction false} BitsOf(b: Byte) returns (v: bv32)
    ensures v <= 0xFF && v as int == b && b as bv32 == v
    decreases b
  {
    if b == 0 {
      v := 0;
    } else {
      var u := BitsOf(b - 1);
      NextBits(u);
      v := u + 1;
    }
    SameBits(b, v);
  }

  lemma NextBits(v: bv32)
    requires v <= 0xFF && v as int < 0xFF
    ensures v + 1 <= 0xFF && (v + 1) as int == (v as int) + 1
  {
  }

  lemma SameBits(b: Byte, v: bv32)
    requires v as int == b
    ensures b as bv32 == v
  {
  }

  lemma EntriesDiffer(e: bv32, x: bv32, h: bv32, e': bv32, x': bv32, h': bv32, c: bv32, c': bv32)
    requires e == Entry(x) && e' == Entry(x') && h == c >> 8 && h' == c' >> 8 && e ^ h == e' ^ h'
    requires x <= 0xFF && x' <= 0xFF
    ensures x == x' && h == h'
  {
    hide Entry;
    TopsEqual(e, c, e', c');
    TopByteDiffers(x, x');
  }

  lemma LowAndHighEqual(e: bv32, h: bv32, x: bv32, c: bv32, v: bv32, e': bv32, h': bv32, x': bv32, c': bv32, v': bv32)
    requires x == (c ^ v) & 0xFF && x' == (c' ^ v') & 0xFF
    requires e == Entry(x) && h == c >> 8 && e' == Entry(x') && h' == c' >> 8 && e ^ h == e' ^ h'
    ensures x == x' && h == h'
  {
    hide Entry;
    LowByte(c, v, x);
    LowByte(c', v', x');
    EntriesDiffer(e, x, h, e', x', h', c, c');
  }

  /** The register and the byte after it determine each other. */
  lemma BitsInjective(c: bv32, v: bv32, c': bv32, v': bv32)
    requires v <= 0xFF && v' <= 0xFF && UpdateBits(c, v) == UpdateBits(c', v')
    ensures c == c' <==> v == v'
  {
    hide Entry;
    var x, x', h, h' := (c ^ v) & 0xFF, (c' ^ v') & 0xFF, c >> 8, c' >> 8;
    LowAndHighEqual(Entry(x), h, x, c, v, Entry(x'), h', x', c', v');
    PartsEqual(h, x, c, v, h', x', c', v');
  }

  lemma UpdateInjective(crc: bv32, b: Byte, crc': bv32, b': Byte)
    requires Update(crc, b) == Update(crc', b')
    ensures crc == crc' <==> b == b'
  {
    hide UpdateBits;
    var v := BitsOf(b);
    var v' := BitsOf(b');
    BitsInjective(crc, v, crc', v');
  }

  lemma {:induction false} RegisterInjective(crc: bv32, crc': bv32, s: seq<Byte>)
    requires Register(crc, s) == Register(crc', s)
    ensures crc == crc'
    decreases |s|
  {
    hide Update;
    if s != [] {
      var n := |s| - 1;
      UpdateInjective(Register(crc, s[..n]), s[n], Register(crc', s[..n]), s[n]);
      RegisterInjective(crc, crc', s[..n]);
    }
  }

  /** Changing one byte changes the checksum. */
  lemma ChangedByteShows(crc: bv32, before: seq<Byte>, x: Byte, y: Byte, after: seq<Byte>)
    requires Crc32(crc, before + [x] + after) == Crc32(crc, before + [y] + after)
    ensures x == y
  {
    hide Update, Flip, Register;
    var r := Register(Flip(crc), before);
    FlipTwice(Register(Flip(crc), before + [x] + after));
    FlipTwice(Register(Flip(crc), before + [y] + after));
    RegisterConcat(Flip(crc), before + [x], after);
    RegisterConcat(Flip(crc), before + [y], after);
    RegisterConcat(Flip(crc), before, [x]);
    RegisterConcat(Flip(crc), before, [y]);
    RegisterInjective(Register(r, [x]), Register(r, [y]), after);
    RegisterOne(r, x);
    RegisterOne(r, y);
    UpdateInjective(r, x, r, y);
  }

  lemma RegisterOne(crc: bv32, b: Byte)
    ensures Register(crc, [b]) == Update(crc, b)
  {
    hide Update;
    assert [b][..0] == [];
  }

  lemma CrcOfNothing(crc: bv32)
    ensures Crc32(crc, []) == crc
  {
    hide Flip;
    FlipTwice(crc);
  }

  /** The checksum as the header stores it. */
  function Field(crc: bv32): (n: nat)
    ensures n < TWO_32
  {
    crc as nat
  }

  lemma FieldInjective(a: bv32, b: bv32)
    requires Field(a) == Field(b)
    ensures a == b
  {
    assert a == (a as nat) as bv32 && b == (b as nat) as bv32;
  }
}
