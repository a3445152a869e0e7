/** Encoded tokens: an 8-bit arity and a 24-bit meaning id packed into four bytes,
    ordered as memcmp orders those bytes. */
module Tokens {

  const VAR_ID_MAX := 128
  const ANON_HVAR_ID_MIN := 33
  const ANON_HVAR_ID_MAX := 64
  const ANON_QVAR_ID_MIN := 97
  const ANON_QVAR_ID_MAX := 128
  const RANGE_ID_MIN := 129
  const RANGE_ID_MAX := 160
  const CONSTANT_ID_MIN := 161

  const TWO_30 := 0x4000_0000
  const TWO_32 := 0x1_0000_0000
  const TWO_34 := 0x4_0000_0000
  const TWO_64 := 0x1_0000_0000_0000_0000

  type Byte = n: nat | n < 0x100
  type Arity = n: nat | n < 0x100
  type MeaningId = n: nat | n < 0x100_0000

  datatype Token = Token(id: MeaningId, arity: Arity) {

    predicate IsVar() {
      id <= VAR_ID_MAX
    }

    predicate IsRange() {
      RANGE_ID_MIN <= id <= RANGE_ID_MAX
    }

    /** The upper bounds are exclusive in the source, so ids 64 and 128 are not anonymous. */
    predicate IsAnonVar() {
      || ANON_HVAR_ID_MIN <= id < ANON_HVAR_ID_MAX
      || ANON_QVAR_ID_MIN <= id < ANON_QVAR_ID_MAX
    }

    /** The four bytes of the packed bit-field on a little-endian machine. */
    function Bytes(): (s: seq<Byte>)
      ensures |s| == 4
    {
      [arity, id % 0x100, id / 0x100 % 0x100, id / 0x100 / 0x100]
    }

    /** The bytes read as one big-endian number: the rank of the token in memcmp order. */
    function Rank(): nat {
      BigEndian(arity, id % 0x100, id / 0x100 % 0x100, id / 0x100 / 0x100)
    }
  }

  /** The arity lies in the first byte, the low byte of the id in the second. */
  lemma PackedBytes(arity: Arity, a: Byte, b: Byte, c: Byte)
    ensures Token(a + 0x100 * b + 0x1_0000 * c, arity).Bytes() == [arity, a, b, c]
  {
    LowDigit(a, b + 0x100 * c);
    LowDigit(b, c);
  }

  lemma LowDigit(a: Byte, n: nat)
    ensures (a + 0x100 * n) % 0x100 == a && (a + 0x100 * n) / 0x100 == n
  {
  }

  function BigEndian(a: nat, b: nat, c: nat, d: nat): nat {
    a * 0x100_0000 + b * 0x1_0000 + c * 0x100 + d
  }

  /** memcmp: the sign of the first difference. */
  function Memcmp(a: seq<Byte>, b: seq<Byte>): int
    requires |a| == |b|
  {
    if a == [] then 0
    else if a[0] != b[0] then a[0] as int - b[0] as int
    else Memcmp(a[1..], b[1..])
  }

  /** On byte digits, the order of the numbers is the lexicographic order of the digits. */
  lemma BigEndianOrder(a: nat, b: nat, c: nat, d: nat, a': nat, b': nat, c': nat, d': nat)
    requires a < 0x100 && b < 0x100 && c < 0x100 && d < 0x100
    requires a' < 0x100 && b' < 0x100 && c' < 0x100 && d' < 0x100
    ensures BigEndian(a, b, c, d) < BigEndian(a', b', c', d') <==>
            a < a' || (a == a' && (b < b' || (b == b' && (c < c' || (c == c' && d < d')))))
  {
  }

  /** memcmp on packed tokens is comparison of ranks, and it is zero only on equal tokens. */
  lemma MemcmpIsRankOrder(a: Token, b: Token)
    ensures Memcmp(a.Bytes(), b.Bytes()) < 0 <==> a.Rank() < b.Rank()
    ensures Memcmp(a.Bytes(), b.Bytes()) == 0 <==> a == b
    ensures Memcmp(a.Bytes(), b.Bytes()) > 0 <==> a.Rank() > b.Rank()
  {
    var s, t := a.Bytes(), b.Bytes();
    assert Memcmp(s[3..], t[3..]) == s[3] as int - t[3] as int by {
      assert s[3..][1..] == [] && t[3..][1..] == [];
    }
    assert s[2..][1..] == s[3..] && t[2..][1..] == t[3..];
    assert s[1..][1..] == s[2..] && t[1..][1..] == t[2..];
    assert s[2..][0] == s[2] && t[2..][0] == t[2] && s[1..][0] == s[1] && t[1..][0] == t[1];
    assert Memcmp(s[2..], t[2..]) == if s[2] != t[2] then s[2] as int - t[2] as int else Memcmp(s[3..], t[3..]);
    assert Memcmp(s[1..], t[1..]) == if s[1] != t[1] then s[1] as int - t[1] as int else Memcmp(s[2..], t[2..]);
    assert Memcmp(s, t) == if s[0] != t[0] then s[0] as int - t[0] as int else Memcmp(s[1..], t[1..]);
    BigEndianOrder(s[0], s[1], s[2], s[3], t[0], t[1], t[2], t[3]);
    BigEndianOrder(t[0], t[1], t[2], t[3], s[0], s[1], s[2], s[3]);
  }

  lemma RankInjective(a: Token, b: Token)
    requires a.Rank() == b.Rank()
    ensures a == b
  {
    MemcmpIsRankOrder(a, b);
  }
}
