/** Little-endian byte order: the reference meaning of the library's hand-written
    byte assembly (instruction fetch, LH, LW) and byte splitting (SH, SW). */
module LittleEndian {

  /** A byte placed below the bits of `hi`. */
  function Join(b: bv8, hi: bv32): bv32
  {
    (b as bv32) | (hi << 8)
  }

  /** The least significant byte of a word. */
  function LowByte(w: bv32): bv8
  {
    (w & 0xFF) as bv8
  }

  /** A word with its least significant byte shifted out. */
  function DropByte(w: bv32): bv32
  {
    w >> 8
  }

  /** The value of up to four bytes, the first being the least significant. */
  function Value(bytes: seq<bv8>): bv32
    requires |bytes| <= 4
  {
    if |bytes| == 0 then 0 else Join(bytes[0], Value(bytes[1..]))
  }

  /** The `n` low bytes of `w`, least significant first. */
  function Bytes(w: bv32, n: nat): (bs: seq<bv8>)
    requires n <= 4
    ensures |bs| == n
  {
    if n == 0 then [] else [LowByte(w)] + Bytes(DropByte(w), n - 1)
  }

  /** The word whose `n` low bytes are all ones and whose other bits are clear. */
  function LowMask(n: nat): bv32
    requires n <= 4
  {
    if n == 0 then 0 else Join(0xFF, LowMask(n - 1))
  }

  lemma LowMaskValues()
    ensures LowMask(0) == 0 && LowMask(1) == 0xFF && LowMask(2) == 0xFFFF
    ensures LowMask(3) == 0xFF_FFFF && LowMask(4) == 0xFFFF_FFFF
  {
  }

  // Bit-level facts, stated on plain words so that the solver sees nothing else.

  lemma JoinMasks(w: bv32, m: bv32)
    ensures Join(LowByte(w), DropByte(w) & m) == w & Join(0xFF, m)
  {
  }

  lemma JoinFits(b: bv8, v: bv32, m: bv32)
    requires v <= m <= 0xFF_FFFF
    ensures Join(b, v) <= Join(0xFF, m)
  {
  }

  lemma JoinSplits(b: bv8, hi: bv32)
    requires hi <= 0xFF_FFFF
    ensures LowByte(Join(b, hi)) == b && DropByte(Join(b, hi)) == hi
  {
  }

  // One unfolding of each recursive definition.

  lemma ValueCons(b: bv8, rest: seq<bv8>)
    requires |rest| <= 3
    ensures Value([b] + rest) == Join(b, Value(rest))
  {
    assert ([b] + rest)[1..] == rest;
  }

  lemma BytesStep(w: bv32, n: nat)
    requires 0 < n <= 4
    ensures Bytes(w, n) == [LowByte(w)] + Bytes(DropByte(w), n - 1)
  {
  }

  /** Reading back the bytes of a word recovers the part of the word they cover. */
  lemma {:induction false} ValueOfBytes(w: bv32, n: nat)
    requires n <= 4
    ensures Value(Bytes(w, n)) == w & LowMask(n)
  {
    if n > 0 {
      var rest := Bytes(DropByte(w), n - 1);
      ValueOfBytes(DropByte(w), n - 1);
      BytesStep(w, n);
      ValueCons(LowByte(w), rest);
      JoinMasks(w, LowMask(n - 1));
    }
  }

  /** `n` bytes never reach above bit 8n - 1. */
  lemma {:induction false} ValueBound(bytes: seq<bv8>)
    requires |bytes| <= 4
    ensures Value(bytes) <= LowMask(|bytes|)
  {
    if |bytes| > 0 {
      var rest := bytes[1..];
      ValueBound(rest);
      LowMaskValues();
      JoinFits(bytes[0], Value(rest), LowMask(|rest|));
    }
  }

  /** Splitting the value of a byte sequence gives the sequence back. */
  lemma {:induction false} BytesOfValue(bytes: seq<bv8>)
    requires |bytes| <= 4
    ensures Bytes(Value(bytes), |bytes|) == bytes
  {
    if |bytes| > 0 {
      var rest := bytes[1..];
      var v := Value(rest);
      BytesOfValue(rest);
      ValueBound(rest);
      LowMaskValues();
      JoinSplits(bytes[0], v);
      BytesStep(Join(bytes[0], v), |bytes|);
      assert bytes == [bytes[0]] + rest;
    }
  }

  /** A whole word survives the round trip through its four bytes. */
  lemma WordRoundTrip(w: bv32)
    ensures Value(Bytes(w, 4)) == w
  {
    ValueOfBytes(w, 4);
    LowMaskValues();
  }

  /** A single byte, zero-extended. */
  lemma Value1(b0: bv8)
    ensures Value([b0]) == b0 as bv32
  {
    ValueCons(b0, []);
    assert [b0] == [b0] + [];
    JoinOne(b0);
  }

  lemma JoinOne(b0: bv8)
    ensures Join(b0, 0) == b0 as bv32
  {
  }

  /** The library assembles a halfword by OR-ing the second byte in eight bits above the first: the two-byte value. */
  lemma Value2(b0: bv8, b1: bv8)
    ensures Value([b0, b1]) == (b0 as bv32) | ((b1 as bv32) << 8)
  {
    ValueCons(b1, []);
    ValueCons(b0, [b1]);
    assert [b1] == [b1] + [] && [b0, b1] == [b0] + [b1];
    JoinTwo(b0, b1);
  }

  lemma JoinTwo(b0: bv8, b1: bv8)
    ensures Join(b0, Join(b1, 0)) == (b0 as bv32) | ((b1 as bv32) << 8)
  {
  }

  /** The library assembles a word by OR-ing each byte in eight bits above the one before: the four-byte value. */
  lemma Value4(b0: bv8, b1: bv8, b2: bv8, b3: bv8)
    ensures Value([b0, b1, b2, b3]) ==
      ((b3 as bv32) << 24) | ((b2 as bv32) << 16) | ((b1 as bv32) << 8) | (b0 as bv32)
  {
    ValueCons(b3, []);
    ValueCons(b2, [b3]);
    ValueCons(b1, [b2, b3]);
    ValueCons(b0, [b1, b2, b3]);
    assert [b3] == [b3] + [] && [b2, b3] == [b2] + [b3];
    assert [b1, b2, b3] == [b1] + [b2, b3] && [b0, b1, b2, b3] == [b0] + [b1, b2, b3];
    JoinFour(b0, b1, b2, b3);
  }

  lemma JoinFour(b0: bv8, b1: bv8, b2: bv8, b3: bv8)
    ensures Join(b0, Join(b1, Join(b2, Join(b3, 0)))) ==
      ((b3 as bv32) << 24) | ((b2 as bv32) << 16) | ((b1 as bv32) << 8) | (b0 as bv32)
  {
  }

  /** The library stores byte k of a word as the word shifted down 8k bits and cut to eight: those are the bytes of `Bytes`. */
  lemma Bytes1(w: bv32)
    ensures Bytes(w, 1) == [(w & 0xFF) as bv8]
  {
    BytesStep(w, 1);
  }

  lemma Bytes2(w: bv32)
    ensures Bytes(w, 2) == [(w & 0xFF) as bv8, ((w >> 8) & 0xFF) as bv8]
  {
    BytesStep(w, 2);
    BytesStep(DropByte(w), 1);
  }

  lemma Bytes4(w: bv32)
    ensures Bytes(w, 4) == [(w & 0xFF) as bv8, ((w >> 8) & 0xFF) as bv8,
                            ((w >> 16) & 0xFF) as bv8, ((w >> 24) & 0xFF) as bv8]
  {
    var w1 := DropByte(w);
    var w2 := DropByte(w1);
    var w3 := DropByte(w2);
    BytesStep(w, 4);
    BytesStep(w1, 3);
    BytesStep(w2, 2);
    BytesStep(w3, 1);
    DropBytes(w);
  }

  lemma DropBytes(w: bv32)
    ensures LowByte(DropByte(w)) == ((w >> 8) & 0xFF) as bv8
    ensures LowByte(DropByte(DropByte(w))) == ((w >> 16) & 0xFF) as bv8
    ensures LowByte(DropByte(DropByte(DropByte(w)))) == ((w >> 24) & 0xFF) as bv8
  {
  }
}
