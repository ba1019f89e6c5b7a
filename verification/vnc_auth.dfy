/** The DES of VNC authentication (section 7.2.2 of RFC 6143), as the probe's
    loops compute it (tools/limbs/rfb_probe.py:79-131). The password is its
    encoded bytes. */
module VncAuth {
  import opened Des
  import opened DesAnswers
  import opened DesDigits
  import opened DesTables

  // ---------------------------------------------------------------- the probe's loops

  method BitsOf(data: seq<Byte>) returns (out: seq<Bit>)
    ensures out == Bits(data)
  {
    hide LowBits, Pow2;
    out := [];
    for n := 0 to |data|
      invariant out == Bits(data[..n])
    {
      ghost var before := out;
      for i := 8 downto 0
        invariant out == before + LowBits(data[n], 8)[..8 - i]
      {
        LowBitsByShifting(data[n], 8, 7 - i);
        out := out + [BitAt(data[n], i)];
      }
      assert LowBits(data[n], 8)[..8] == LowBits(data[n], 8);
      BitsStep(data[..n], data[n]);
      assert data[..n + 1] == data[..n] + [data[n]];
    }
    assert data[..|data|] == data;
  }

  method BytesOf(bits: seq<Bit>) returns (out: seq<Byte>)
    ensures out == FromBits(bits)
  {
    hide Value, FromBits;
    out := [];
    NoBytes();
    var i := 0;
    while i < |bits|
      invariant i % 8 == 0 && out == FromBits(bits[..if i <= |bits| then i else |bits|])
      invariant i <= |bits| + 7
    {
      var chunk := bits[i..if i + 8 <= |bits| then i + 8 else |bits|];
      var v := Spell(chunk);
      FromBitsStep(bits[..i], chunk);
      assert bits[..i] + chunk == bits[..i + |chunk|];
      out := out + [v];
      i := i + 8;
    }
    assert bits[..|bits|] == bits;
  }

  lemma NoBytes()
    ensures FromBits([]) == [] && Value([]) == 0
  {
  }

  method Spell(chunk: seq<Bit>) returns (v: nat)
    ensures v == Value(chunk)
  {
    hide Value;
    v := 0;
    NoBytes();
    for j := 0 to |chunk|
      invariant v == Value(chunk[..j])
    {
      ValueStep(chunk[..j], chunk[j]);
      assert chunk[..j + 1] == chunk[..j] + [chunk[j]];
      v := 2 * v + chunk[j];
    }
    assert chunk[..|chunk|] == chunk;
  }

  method ScheduleKeys(key: Block) returns (subkeys: seq<RoundKey>)
    ensures subkeys == RoundKeys(key, 16)
  {
    hide Kept, Rotate, Selected;
    var k := Kept(key);
    var c: KeyHalf, d: KeyHalf := k[..28], k[28..];
    subkeys := [];
    for r := 0 to 16
      invariant (c, d) == Halves(key, r) && subkeys == RoundKeys(key, r)
    {
      ShiftsFit(r);
      c := Rotate(c, SHIFTS[r]);
      d := Rotate(d, SHIFTS[r]);
      subkeys := subkeys + [Selected(c, d)];
    }
  }

  method Substitute(x: RoundKey) returns (out: HalfBlock)
    ensures out == Boxes(x, 8)
  {
    hide Substituted;
    var bits: seq<Bit> := [];
    for s := 0 to 8
      invariant bits == Boxes(x, s)
    {
      bits := bits + Substituted(s, x[s * 6..(s + 1) * 6]);
    }
    out := bits;
  }

  method DesEncryptBlock(key8: seq<Byte>, block8: seq<Byte>) returns (out: seq<Byte>)
    requires |key8| == 8 && |block8| == 8
    ensures out == EncryptBlock(key8, block8)
  {
    hide Bits, FromBits, RoundKeys, Initial, Final, Boxes, Expand, Shuffle;
    var k := BitsOf(key8);
    var subkeys := ScheduleKeys(k);
    var plain := BitsOf(block8);
    var b := Initial(plain);
    var left: HalfBlock, right: HalfBlock := b[..32], b[32..];
    for r := 0 to 16
      invariant (left, right) == Rounds((b[..32], b[32..]), subkeys[..r])
    {
      var boxed := Substitute(XorBits(Expand(right), subkeys[r]));
      var newRight := XorBits(left, Shuffle(boxed));
      assert subkeys[..r + 1][..r] == subkeys[..r];
      left, right := right, newRight;
    }
    assert subkeys[..16] == subkeys;
    out := BytesOf(Final(Join(right, left)));
  }

  // ---------------------------------------------------------------- the password

  /** The first eight bytes of a password, padded with zeros. */
  function Padded(password: seq<Byte>): (key: seq<Byte>)
    ensures |key| == 8
  {
    if |password| >= 8 then password[..8] else password + seq(8 - |password|, _ => 0)
  }

  /** A byte with its bits in the opposite order. */
  function Mirrored(b: Byte): Byte {
    ShortValueFits(Reverse(LowBits(b, 8)));
    Value(Reverse(LowBits(b, 8)))
  }

  function MirroredKey(key: seq<Byte>): (out: seq<Byte>)
    ensures |out| == |key| && forall k :: 0 <= k < |key| ==> out[k] == Mirrored(key[k])
  {
    seq(|key|, k requires 0 <= k < |key| => Mirrored(key[k]))
  }

  /** DES-ECB of the challenge's two blocks, each key byte's bits reversed. */
  function VncDes(password: seq<Byte>, challenge: seq<Byte>): (answer: seq<Byte>)
    requires |challenge| >= 16
    ensures |answer| == 16
  {
    var key := MirroredKey(Padded(password));
    EncryptBlock(key, challenge[..8]) + EncryptBlock(key, challenge[8..16])
  }

  /** Two challenges get one answer only if they are one challenge. */
  lemma AnswersTellChallengesApart(password: seq<Byte>, one: seq<Byte>, other: seq<Byte>)
    requires |one| >= 16 && |other| >= 16
    ensures VncDes(password, one) == VncDes(password, other) <==> one[..16] == other[..16]
  {
    hide EncryptBlock;
    var key := MirroredKey(Padded(password));
    var a, b := VncDes(password, one), VncDes(password, other);
    if a == b {
      assert a[..8] == b[..8] && a[8..] == b[8..];
      assert EncryptBlock(key, one[..8]) == a[..8] && EncryptBlock(key, one[8..16]) == a[8..];
      assert EncryptBlock(key, other[..8]) == b[..8] && EncryptBlock(key, other[8..16]) == b[8..];
      DecryptInvertsEncrypt(key, one[..8]);
      DecryptInvertsEncrypt(key, other[..8]);
      DecryptInvertsEncrypt(key, one[8..16]);
      DecryptInvertsEncrypt(key, other[8..16]);
      assert one[..16] == one[..8] + one[8..16] && other[..16] == other[..8] + other[8..16];
    }
    if one[..16] == other[..16] {
      assert one[..16][..8] == one[..8] && one[..16][8..] == one[8..16];
      assert other[..16][..8] == other[..8] && other[..16][8..] == other[8..16];
    }
  }

  // ---------------------------------------------------------------- what of the password counts

  /** Two keys that differ at most in the last bit of each byte. */
  ghost predicate SameButParity(a: Block, b: Block) {
    forall k :: 0 <= k < 64 && k % 8 != 7 ==> a[k] == b[k]
  }

  lemma ParityIsNeverPicked()
    ensures Picks(PC1, 8, 7, 64)
    ensures forall i, j :: 0 <= i < 8 && 0 <= j < 7 ==> PC1[i][j] % 8 != 7
  {
    PC1Picks();
  }

  lemma KeptIgnoresParity(a: Block, b: Block)
    requires SameButParity(a, b)
    ensures Kept(a) == Kept(b)
  {
    ParityIsNeverPicked();
    forall k | 0 <= k < 56
      ensures Kept(a)[k] == Kept(b)[k]
    {
      Grids.CellOfIndex(k, 7, 8);
      assert Entry(PC1, 8, 7, 64, k) == PC1[k / 7][k % 7];
    }
  }

  lemma {:induction false} HalvesFromKept(a: Block, b: Block, r: nat)
    requires r <= 16 && Kept(a) == Kept(b)
    ensures Halves(a, r) == Halves(b, r)
  {
    hide Kept;
    if r > 0 {
      HalvesFromKept(a, b, r - 1);
    }
  }

  lemma {:induction false} KeysFromKept(a: Block, b: Block, n: nat)
    requires n <= 16 && Kept(a) == Kept(b)
    ensures RoundKeys(a, n) == RoundKeys(b, n)
  {
    hide Kept, Halves, Selected;
    if n > 0 {
      KeysFromKept(a, b, n - 1);
      HalvesFromKept(a, b, n);
    }
  }

  lemma {:induction false} BitOfByte(data: seq<Byte>, k: nat)
    requires k < 8 * |data|
    ensures Bits(data)[k] == LowBits(data[k / 8], 8)[k % 8]
  {
    hide LowBits;
    var before := data[..|data| - 1];
    if k < 8 * |before| {
      BitOfByte(before, k);
    }
  }

  lemma {:induction false} ReverseAt<T>(s: seq<T>, k: nat)
    requires k < |s|
    ensures Reverse(s)[k] == s[|s| - 1 - k]
  {
    if k > 0 {
      ReverseAt(s[..|s| - 1], k - 1);
    }
  }

  lemma {:induction false} LowerBits(n: nat, width: nat)
    ensures LowBits(n, width + 1)[1..] == LowBits(n, width)
  {
    if width > 0 {
      LowerBits(n / 2, width - 1);
    }
  }

  /** The bits of a mirrored byte are the byte's bits backwards. */
  lemma MirroredBits(b: Byte, i: nat)
    requires i < 8
    ensures LowBits(Mirrored(b), 8)[i] == LowBits(b, 8)[7 - i]
  {
    hide LowBits;
    LowBitsOfValue(Reverse(LowBits(b, 8)));
    ReverseAt(LowBits(b, 8), i);
  }

  /** Only the low seven bits of the first eight bytes of a password count:
      passwords alike in those give every challenge the same answer. */
  lemma OnlySevenBitsOfEightBytesCount(one: seq<Byte>, other: seq<Byte>, challenge: seq<Byte>)
    requires |challenge| >= 16
    requires forall j :: 0 <= j < 8 ==> LowBits(Padded(one)[j], 7) == LowBits(Padded(other)[j], 7)
    ensures VncDes(one, challenge) == VncDes(other, challenge)
  {
    hide Cipher, LowBits, FromBits, Padded, Mirrored;
    var a, b := MirroredKey(Padded(one)), MirroredKey(Padded(other));
    forall k | 0 <= k < 64 && k % 8 != 7
      ensures Bits(a)[k] == Bits(b)[k]
    {
      var p, q := Padded(one)[k / 8], Padded(other)[k / 8];
      BitOfByte(a, k);
      BitOfByte(b, k);
      MirroredBits(p, k % 8);
      MirroredBits(q, k % 8);
      LowerBits(p, 7);
      LowerBits(q, 7);
      assert LowBits(p, 8)[7 - k % 8] == LowBits(p, 8)[1..][6 - k % 8];
      assert LowBits(q, 8)[7 - k % 8] == LowBits(q, 8)[1..][6 - k % 8];
    }
    KeptIgnoresParity(Bits(a), Bits(b));
    KeysFromKept(Bits(a), Bits(b), 16);
  }

  // ---------------------------------------------------------------- a known answer

  lemma EightBitsBackwards(a: Bit, b: Bit, c: Bit, d: Bit, e: Bit, f: Bit, g: Bit, h: Bit)
    ensures Reverse([a, b, c, d, e, f, g, h]) == [h, g, f, e, d, c, b, a]
  {
    var bits := [a, b, c, d, e, f, g, h];
    forall k | 0 <= k < 8
      ensures Reverse(bits)[k] == bits[7 - k]
    {
      ReverseAt(bits, k);
    }
  }

  /** A mirrored byte is the number its bits spell backwards. */
  lemma MirroredIs(a: Bit, b: Bit, c: Bit, d: Bit, e: Bit, f: Bit, g: Bit, h: Bit)
    ensures Mirrored(128 * a + 64 * b + 32 * c + 16 * d + 8 * e + 4 * f + 2 * g + h) ==
      128 * (h as int) + 64 * g + 32 * f + 16 * e + 8 * d + 4 * c + 2 * b + a
  {
    hide LowBits, Value, Reverse;
    var high: nat := 8 * a + 4 * b + 2 * c + d;
    FourBits(0, a, b, c, d, 0);
    FourBits(high, e, f, g, h, 4);
    NoBits(0);
    assert LowBits(16 * high + 8 * e + 4 * f + 2 * g + h, 8) == [a, b, c, d, e, f, g, h];
    EightBitsBackwards(a, b, c, d, e, f, g, h);
    SpelledOut(h, g, f, e, d, c, b, a);
  }

  lemma NoBits(n: nat)
    ensures LowBits(n, 0) == []
  {
  }

  lemma SpelledOut(a: Bit, b: Bit, c: Bit, d: Bit, e: Bit, f: Bit, g: Bit, h: Bit)
    ensures Value([a, b, c, d, e, f, g, h]) ==
      128 * (a as int) + 64 * b + 32 * c + 16 * d + 8 * e + 4 * f + 2 * g + h
  {
    hide Value;
    NoBytes();
    ValueStep([], a);
    ValueStep([a], b);
    ValueStep([a, b], c);
    ValueStep([a, b, c], d);
    ValueStep([a, b, c, d], e);
    ValueStep([a, b, c, d, e], f);
    ValueStep([a, b, c, d, e, f], g);
    ValueStep([a, b, c, d, e, f, g], h);
    assert [] + [a] == [a] && [a] + [b] == [a, b] && [a, b] + [c] == [a, b, c];
    assert [a, b, c] + [d] == [a, b, c, d] && [a, b, c, d] + [e] == [a, b, c, d, e];
    assert [a, b, c, d, e] + [f] == [a, b, c, d, e, f];
    assert [a, b, c, d, e, f] + [g] == [a, b, c, d, e, f, g];
    assert [a, b, c, d, e, f, g] + [h] == [a, b, c, d, e, f, g, h];
  }

  /** The password whose bytes are those of the key of the known answer, each backwards. */
  const PASSWORD: seq<Byte> := [0xC8, 0x2C, 0xEA, 0x9E, 0xD9, 0x3D, 0xFB, 0x8F]

  lemma PasswordIsTheKey()
    ensures MirroredKey(PASSWORD) == KEY
  {
    hide Mirrored;
    MirroredIs(1, 1, 0, 0, 1, 0, 0, 0);
    MirroredIs(0, 0, 1, 0, 1, 1, 0, 0);
    MirroredIs(1, 1, 1, 0, 1, 0, 1, 0);
    MirroredIs(1, 0, 0, 1, 1, 1, 1, 0);
    MirroredIs(1, 1, 0, 1, 1, 0, 0, 1);
    MirroredIs(0, 0, 1, 1, 1, 1, 0, 1);
    MirroredIs(1, 1, 1, 1, 1, 0, 1, 1);
    MirroredIs(1, 0, 0, 0, 1, 1, 1, 1);
  }

  /** A password that starts with those bytes answers either half of a challenge that
      is its block with the known answer, in its own half. */
  lemma KnownResponse(password: seq<Byte>, challenge: seq<Byte>)
    requires |password| >= 8 && password[..8] == PASSWORD && |challenge| >= 16
    ensures challenge[..8] == PLAIN ==> VncDes(password, challenge)[..8] == CIPHERED
    ensures challenge[8..16] == PLAIN ==> VncDes(password, challenge)[8..] == CIPHERED
  {
    hide MirroredKey, EncryptBlock;
    PasswordIsTheKey();
    KnownAnswer();
  }

  /** A password shorter than eight bytes is that password followed by a zero byte. */
  lemma ShortPasswordsEndInZeros(password: seq<Byte>, challenge: seq<Byte>)
    requires |password| < 8 && |challenge| >= 16
    ensures VncDes(password, challenge) == VncDes(password + [0], challenge)
  {
    assert Padded(password) == Padded(password + [0]);
  }
}
