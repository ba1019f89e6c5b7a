/** DES as the probe writes it (tools/limbs/rfb_probe.py:79-131). */
module Des {
  import opened DesTables
  import Grids

  type Bit = x: int | 0 <= x < 2
  type Byte = x: int | 0 <= x < 0x100

  // ---------------------------------------------------------------- bits and bytes

  function Pow2(n: nat): (p: nat)
    ensures p > 0
  {
    if n == 0 then 1 else 2 * Pow2(n - 1)
  }

  /** The low `width` bits of a number, high bit first. */
  function LowBits(n: nat, width: nat): (bits: seq<Bit>)
    ensures |bits| == width
  {
    if width == 0 then [] else LowBits(n / 2, width - 1) + [n % 2]
  }

  /** The number some bits spell, high bit first. */
  function Value(bits: seq<Bit>): (n: nat)
    ensures n < Pow2(|bits|)
  {
    if bits == [] then 0 else 2 * Value(bits[..|bits| - 1]) + bits[|bits| - 1]
  }

  lemma ValueStep(bits: seq<Bit>, b: Bit)
    ensures Value(bits + [b]) == 2 * Value(bits) + b
  {
    assert (bits + [b])[..|bits|] == bits;
  }

  lemma {:induction false} ValueOfLowBits(n: nat, width: nat)
    requires n < Pow2(width)
    ensures Value(LowBits(n, width)) == n
  {
    if width > 0 {
      ValueOfLowBits(n / 2, width - 1);
      assert LowBits(n, width)[..width - 1] == LowBits(n / 2, width - 1);
    }
  }

  lemma {:induction false} LowBitsOfValue(bits: seq<Bit>)
    ensures LowBits(Value(bits), |bits|) == bits
  {
    if bits != [] {
      LowBitsOfValue(bits[..|bits| - 1]);
      assert bits == bits[..|bits| - 1] + [bits[|bits| - 1]];
    }
  }

  /** Bit `i` from the low end, by shifting. */
  function BitAt(n: nat, i: nat): Bit {
    n / Pow2(i) % 2
  }

  lemma {:induction false} LowBitsByShifting(n: nat, width: nat, j: nat)
    requires j < width
    ensures LowBits(n, width)[j] == BitAt(n, width - 1 - j)
    decreases width
  {
    if j < width - 1 {
      LowBitsByShifting(n / 2, width - 1, j);
      HalvedTwice(n, Pow2(width - 2 - j));
    }
  }

  lemma HalvedTwice(n: nat, p: nat)
    requires p > 0
    ensures n / 2 / p == n / (2 * p)
  {
    var q, r := n / 2 / p, n / 2 % p;
    assert n / 2 == p * q + r;
    assert n == 2 * (p * q + r) + n % 2;
    assert 2 * (p * q) == (2 * p) * q;
    Grids.DivModUnique(n, 2 * p, q, 2 * r + n % 2);
  }

  lemma EightBitsFit()
    ensures Pow2(0) == 1 && Pow2(1) == 2 && Pow2(2) == 4 && Pow2(3) == 8 && Pow2(4) == 16
    ensures Pow2(5) == 32 && Pow2(6) == 64 && Pow2(7) == 128 && Pow2(8) == 0x100
  {
    assert Pow2(1) == 2;
    assert Pow2(2) == 4;
    assert Pow2(3) == 8;
    assert Pow2(4) == 16;
    assert Pow2(5) == 32;
    assert Pow2(6) == 64;
    assert Pow2(7) == 128;
  }

  function Bits(data: seq<Byte>): (bits: seq<Bit>)
    ensures |bits| == 8 * |data|
  {
    if data == [] then [] else Bits(data[..|data| - 1]) + LowBits(data[|data| - 1], 8)
  }

  lemma ShortValueFits(bits: seq<Bit>)
    requires |bits| <= 8
    ensures Value(bits) < 0x100
  {
    EightBitsFit();
    var n := |bits|;
    assert n == 0 || n == 1 || n == 2 || n == 3 || n == 4 || n == 5 || n == 6 || n == 7 || n == 8;
  }

  function FromBits(bits: seq<Bit>): (data: seq<Byte>)
    ensures |data| == (|bits| + 7) / 8
  {
    if bits == [] then []
    else
      var cut := (|bits| - 1) / 8 * 8;
      ShortValueFits(bits[cut..]);
      FromBits(bits[..cut]) + [Value(bits[cut..])]
  }

  lemma FromBitsStep(bits: seq<Bit>, last: seq<Bit>)
    requires |bits| % 8 == 0 && 0 < |last| <= 8
    ensures Value(last) < 0x100 && FromBits(bits + last) == FromBits(bits) + [Value(last)]
  {
    hide Value, FromBits;
    ShortValueFits(last);
    var all := bits + last;
    LastByteStarts(|bits|, |last|);
    FromBitsUnfolds(all, |bits|);
    assert all[..|bits|] == bits && all[|bits|..] == last;
  }

  lemma FromBitsUnfolds(all: seq<Bit>, cut: nat)
    requires cut < |all| && (|all| - 1) / 8 * 8 == cut
    ensures Value(all[cut..]) < 0x100 && FromBits(all) == FromBits(all[..cut]) + [Value(all[cut..])]
  {
    hide Value;
    ShortValueFits(all[cut..]);
  }

  lemma LastByteStarts(n: nat, last: nat)
    requires n % 8 == 0 && 0 < last <= 8
    ensures (n + last - 1) / 8 * 8 == n
  {
  }

  lemma BitsStep(data: seq<Byte>, last: Byte)
    ensures Bits(data + [last]) == Bits(data) + LowBits(last, 8)
  {
    assert (data + [last])[..|data|] == data;
  }

  /** `_frombits` inverts `_bits`. */
  lemma {:induction false} FromBitsInvertsBits(data: seq<Byte>)
    ensures FromBits(Bits(data)) == data
  {
    hide Value, LowBits, Pow2;
    if data != [] {
      var before, last := data[..|data| - 1], data[|data| - 1];
      assert data == before + [last];
      FromBitsInvertsBits(before);
      EightBitsFit();
      ValueOfLowBits(last, 8);
      FromBitsStep(Bits(before), LowBits(last, 8));
    }
  }

  /** And `_bits` inverts `_frombits` on whole bytes. */
  lemma {:induction false} BitsInvertsFromBits(bits: seq<Bit>)
    requires |bits| % 8 == 0
    ensures Bits(FromBits(bits)) == bits
  {
    hide Value, LowBits, Pow2;
    if bits != [] {
      var before, last := bits[..|bits| - 8], bits[|bits| - 8..];
      assert bits == before + last;
      BitsInvertsFromBits(before);
      LowBitsOfValue(last);
      FromBitsStep(before, last);
      BitsStep(FromBits(before), Value(last));
    }
  }

  // ---------------------------------------------------------------- permutations

  /** `rows` rows of `w` entries, each picking one of `n` bits. */
  predicate Picks(t: Table, rows: nat, w: nat, n: nat) {
    && w > 0 && |t| == rows
    && (forall i :: 0 <= i < rows ==> |t[i]| == w)
    && (forall i, j :: 0 <= i < rows && 0 <= j < w ==> t[i][j] < n)
  }

  /** Entry `k`, row by row. */
  function Entry(t: Table, rows: nat, w: nat, n: nat, k: nat): (e: nat)
    requires Picks(t, rows, w, n) && k < rows * w
    ensures e < n
  {
    Grids.CellOfIndex(k, w, rows);
    t[k / w][k % w]
  }

  function Permute(bits: seq<Bit>, t: Table, rows: nat, w: nat): (out: seq<Bit>)
    requires Picks(t, rows, w, |bits|)
    ensures |out| == rows * w && forall k :: 0 <= k < rows * w ==> out[k] == bits[Entry(t, rows, w, |bits|, k)]
  {
    seq(rows * w, k requires 0 <= k < rows * w => bits[Entry(t, rows, w, |bits|, k)])
  }

  lemma PC1Picks()
    ensures Picks(PC1, 8, 7, 64)
  {
  }

  lemma PC2Picks()
    ensures Picks(PC2, 8, 6, 56)
  {
  }

  lemma EPicks()
    ensures Picks(E, 8, 6, 32)
  {
  }

  lemma PPicks()
    ensures Picks(P, 8, 4, 32)
  {
  }

  lemma IPPicks()
    ensures Picks(IP, 8, 8, 64)
  {
  }

  lemma FPPicks()
    ensures Picks(FP, 8, 8, 64)
  {
  }

  /** The entry at position `k` of a table of eight rows of eight. */
  predicate Holds(t: Table, k: nat, e: nat)
    requires Picks(t, 8, 8, 64)
  {
    k < 64 && t[k / 8][k % 8] == e
  }

  /** One row of a table, undone by another table. */
  predicate RowUndone(row: seq<nat>, t: Table, first: nat)
    requires |row| == 8 && Picks(t, 8, 8, 64)
  {
    && Holds(t, row[0], first) && Holds(t, row[1], first + 1) && Holds(t, row[2], first + 2)
    && Holds(t, row[3], first + 3) && Holds(t, row[4], first + 4) && Holds(t, row[5], first + 5)
    && Holds(t, row[6], first + 6) && Holds(t, row[7], first + 7)
  }

  lemma FinalRowsUndone()
    ensures Picks(IP, 8, 8, 64) && Picks(FP, 8, 8, 64)
    ensures RowUndone(FP[0], IP, 0) && RowUndone(FP[1], IP, 8) && RowUndone(FP[2], IP, 16) && RowUndone(FP[3], IP, 24)
    ensures RowUndone(FP[4], IP, 32) && RowUndone(FP[5], IP, 40) && RowUndone(FP[6], IP, 48) && RowUndone(FP[7], IP, 56)
  {
    hide Picks;
    IPPicks();
    FPPicks();
  }

  lemma InitialRowsUndone()
    ensures Picks(IP, 8, 8, 64) && Picks(FP, 8, 8, 64)
    ensures RowUndone(IP[0], FP, 0) && RowUndone(IP[1], FP, 8) && RowUndone(IP[2], FP, 16) && RowUndone(IP[3], FP, 24)
    ensures RowUndone(IP[4], FP, 32) && RowUndone(IP[5], FP, 40) && RowUndone(IP[6], FP, 48) && RowUndone(IP[7], FP, 56)
  {
    hide Picks;
    IPPicks();
    FPPicks();
  }

  /** Every row of `second` is undone by `first`. */
  predicate Undone(second: Table, first: Table) {
    && Picks(second, 8, 8, 64) && Picks(first, 8, 8, 64)
    && forall i :: 0 <= i < 8 ==> RowUndone(second[i], first, 8 * i)
  }

  lemma FinalUndoesInitial()
    ensures Undone(FP, IP) && Undone(IP, FP)
  {
    hide RowUndone, Picks;
    FinalRowsUndone();
    InitialRowsUndone();
    EightRows(FP, IP);
    EightRows(IP, FP);
  }

  lemma EightRows(second: Table, first: Table)
    requires Picks(second, 8, 8, 64) && Picks(first, 8, 8, 64)
    requires RowUndone(second[0], first, 0) && RowUndone(second[1], first, 8)
    requires RowUndone(second[2], first, 16) && RowUndone(second[3], first, 24)
    requires RowUndone(second[4], first, 32) && RowUndone(second[5], first, 40)
    requires RowUndone(second[6], first, 48) && RowUndone(second[7], first, 56)
    ensures Undone(second, first)
  {
    hide RowUndone;
    forall i | 0 <= i < 8
      ensures RowUndone(second[i], first, 8 * i)
    {
      assert i == 0 || i == 1 || i == 2 || i == 3 || i == 4 || i == 5 || i == 6 || i == 7;
    }
  }

  lemma UndoneAt(second: Table, first: Table, k: nat)
    requires Undone(second, first) && k < 64
    ensures Entry(first, 8, 8, 64, Entry(second, 8, 8, 64, k)) == k
  {
    var i, j := k / 8, k % 8;
    assert RowUndone(second[i], first, 8 * i);
    assert j == 0 || j == 1 || j == 2 || j == 3 || j == 4 || j == 5 || j == 6 || j == 7;
  }

  lemma PermuteUndone(bits: seq<Bit>, first: Table, second: Table)
    requires Undone(second, first) && |bits| == 64
    ensures Permute(Permute(bits, first, 8, 8), second, 8, 8) == bits
  {
    hide Undone, Picks;
    assert Picks(second, 8, 8, 64) && Picks(first, 8, 8, 64) by {
      UndonePicks(second, first);
    }
    forall k | 0 <= k < 64
      ensures Permute(Permute(bits, first, 8, 8), second, 8, 8)[k] == bits[k]
    {
      UndoneAt(second, first, k);
    }
  }

  lemma UndonePicks(second: Table, first: Table)
    requires Undone(second, first)
    ensures Picks(second, 8, 8, 64) && Picks(first, 8, 8, 64)
  {
  }

  // ---------------------------------------------------------------- the cipher

  type Block = b: seq<Bit> | |b| == 64 witness seq(64, _ => 0)
  type HalfBlock = b: seq<Bit> | |b| == 32 witness seq(32, _ => 0)
  type RoundKey = b: seq<Bit> | |b| == 48 witness seq(48, _ => 0)
  type KeyHalf = b: seq<Bit> | |b| == 28 witness seq(28, _ => 0)

  function Initial(b: Block): Block {
    IPPicks();
    Permute(b, IP, 8, 8)
  }

  function Final(b: Block): Block {
    FPPicks();
    Permute(b, FP, 8, 8)
  }

  function Expand(half: HalfBlock): RoundKey {
    EPicks();
    Permute(half, E, 8, 6)
  }

  function Shuffle(half: HalfBlock): HalfBlock {
    PPicks();
    Permute(half, P, 8, 4)
  }

  function Kept(key: Block): (bits: seq<Bit>)
    ensures |bits| == 56
  {
    PC1Picks();
    Permute(key, PC1, 8, 7)
  }

  function Selected(c: KeyHalf, d: KeyHalf): RoundKey {
    PC2Picks();
    Permute(c + d, PC2, 8, 6)
  }

  lemma ShiftsFit(r: nat)
    requires r < 16
    ensures |SHIFTS| == 16 && SHIFTS[r] <= 28
  {
  }

  function Rotate(half: KeyHalf, n: nat): KeyHalf
    requires n <= 28
  {
    half[n..] + half[..n]
  }

  /** The key halves after `r` rotations. */
  function Halves(key: Block, r: nat): (KeyHalf, KeyHalf)
    requires r <= 16
  {
    if r == 0 then (Kept(key)[..28], Kept(key)[28..])
    else
      ShiftsFit(r - 1);
      var (c, d) := Halves(key, r - 1);
      (Rotate(c, SHIFTS[r - 1]), Rotate(d, SHIFTS[r - 1]))
  }

  function RoundKeys(key: Block, n: nat): (keys: seq<RoundKey>)
    requires n <= 16
    ensures |keys| == n
  {
    if n == 0 then [] else RoundKeys(key, n - 1) + [Selected(Halves(key, n).0, Halves(key, n).1)]
  }

  function Xor(a: Bit, b: Bit): Bit {
    if a == b then 0 else 1
  }

  function XorBits(a: seq<Bit>, b: seq<Bit>): (out: seq<Bit>)
    requires |a| == |b|
    ensures |out| == |a| && forall k :: 0 <= k < |a| ==> out[k] == Xor(a[k], b[k])
  {
    seq(|a|, k requires 0 <= k < |a| => Xor(a[k], b[k]))
  }

  lemma BoxesFit(s: nat, row: nat, col: nat)
    requires s < 8 && row < 4 && col < 16
    ensures |SBOX| == 8 && |SBOX[s]| == 4 && |SBOX[s][row]| == 16
  {
  }

  /** One box: the outer bits choose the row, the inner four the column. */
  function Substituted(s: nat, chunk: seq<Bit>): (bits: seq<Bit>)
    requires s < 8 && |chunk| == 6
    ensures |bits| == 4
  {
    var row := 2 * (chunk[0] as int) + chunk[5];
    var col := 8 * (chunk[1] as int) + 4 * (chunk[2] as int) + 2 * (chunk[3] as int) + chunk[4];
    BoxesFit(s, row, col);
    LowBits(SBOX[s][row][col], 4)
  }

  function Boxes(x: RoundKey, n: nat): (bits: seq<Bit>)
    requires n <= 8
    ensures |bits| == 4 * n
  {
    if n == 0 then [] else Boxes(x, n - 1) + Substituted(n - 1, x[6 * (n - 1)..6 * n])
  }

  function Mix(right: HalfBlock, key: RoundKey): HalfBlock {
    Shuffle(Boxes(XorBits(Expand(right), key), 8))
  }

  function Round(p: (HalfBlock, HalfBlock), key: RoundKey): (HalfBlock, HalfBlock) {
    (p.1, XorBits(p.0, Mix(p.1, key)))
  }

  function Rounds(p: (HalfBlock, HalfBlock), keys: seq<RoundKey>): (HalfBlock, HalfBlock) {
    if keys == [] then p else Round(Rounds(p, keys[..|keys| - 1]), keys[|keys| - 1])
  }

  /** A block under a list of round keys. */
  function Cipher(keys: seq<RoundKey>, block: Block): Block {
    var b := Initial(block);
    var (left, right) := Rounds((b[..32], b[32..]), keys);
    Final(Join(right, left))
  }

  function Join(a: HalfBlock, b: HalfBlock): Block {
    var left: seq<Bit> := a;
    left + b
  }

  function EncryptBlock(key: seq<Byte>, block: seq<Byte>): (out: seq<Byte>)
    requires |key| == 8 && |block| == 8
    ensures |out| == 8
  {
    FromBits(Cipher(RoundKeys(Bits(key), 16), Bits(block)))
  }

  // ---------------------------------------------------------------- undoing it

  function Reverse<T>(s: seq<T>): (r: seq<T>)
    ensures |r| == |s|
  {
    if s == [] then [] else [s[|s| - 1]] + Reverse(s[..|s| - 1])
  }

  function Swapped(p: (HalfBlock, HalfBlock)): (HalfBlock, HalfBlock) {
    (p.1, p.0)
  }

  lemma XorTwice(a: HalfBlock, b: HalfBlock)
    ensures XorBits(XorBits(a, b), b) == a
  {
  }

  /** A round with its halves swapped is its own inverse. */
  lemma RoundUndoes(p: (HalfBlock, HalfBlock), key: RoundKey)
    ensures Round(Swapped(Round(p, key)), key) == Swapped(p)
  {
    XorTwice(p.0, Mix(p.1, key));
  }

  lemma {:induction false} RoundsFromTheFront(p: (HalfBlock, HalfBlock), key: RoundKey, rest: seq<RoundKey>)
    ensures Rounds(p, [key] + rest) == Rounds(Round(p, key), rest)
    decreases |rest|
  {
    var all := [key] + rest;
    if rest == [] {
      assert all[..0] == [] && all[0] == key;
    } else {
      RoundsFromTheFront(p, key, rest[..|rest| - 1]);
      assert all[..|all| - 1] == [key] + rest[..|rest| - 1];
      assert all[|all| - 1] == rest[|rest| - 1];
    }
  }

  /** The rounds run back with their keys in reverse. */
  lemma {:induction false} RoundsUndo(p: (HalfBlock, HalfBlock), keys: seq<RoundKey>)
    ensures Rounds(Swapped(Rounds(p, keys)), Reverse(keys)) == Swapped(p)
    decreases |keys|
  {
    hide Round;
    if keys != [] {
      var before, last := keys[..|keys| - 1], keys[|keys| - 1];
      var mid := Rounds(p, before);
      RoundUndoes(mid, last);
      RoundsFromTheFront(Swapped(Round(mid, last)), last, Reverse(before));
      RoundsUndo(p, before);
    }
  }

  lemma FinalThenInitial(b: Block)
    ensures Initial(Final(b)) == b && Final(Initial(b)) == b
  {
    hide Permute, Picks, Undone;
    IPPicks();
    FPPicks();
    FinalUndoesInitial();
    PermuteUndone(b, IP, FP);
    PermuteUndone(b, FP, IP);
  }

  /** Sixteen rounds with the round keys in reverse undo the cipher, whatever the
      keys are. */
  lemma ReversedKeysDecrypt(keys: seq<RoundKey>, block: Block)
    ensures Cipher(Reverse(keys), Cipher(keys, block)) == block
  {
    hide Initial, Final, Rounds;
    var b := Initial(block);
    var start: (HalfBlock, HalfBlock) := (b[..32], b[32..]);
    var end := Rounds(start, keys);
    FinalThenInitial(Join(end.1, end.0));
    assert Initial(Cipher(keys, block)) == Join(end.1, end.0);
    assert Join(end.1, end.0)[..32] == end.1 && Join(end.1, end.0)[32..] == end.0;
    RoundsUndo(start, keys);
    assert Join(b[..32], b[32..]) == b;
    FinalThenInitial(block);
  }

  function DecryptBlock(key: seq<Byte>, block: seq<Byte>): (out: seq<Byte>)
    requires |key| == 8 && |block| == 8
    ensures |out| == 8
  {
    FromBits(Cipher(Reverse(RoundKeys(Bits(key), 16)), Bits(block)))
  }

  /** `_des_encrypt_block` is invertible, under every key. */
  lemma DecryptInvertsEncrypt(key: seq<Byte>, block: seq<Byte>)
    requires |key| == 8 && |block| == 8
    ensures DecryptBlock(key, EncryptBlock(key, block)) == block
  {
    hide Cipher, RoundKeys, Bits, FromBits;
    var keys := RoundKeys(Bits(key), 16);
    BitsInvertsFromBits(Cipher(keys, Bits(block)));
    ReversedKeysDecrypt(keys, Bits(block));
    FromBitsInvertsBits(block);
  }

  // ---------------------------------------------------------------- complementation

  function Flip(bits: seq<Bit>): (out: seq<Bit>)
    ensures |out| == |bits| && forall k :: 0 <= k < |bits| ==> out[k] == 1 - bits[k]
  {
    seq(|bits|, k requires 0 <= k < |bits| => 1 - bits[k])
  }

  lemma FlipPermute(bits: seq<Bit>, t: Table, rows: nat, w: nat)
    requires Picks(t, rows, w, |bits|)
    ensures Permute(Flip(bits), t, rows, w) == Flip(Permute(bits, t, rows, w))
  {
    hide Picks, Entry;
  }

  lemma FlipHalves(key: Block, r: nat)
    requires r <= 16
    ensures Halves(Flip(key), r) == (Flip(Halves(key, r).0), Flip(Halves(key, r).1))
  {
    if r == 0 {
      PC1Picks();
      FlipPermute(key, PC1, 8, 7);
      assert Flip(Kept(key))[..28] == Flip(Kept(key)[..28]) && Flip(Kept(key))[28..] == Flip(Kept(key)[28..]);
    } else {
      hide Kept;
      ShiftsFit(r - 1);
      FlipHalves(key, r - 1);
      FlipRotate(Halves(key, r - 1).0, SHIFTS[r - 1]);
      FlipRotate(Halves(key, r - 1).1, SHIFTS[r - 1]);
    }
  }

  lemma FlipRotate(half: KeyHalf, n: nat)
    requires n <= 28
    ensures Rotate(Flip(half), n) == Flip(Rotate(half, n))
  {
  }

  lemma FlipSelected(c: KeyHalf, d: KeyHalf)
    ensures Selected(Flip(c), Flip(d)) == Flip(Selected(c, d))
  {
    PC2Picks();
    var all: seq<Bit> := c;
    all := all + d;
    var flipped: seq<Bit> := Flip(c);
    flipped := flipped + Flip(d);
    FlipPermute(all, PC2, 8, 6);
    assert Flip(all) == flipped;
  }

  function FlipKeys(keys: seq<RoundKey>): (out: seq<RoundKey>)
    ensures |out| == |keys| && forall k :: 0 <= k < |keys| ==> out[k] == Flip(keys[k])
  {
    seq(|keys|, k requires 0 <= k < |keys| => Flip(keys[k]))
  }

  /** The round keys of a complemented key are the complements. */
  lemma {:induction false} FlipRoundKeys(key: Block, n: nat)
    requires n <= 16
    ensures RoundKeys(Flip(key), n) == FlipKeys(RoundKeys(key, n))
  {
    if n > 0 {
      hide Halves, Selected;
      FlipRoundKeys(key, n - 1);
      FlipHalves(key, n);
      FlipSelected(Halves(key, n).0, Halves(key, n).1);
    }
  }

  /** Complementing both the half block and the key leaves what is mixed in alone. */
  lemma FlipMix(right: HalfBlock, key: RoundKey)
    ensures Mix(Flip(right), Flip(key)) == Mix(right, key)
  {
    EPicks();
    FlipPermute(right, E, 8, 6);
    assert XorBits(Expand(Flip(right)), Flip(key)) == XorBits(Expand(right), key);
  }

  function FlipPair(p: (HalfBlock, HalfBlock)): (HalfBlock, HalfBlock) {
    (Flip(p.0), Flip(p.1))
  }

  lemma FlipRound(p: (HalfBlock, HalfBlock), key: RoundKey)
    ensures Round(FlipPair(p), Flip(key)) == FlipPair(Round(p, key))
  {
    hide Mix;
    FlipMix(p.1, key);
    assert XorBits(Flip(p.0), Mix(p.1, key)) == Flip(XorBits(p.0, Mix(p.1, key)));
  }

  lemma {:induction false} FlipRounds(p: (HalfBlock, HalfBlock), keys: seq<RoundKey>)
    ensures Rounds(FlipPair(p), FlipKeys(keys)) == FlipPair(Rounds(p, keys))
    decreases |keys|
  {
    if keys != [] {
      hide Round;
      var before := keys[..|keys| - 1];
      FlipRounds(p, before);
      assert FlipKeys(keys)[..|keys| - 1] == FlipKeys(before);
      FlipRound(Rounds(p, before), keys[|keys| - 1]);
    }
  }

  lemma FlipInitial(b: Block)
    ensures Initial(Flip(b)) == Flip(Initial(b))
  {
    IPPicks();
    FlipPermute(b, IP, 8, 8);
  }

  lemma FlipFinal(b: Block)
    ensures Final(Flip(b)) == Flip(Final(b))
  {
    FPPicks();
    FlipPermute(b, FP, 8, 8);
  }

  lemma FlipJoin(a: HalfBlock, b: HalfBlock)
    ensures Join(Flip(a), Flip(b)) == Flip(Join(a, b))
  {
  }

  lemma FlipSplit(b: Block)
    ensures Flip(b)[..32] == Flip(b[..32]) && Flip(b)[32..] == Flip(b[32..])
  {
  }

  lemma FlipCipher(keys: seq<RoundKey>, block: Block)
    ensures Cipher(FlipKeys(keys), Flip(block)) == Flip(Cipher(keys, block))
  {
    hide Initial, Final, Rounds, Flip, FlipKeys, Join;
    var b := Initial(block);
    FlipInitial(block);
    FlipSplit(b);
    FlipRounds((b[..32], b[32..]), keys);
    var (left, right) := Rounds((b[..32], b[32..]), keys);
    FlipJoin(right, left);
    FlipFinal(Join(right, left));
  }

  /** Every byte complemented. */
  function FlipBytes(data: seq<Byte>): (out: seq<Byte>)
    ensures |out| == |data|
  {
    if data == [] then [] else FlipBytes(data[..|data| - 1]) + [0xFF - data[|data| - 1]]
  }

  lemma {:induction false} FlipLowBits(n: nat, width: nat)
    requires n < Pow2(width)
    ensures LowBits(Pow2(width) - 1 - n, width) == Flip(LowBits(n, width))
  {
    if width > 0 {
      FlipLowBits(n / 2, width - 1);
    }
  }

  lemma FlipConcat(a: seq<Bit>, b: seq<Bit>)
    ensures Flip(a + b) == Flip(a) + Flip(b)
  {
  }

  lemma {:induction false} FlipBits(data: seq<Byte>)
    ensures Bits(FlipBytes(data)) == Flip(Bits(data))
  {
    hide LowBits, Pow2, Flip;
    if data == [] {
      FlipNothing();
    } else {
      var before, last := data[..|data| - 1], data[|data| - 1];
      FlipBits(before);
      EightBitsFit();
      FlipLowBits(last, 8);
      BitsStep(FlipBytes(before), 0xFF - last);
      FlipConcat(Bits(before), LowBits(last, 8));
    }
  }

  lemma FlipNothing()
    ensures Flip([]) == []
  {
  }

  /** Complementation: encrypting a complemented block under a complemented key
      gives the complement. */
  lemma EncryptComplements(key: seq<Byte>, block: seq<Byte>)
    requires |key| == 8 && |block| == 8
    ensures EncryptBlock(FlipBytes(key), FlipBytes(block)) == FlipBytes(EncryptBlock(key, block))
  {
    hide Cipher, RoundKeys, Bits, FromBits;
    FlipBits(key);
    FlipBits(block);
    FlipRoundKeys(Bits(key), 16);
    var keys := RoundKeys(Bits(key), 16);
    FlipCipher(keys, Bits(block));
    var out := Cipher(keys, Bits(block));
    BitsInvertsFromBits(out);
    FlipBits(FromBits(out));
    FromBitsInvertsBits(FlipBytes(FromBits(out)));
  }
}
