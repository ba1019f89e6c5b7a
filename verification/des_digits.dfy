/** The cipher on hexadecimal digits: every permutation, box and turn of
    tools/limbs/rfb_probe.py:79-124 in the positions FIPS 46-3 prints, so that one
    step of it is a few digits long. */
module DesDigits {
  import opened Des
  import opened DesTables
  import Grids

  // ---------------------------------------------------------------- spelling

  /** Four bits, high bit first. */
  datatype Digit = Digit(a: Bit, b: Bit, c: Bit, d: Bit) {
    function At(i: nat): Bit
      requires i < 4
    {
      if i == 0 then a else if i == 1 then b else if i == 2 then c else d
    }
  }

  /** Six bits, as they go into a box. */
  datatype Six = Six(a: Bit, b: Bit, c: Bit, d: Bit, e: Bit, f: Bit) {
    function At(i: nat): Bit
      requires i < 6
    {
      if i == 0 then a else if i == 1 then b else if i == 2 then c else if i == 3 then d else if i == 4 then e else f
    }
  }

  const X0 := Digit(0, 0, 0, 0)
  const X1 := Digit(0, 0, 0, 1)
  const X2 := Digit(0, 0, 1, 0)
  const X3 := Digit(0, 0, 1, 1)
  const X4 := Digit(0, 1, 0, 0)
  const X5 := Digit(0, 1, 0, 1)
  const X6 := Digit(0, 1, 1, 0)
  const X7 := Digit(0, 1, 1, 1)
  const X8 := Digit(1, 0, 0, 0)
  const X9 := Digit(1, 0, 0, 1)
  const XA := Digit(1, 0, 1, 0)
  const XB := Digit(1, 0, 1, 1)
  const XC := Digit(1, 1, 0, 0)
  const XD := Digit(1, 1, 0, 1)
  const XE := Digit(1, 1, 1, 0)
  const XF := Digit(1, 1, 1, 1)

  function Spelled(d: seq<Digit>): (bits: seq<Bit>)
    ensures |bits| == 4 * |d|
    ensures forall t :: 0 <= t < 4 * |d| ==> bits[t] == d[t / 4].At(t % 4)
  {
    seq(4 * |d|, t requires 0 <= t < 4 * |d| => d[t / 4].At(t % 4))
  }

  function SpelledKey(k: seq<Six>): (bits: seq<Bit>)
    ensures |bits| == 6 * |k|
    ensures forall t :: 0 <= t < 6 * |k| ==> bits[t] == k[t / 6].At(t % 6)
  {
    seq(6 * |k|, t requires 0 <= t < 6 * |k| => k[t / 6].At(t % 6))
  }

  /** The digit that spells a number. */
  function Hex(n: nat): Digit
    requires n < 16
  {
    if n == 0 then X0 else if n == 1 then X1 else if n == 2 then X2 else if n == 3 then X3
    else if n == 4 then X4 else if n == 5 then X5 else if n == 6 then X6 else if n == 7 then X7
    else if n == 8 then X8 else if n == 9 then X9 else if n == 10 then XA else if n == 11 then XB
    else if n == 12 then XC else if n == 13 then XD else if n == 14 then XE else XF
  }

  lemma DigitIs(n: nat)
    requires n < 16
    ensures n == 8 * (Hex(n).a as int) + 4 * (Hex(n).b as int) + 2 * (Hex(n).c as int) + Hex(n).d
  {
  }

  lemma DigitBits(n: nat)
    requires n < 16
    ensures LowBits(n, 4) == [Hex(n).a, Hex(n).b, Hex(n).c, Hex(n).d]
  {
    DigitIs(n);
    assert LowBits(0, 0) == [];
    hide LowBits, Hex;
    FourBits(0, Hex(n).a, Hex(n).b, Hex(n).c, Hex(n).d, 0);
  }

  // ---------------------------------------------------------------- one round

  /** What goes into box `s`: a digit with its neighbours' nearest bits, and the key. */
  function Chunk(before: Digit, d: Digit, after: Digit, k: Six): Six {
    Six(Xor(before.d, k.a), Xor(d.a, k.b), Xor(d.b, k.c), Xor(d.c, k.d), Xor(d.d, k.e), Xor(after.a, k.f))
  }

  lemma BoxesAreDigits(s: nat, row: nat, col: nat)
    requires s < 8 && row < 4 && col < 16
    ensures |SBOX| == 8 && |SBOX[s]| == 4 && |SBOX[s][row]| == 16 && SBOX[s][row][col] < 16
  {
    assert s == 0 || s == 1 || s == 2 || s == 3 || s == 4 || s == 5 || s == 6 || s == 7;
    assert row == 0 || row == 1 || row == 2 || row == 3;
  }

  /** The entry of box `s` in a row and a column. */
  function Look(s: nat, row: nat, col: nat): (n: nat)
    requires s < 8 && row < 4 && col < 16
    ensures n < 16
  {
    BoxesAreDigits(s, row, col);
    SBOX[s][row][col]
  }

  /** What box `s` makes of a chunk: the outer bits are the row, the inner the column. */
  function Boxed(s: nat, c: Six): (n: nat)
    requires s < 8
    ensures n < 16
  {
    Look(s, 2 * (c.a as int) + c.f, 8 * (c.b as int) + 4 * (c.c as int) + 2 * (c.d as int) + c.e)
  }

  /** Box `s` makes this digit of a chunk. */
  predicate Makes(s: nat, c: Six, d: Digit)
    requires s < 8
  {
    Hex(Boxed(s, c)) == d
  }

  lemma BoxMakes(s: nat, c: Six, row: nat, col: nat, n: nat)
    requires s < 8 && row == 2 * (c.a as int) + c.f
    requires col == 8 * (c.b as int) + 4 * (c.c as int) + 2 * (c.d as int) + c.e
    requires Look(s, row, col) == n
    ensures n < 16 && Makes(s, c, Hex(n))
  {
    hide Look, Hex;
  }

  /** The digit, and the bit of it, that comes to place `j` of box `s`. */
  function Source(s: nat, j: nat): (nat, nat) {
    if j == 0 then ((s + 7) % 8, 3) else if j == 5 then ((s + 1) % 8, 0) else (s, j - 1)
  }

  lemma ExpansionIs(s: nat, j: nat)
    requires s < 8 && j < 6
    ensures Picks(E, 8, 6, 32) && E[s][j] == 4 * Source(s, j).0 + Source(s, j).1
    ensures Source(s, j).0 < 8 && Source(s, j).1 < 4
  {
    EPicks();
    assert s == 0 || s == 1 || s == 2 || s == 3 || s == 4 || s == 5 || s == 6 || s == 7;
    assert j == 0 || j == 1 || j == 2 || j == 3 || j == 4 || j == 5;
  }

  lemma ChunkBit(r: seq<Digit>, k: seq<Six>, s: nat, j: nat)
    requires |r| == |k| == 8 && s < 8 && j < 6
    ensures Source(s, j).0 < 8 && Source(s, j).1 < 4
    ensures XorBits(Expand(Spelled(r)), SpelledKey(k))[6 * s + j] ==
      Xor(r[Source(s, j).0].At(Source(s, j).1), k[s].At(j))
  {
    hide Picks, Digit.At, Six.At, Xor, Source;
    ExpansionIs(s, j);
    Grids.DivModUnique(6 * s + j, 6, s, j);
    Grids.DivModUnique(E[s][j], 4, Source(s, j).0, Source(s, j).1);
  }

  function Spread(c: Six): seq<Bit> {
    [c.a, c.b, c.c, c.d, c.e, c.f]
  }

  lemma ChunkAt(r: seq<Digit>, k: seq<Six>, s: nat, j: nat)
    requires |r| == |k| == 8 && s < 8 && j < 6
    ensures XorBits(Expand(Spelled(r)), SpelledKey(k))[6 * s + j] ==
      Spread(Chunk(r[(s + 7) % 8], r[s], r[(s + 1) % 8], k[s]))[j]
  {
    ChunkBit(r, k, s, j);
    hide XorBits, Expand, Spelled, SpelledKey, Xor, Picks;
    assert j == 0 || j == 1 || j == 2 || j == 3 || j == 4 || j == 5;
  }

  lemma ChunkIs(r: seq<Digit>, k: seq<Six>, s: nat)
    requires |r| == |k| == 8 && s < 8
    ensures XorBits(Expand(Spelled(r)), SpelledKey(k))[6 * s..6 * s + 6] ==
      Spread(Chunk(r[(s + 7) % 8], r[s], r[(s + 1) % 8], k[s]))
  {
    hide XorBits, Expand, Spelled, SpelledKey, Chunk;
    var x := XorBits(Expand(Spelled(r)), SpelledKey(k));
    var c := Chunk(r[(s + 7) % 8], r[s], r[(s + 1) % 8], k[s]);
    forall j | 0 <= j < 6
      ensures x[6 * s..6 * s + 6][j] == Spread(c)[j]
    {
      ChunkAt(r, k, s, j);
    }
  }

  lemma {:induction false} BoxesAt(x: RoundKey, n: nat, s: nat, j: nat)
    requires s < n <= 8 && j < 4
    ensures Boxes(x, n)[4 * s + j] == Substituted(s, x[6 * s..6 * s + 6])[j]
  {
    hide Substituted;
    if s < n - 1 {
      BoxesAt(x, n - 1, s, j);
    }
  }

  /** Box `s` makes the digit `o` of its chunk. */
  predicate BoxedAs(r: seq<Digit>, k: seq<Six>, s: nat, o: Digit)
    requires |r| == |k| == 8 && s < 8
  {
    Makes(s, Chunk(r[(s + 7) % 8], r[s], r[(s + 1) % 8], k[s]), o)
  }

  lemma SubstitutedAt(s: nat, chunk: seq<Bit>, row: nat, col: nat)
    requires s < 8 && |chunk| == 6 && row == 2 * (chunk[0] as int) + chunk[5]
    requires col == 8 * (chunk[1] as int) + 4 * (chunk[2] as int) + 2 * (chunk[3] as int) + chunk[4]
    ensures row < 4 && col < 16 && Substituted(s, chunk) == LowBits(Look(s, row, col), 4)
  {
    hide LowBits;
    BoxesAreDigits(s, row, col);
  }

  lemma SubstitutedIs(s: nat, c: Six)
    requires s < 8
    ensures Substituted(s, Spread(c)) == LowBits(Boxed(s, c), 4)
  {
    hide LowBits, Substituted, Look;
    SubstitutedAt(s, Spread(c), 2 * (c.a as int) + c.f,
                  8 * (c.b as int) + 4 * (c.c as int) + 2 * (c.d as int) + c.e);
  }

  /** Box `s` sends six bits to the four of a digit. */
  predicate Sends(s: nat, chunk: seq<Bit>, d: Digit)
    requires s < 8 && |chunk| == 6
  {
    Substituted(s, chunk) == [d.a, d.b, d.c, d.d]
  }

  lemma MakesSends(s: nat, c: Six, d: Digit)
    requires s < 8 && Makes(s, c, d)
    ensures Sends(s, Spread(c), d)
  {
    SubstitutedIs(s, c);
    DigitBits(Boxed(s, c));
    hide Substituted, Boxed, LowBits, Hex;
  }

  lemma BoxSends(s: nat, c: Six, row: nat, col: nat, n: nat)
    requires s < 8 && row == 2 * (c.a as int) + c.f
    requires col == 8 * (c.b as int) + 4 * (c.c as int) + 2 * (c.d as int) + c.e
    requires Look(s, row, col) == n
    ensures n < 16 && Sends(s, Spread(c), Hex(n))
  {
    hide Look, Hex, Makes, Spread, Sends;
    BoxMakes(s, c, row, col, n);
    MakesSends(s, c, Hex(n));
  }

  /** The bit a round mixes in at place `t`, from place `p` of what the boxes make. */
  lemma MixBit(r: seq<Digit>, k: seq<Six>, t: nat, o: Digit)
    requires |r| == |k| == 8 && t < 32 && Picks(P, 8, 4, 32)
    requires BoxedAs(r, k, P[t / 4][t % 4] / 4, o)
    ensures Mix(Spelled(r), SpelledKey(k))[t] == o.At(P[t / 4][t % 4] % 4)
  {
    hide XorBits, Expand, Spelled, SpelledKey, Xor, Boxes, Substituted, Boxed, Chunk, LowBits, Hex, Picks;
    var p := P[t / 4][t % 4];
    var s := p / 4;
    var x := XorBits(Expand(Spelled(r)), SpelledKey(k));
    Grids.DivModUnique(t, 4, t / 4, t % 4);
    assert 4 * s + p % 4 == p;
    BoxesAt(x, 8, s, p % 4);
    ChunkIs(r, k, s);
    SubstitutedIs(s, Chunk(r[(s + 7) % 8], r[s], r[(s + 1) % 8], k[s]));
    DigitBits(Boxed(s, Chunk(r[(s + 7) % 8], r[s], r[(s + 1) % 8], k[s])));
  }

  /** What goes into the boxes. */
  predicate Chunked(r: seq<Digit>, k: seq<Six>, c: seq<Six>)
    requires |r| == |k| == |c| == 8
  {
    && Chunk(r[7], r[0], r[1], k[0]) == c[0] && Chunk(r[0], r[1], r[2], k[1]) == c[1]
    && Chunk(r[1], r[2], r[3], k[2]) == c[2] && Chunk(r[2], r[3], r[4], k[3]) == c[3]
    && Chunk(r[3], r[4], r[5], k[4]) == c[4] && Chunk(r[4], r[5], r[6], k[5]) == c[5]
    && Chunk(r[5], r[6], r[7], k[6]) == c[6] && Chunk(r[6], r[7], r[0], k[7]) == c[7]
  }

  /** What comes out of them. */
  predicate OutOfBoxes(c: seq<Six>, o: seq<Digit>)
    requires |c| == |o| == 8
  {
    && Makes(0, c[0], o[0]) && Makes(1, c[1], o[1])
    && Makes(2, c[2], o[2]) && Makes(3, c[3], o[3])
    && Makes(4, c[4], o[4]) && Makes(5, c[5], o[5])
    && Makes(6, c[6], o[6]) && Makes(7, c[7], o[7])
  }

  /** Bit `t` of the new half: that of the old one, and the box bit at place `p`. */
  predicate MixedAt(l: seq<Digit>, o: seq<Digit>, next: seq<Digit>, t: nat, p: nat)
    requires |l| == |o| == |next| == 8 && t < 32 && p < 32
  {
    next[t / 4].At(t % 4) == Xor(l[t / 4].At(t % 4), o[p / 4].At(p % 4))
  }

  /** The wiring after the boxes, in the standard's order. */
  predicate Mixed(l: seq<Digit>, o: seq<Digit>, next: seq<Digit>)
    requires |l| == |o| == |next| == 8
  {
    && MixedAt(l, o, next, 0, 15) && MixedAt(l, o, next, 1, 6) && MixedAt(l, o, next, 2, 19)
    && MixedAt(l, o, next, 3, 20) && MixedAt(l, o, next, 4, 28) && MixedAt(l, o, next, 5, 11)
    && MixedAt(l, o, next, 6, 27) && MixedAt(l, o, next, 7, 16) && MixedAt(l, o, next, 8, 0)
    && MixedAt(l, o, next, 9, 14) && MixedAt(l, o, next, 10, 22) && MixedAt(l, o, next, 11, 25)
    && MixedAt(l, o, next, 12, 4) && MixedAt(l, o, next, 13, 17) && MixedAt(l, o, next, 14, 30)
    && MixedAt(l, o, next, 15, 9) && MixedAt(l, o, next, 16, 1) && MixedAt(l, o, next, 17, 7)
    && MixedAt(l, o, next, 18, 23) && MixedAt(l, o, next, 19, 13) && MixedAt(l, o, next, 20, 31)
    && MixedAt(l, o, next, 21, 26) && MixedAt(l, o, next, 22, 2) && MixedAt(l, o, next, 23, 8)
    && MixedAt(l, o, next, 24, 18) && MixedAt(l, o, next, 25, 12) && MixedAt(l, o, next, 26, 29)
    && MixedAt(l, o, next, 27, 5) && MixedAt(l, o, next, 28, 21) && MixedAt(l, o, next, 29, 10)
    && MixedAt(l, o, next, 30, 3) && MixedAt(l, o, next, 31, 24)
  }

  lemma MixedEverywhere(l: seq<Digit>, o: seq<Digit>, next: seq<Digit>, t: nat)
    requires |l| == |o| == |next| == 8 && Mixed(l, o, next) && t < 32
    ensures Picks(P, 8, 4, 32) && MixedAt(l, o, next, t, P[t / 4][t % 4])
  {
    hide MixedAt;
    PPicks();
    assert t == 0 || t == 1 || t == 2 || t == 3 || t == 4 || t == 5 || t == 6 || t == 7
      || t == 8 || t == 9 || t == 10 || t == 11 || t == 12 || t == 13 || t == 14 || t == 15
      || t == 16 || t == 17 || t == 18 || t == 19 || t == 20 || t == 21 || t == 22 || t == 23
      || t == 24 || t == 25 || t == 26 || t == 27 || t == 28 || t == 29 || t == 30 || t == 31;
  }

  lemma BoxedEverywhere(r: seq<Digit>, k: seq<Six>, c: seq<Six>, o: seq<Digit>, s: nat)
    requires |r| == |k| == |c| == |o| == 8 && Chunked(r, k, c) && OutOfBoxes(c, o) && s < 8
    ensures BoxedAs(r, k, s, o[s])
  {
    hide Makes, Chunk;
    assert s == 0 || s == 1 || s == 2 || s == 3 || s == 4 || s == 5 || s == 6 || s == 7;
  }

  /** One round on digits is one round of the cipher. */
  lemma RoundIs(l: seq<Digit>, r: seq<Digit>, k: seq<Six>, c: seq<Six>, o: seq<Digit>, next: seq<Digit>)
    requires |l| == |r| == |k| == |c| == |o| == |next| == 8
    requires Chunked(r, k, c) && OutOfBoxes(c, o) && Mixed(l, o, next)
    ensures Round((Spelled(l), Spelled(r)), SpelledKey(k)) == (Spelled(r), Spelled(next))
  {
    hide Xor, Mix, Chunked, OutOfBoxes, Mixed, BoxedAs, Picks, Digit.At;
    var mixed := XorBits(Spelled(l), Mix(Spelled(r), SpelledKey(k)));
    forall t | 0 <= t < 32
      ensures mixed[t] == Spelled(next)[t]
    {
      MixedEverywhere(l, o, next, t);
      BoxedEverywhere(r, k, c, o, P[t / 4][t % 4] / 4);
      MixBit(r, k, t, o[P[t / 4][t % 4] / 4]);
    }
    assert mixed == Spelled(next);
  }

  // ---------------------------------------------------------------- the key

  function OneOn(x: Digit, y: Digit): Digit {
    Digit(x.b, x.c, x.d, y.a)
  }

  function TwoOn(x: Digit, y: Digit): Digit {
    Digit(x.c, x.d, y.a, y.b)
  }

  /** Seven digits with their bits turned by one place or by two. */
  function Turned(f: seq<Digit>, n: nat): seq<Digit>
    requires |f| == 7
  {
    if n == 1 then
      [OneOn(f[0], f[1]), OneOn(f[1], f[2]), OneOn(f[2], f[3]), OneOn(f[3], f[4]),
        OneOn(f[4], f[5]), OneOn(f[5], f[6]), OneOn(f[6], f[0])]
    else
      [TwoOn(f[0], f[1]), TwoOn(f[1], f[2]), TwoOn(f[2], f[3]), TwoOn(f[3], f[4]),
        TwoOn(f[4], f[5]), TwoOn(f[5], f[6]), TwoOn(f[6], f[0])]
  }

  lemma TurnedAt(f: seq<Digit>, n: nat, q: nat)
    requires |f| == 7 && (n == 1 || n == 2) && q < 7
    ensures |Turned(f, n)| == 7
    ensures Turned(f, n)[q] == if n == 1 then OneOn(f[q], f[(q + 1) % 7]) else TwoOn(f[q], f[(q + 1) % 7])
  {
    assert q == 0 || q == 1 || q == 2 || q == 3 || q == 4 || q == 5 || q == 6;
  }

  lemma NextPlace(q: nat, j: nat, n: nat)
    requires q < 7 && j < 4 && (n == 1 || n == 2)
    ensures var u := (4 * q + j + n) % 28;
      u / 4 == (if j + n < 4 then q else (q + 1) % 7) && u % 4 == (if j + n < 4 then j + n else j + n - 4)
  {
  }

  lemma OnAt(x: Digit, y: Digit, n: nat, j: nat)
    requires (n == 1 || n == 2) && j < 4
    ensures (if n == 1 then OneOn(x, y) else TwoOn(x, y)).At(j) == if j + n < 4 then x.At(j + n) else y.At(j + n - 4)
  {
  }

  lemma TurnedBit(f: seq<Digit>, n: nat, q: nat, j: nat)
    requires |f| == 7 && (n == 1 || n == 2) && q < 7 && j < 4
    ensures |Turned(f, n)| == 7
    ensures Rotate(Spelled(f), n)[4 * q + j] == Turned(f, n)[q].At(j)
  {
    hide Turned, Rotate, Digit.At, OneOn, TwoOn;
    TurnedAt(f, n, q);
    RotatedAt(Spelled(f), n, 4 * q + j);
    NextPlace(q, j, n);
    OnAt(f[q], f[(q + 1) % 7], n, j);
  }

  lemma TurnedIs(f: seq<Digit>, n: nat)
    requires |f| == 7 && (n == 1 || n == 2)
    ensures Rotate(Spelled(f), n) == Spelled(Turned(f, n))
  {
    TurnedAt(f, n, 0);
    hide Turned, Digit.At;
    forall t | 0 <= t < 28
      ensures Rotate(Spelled(f), n)[t] == Spelled(Turned(f, n))[t]
    {
      TurnedBit(f, n, t / 4, t % 4);
      assert 4 * (t / 4) + t % 4 == t;
      hide Rotate, Spelled;
    }
  }

  lemma RotatedAt(half: KeyHalf, n: nat, p: nat)
    requires n <= 28 && p < 28
    ensures Rotate(half, n)[p] == half[(p + n) % 28]
  {
  }

  /** Bit `t` of a round key, from place `e` of the turned halves. */
  predicate PickedAt(c: seq<Digit>, d: seq<Digit>, k: seq<Six>, t: nat, e: nat)
    requires |c| == |d| == 7 && |k| == 8 && t < 48 && e < 56
  {
    k[t / 6].At(t % 6) == if e < 28 then c[e / 4].At(e % 4) else d[(e - 28) / 4].At((e - 28) % 4)
  }

  /** The choice of a round key, in the standard's order. */
  predicate Picked(c: seq<Digit>, d: seq<Digit>, k: seq<Six>)
    requires |c| == |d| == 7 && |k| == 8
  {
    && PickedAt(c, d, k, 0, 13) && PickedAt(c, d, k, 1, 16) && PickedAt(c, d, k, 2, 10)
    && PickedAt(c, d, k, 3, 23) && PickedAt(c, d, k, 4, 0) && PickedAt(c, d, k, 5, 4)
    && PickedAt(c, d, k, 6, 2) && PickedAt(c, d, k, 7, 27) && PickedAt(c, d, k, 8, 14)
    && PickedAt(c, d, k, 9, 5) && PickedAt(c, d, k, 10, 20) && PickedAt(c, d, k, 11, 9)
    && PickedAt(c, d, k, 12, 22) && PickedAt(c, d, k, 13, 18) && PickedAt(c, d, k, 14, 11)
    && PickedAt(c, d, k, 15, 3) && PickedAt(c, d, k, 16, 25) && PickedAt(c, d, k, 17, 7)
    && PickedAt(c, d, k, 18, 15) && PickedAt(c, d, k, 19, 6) && PickedAt(c, d, k, 20, 26)
    && PickedAt(c, d, k, 21, 19) && PickedAt(c, d, k, 22, 12) && PickedAt(c, d, k, 23, 1)
    && PickedAt(c, d, k, 24, 40) && PickedAt(c, d, k, 25, 51) && PickedAt(c, d, k, 26, 30)
    && PickedAt(c, d, k, 27, 36) && PickedAt(c, d, k, 28, 46) && PickedAt(c, d, k, 29, 54)
    && PickedAt(c, d, k, 30, 29) && PickedAt(c, d, k, 31, 39) && PickedAt(c, d, k, 32, 50)
    && PickedAt(c, d, k, 33, 44) && PickedAt(c, d, k, 34, 32) && PickedAt(c, d, k, 35, 47)
    && PickedAt(c, d, k, 36, 43) && PickedAt(c, d, k, 37, 48) && PickedAt(c, d, k, 38, 38)
    && PickedAt(c, d, k, 39, 55) && PickedAt(c, d, k, 40, 33) && PickedAt(c, d, k, 41, 52)
    && PickedAt(c, d, k, 42, 45) && PickedAt(c, d, k, 43, 41) && PickedAt(c, d, k, 44, 49)
    && PickedAt(c, d, k, 45, 35) && PickedAt(c, d, k, 46, 28) && PickedAt(c, d, k, 47, 31)
  }

  lemma PickedEverywhere(c: seq<Digit>, d: seq<Digit>, k: seq<Six>, t: nat)
    requires |c| == |d| == 7 && |k| == 8 && Picked(c, d, k) && t < 48
    ensures Picks(PC2, 8, 6, 56) && PickedAt(c, d, k, t, PC2[t / 6][t % 6])
  {
    hide PickedAt;
    PC2Picks();
    assert t == 0 || t == 1 || t == 2 || t == 3 || t == 4 || t == 5 || t == 6 || t == 7
      || t == 8 || t == 9 || t == 10 || t == 11 || t == 12 || t == 13 || t == 14 || t == 15
      || t == 16 || t == 17 || t == 18 || t == 19 || t == 20 || t == 21 || t == 22 || t == 23
      || t == 24 || t == 25 || t == 26 || t == 27 || t == 28 || t == 29 || t == 30 || t == 31
      || t == 32 || t == 33 || t == 34 || t == 35 || t == 36 || t == 37 || t == 38 || t == 39
      || t == 40 || t == 41 || t == 42 || t == 43 || t == 44 || t == 45 || t == 46 || t == 47;
  }

  lemma SelectedIs(c: seq<Digit>, d: seq<Digit>, k: seq<Six>)
    requires |c| == |d| == 7 && |k| == 8 && Picked(c, d, k)
    ensures Selected(Spelled(c), Spelled(d)) == SpelledKey(k)
  {
    hide Picked, Picks, Digit.At, Six.At;
    PC2Picks();
    forall t | 0 <= t < 48
      ensures Selected(Spelled(c), Spelled(d))[t] == SpelledKey(k)[t]
    {
      PickedEverywhere(c, d, k, t);
    }
    assert Selected(Spelled(c), Spelled(d)) == SpelledKey(k);
  }

  /** The halves and the round keys after `n` steps. */
  predicate Scheduled(key: Block, n: nat, c: seq<Digit>, d: seq<Digit>, keys: seq<RoundKey>)
    requires |c| == |d| == 7 && n <= 16
  {
    Halves(key, n) == (Spelled(c), Spelled(d)) && RoundKeys(key, n) == keys
  }

  lemma ScheduleStarts(key: Block, c: seq<Digit>, d: seq<Digit>)
    requires |c| == |d| == 7 && Kept(key) == Spelled(c) + Spelled(d)
    ensures Scheduled(key, 0, c, d, [])
  {
    hide Kept;
  }

  /** One step of the schedule on digits. */
  lemma KeyIs(key: Block, n: nat, c: seq<Digit>, d: seq<Digit>, keys: seq<RoundKey>,
              c2: seq<Digit>, d2: seq<Digit>, k: seq<Six>)
    requires n < 16 && |c| == |d| == |c2| == |d2| == 7 && |k| == 8 && Scheduled(key, n, c, d, keys)
    requires (SHIFTS[n] == 1 || SHIFTS[n] == 2) && Turned(c, SHIFTS[n]) == c2 && Turned(d, SHIFTS[n]) == d2
    requires Picked(c2, d2, k)
    ensures Scheduled(key, n + 1, c2, d2, keys + [SpelledKey(k)])
  {
    hide Picked, Turned, Spelled, SpelledKey, Selected, Kept;
    TurnedIs(c, SHIFTS[n]);
    TurnedIs(d, SHIFTS[n]);
    SelectedIs(c2, d2, k);
  }

  // ---------------------------------------------------------------- the rounds

  /** The halves after as many rounds as there are keys. */
  predicate Reached(p: (HalfBlock, HalfBlock), keys: seq<RoundKey>, l: seq<Digit>, r: seq<Digit>)
    requires |l| == |r| == 8
  {
    Rounds(p, keys) == (Spelled(l), Spelled(r))
  }

  lemma NextRound(p: (HalfBlock, HalfBlock), keys: seq<RoundKey>, l: seq<Digit>, r: seq<Digit>, k: seq<Six>,
                  c: seq<Six>, o: seq<Digit>, next: seq<Digit>)
    requires |l| == |r| == |k| == |c| == |o| == |next| == 8 && Reached(p, keys, l, r)
    requires Chunked(r, k, c) && OutOfBoxes(c, o) && Mixed(l, o, next)
    ensures Reached(p, keys + [SpelledKey(k)], r, next)
  {
    hide Round, Chunked, OutOfBoxes, Mixed, Spelled, SpelledKey;
    RoundIs(l, r, k, c, o, next);
    assert (keys + [SpelledKey(k)])[..|keys|] == keys;
  }

  // ---------------------------------------------------------------- the permutations

  /** Bit `t` comes from place `e`. */
  predicate WiredAt(from: seq<Digit>, to: seq<Digit>, t: nat, e: nat)
    requires |from| == 16 && t < 4 * |to| && e < 64
  {
    to[t / 4].At(t % 4) == from[e / 4].At(e % 4)
  }

  /** The left half of the initial permutation, in the standard's order. */
  predicate OpensLeft(from: seq<Digit>, to: seq<Digit>)
    requires |from| == 16 && |to| == 8
  {
    && WiredAt(from, to, 0, 57) && WiredAt(from, to, 1, 49) && WiredAt(from, to, 2, 41)
    && WiredAt(from, to, 3, 33) && WiredAt(from, to, 4, 25) && WiredAt(from, to, 5, 17)
    && WiredAt(from, to, 6, 9) && WiredAt(from, to, 7, 1) && WiredAt(from, to, 8, 59)
    && WiredAt(from, to, 9, 51) && WiredAt(from, to, 10, 43) && WiredAt(from, to, 11, 35)
    && WiredAt(from, to, 12, 27) && WiredAt(from, to, 13, 19) && WiredAt(from, to, 14, 11)
    && WiredAt(from, to, 15, 3) && WiredAt(from, to, 16, 61) && WiredAt(from, to, 17, 53)
    && WiredAt(from, to, 18, 45) && WiredAt(from, to, 19, 37) && WiredAt(from, to, 20, 29)
    && WiredAt(from, to, 21, 21) && WiredAt(from, to, 22, 13) && WiredAt(from, to, 23, 5)
    && WiredAt(from, to, 24, 63) && WiredAt(from, to, 25, 55) && WiredAt(from, to, 26, 47)
    && WiredAt(from, to, 27, 39) && WiredAt(from, to, 28, 31) && WiredAt(from, to, 29, 23)
    && WiredAt(from, to, 30, 15) && WiredAt(from, to, 31, 7)
  }

  lemma OpensLeftIs(from: seq<Digit>, to: seq<Digit>, t: nat)
    requires |from| == 16 && |to| == 8 && OpensLeft(from, to) && t < 32
    ensures Picks(IP, 8, 8, 64) && Permute(Spelled(from), IP, 8, 8)[t] == Spelled(to)[t]
  {
    hide Digit.At, Picks;
    IPPicks();
    assert WiredAt(from, to, t, IP[(t) / 8][(t) % 8]) by {
      hide WiredAt;
      assert t == 0 || t == 1 || t == 2 || t == 3 || t == 4 || t == 5 || t == 6 || t == 7
      || t == 8 || t == 9 || t == 10 || t == 11 || t == 12 || t == 13 || t == 14 || t == 15
      || t == 16 || t == 17 || t == 18 || t == 19 || t == 20 || t == 21 || t == 22 || t == 23
      || t == 24 || t == 25 || t == 26 || t == 27 || t == 28 || t == 29 || t == 30 || t == 31;
    }
    hide OpensLeft;
  }

  /** The right half. */
  predicate OpensRight(from: seq<Digit>, to: seq<Digit>)
    requires |from| == 16 && |to| == 8
  {
    && WiredAt(from, to, 0, 56) && WiredAt(from, to, 1, 48) && WiredAt(from, to, 2, 40)
    && WiredAt(from, to, 3, 32) && WiredAt(from, to, 4, 24) && WiredAt(from, to, 5, 16)
    && WiredAt(from, to, 6, 8) && WiredAt(from, to, 7, 0) && WiredAt(from, to, 8, 58)
    && WiredAt(from, to, 9, 50) && WiredAt(from, to, 10, 42) && WiredAt(from, to, 11, 34)
    && WiredAt(from, to, 12, 26) && WiredAt(from, to, 13, 18) && WiredAt(from, to, 14, 10)
    && WiredAt(from, to, 15, 2) && WiredAt(from, to, 16, 60) && WiredAt(from, to, 17, 52)
    && WiredAt(from, to, 18, 44) && WiredAt(from, to, 19, 36) && WiredAt(from, to, 20, 28)
    && WiredAt(from, to, 21, 20) && WiredAt(from, to, 22, 12) && WiredAt(from, to, 23, 4)
    && WiredAt(from, to, 24, 62) && WiredAt(from, to, 25, 54) && WiredAt(from, to, 26, 46)
    && WiredAt(from, to, 27, 38) && WiredAt(from, to, 28, 30) && WiredAt(from, to, 29, 22)
    && WiredAt(from, to, 30, 14) && WiredAt(from, to, 31, 6)
  }

  lemma OpensRightIs(from: seq<Digit>, to: seq<Digit>, t: nat)
    requires |from| == 16 && |to| == 8 && OpensRight(from, to) && t < 32
    ensures Picks(IP, 8, 8, 64) && Permute(Spelled(from), IP, 8, 8)[t + 32] == Spelled(to)[t]
  {
    hide Digit.At, Picks;
    IPPicks();
    assert WiredAt(from, to, t, IP[(t + 32) / 8][(t + 32) % 8]) by {
      hide WiredAt;
      assert t == 0 || t == 1 || t == 2 || t == 3 || t == 4 || t == 5 || t == 6 || t == 7
      || t == 8 || t == 9 || t == 10 || t == 11 || t == 12 || t == 13 || t == 14 || t == 15
      || t == 16 || t == 17 || t == 18 || t == 19 || t == 20 || t == 21 || t == 22 || t == 23
      || t == 24 || t == 25 || t == 26 || t == 27 || t == 28 || t == 29 || t == 30 || t == 31;
    }
    hide OpensRight;
  }

  /** The left half of the final permutation. */
  predicate ClosesLeft(from: seq<Digit>, to: seq<Digit>)
    requires |from| == 16 && |to| == 8
  {
    && WiredAt(from, to, 0, 39) && WiredAt(from, to, 1, 7) && WiredAt(from, to, 2, 47)
    && WiredAt(from, to, 3, 15) && WiredAt(from, to, 4, 55) && WiredAt(from, to, 5, 23)
    && WiredAt(from, to, 6, 63) && WiredAt(from, to, 7, 31) && WiredAt(from, to, 8, 38)
    && WiredAt(from, to, 9, 6) && WiredAt(from, to, 10, 46) && WiredAt(from, to, 11, 14)
    && WiredAt(from, to, 12, 54) && WiredAt(from, to, 13, 22) && WiredAt(from, to, 14, 62)
    && WiredAt(from, to, 15, 30) && WiredAt(from, to, 16, 37) && WiredAt(from, to, 17, 5)
    && WiredAt(from, to, 18, 45) && WiredAt(from, to, 19, 13) && WiredAt(from, to, 20, 53)
    && WiredAt(from, to, 21, 21) && WiredAt(from, to, 22, 61) && WiredAt(from, to, 23, 29)
    && WiredAt(from, to, 24, 36) && WiredAt(from, to, 25, 4) && WiredAt(from, to, 26, 44)
    && WiredAt(from, to, 27, 12) && WiredAt(from, to, 28, 52) && WiredAt(from, to, 29, 20)
    && WiredAt(from, to, 30, 60) && WiredAt(from, to, 31, 28)
  }

  lemma ClosesLeftIs(from: seq<Digit>, to: seq<Digit>, t: nat)
    requires |from| == 16 && |to| == 8 && ClosesLeft(from, to) && t < 32
    ensures Picks(FP, 8, 8, 64) && Permute(Spelled(from), FP, 8, 8)[t] == Spelled(to)[t]
  {
    hide Digit.At, Picks;
    FPPicks();
    assert WiredAt(from, to, t, FP[(t) / 8][(t) % 8]) by {
      hide WiredAt;
      assert t == 0 || t == 1 || t == 2 || t == 3 || t == 4 || t == 5 || t == 6 || t == 7
      || t == 8 || t == 9 || t == 10 || t == 11 || t == 12 || t == 13 || t == 14 || t == 15
      || t == 16 || t == 17 || t == 18 || t == 19 || t == 20 || t == 21 || t == 22 || t == 23
      || t == 24 || t == 25 || t == 26 || t == 27 || t == 28 || t == 29 || t == 30 || t == 31;
    }
    hide ClosesLeft;
  }

  /** The right half. */
  predicate ClosesRight(from: seq<Digit>, to: seq<Digit>)
    requires |from| == 16 && |to| == 8
  {
    && WiredAt(from, to, 0, 35) && WiredAt(from, to, 1, 3) && WiredAt(from, to, 2, 43)
    && WiredAt(from, to, 3, 11) && WiredAt(from, to, 4, 51) && WiredAt(from, to, 5, 19)
    && WiredAt(from, to, 6, 59) && WiredAt(from, to, 7, 27) && WiredAt(from, to, 8, 34)
    && WiredAt(from, to, 9, 2) && WiredAt(from, to, 10, 42) && WiredAt(from, to, 11, 10)
    && WiredAt(from, to, 12, 50) && WiredAt(from, to, 13, 18) && WiredAt(from, to, 14, 58)
    && WiredAt(from, to, 15, 26) && WiredAt(from, to, 16, 33) && WiredAt(from, to, 17, 1)
    && WiredAt(from, to, 18, 41) && WiredAt(from, to, 19, 9) && WiredAt(from, to, 20, 49)
    && WiredAt(from, to, 21, 17) && WiredAt(from, to, 22, 57) && WiredAt(from, to, 23, 25)
    && WiredAt(from, to, 24, 32) && WiredAt(from, to, 25, 0) && WiredAt(from, to, 26, 40)
    && WiredAt(from, to, 27, 8) && WiredAt(from, to, 28, 48) && WiredAt(from, to, 29, 16)
    && WiredAt(from, to, 30, 56) && WiredAt(from, to, 31, 24)
  }

  lemma ClosesRightIs(from: seq<Digit>, to: seq<Digit>, t: nat)
    requires |from| == 16 && |to| == 8 && ClosesRight(from, to) && t < 32
    ensures Picks(FP, 8, 8, 64) && Permute(Spelled(from), FP, 8, 8)[t + 32] == Spelled(to)[t]
  {
    hide Digit.At, Picks;
    FPPicks();
    assert WiredAt(from, to, t, FP[(t + 32) / 8][(t + 32) % 8]) by {
      hide WiredAt;
      assert t == 0 || t == 1 || t == 2 || t == 3 || t == 4 || t == 5 || t == 6 || t == 7
      || t == 8 || t == 9 || t == 10 || t == 11 || t == 12 || t == 13 || t == 14 || t == 15
      || t == 16 || t == 17 || t == 18 || t == 19 || t == 20 || t == 21 || t == 22 || t == 23
      || t == 24 || t == 25 || t == 26 || t == 27 || t == 28 || t == 29 || t == 30 || t == 31;
    }
    hide ClosesRight;
  }

  /** The key bits kept, left half. */
  predicate KeepsLeft(from: seq<Digit>, to: seq<Digit>)
    requires |from| == 16 && |to| == 7
  {
    && WiredAt(from, to, 0, 56) && WiredAt(from, to, 1, 48) && WiredAt(from, to, 2, 40)
    && WiredAt(from, to, 3, 32) && WiredAt(from, to, 4, 24) && WiredAt(from, to, 5, 16)
    && WiredAt(from, to, 6, 8) && WiredAt(from, to, 7, 0) && WiredAt(from, to, 8, 57)
    && WiredAt(from, to, 9, 49) && WiredAt(from, to, 10, 41) && WiredAt(from, to, 11, 33)
    && WiredAt(from, to, 12, 25) && WiredAt(from, to, 13, 17) && WiredAt(from, to, 14, 9)
    && WiredAt(from, to, 15, 1) && WiredAt(from, to, 16, 58) && WiredAt(from, to, 17, 50)
    && WiredAt(from, to, 18, 42) && WiredAt(from, to, 19, 34) && WiredAt(from, to, 20, 26)
    && WiredAt(from, to, 21, 18) && WiredAt(from, to, 22, 10) && WiredAt(from, to, 23, 2)
    && WiredAt(from, to, 24, 59) && WiredAt(from, to, 25, 51) && WiredAt(from, to, 26, 43)
    && WiredAt(from, to, 27, 35)
  }

  lemma KeepsLeftIs(from: seq<Digit>, to: seq<Digit>, t: nat)
    requires |from| == 16 && |to| == 7 && KeepsLeft(from, to) && t < 28
    ensures Picks(PC1, 8, 7, 64) && Permute(Spelled(from), PC1, 8, 7)[t] == Spelled(to)[t]
  {
    hide Digit.At, Picks;
    PC1Picks();
    assert WiredAt(from, to, t, PC1[(t) / 7][(t) % 7]) by {
      hide WiredAt;
      assert t == 0 || t == 1 || t == 2 || t == 3 || t == 4 || t == 5 || t == 6 || t == 7
      || t == 8 || t == 9 || t == 10 || t == 11 || t == 12 || t == 13 || t == 14 || t == 15
      || t == 16 || t == 17 || t == 18 || t == 19 || t == 20 || t == 21 || t == 22 || t == 23
      || t == 24 || t == 25 || t == 26 || t == 27;
    }
    hide KeepsLeft;
  }

  /** The right half. */
  predicate KeepsRight(from: seq<Digit>, to: seq<Digit>)
    requires |from| == 16 && |to| == 7
  {
    && WiredAt(from, to, 0, 62) && WiredAt(from, to, 1, 54) && WiredAt(from, to, 2, 46)
    && WiredAt(from, to, 3, 38) && WiredAt(from, to, 4, 30) && WiredAt(from, to, 5, 22)
    && WiredAt(from, to, 6, 14) && WiredAt(from, to, 7, 6) && WiredAt(from, to, 8, 61)
    && WiredAt(from, to, 9, 53) && WiredAt(from, to, 10, 45) && WiredAt(from, to, 11, 37)
    && WiredAt(from, to, 12, 29) && WiredAt(from, to, 13, 21) && WiredAt(from, to, 14, 13)
    && WiredAt(from, to, 15, 5) && WiredAt(from, to, 16, 60) && WiredAt(from, to, 17, 52)
    && WiredAt(from, to, 18, 44) && WiredAt(from, to, 19, 36) && WiredAt(from, to, 20, 28)
    && WiredAt(from, to, 21, 20) && WiredAt(from, to, 22, 12) && WiredAt(from, to, 23, 4)
    && WiredAt(from, to, 24, 27) && WiredAt(from, to, 25, 19) && WiredAt(from, to, 26, 11)
    && WiredAt(from, to, 27, 3)
  }

  lemma KeepsRightIs(from: seq<Digit>, to: seq<Digit>, t: nat)
    requires |from| == 16 && |to| == 7 && KeepsRight(from, to) && t < 28
    ensures Picks(PC1, 8, 7, 64) && Permute(Spelled(from), PC1, 8, 7)[t + 28] == Spelled(to)[t]
  {
    hide Digit.At, Picks;
    PC1Picks();
    assert WiredAt(from, to, t, PC1[(t + 28) / 7][(t + 28) % 7]) by {
      hide WiredAt;
      assert t == 0 || t == 1 || t == 2 || t == 3 || t == 4 || t == 5 || t == 6 || t == 7
      || t == 8 || t == 9 || t == 10 || t == 11 || t == 12 || t == 13 || t == 14 || t == 15
      || t == 16 || t == 17 || t == 18 || t == 19 || t == 20 || t == 21 || t == 22 || t == 23
      || t == 24 || t == 25 || t == 26 || t == 27;
    }
    hide KeepsRight;
  }

  lemma Splits(a: seq<Digit>, b: seq<Digit>)
    ensures Spelled(a + b) == Spelled(a) + Spelled(b)
    ensures Spelled(a + b)[..4 * |a|] == Spelled(a) && Spelled(a + b)[4 * |a|..] == Spelled(b)
  {
  }

  lemma InitialIs(from: seq<Digit>, left: seq<Digit>, right: seq<Digit>)
    requires |from| == 16 && |left| == |right| == 8 && OpensLeft(from, left) && OpensRight(from, right)
    ensures Initial(Spelled(from)) == Spelled(left) + Spelled(right)
  {
    hide OpensLeft, OpensRight, Spelled, Permute;
    IPPicks();
    forall t | 0 <= t < 64
      ensures Initial(Spelled(from))[t] == (Spelled(left) + Spelled(right))[t]
    {
      if t < 32 {
        OpensLeftIs(from, left, t);
      } else {
        OpensRightIs(from, right, t - 32);
      }
    }
  }

  lemma FinalIs(from: seq<Digit>, left: seq<Digit>, right: seq<Digit>)
    requires |from| == 16 && |left| == |right| == 8 && ClosesLeft(from, left) && ClosesRight(from, right)
    ensures Final(Spelled(from)) == Spelled(left) + Spelled(right)
  {
    hide ClosesLeft, ClosesRight, Spelled, Permute;
    FPPicks();
    forall t | 0 <= t < 64
      ensures Final(Spelled(from))[t] == (Spelled(left) + Spelled(right))[t]
    {
      if t < 32 {
        ClosesLeftIs(from, left, t);
      } else {
        ClosesRightIs(from, right, t - 32);
      }
    }
  }

  lemma KeptIs(from: seq<Digit>, left: seq<Digit>, right: seq<Digit>)
    requires |from| == 16 && |left| == |right| == 7 && KeepsLeft(from, left) && KeepsRight(from, right)
    ensures Kept(Spelled(from)) == Spelled(left) + Spelled(right)
  {
    hide KeepsLeft, KeepsRight, Spelled, Permute;
    PC1Picks();
    forall t | 0 <= t < 56
      ensures Kept(Spelled(from))[t] == (Spelled(left) + Spelled(right))[t]
    {
      if t < 28 {
        KeepsLeftIs(from, left, t);
      } else {
        KeepsRightIs(from, right, t - 28);
      }
    }
  }

  // ---------------------------------------------------------------- bytes

  lemma OneBit(n: nat, half: nat, bit: Bit, w: nat)
    requires n == 2 * half + bit && w > 0
    ensures LowBits(n, w) == LowBits(half, w - 1) + [bit]
  {
    hide LowBits;
    assert n / 2 == half && n % 2 == bit;
    assert LowBits(n, w) == LowBits(n / 2, w - 1) + [n % 2] by {
      LastBit(n, w);
    }
  }

  lemma LastBit(n: nat, w: nat)
    requires w > 0
    ensures LowBits(n, w) == LowBits(n / 2, w - 1) + [n % 2]
  {
  }

  lemma FourBits(h: nat, a: Bit, b: Bit, c: Bit, d: Bit, w: nat)
    ensures LowBits(16 * h + 8 * a + 4 * b + 2 * c + d, w + 4) == LowBits(h, w) + [a, b, c, d]
  {
    OneBit(16 * h + 8 * a + 4 * b + 2 * c + d, 8 * h + 4 * a + 2 * b + c, d, w + 4);
    OneBit(8 * h + 4 * a + 2 * b + c, 4 * h + 2 * a + b, c, w + 3);
    OneBit(4 * h + 2 * a + b, 2 * h + a, b, w + 2);
    OneBit(2 * h + a, h, a, w + 1);
    hide LowBits;
  }

  lemma ByteBits(b: Byte)
    ensures LowBits(b, 8) == LowBits(b / 16, 4) + LowBits(b % 16, 4)
  {
    var x := Hex(b % 16);
    DigitIs(b % 16);
    hide LowBits, Hex;
    FourBits(b / 16, x.a, x.b, x.c, x.d, 4);
    DigitBits(b % 16);
  }

  /** The digits of some bytes, two a byte. */
  function HexOf(data: seq<Byte>): (d: seq<Digit>)
    ensures |d| == 2 * |data|
  {
    if data == [] then []
    else HexOf(data[..|data| - 1]) + [Hex(data[|data| - 1] / 16), Hex(data[|data| - 1] % 16)]
  }

  lemma {:induction false} HexAt(data: seq<Byte>, i: nat)
    requires i < |data|
    ensures HexOf(data)[2 * i] == Hex(data[i] / 16) && HexOf(data)[2 * i + 1] == Hex(data[i] % 16)
  {
    hide Hex;
    if i < |data| - 1 {
      HexAt(data[..|data| - 1], i);
    }
  }

  /** Eight bytes and their sixteen digits. */
  predicate DigitsOf(data: seq<Byte>, d: seq<Digit>)
    requires |data| == 8 && |d| == 16
  {
    && Hex(data[0] / 16) == d[0] && Hex(data[0] % 16) == d[1]
    && Hex(data[1] / 16) == d[2] && Hex(data[1] % 16) == d[3]
    && Hex(data[2] / 16) == d[4] && Hex(data[2] % 16) == d[5]
    && Hex(data[3] / 16) == d[6] && Hex(data[3] % 16) == d[7]
    && Hex(data[4] / 16) == d[8] && Hex(data[4] % 16) == d[9]
    && Hex(data[5] / 16) == d[10] && Hex(data[5] % 16) == d[11]
    && Hex(data[6] / 16) == d[12] && Hex(data[6] % 16) == d[13]
    && Hex(data[7] / 16) == d[14] && Hex(data[7] % 16) == d[15]
  }

  lemma DigitsAre(data: seq<Byte>, d: seq<Digit>)
    requires |data| == 8 && |d| == 16 && DigitsOf(data, d)
    ensures HexOf(data) == d
  {
    hide Hex, HexOf;
    forall i | 0 <= i < 8
      ensures HexOf(data)[2 * i] == d[2 * i] && HexOf(data)[2 * i + 1] == d[2 * i + 1]
    {
      HexAt(data, i);
      assert i == 0 || i == 1 || i == 2 || i == 3 || i == 4 || i == 5 || i == 6 || i == 7;
    }
    hide DigitsOf;
    forall t | 0 <= t < 16
      ensures HexOf(data)[t] == d[t]
    {
      assert t == 2 * (t / 2) + t % 2;
    }
  }

  lemma SpelledByte(b: Byte)
    ensures Spelled([Hex(b / 16), Hex(b % 16)]) == LowBits(b, 8)
  {
    hide LowBits, Hex;
    ByteBits(b);
    DigitBits(b / 16);
    DigitBits(b % 16);
  }

  /** The bits of some bytes are what their digits spell. */
  lemma {:induction false} BitsAreHex(data: seq<Byte>)
    ensures Bits(data) == Spelled(HexOf(data))
  {
    hide LowBits, Hex, Spelled;
    if data == [] {
      Splits([], []);
    } else {
      var before, last := data[..|data| - 1], data[|data| - 1];
      BitsAreHex(before);
      SpelledByte(last);
      Splits(HexOf(before), [Hex(last / 16), Hex(last % 16)]);
    }
  }
}
