/** CRC-32C (section 12.1 of RFC 3720) and the 32 bit hashes built on it. */
module Crc {
  // -- one bit at a time ------------------------------------------------------------

  /** The generator polynomial 0x1edc6f41 with its bits in reverse order. */
  const POLYNOMIAL: bv32 := 0x82f6_3b78

  function Xor(c: bv32, d: bv32): bv32 { c ^ d }

  function Half(c: bv32): bv32 { c >> 1 }

  function Double(c: bv32): bv32 { c << 1 }

  predicate Odd(c: bv32) { c & 1 == 1 }

  predicate TopBit(c: bv32) { c & 0x8000_0000 != 0 }

  function Bit(b: bool): bv32 { if b then 1 else 0 }

  /** One step of the shift register; the bit shifted out selects the polynomial. */
  function Step(c: bv32): bv32 {
    if Odd(c) then Xor(Half(c), POLYNOMIAL) else Half(c)
  }

  /** The reference definition: the message enters the register bit by bit. */
  function Feed(c: bv32, bits: seq<bool>): bv32
    decreases |bits|
  {
    if bits == [] then c else Feed(Step(Xor(c, Bit(bits[0]))), bits[1..])
  }

  /** The bits of a byte, least significant first. */
  function ByteBits(b: bv8): (bits: seq<bool>)
    ensures |bits| == 8
  {
    [b & 1 != 0, b & 2 != 0, b & 4 != 0, b & 8 != 0, b & 16 != 0, b & 32 != 0, b & 64 != 0, b & 128 != 0]
  }

  function Bits(data: seq<bv8>): (bits: seq<bool>)
    ensures |bits| == 8 * |data|
  {
    if data == [] then [] else Bits(data[..|data| - 1]) + ByteBits(data[|data| - 1])
  }

  lemma {:induction false} FeedConcat(c: bv32, s: seq<bool>, t: seq<bool>)
    ensures Feed(c, s + t) == Feed(Feed(c, s), t)
    decreases |s|
  {
    if s == [] {
      assert s + t == t;
    } else {
      assert (s + t)[1..] == s[1..] + t;
      FeedConcat(Step(Xor(c, Bit(s[0]))), s[1..], t);
    }
  }

  lemma {:induction false} BitsConcat(s: seq<bv8>, t: seq<bv8>)
    ensures Bits(s + t) == Bits(s) + Bits(t)
  {
    if t == [] {
      assert s + t == s;
    } else {
      assert (s + t)[..|s + t| - 1] == s + t[..|t| - 1];
      BitsConcat(s, t[..|t| - 1]);
    }
  }

  // -- the register after many steps ------------------------------------------------------

  function Steps(c: bv32, n: nat): bv32
    decreases n
  {
    if n == 0 then c else Steps(Step(c), n - 1)
  }

  lemma HalfXor(x: bv32, y: bv32)
    ensures Half(Xor(x, y)) == Xor(Half(x), Half(y))
    ensures Odd(Xor(x, y)) <==> Odd(x) != Odd(y)
  {
  }

  lemma XorCancel(x: bv32, p: bv32)
    ensures Xor(p, Xor(x, p)) == x
  {
  }

  lemma XorAround(x: bv32, y: bv32, p: bv32)
    ensures Xor(Xor(x, y), p) == Xor(Xor(x, p), y) == Xor(x, Xor(y, p))
  {
  }

  lemma StepIsLinear(x: bv32, y: bv32)
    ensures Step(Xor(x, y)) == Xor(Step(x), Step(y))
  {
    HalfXor(x, y);
    if Odd(x) && Odd(y) {
      XorAround(Half(x), Xor(Half(y), POLYNOMIAL), POLYNOMIAL);
      XorCancel(Half(y), POLYNOMIAL);
    } else {
      XorAround(Half(x), Half(y), POLYNOMIAL);
    }
  }

  /** `Step` backwards: the top bit shows whether the polynomial was added. */
  function Unstep(c: bv32): bv32 {
    if TopBit(c) then Xor(Double(Xor(c, POLYNOMIAL)), 1) else Double(c)
  }

  lemma OddStep(c: bv32)
    requires Odd(c)
    ensures TopBit(Xor(Half(c), POLYNOMIAL)) && Xor(Double(Xor(Xor(Half(c), POLYNOMIAL), POLYNOMIAL)), 1) == c
  {
  }

  lemma EvenStep(c: bv32)
    requires !Odd(c)
    ensures !TopBit(Half(c)) && Double(Half(c)) == c
  {
  }

  lemma TopUnstep(c: bv32)
    requires TopBit(c)
    ensures Odd(Xor(Double(Xor(c, POLYNOMIAL)), 1)) && Xor(Half(Xor(Double(Xor(c, POLYNOMIAL)), 1)), POLYNOMIAL) == c
  {
  }

  lemma LowUnstep(c: bv32)
    requires !TopBit(c)
    ensures !Odd(Double(c)) && Half(Double(c)) == c
  {
  }

  lemma StepIsBijective(c: bv32)
    ensures Unstep(Step(c)) == c && Step(Unstep(c)) == c
  {
    if Odd(c) { OddStep(c); } else { EvenStep(c); }
    if TopBit(c) { TopUnstep(c); } else { LowUnstep(c); }
  }

  function Unsteps(c: bv32, n: nat): bv32
    decreases n
  {
    if n == 0 then c else Unstep(Unsteps(c, n - 1))
  }

  lemma {:induction false} StepsAreBijective(c: bv32, n: nat)
    ensures Unsteps(Steps(c, n), n) == c && Steps(Unsteps(c, n), n) == c
    decreases n
  {
    if n > 0 {
      StepsAreBijective(Step(c), n - 1);
      StepIsBijective(c);
      StepsAreBijective(c, n - 1);
      StepIsBijective(Unsteps(c, n - 1));
    }
  }

  // -- bits as words ------------------------------------------------------------------------

  function Push(w: bv32, b: bool): bv32 { (w << 1) ^ Bit(b) }

  /** Up to 32 bits as a word, the first one least significant. */
  function Word(bits: seq<bool>): bv32 {
    if bits == [] then 0 else Push(Word(bits[1..]), bits[0])
  }

  /** 2^(31 - k) */
  function Cap(k: nat): bv32 {
    if k == 0 then 0x8000_0000 else Half(Cap(k - 1))
  }

  predicate Below(w: bv32, cap: bv32) { w < cap <= 0x8000_0000 }

  lemma CapEnd()
    ensures Cap(31) == 1
  {
    assert Cap(2) == 0x2000_0000 && Cap(4) == 0x800_0000 && Cap(6) == 0x200_0000 && Cap(8) == 0x80_0000;
    assert Cap(10) == 0x20_0000 && Cap(12) == 0x8_0000 && Cap(14) == 0x2_0000 && Cap(16) == 0x8000;
    assert Cap(18) == 0x2000 && Cap(20) == 0x800 && Cap(22) == 0x200 && Cap(24) == 0x80;
    assert Cap(26) == 0x20 && Cap(28) == 8 && Cap(30) == 2;
  }

  lemma {:induction false} CapBound(k: nat)
    ensures Cap(k) <= 0x8000_0000
  {
    if k > 0 {
      CapBound(k - 1);
    }
  }

  lemma ShiftFits(w: bv32, cap: bv32)
    requires w < (cap >> 1) && cap <= 0x8000_0000
    ensures (w << 1) < cap && ((w << 1) ^ 1) < cap
  {
  }

  lemma PushFits(w: bv32, cap: bv32, b: bool)
    requires Below(w, Half(cap)) && cap <= 0x8000_0000
    ensures Below(Push(w, b), cap)
  {
    ShiftFits(w, cap);
  }

  lemma {:induction false} WordFits(bits: seq<bool>)
    requires |bits| < 32
    ensures Below(Word(bits), Cap(31 - |bits|))
  {
    if bits == [] {
      CapEnd();
    } else {
      WordFits(bits[1..]);
      CapBound(31 - |bits|);
      PushFits(Word(bits[1..]), Cap(31 - |bits|), bits[0]);
    }
  }

  lemma BelowTop(w: bv32, cap: bv32)
    requires Below(w, cap)
    ensures !TopBit(w)
  {
  }

  lemma PushIsInjective(v: bv32, w: bv32, b: bool, d: bool)
    requires !TopBit(v) && !TopBit(w) && Push(v, b) == Push(w, d)
    ensures v == w && b == d
  {
  }

  lemma {:induction false} WordIsInjective(u: seq<bool>, v: seq<bool>)
    requires |u| == |v| <= 32 && Word(u) == Word(v)
    ensures u == v
  {
    if u != [] {
      WordFits(u[1..]);
      WordFits(v[1..]);
      BelowTop(Word(u[1..]), Cap(32 - |u|));
      BelowTop(Word(v[1..]), Cap(32 - |u|));
      PushIsInjective(Word(u[1..]), Word(v[1..]), u[0], v[0]);
      WordIsInjective(u[1..], v[1..]);
      assert u == [u[0]] + u[1..] && v == [v[0]] + v[1..];
    }
  }

  lemma StepOfDouble(c: bv32, w: bv32)
    requires !TopBit(w)
    ensures Step(Xor(c, Double(w))) == Xor(Step(c), w)
  {
    StepIsLinear(c, Double(w));
    LowUnstep(w);
  }

  lemma XorPush(c: bv32, w: bv32, b: bool)
    ensures Xor(c, Push(w, b)) == Xor(Xor(c, Bit(b)), Double(w))
  {
  }

  /** Up to 32 bits may just as well be added to the register at once. */
  lemma {:induction false} FeedIsSteps(c: bv32, bits: seq<bool>)
    requires |bits| <= 32
    ensures Feed(c, bits) == Steps(Xor(c, Word(bits)), |bits|)
    decreases |bits|
  {
    if bits != [] {
      var w, b := Word(bits[1..]), Bit(bits[0]);
      WordFits(bits[1..]);
      BelowTop(w, Cap(32 - |bits|));
      XorPush(c, w, bits[0]);
      StepOfDouble(Xor(c, b), w);
      FeedIsSteps(Step(Xor(c, b)), bits[1..]);
    }
  }

  /** Feeding is invertible: different registers stay different. */
  lemma {:induction false} FeedIsInjective(c: bv32, d: bv32, bits: seq<bool>)
    requires Feed(c, bits) == Feed(d, bits)
    ensures c == d
    decreases |bits|
  {
    if bits != [] {
      var x := Bit(bits[0]);
      FeedIsInjective(Step(Xor(c, x)), Step(Xor(d, x)), bits[1..]);
      StepIsBijective(Xor(c, x));
      StepIsBijective(Xor(d, x));
      XorIsInjective(c, d, x);
    }
  }

  lemma XorIsInjective(c: bv32, d: bv32, x: bv32)
    requires Xor(c, x) == Xor(d, x)
    ensures c == d
  {
  }
  // -- one byte at a time, with a table ----------------------------------------------

  /** `crc_table`: sixteen rows of sixteen entries. */
  function Table(i: bv8): bv32 {
    match i >> 4
    case 0 => Row0(i & 15)
    case 1 => Row1(i & 15)
    case 2 => Row2(i & 15)
    case 3 => Row3(i & 15)
    case 4 => Row4(i & 15)
    case 5 => Row5(i & 15)
    case 6 => Row6(i & 15)
    case 7 => Row7(i & 15)
    case 8 => Row8(i & 15)
    case 9 => Row9(i & 15)
    case 10 => Row10(i & 15)
    case 11 => Row11(i & 15)
    case 12 => Row12(i & 15)
    case 13 => Row13(i & 15)
    case 14 => Row14(i & 15)
    case _ => Row15(i & 15)
  }

  function Row0(j: bv8): bv32 {
    match j
    case 0 => 0x00000000 case 1 => 0xf26b8303 case 2 => 0xe13b70f7 case 3 => 0x1350f3f4
    case 4 => 0xc79a971f case 5 => 0x35f1141c case 6 => 0x26a1e7e8 case 7 => 0xd4ca64eb
    case 8 => 0x8ad958cf case 9 => 0x78b2dbcc case 10 => 0x6be22838 case 11 => 0x9989ab3b
    case 12 => 0x4d43cfd0 case 13 => 0xbf284cd3 case 14 => 0xac78bf27 case _ => 0x5e133c24
  }

  function Row1(j: bv8): bv32 {
    match j
    case 0 => 0x105ec76f case 1 => 0xe235446c case 2 => 0xf165b798 case 3 => 0x030e349b
    case 4 => 0xd7c45070 case 5 => 0x25afd373 case 6 => 0x36ff2087 case 7 => 0xc494a384
    case 8 => 0x9a879fa0 case 9 => 0x68ec1ca3 case 10 => 0x7bbcef57 case 11 => 0x89d76c54
    case 12 => 0x5d1d08bf case 13 => 0xaf768bbc case 14 => 0xbc267848 case _ => 0x4e4dfb4b
  }

  function Row2(j: bv8): bv32 {
    match j
    case 0 => 0x20bd8ede case 1 => 0xd2d60ddd case 2 => 0xc186fe29 case 3 => 0x33ed7d2a
    case 4 => 0xe72719c1 case 5 => 0x154c9ac2 case 6 => 0x061c6936 case 7 => 0xf477ea35
    case 8 => 0xaa64d611 case 9 => 0x580f5512 case 10 => 0x4b5fa6e6 case 11 => 0xb93425e5
    case 12 => 0x6dfe410e case 13 => 0x9f95c20d case 14 => 0x8cc531f9 case _ => 0x7eaeb2fa
  }

  function Row3(j: bv8): bv32 {
    match j
    case 0 => 0x30e349b1 case 1 => 0xc288cab2 case 2 => 0xd1d83946 case 3 => 0x23b3ba45
    case 4 => 0xf779deae case 5 => 0x05125dad case 6 => 0x1642ae59 case 7 => 0xe4292d5a
    case 8 => 0xba3a117e case 9 => 0x4851927d case 10 => 0x5b016189 case 11 => 0xa96ae28a
    case 12 => 0x7da08661 case 13 => 0x8fcb0562 case 14 => 0x9c9bf696 case _ => 0x6ef07595
  }

  function Row4(j: bv8): bv32 {
    match j
    case 0 => 0x417b1dbc case 1 => 0xb3109ebf case 2 => 0xa0406d4b case 3 => 0x522bee48
    case 4 => 0x86e18aa3 case 5 => 0x748a09a0 case 6 => 0x67dafa54 case 7 => 0x95b17957
    case 8 => 0xcba24573 case 9 => 0x39c9c670 case 10 => 0x2a993584 case 11 => 0xd8f2b687
    case 12 => 0x0c38d26c case 13 => 0xfe53516f case 14 => 0xed03a29b case _ => 0x1f682198
  }

  function Row5(j: bv8): bv32 {
    match j
    case 0 => 0x5125dad3 case 1 => 0xa34e59d0 case 2 => 0xb01eaa24 case 3 => 0x42752927
    case 4 => 0x96bf4dcc case 5 => 0x64d4cecf case 6 => 0x77843d3b case 7 => 0x85efbe38
    case 8 => 0xdbfc821c case 9 => 0x2997011f case 10 => 0x3ac7f2eb case 11 => 0xc8ac71e8
    case 12 => 0x1c661503 case 13 => 0xee0d9600 case 14 => 0xfd5d65f4 case _ => 0x0f36e6f7
  }

  function Row6(j: bv8): bv32 {
    match j
    case 0 => 0x61c69362 case 1 => 0x93ad1061 case 2 => 0x80fde395 case 3 => 0x72966096
    case 4 => 0xa65c047d case 5 => 0x5437877e case 6 => 0x4767748a case 7 => 0xb50cf789
    case 8 => 0xeb1fcbad case 9 => 0x197448ae case 10 => 0x0a24bb5a case 11 => 0xf84f3859
    case 12 => 0x2c855cb2 case 13 => 0xdeeedfb1 case 14 => 0xcdbe2c45 case _ => 0x3fd5af46
  }

  function Row7(j: bv8): bv32 {
    match j
    case 0 => 0x7198540d case 1 => 0x83f3d70e case 2 => 0x90a324fa case 3 => 0x62c8a7f9
    case 4 => 0xb602c312 case 5 => 0x44694011 case 6 => 0x5739b3e5 case 7 => 0xa55230e6
    case 8 => 0xfb410cc2 case 9 => 0x092a8fc1 case 10 => 0x1a7a7c35 case 11 => 0xe811ff36
    case 12 => 0x3cdb9bdd case 13 => 0xceb018de case 14 => 0xdde0eb2a case _ => 0x2f8b6829
  }

  function Row8(j: bv8): bv32 {
    match j
    case 0 => 0x82f63b78 case 1 => 0x709db87b case 2 => 0x63cd4b8f case 3 => 0x91a6c88c
    case 4 => 0x456cac67 case 5 => 0xb7072f64 case 6 => 0xa457dc90 case 7 => 0x563c5f93
    case 8 => 0x082f63b7 case 9 => 0xfa44e0b4 case 10 => 0xe9141340 case 11 => 0x1b7f9043
    case 12 => 0xcfb5f4a8 case 13 => 0x3dde77ab case 14 => 0x2e8e845f case _ => 0xdce5075c
  }

  function Row9(j: bv8): bv32 {
    match j
    case 0 => 0x92a8fc17 case 1 => 0x60c37f14 case 2 => 0x73938ce0 case 3 => 0x81f80fe3
    case 4 => 0x55326b08 case 5 => 0xa759e80b case 6 => 0xb4091bff case 7 => 0x466298fc
    case 8 => 0x1871a4d8 case 9 => 0xea1a27db case 10 => 0xf94ad42f case 11 => 0x0b21572c
    case 12 => 0xdfeb33c7 case 13 => 0x2d80b0c4 case 14 => 0x3ed04330 case _ => 0xccbbc033
  }

  function Row10(j: bv8): bv32 {
    match j
    case 0 => 0xa24bb5a6 case 1 => 0x502036a5 case 2 => 0x4370c551 case 3 => 0xb11b4652
    case 4 => 0x65d122b9 case 5 => 0x97baa1ba case 6 => 0x84ea524e case 7 => 0x7681d14d
    case 8 => 0x2892ed69 case 9 => 0xdaf96e6a case 10 => 0xc9a99d9e case 11 => 0x3bc21e9d
    case 12 => 0xef087a76 case 13 => 0x1d63f975 case 14 => 0x0e330a81 case _ => 0xfc588982
  }

  function Row11(j: bv8): bv32 {
    match j
    case 0 => 0xb21572c9 case 1 => 0x407ef1ca case 2 => 0x532e023e case 3 => 0xa145813d
    case 4 => 0x758fe5d6 case 5 => 0x87e466d5 case 6 => 0x94b49521 case 7 => 0x66df1622
    case 8 => 0x38cc2a06 case 9 => 0xcaa7a905 case 10 => 0xd9f75af1 case 11 => 0x2b9cd9f2
    case 12 => 0xff56bd19 case 13 => 0x0d3d3e1a case 14 => 0x1e6dcdee case _ => 0xec064eed
  }

  function Row12(j: bv8): bv32 {
    match j
    case 0 => 0xc38d26c4 case 1 => 0x31e6a5c7 case 2 => 0x22b65633 case 3 => 0xd0ddd530
    case 4 => 0x0417b1db case 5 => 0xf67c32d8 case 6 => 0xe52cc12c case 7 => 0x1747422f
    case 8 => 0x49547e0b case 9 => 0xbb3ffd08 case 10 => 0xa86f0efc case 11 => 0x5a048dff
    case 12 => 0x8ecee914 case 13 => 0x7ca56a17 case 14 => 0x6ff599e3 case _ => 0x9d9e1ae0
  }

  function Row13(j: bv8): bv32 {
    match j
    case 0 => 0xd3d3e1ab case 1 => 0x21b862a8 case 2 => 0x32e8915c case 3 => 0xc083125f
    case 4 => 0x144976b4 case 5 => 0xe622f5b7 case 6 => 0xf5720643 case 7 => 0x07198540
    case 8 => 0x590ab964 case 9 => 0xab613a67 case 10 => 0xb831c993 case 11 => 0x4a5a4a90
    case 12 => 0x9e902e7b case 13 => 0x6cfbad78 case 14 => 0x7fab5e8c case _ => 0x8dc0dd8f
  }

  function Row14(j: bv8): bv32 {
    match j
    case 0 => 0xe330a81a case 1 => 0x115b2b19 case 2 => 0x020bd8ed case 3 => 0xf0605bee
    case 4 => 0x24aa3f05 case 5 => 0xd6c1bc06 case 6 => 0xc5914ff2 case 7 => 0x37faccf1
    case 8 => 0x69e9f0d5 case 9 => 0x9b8273d6 case 10 => 0x88d28022 case 11 => 0x7ab90321
    case 12 => 0xae7367ca case 13 => 0x5c18e4c9 case 14 => 0x4f48173d case _ => 0xbd23943e
  }

  function Row15(j: bv8): bv32 {
    match j
    case 0 => 0xf36e6f75 case 1 => 0x0105ec76 case 2 => 0x12551f82 case 3 => 0xe03e9c81
    case 4 => 0x34f4f86a case 5 => 0xc69f7b69 case 6 => 0xd5cf889d case 7 => 0x27a40b9e
    case 8 => 0x79b737ba case 9 => 0x8bdcb4b9 case 10 => 0x988c474d case 11 => 0x6ae7c44e
    case 12 => 0xbe2da0a5 case 13 => 0x4c4623a6 case 14 => 0x5f16d052 case _ => 0xad7d5351
  }

  function Wide(b: bv8): bv32 { b as bv32 }

  function Steps4(c: bv32): bv32 { Step(Step(Step(Step(c)))) }

  function Steps8(c: bv32): bv32 { Steps4(Steps4(c)) }

  lemma Steps8IsLinear(x: bv32, y: bv32)
    ensures Steps8(Xor(x, y)) == Xor(Steps8(x), Steps8(y))
  {
    Steps4IsLinear(x, y);
    Steps4IsLinear(Steps4(x), Steps4(y));
  }

  lemma Steps4IsLinear(x: bv32, y: bv32)
    ensures Steps4(Xor(x, y)) == Xor(Steps4(x), Steps4(y))
  {
    StepIsLinear(x, y);
    StepIsLinear(Step(x), Step(y));
    StepIsLinear(Step(Step(x)), Step(Step(y)));
    StepIsLinear(Step(Step(Step(x))), Step(Step(Step(y))));
  }

  // -- the table: its entries for single bits make up all others ---------------------------

  function Sum(a: bv32, b: bv32, c: bv32, d: bv32): bv32 {
    Xor(Xor(a, b), Xor(c, d))
  }

  function Only(on: bool, c: bv32): bv32 {
    if on then c else 0
  }

  lemma SingleBits()
    ensures Steps8(0) == 0
    ensures Steps8(1) == 0xf26b8303 && Steps8(2) == 0xe13b70f7 && Steps8(4) == 0xc79a971f && Steps8(8) == 0x8ad958cf
    ensures Steps8(16) == 0x105ec76f && Steps8(32) == 0x20bd8ede && Steps8(64) == 0x417b1dbc && Steps8(128) == 0x82f63b78
  {
  }

  lemma LowPairs(i: bv8)
    ensures Wide(i & 0x03) == Xor(Only(i & 1 != 0, 1), Only(i & 2 != 0, 2))
    ensures Wide(i & 0x0c) == Xor(Only(i & 4 != 0, 4), Only(i & 8 != 0, 8))
  {
  }

  lemma HighPairs(i: bv8)
    ensures Wide(i & 0x30) == Xor(Only(i & 16 != 0, 16), Only(i & 32 != 0, 32))
    ensures Wide(i & 0xc0) == Xor(Only(i & 64 != 0, 64), Only(i & 128 != 0, 128))
  {
  }

  lemma Pairs(i: bv8)
    ensures Wide(i & 0x0f) == Xor(Wide(i & 0x03), Wide(i & 0x0c)) && Wide(i & 0xf0) == Xor(Wide(i & 0x30), Wide(i & 0xc0))
  {
  }

  lemma LowEntry(i: bv8)
    ensures Row0(i & 0x0f) == Sum(Only(i & 1 != 0, 0xf26b8303), Only(i & 2 != 0, 0xe13b70f7),
                                  Only(i & 4 != 0, 0xc79a971f), Only(i & 8 != 0, 0x8ad958cf))
  {
  }

  lemma HighEntry(i: bv8)
    ensures Table(i & 0xf0) == Sum(Only(i & 16 != 0, 0x105ec76f), Only(i & 32 != 0, 0x20bd8ede),
                                   Only(i & 64 != 0, 0x417b1dbc), Only(i & 128 != 0, 0x82f63b78))
  {
  }

  lemma LowSteps(i: bv8)
    ensures Row0(i & 0x0f) == Steps8(Wide(i & 0x0f))
  {
    LowEntry(i);
    LowPairs(i);
    Pairs(i);
    SingleBits();
    Steps8IsLinear(Wide(i & 0x03), Wide(i & 0x0c));
    Steps8IsLinear(Only(i & 1 != 0, 1), Only(i & 2 != 0, 2));
    Steps8IsLinear(Only(i & 4 != 0, 4), Only(i & 8 != 0, 8));
  }

  lemma HighSteps(i: bv8)
    ensures Table(i & 0xf0) == Steps8(Wide(i & 0xf0))
  {
    HighEntry(i);
    HighPairs(i);
    Pairs(i);
    SingleBits();
    Steps8IsLinear(Wide(i & 0x30), Wide(i & 0xc0));
    Steps8IsLinear(Only(i & 16 != 0, 16), Only(i & 32 != 0, 32));
    Steps8IsLinear(Only(i & 64 != 0, 64), Only(i & 128 != 0, 128));
  }

  lemma Row1Is(j: bv8)
    requires j < 16
    ensures Row1(j) == Xor(Row1(0), Row0(j))
  {
  }

  lemma Row2Is(j: bv8)
    requires j < 16
    ensures Row2(j) == Xor(Row2(0), Row0(j))
  {
  }

  lemma Row3Is(j: bv8)
    requires j < 16
    ensures Row3(j) == Xor(Row3(0), Row0(j))
  {
  }

  lemma Row4Is(j: bv8)
    requires j < 16
    ensures Row4(j) == Xor(Row4(0), Row0(j))
  {
  }

  lemma Row5Is(j: bv8)
    requires j < 16
    ensures Row5(j) == Xor(Row5(0), Row0(j))
  {
  }

  lemma Row6Is(j: bv8)
    requires j < 16
    ensures Row6(j) == Xor(Row6(0), Row0(j))
  {
  }

  lemma Row7Is(j: bv8)
    requires j < 16
    ensures Row7(j) == Xor(Row7(0), Row0(j))
  {
  }

  lemma Row8Is(j: bv8)
    requires j < 16
    ensures Row8(j) == Xor(Row8(0), Row0(j))
  {
  }

  lemma Row9Is(j: bv8)
    requires j < 16
    ensures Row9(j) == Xor(Row9(0), Row0(j))
  {
  }

  lemma Row10Is(j: bv8)
    requires j < 16
    ensures Row10(j) == Xor(Row10(0), Row0(j))
  {
  }

  lemma Row11Is(j: bv8)
    requires j < 16
    ensures Row11(j) == Xor(Row11(0), Row0(j))
  {
  }

  lemma Row12Is(j: bv8)
    requires j < 16
    ensures Row12(j) == Xor(Row12(0), Row0(j))
  {
  }

  lemma Row13Is(j: bv8)
    requires j < 16
    ensures Row13(j) == Xor(Row13(0), Row0(j))
  {
  }

  lemma Row14Is(j: bv8)
    requires j < 16
    ensures Row14(j) == Xor(Row14(0), Row0(j))
  {
  }

  lemma Row15Is(j: bv8)
    requires j < 16
    ensures Row15(j) == Xor(Row15(0), Row0(j))
  {
  }

  lemma TableSplits(i: bv8)
    ensures Table(i) == Xor(Table(i & 0xf0), Row0(i & 15))
  {
    match i >> 4
    case 0 =>
    case 1 => Row1Is(i & 15);
    case 2 => Row2Is(i & 15);
    case 3 => Row3Is(i & 15);
    case 4 => Row4Is(i & 15);
    case 5 => Row5Is(i & 15);
    case 6 => Row6Is(i & 15);
    case 7 => Row7Is(i & 15);
    case 8 => Row8Is(i & 15);
    case 9 => Row9Is(i & 15);
    case 10 => Row10Is(i & 15);
    case 11 => Row11Is(i & 15);
    case 12 => Row12Is(i & 15);
    case 13 => Row13Is(i & 15);
    case 14 => Row14Is(i & 15);
    case _ => Row15Is(i & 15);
  }

  lemma Nibbles(i: bv8)
    ensures Wide(i) == Xor(Wide(i & 0xf0), Wide(i & 0x0f))
  {
  }

  /** All 256 entries: the table holds the register after eight steps. */
  lemma TableIsEightSteps(i: bv8)
    ensures Table(i) == Steps8(Wide(i))
  {
    TableSplits(i);
    LowSteps(i);
    HighSteps(i);
    Nibbles(i);
    Steps8IsLinear(Wide(i & 0xf0), Wide(i & 0x0f));
  }

  function Low(c: bv32): bv8 { (c & 0xff) as bv8 }

  function High(c: bv32): bv32 { c & 0xffff_ff00 }

  lemma Split(c: bv32)
    ensures Xor(High(c), Wide(Low(c))) == c
  {
  }

  lemma HighShifts(c: bv32)
    ensures Steps8(High(c)) == c >> 8
  {
  }

  /** Eight steps shift the upper bytes down unchanged. */
  lemma LowByteSteps(c: bv32)
    ensures Steps8(c) == Xor(Steps8(Wide(Low(c))), c >> 8)
  {
    Split(c);
    Steps8IsLinear(High(c), Wide(Low(c)));
    HighShifts(c);
    XorCommutes(c >> 8, Steps8(Wide(Low(c))));
  }

  lemma XorCommutes(x: bv32, y: bv32)
    ensures Xor(x, y) == Xor(y, x)
  {
  }

  function PushFour(c: bv32, b3: bool, b2: bool, b1: bool, b0: bool): bv32 {
    Push(Push(Push(Push(c, b3), b2), b1), b0)
  }

  lemma WordOfFour(bits: seq<bool>)
    requires |bits| >= 4
    ensures Word(bits) == PushFour(Word(bits[4..]), bits[3], bits[2], bits[1], bits[0])
  {
    assert Word(bits[3..]) == Push(Word(bits[4..]), bits[3]);
    assert Word(bits[2..]) == Push(Word(bits[3..]), bits[2]);
    assert Word(bits[1..]) == Push(Word(bits[2..]), bits[1]);
  }

  lemma WordOfByte(bits: seq<bool>)
    requires |bits| == 8
    ensures Word(bits) == PushFour(PushFour(0, bits[7], bits[6], bits[5], bits[4]), bits[3], bits[2], bits[1], bits[0])
  {
    WordOfFour(bits);
    WordOfFour(bits[4..]);
    assert Word(bits[4..][4..]) == 0;
  }

  lemma Digits(b: bv8)
    ensures PushFour(PushFour(0, b & 128 != 0, b & 64 != 0, b & 32 != 0, b & 16 != 0),
                     b & 8 != 0, b & 4 != 0, b & 2 != 0, b & 1 != 0) == Wide(b)
  {
  }

  lemma ByteWord(b: bv8)
    ensures Word(ByteBits(b)) == Wide(b)
  {
    WordOfByte(ByteBits(b));
    Digits(b);
  }

  lemma EightSteps(c: bv32)
    ensures Steps(c, 8) == Steps8(c)
  {
    assert Steps(c, 8) == Steps(Step(c), 7) == Steps(Step(Step(c)), 6) == Steps(Step(Step(Step(c))), 5);
    assert Steps(Steps4(c), 4) == Steps(Step(Steps4(c)), 3) == Steps(Step(Step(Steps4(c))), 2);
  }

  /** Looking up one byte feeds its eight bits. */
  lemma ByteUpdate(c: bv32, b: bv8)
    ensures Xor(Table(Low(Xor(c, Wide(b)))), c >> 8) == Feed(c, ByteBits(b))
  {
    var x := Xor(c, Wide(b));
    LowByteSteps(x);
    TableIsEightSteps(Low(x));
    SameHigh(c, b);
    ByteWord(b);
    FeedIsSteps(c, ByteBits(b));
    EightSteps(x);
  }

  lemma SameHigh(c: bv32, b: bv8)
    ensures Xor(c, Wide(b)) >> 8 == c >> 8
  {
  }

  lemma NextByte(crc: bv32, data: seq<bv8>, d: nat)
    requires d < |data|
    ensures Feed(Feed(crc, Bits(data[..d])), ByteBits(data[d])) == Feed(crc, Bits(data[..d + 1]))
  {
    FeedConcat(crc, Bits(data[..d]), ByteBits(data[d]));
    assert data[..d + 1][..d] == data[..d];
  }

  /** `crc_update`; `crc_t` may be wider than 32 bits, but the mask and the initial value
      keep it a 32 bit number. */
  method CrcUpdate(crc: bv32, data: seq<bv8>) returns (r: bv32)
    ensures r == Feed(crc, Bits(data))
  {
    r := crc;
    var d: nat, dataLen: nat := 0, |data|;
    while dataLen > 0
      invariant d + dataLen == |data|
      invariant r == Feed(crc, Bits(data[..d]))
    {
      dataLen := dataLen - 1;
      ByteUpdate(r, data[d]);
      NextByte(crc, data, d);
      var tblIdx := Low(Xor(r, Wide(data[d])));
      r := Xor(Table(tblIdx), r >> 8);
      d := d + 1;
    }
    assert data[..|data|] == data;
  }

  // -- what the register can tell apart --------------------------------------------------------

  /** Feeding a concatenation is feeding its parts in turn. */
  lemma UpdateInParts(crc: bv32, s: seq<bv8>, t: seq<bv8>)
    ensures Feed(crc, Bits(s + t)) == Feed(Feed(crc, Bits(s)), Bits(t))
  {
    BitsConcat(s, t);
    FeedConcat(crc, Bits(s), Bits(t));
  }

  /** Messages of one length that differ only within 32 consecutive bits end up in
      different registers. */
  lemma BurstsAreSeen(crc: bv32, before: seq<bool>, u: seq<bool>, v: seq<bool>, after: seq<bool>)
    requires |u| == |v| <= 32 && u != v
    ensures Feed(crc, before + u + after) != Feed(crc, before + v + after)
  {
    var c := Feed(crc, before);
    FeedConcat(crc, before, u);
    FeedConcat(crc, before, v);
    FeedConcat(crc, before + u, after);
    FeedConcat(crc, before + v, after);
    if Feed(crc, before + u + after) == Feed(crc, before + v + after) {
      FeedIsInjective(Feed(c, u), Feed(c, v), after);
      FeedIsSteps(c, u);
      FeedIsSteps(c, v);
      StepsAreBijective(Xor(c, Word(u)), |u|);
      StepsAreBijective(Xor(c, Word(v)), |u|);
      XorCommutes(c, Word(u));
      XorCommutes(c, Word(v));
      XorIsInjective(Word(u), Word(v), c);
      WordIsInjective(u, v);
    }
  }

  // -- hashes ---------------------------------------------------------------------------------------

  const CRC_INIT: bv32 := 0xffff_ffff

  /** What `hash` computes for a string or for the four bytes of an address. */
  function Hash(data: seq<bv8>): bv32 {
    Xor(Feed(CRC_INIT, Bits(data)), 0xffff_ffff)
  }

  /** `hash<std::string>` and `hash<caf::ipv4_address>` */
  method ComputeHash(data: seq<bv8>) returns (h: bv32)
    ensures h == Hash(data)
  {
    h := CRC_INIT;
    h := CrcUpdate(h, data);
    h := Xor(h, 0xffff_ffff);
  }

  /** Equal hashes, equal registers. */
  lemma HashSeesBursts(s: seq<bv8>, t: seq<bv8>, before: seq<bool>, u: seq<bool>, v: seq<bool>, after: seq<bool>)
    requires Bits(s) == before + u + after && Bits(t) == before + v + after
    requires |u| == |v| <= 32 && u != v
    ensures Hash(s) != Hash(t)
  {
    BurstsAreSeen(CRC_INIT, before, u, v, after);
    if Hash(s) == Hash(t) {
      XorIsInjective(Feed(CRC_INIT, Bits(s)), Feed(CRC_INIT, Bits(t)), 0xffff_ffff);
    }
  }

  lemma ByteBitsAreInjective(b: bv8, d: bv8)
    requires ByteBits(b) == ByteBits(d)
    ensures b == d
  {
    ByteWord(b);
    ByteWord(d);
    WideIsInjective(b, d);
  }

  lemma WideIsInjective(b: bv8, d: bv8)
    requires Wide(b) == Wide(d)
    ensures b == d
  {
  }

  lemma PairsAreInjective<T>(s: seq<T>, t: seq<T>, u: seq<T>, v: seq<T>)
    requires |s| == |t| && s + u == t + v
    ensures s == t && u == v
  {
    assert s == (s + u)[..|s|] && t == (t + v)[..|t|];
    assert u == (s + u)[|s|..] && v == (t + v)[|t|..];
  }

  lemma {:induction false} BitsAreInjective(s: seq<bv8>, t: seq<bv8>)
    requires |s| == |t| && Bits(s) == Bits(t)
    ensures s == t
  {
    if s != [] {
      var n := |s| - 1;
      PairsAreInjective(Bits(s[..n]), Bits(t[..n]), ByteBits(s[n]), ByteBits(t[n]));
      BitsAreInjective(s[..n], t[..n]);
      ByteBitsAreInjective(s[n], t[n]);
      assert s == s[..n] + [s[n]] && t == t[..n] + [t[n]];
    }
  }

  /** Strings of one length that differ only within four consecutive bytes, in particular in
      a single byte, never share a hash. */
  lemma NearbyStringsDoNotCollide(s: seq<bv8>, t: seq<bv8>, from: nat, to: nat)
    requires from <= to <= |s| == |t| && to - from <= 4
    requires s[..from] == t[..from] && s[to..] == t[to..]
    requires s != t
    ensures Hash(s) != Hash(t)
  {
    var u, v := s[from..to], t[from..to];
    assert s == s[..from] + u + s[to..] && t == s[..from] + v + s[to..];
    BitsConcat(s[..from], u);
    BitsConcat(s[..from] + u, s[to..]);
    BitsConcat(s[..from], v);
    BitsConcat(s[..from] + v, s[to..]);
    if Bits(u) == Bits(v) {
      BitsAreInjective(u, v);
    }
    HashSeesBursts(s, t, Bits(s[..from]), Bits(u), Bits(v), Bits(s[to..]));
  }

  // -- IPv4 addresses ------------------------------------------------------------------------------

  function Shifted(w: bv32, n: nat): bv32
    decreases n
  {
    if n == 0 then w else Double(Shifted(w, n - 1))
  }

  lemma PushIsXor(w: bv32, b: bool)
    ensures Push(w, b) == Xor(Double(w), Bit(b))
  {
  }

  lemma DoubleXor(v: bv32, w: bv32)
    ensures Double(Xor(v, w)) == Xor(Double(v), Double(w))
  {
  }

  lemma PushIsLinear(v: bv32, w: bv32, b: bool)
    ensures Push(Xor(v, w), b) == Xor(Double(v), Push(w, b))
  {
    PushIsXor(Xor(v, w), b);
    PushIsXor(w, b);
    DoubleXor(v, w);
    XorAround(Double(v), Double(w), Bit(b));
  }

  lemma {:induction false} WordConcat(s: seq<bool>, t: seq<bool>)
    ensures Word(s + t) == Xor(Shifted(Word(t), |s|), Word(s))
  {
    if s == [] {
      assert s + t == t;
      XorZero(Word(t));
    } else {
      assert (s + t)[1..] == s[1..] + t;
      WordConcat(s[1..], t);
      PushIsLinear(Shifted(Word(t), |s| - 1), Word(s[1..]), s[0]);
    }
  }

  lemma XorZero(w: bv32)
    ensures Xor(w, 0) == w
  {
  }

  lemma EightDoubles(w: bv32)
    ensures Double(Double(Double(Double(Double(Double(Double(Double(w)))))))) == w << 8
  {
  }

  lemma ShiftedEight(w: bv32)
    ensures Shifted(w, 8) == Double(Double(Double(Double(Double(Double(Double(Double(w))))))))
  {
    assert Shifted(w, 2) == Double(Double(w));
    assert Shifted(w, 4) == Double(Double(Double(Double(w))));
    assert Shifted(w, 6) == Double(Double(Double(Double(Double(Double(w))))));
  }

  lemma ShiftedByByte(w: bv32)
    ensures Shifted(w, 8) == w << 8
  {
    ShiftedEight(w);
    EightDoubles(w);
  }

  /** A word one byte up, with `b` below it. */
  function Under(w: bv32, b: bv8): bv32 { Xor(w << 8, Wide(b)) }

  /** The four bytes of a word, least significant first. */
  function WordBytes(w: bv32): (a: seq<bv8>)
    ensures |a| == 4
  {
    [Low(w), Low(w >> 8), Low(w >> 16), Low(w >> 24)]
  }

  lemma BytesWord(b: bv8, rest: seq<bv8>)
    ensures Word(Bits([b] + rest)) == Under(Word(Bits(rest)), b)
  {
    BitsConcat([b], rest);
    assert [b][..0] == [];
    assert Bits([b]) == ByteBits(b);
    WordConcat(ByteBits(b), Bits(rest));
    ShiftedByByte(Word(Bits(rest)));
    ByteWord(b);
  }

  lemma FourBytesWord(a: seq<bv8>)
    requires |a| == 4
    ensures Word(Bits(a)) == Under(Under(Under(Under(0, a[3]), a[2]), a[1]), a[0])
  {
    assert a == [a[0]] + a[1..] && a[1..] == [a[1]] + a[2..] && a[2..] == [a[2]] + a[3..] && a[3..] == [a[3]] + [];
    BytesWord(a[0], a[1..]);
    BytesWord(a[1], a[2..]);
    BytesWord(a[2], a[3..]);
    BytesWord(a[3], []);
  }

  lemma Reassemble(w: bv32)
    ensures Under(Under(Under(Under(0, Low(w >> 24)), Low(w >> 16)), Low(w >> 8)), Low(w)) == w
  {
  }

  lemma WordOfWordBytes(w: bv32)
    ensures Word(Bits(WordBytes(w))) == w
  {
    FourBytesWord(WordBytes(w));
    Reassemble(w);
  }

  /** The address with a given hash. */
  function AddressOf(h: bv32): (a: seq<bv8>)
    ensures |a| == 4
  {
    WordBytes(Xor(CRC_INIT, Unsteps(Xor(h, 0xffff_ffff), 32)))
  }

  /** The hash is a permutation of the 32 bit numbers on IPv4 addresses: every number is
      the hash of exactly one address. */
  lemma AddressHashIsPermutation(h: bv32, a: seq<bv8>)
    requires |a| == 4
    ensures Hash(a) == h <==> a == AddressOf(h)
  {
    HashOfAddressOf(h);
    var b := AddressOf(h);
    if a != b {
      assert a[..0] == b[..0] && a[4..] == b[4..];
      NearbyStringsDoNotCollide(a, b, 0, 4);
    }
  }

  lemma HashOfAddressOf(h: bv32)
    ensures Hash(AddressOf(h)) == h
  {
    var r := Xor(h, 0xffff_ffff);
    var w := Xor(CRC_INIT, Unsteps(r, 32));
    WordOfWordBytes(w);
    FeedIsSteps(CRC_INIT, Bits(AddressOf(h)));
    XorCommutes(CRC_INIT, Unsteps(r, 32));
    XorCancel(Unsteps(r, 32), CRC_INIT);
    StepsAreBijective(r, 32);
    XorCommutes(h, 0xffff_ffff);
    XorCancel(h, 0xffff_ffff);
    XorCommutes(r, 0xffff_ffff);
  }

  // -- a known hash ----------------------------------------------------------------------------------

  /** The loop body of `crc_update`. */
  function NextRegister(c: bv32, b: bv8): bv32 {
    Xor(Table(Low(Xor(c, Wide(b)))), c >> 8)
  }

  ghost predicate Follows(regs: seq<bv32>, data: seq<bv8>, d: nat) {
    d < |data| && d + 1 < |regs| && regs[d + 1] == NextRegister(regs[d], data[d])
  }

  lemma FedRegister(regs: seq<bv32>, data: seq<bv8>, d: nat)
    requires Follows(regs, data, d) && Feed(CRC_INIT, Bits(data[..d])) == regs[d]
    ensures Feed(CRC_INIT, Bits(data[..d + 1])) == regs[d + 1]
  {
    ByteUpdate(regs[d], data[d]);
    NextByte(CRC_INIT, data, d);
  }

  lemma {:induction false} FedRegisters(regs: seq<bv32>, data: seq<bv8>, d: nat)
    requires d <= |data| && d < |regs| && regs[0] == CRC_INIT
    requires forall e: nat | e < d :: Follows(regs, data, e)
    ensures Feed(CRC_INIT, Bits(data[..d])) == regs[d]
  {
    if d == 0 {
      assert Bits(data[..0]) == [];
    } else {
      FedRegisters(regs, data, d - 1);
      FedRegister(regs, data, d - 1);
    }
  }

  /** The digits from one to nine. */
  const DIGITS: seq<bv8> := [0x31, 0x32, 0x33, 0x34, 0x35, 0x36, 0x37, 0x38, 0x39]

  const REGISTERS: seq<bv32> := [0xffff_ffff, 0x6f0a_661c, 0x8caa_3b9f, 0xef84_d04d, 0x09c5_0b11, 0xe72e_dcca,
                                 0xbeca_8e79, 0xedbd_6815, 0x9f78_7f65, 0x1cf9_6d7c]

  lemma FirstDigits()
    ensures Follows(REGISTERS, DIGITS, 0) && Follows(REGISTERS, DIGITS, 1) && Follows(REGISTERS, DIGITS, 2)
  {
  }

  lemma MiddleDigits()
    ensures Follows(REGISTERS, DIGITS, 3) && Follows(REGISTERS, DIGITS, 4) && Follows(REGISTERS, DIGITS, 5)
  {
  }

  lemma LastDigits()
    ensures Follows(REGISTERS, DIGITS, 6) && Follows(REGISTERS, DIGITS, 7) && Follows(REGISTERS, DIGITS, 8)
  {
  }

  lemma DigitFollows(d: nat)
    requires d < 9
    ensures Follows(REGISTERS, DIGITS, d)
  {
    if d < 3 {
      FirstDigits();
    } else if d < 6 {
      MiddleDigits();
    } else {
      LastDigits();
    }
  }

  /** The check value of CRC-32C: the hash of these digits. */
  lemma CheckValue()
    ensures Hash(DIGITS) == 0xe306_9283
  {
    forall e: nat | e < 9 ensures Follows(REGISTERS, DIGITS, e) {
      DigitFollows(e);
    }
    FedRegisters(REGISTERS, DIGITS, 9);
    assert DIGITS[..9] == DIGITS;
  }

  /** Nothing hashes to zero. */
  lemma EmptyHash()
    ensures Hash([]) == 0
  {
    assert Bits([]) == [];
  }
}
