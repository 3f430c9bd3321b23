/** The table-driven CRC-32 of `tuya_hashmap.c` and the bit-by-bit division it stands for. */
module Crc {

  /** The polynomial, reflected: the highest-order term is in the lowest bit. */
  const POLY: bv32 := 0xedb88320

  // The 32-bit operations, named so that a proof can treat them as given where only their laws matter.

  function Xor(a: bv32, b: bv32): bv32 { a ^ b }
  function Half(c: bv32): bv32 { c >> 1 }
  function Rest(c: bv32): bv32 { c >> 8 }
  function Byte(c: bv32): bv32 { c & 0xff }
  function High(c: bv32): bv32 { c & 0xffffff00 }

  // ---------- Division one bit at a time ----------

  function Feedback(c: bv32): bv32 { if c & 1 == 1 then POLY else 0 }

  /** One step of the shift register: divide by x, subtracting the polynomial if a bit falls out. */
  function Shift(c: bv32): bv32 { Xor(Half(c), Feedback(c)) }

  function Shift8(c: bv32): bv32 { Shift(Shift(Shift(Shift(Shift(Shift(Shift(Shift(c)))))))) }

  /** The register after the whole message, lowest bit of each byte first, from a zero register. */
  function BitwiseCrc(s: seq<bv8>): bv32 {
    if s == [] then 0 else Shift8(Xor(BitwiseCrc(s[..|s| - 1]), s[|s| - 1] as bv32))
  }

  // ---------- `crc32_tab`, sixteen entries to a row ----------

  function Row0(k: bv32): bv32 {
    if k == 0 then 0x00000000 else if k == 1 then 0x77073096 else if k == 2 then 0xee0e612c else if k == 3 then 0x990951ba else
    if k == 4 then 0x076dc419 else if k == 5 then 0x706af48f else if k == 6 then 0xe963a535 else if k == 7 then 0x9e6495a3 else
    if k == 8 then 0x0edb8832 else if k == 9 then 0x79dcb8a4 else if k == 10 then 0xe0d5e91e else if k == 11 then 0x97d2d988 else
    if k == 12 then 0x09b64c2b else if k == 13 then 0x7eb17cbd else if k == 14 then 0xe7b82d07 else 0x90bf1d91
  }

  function Row1(k: bv32): bv32 {
    if k == 0 then 0x1db71064 else if k == 1 then 0x6ab020f2 else if k == 2 then 0xf3b97148 else if k == 3 then 0x84be41de else
    if k == 4 then 0x1adad47d else if k == 5 then 0x6ddde4eb else if k == 6 then 0xf4d4b551 else if k == 7 then 0x83d385c7 else
    if k == 8 then 0x136c9856 else if k == 9 then 0x646ba8c0 else if k == 10 then 0xfd62f97a else if k == 11 then 0x8a65c9ec else
    if k == 12 then 0x14015c4f else if k == 13 then 0x63066cd9 else if k == 14 then 0xfa0f3d63 else 0x8d080df5
  }

  function Row2(k: bv32): bv32 {
    if k == 0 then 0x3b6e20c8 else if k == 1 then 0x4c69105e else if k == 2 then 0xd56041e4 else if k == 3 then 0xa2677172 else
    if k == 4 then 0x3c03e4d1 else if k == 5 then 0x4b04d447 else if k == 6 then 0xd20d85fd else if k == 7 then 0xa50ab56b else
    if k == 8 then 0x35b5a8fa else if k == 9 then 0x42b2986c else if k == 10 then 0xdbbbc9d6 else if k == 11 then 0xacbcf940 else
    if k == 12 then 0x32d86ce3 else if k == 13 then 0x45df5c75 else if k == 14 then 0xdcd60dcf else 0xabd13d59
  }

  function Row3(k: bv32): bv32 {
    if k == 0 then 0x26d930ac else if k == 1 then 0x51de003a else if k == 2 then 0xc8d75180 else if k == 3 then 0xbfd06116 else
    if k == 4 then 0x21b4f4b5 else if k == 5 then 0x56b3c423 else if k == 6 then 0xcfba9599 else if k == 7 then 0xb8bda50f else
    if k == 8 then 0x2802b89e else if k == 9 then 0x5f058808 else if k == 10 then 0xc60cd9b2 else if k == 11 then 0xb10be924 else
    if k == 12 then 0x2f6f7c87 else if k == 13 then 0x58684c11 else if k == 14 then 0xc1611dab else 0xb6662d3d
  }

  function Row4(k: bv32): bv32 {
    if k == 0 then 0x76dc4190 else if k == 1 then 0x01db7106 else if k == 2 then 0x98d220bc else if k == 3 then 0xefd5102a else
    if k == 4 then 0x71b18589 else if k == 5 then 0x06b6b51f else if k == 6 then 0x9fbfe4a5 else if k == 7 then 0xe8b8d433 else
    if k == 8 then 0x7807c9a2 else if k == 9 then 0x0f00f934 else if k == 10 then 0x9609a88e else if k == 11 then 0xe10e9818 else
    if k == 12 then 0x7f6a0dbb else if k == 13 then 0x086d3d2d else if k == 14 then 0x91646c97 else 0xe6635c01
  }

  function Row5(k: bv32): bv32 {
    if k == 0 then 0x6b6b51f4 else if k == 1 then 0x1c6c6162 else if k == 2 then 0x856530d8 else if k == 3 then 0xf262004e else
    if k == 4 then 0x6c0695ed else if k == 5 then 0x1b01a57b else if k == 6 then 0x8208f4c1 else if k == 7 then 0xf50fc457 else
    if k == 8 then 0x65b0d9c6 else if k == 9 then 0x12b7e950 else if k == 10 then 0x8bbeb8ea else if k == 11 then 0xfcb9887c else
    if k == 12 then 0x62dd1ddf else if k == 13 then 0x15da2d49 else if k == 14 then 0x8cd37cf3 else 0xfbd44c65
  }

  function Row6(k: bv32): bv32 {
    if k == 0 then 0x4db26158 else if k == 1 then 0x3ab551ce else if k == 2 then 0xa3bc0074 else if k == 3 then 0xd4bb30e2 else
    if k == 4 then 0x4adfa541 else if k == 5 then 0x3dd895d7 else if k == 6 then 0xa4d1c46d else if k == 7 then 0xd3d6f4fb else
    if k == 8 then 0x4369e96a else if k == 9 then 0x346ed9fc else if k == 10 then 0xad678846 else if k == 11 then 0xda60b8d0 else
    if k == 12 then 0x44042d73 else if k == 13 then 0x33031de5 else if k == 14 then 0xaa0a4c5f else 0xdd0d7cc9
  }

  function Row7(k: bv32): bv32 {
    if k == 0 then 0x5005713c else if k == 1 then 0x270241aa else if k == 2 then 0xbe0b1010 else if k == 3 then 0xc90c2086 else
    if k == 4 then 0x5768b525 else if k == 5 then 0x206f85b3 else if k == 6 then 0xb966d409 else if k == 7 then 0xce61e49f else
    if k == 8 then 0x5edef90e else if k == 9 then 0x29d9c998 else if k == 10 then 0xb0d09822 else if k == 11 then 0xc7d7a8b4 else
    if k == 12 then 0x59b33d17 else if k == 13 then 0x2eb40d81 else if k == 14 then 0xb7bd5c3b else 0xc0ba6cad
  }

  function Row8(k: bv32): bv32 {
    if k == 0 then 0xedb88320 else if k == 1 then 0x9abfb3b6 else if k == 2 then 0x03b6e20c else if k == 3 then 0x74b1d29a else
    if k == 4 then 0xead54739 else if k == 5 then 0x9dd277af else if k == 6 then 0x04db2615 else if k == 7 then 0x73dc1683 else
    if k == 8 then 0xe3630b12 else if k == 9 then 0x94643b84 else if k == 10 then 0x0d6d6a3e else if k == 11 then 0x7a6a5aa8 else
    if k == 12 then 0xe40ecf0b else if k == 13 then 0x9309ff9d else if k == 14 then 0x0a00ae27 else 0x7d079eb1
  }

  function Row9(k: bv32): bv32 {
    if k == 0 then 0xf00f9344 else if k == 1 then 0x8708a3d2 else if k == 2 then 0x1e01f268 else if k == 3 then 0x6906c2fe else
    if k == 4 then 0xf762575d else if k == 5 then 0x806567cb else if k == 6 then 0x196c3671 else if k == 7 then 0x6e6b06e7 else
    if k == 8 then 0xfed41b76 else if k == 9 then 0x89d32be0 else if k == 10 then 0x10da7a5a else if k == 11 then 0x67dd4acc else
    if k == 12 then 0xf9b9df6f else if k == 13 then 0x8ebeeff9 else if k == 14 then 0x17b7be43 else 0x60b08ed5
  }

  function RowA(k: bv32): bv32 {
    if k == 0 then 0xd6d6a3e8 else if k == 1 then 0xa1d1937e else if k == 2 then 0x38d8c2c4 else if k == 3 then 0x4fdff252 else
    if k == 4 then 0xd1bb67f1 else if k == 5 then 0xa6bc5767 else if k == 6 then 0x3fb506dd else if k == 7 then 0x48b2364b else
    if k == 8 then 0xd80d2bda else if k == 9 then 0xaf0a1b4c else if k == 10 then 0x36034af6 else if k == 11 then 0x41047a60 else
    if k == 12 then 0xdf60efc3 else if k == 13 then 0xa867df55 else if k == 14 then 0x316e8eef else 0x4669be79
  }

  function RowB(k: bv32): bv32 {
    if k == 0 then 0xcb61b38c else if k == 1 then 0xbc66831a else if k == 2 then 0x256fd2a0 else if k == 3 then 0x5268e236 else
    if k == 4 then 0xcc0c7795 else if k == 5 then 0xbb0b4703 else if k == 6 then 0x220216b9 else if k == 7 then 0x5505262f else
    if k == 8 then 0xc5ba3bbe else if k == 9 then 0xb2bd0b28 else if k == 10 then 0x2bb45a92 else if k == 11 then 0x5cb36a04 else
    if k == 12 then 0xc2d7ffa7 else if k == 13 then 0xb5d0cf31 else if k == 14 then 0x2cd99e8b else 0x5bdeae1d
  }

  function RowC(k: bv32): bv32 {
    if k == 0 then 0x9b64c2b0 else if k == 1 then 0xec63f226 else if k == 2 then 0x756aa39c else if k == 3 then 0x026d930a else
    if k == 4 then 0x9c0906a9 else if k == 5 then 0xeb0e363f else if k == 6 then 0x72076785 else if k == 7 then 0x05005713 else
    if k == 8 then 0x95bf4a82 else if k == 9 then 0xe2b87a14 else if k == 10 then 0x7bb12bae else if k == 11 then 0x0cb61b38 else
    if k == 12 then 0x92d28e9b else if k == 13 then 0xe5d5be0d else if k == 14 then 0x7cdcefb7 else 0x0bdbdf21
  }

  function RowD(k: bv32): bv32 {
    if k == 0 then 0x86d3d2d4 else if k == 1 then 0xf1d4e242 else if k == 2 then 0x68ddb3f8 else if k == 3 then 0x1fda836e else
    if k == 4 then 0x81be16cd else if k == 5 then 0xf6b9265b else if k == 6 then 0x6fb077e1 else if k == 7 then 0x18b74777 else
    if k == 8 then 0x88085ae6 else if k == 9 then 0xff0f6a70 else if k == 10 then 0x66063bca else if k == 11 then 0x11010b5c else
    if k == 12 then 0x8f659eff else if k == 13 then 0xf862ae69 else if k == 14 then 0x616bffd3 else 0x166ccf45
  }

  function RowE(k: bv32): bv32 {
    if k == 0 then 0xa00ae278 else if k == 1 then 0xd70dd2ee else if k == 2 then 0x4e048354 else if k == 3 then 0x3903b3c2 else
    if k == 4 then 0xa7672661 else if k == 5 then 0xd06016f7 else if k == 6 then 0x4969474d else if k == 7 then 0x3e6e77db else
    if k == 8 then 0xaed16a4a else if k == 9 then 0xd9d65adc else if k == 10 then 0x40df0b66 else if k == 11 then 0x37d83bf0 else
    if k == 12 then 0xa9bcae53 else if k == 13 then 0xdebb9ec5 else if k == 14 then 0x47b2cf7f else 0x30b5ffe9
  }

  function RowF(k: bv32): bv32 {
    if k == 0 then 0xbdbdf21c else if k == 1 then 0xcabac28a else if k == 2 then 0x53b39330 else if k == 3 then 0x24b4a3a6 else
    if k == 4 then 0xbad03605 else if k == 5 then 0xcdd70693 else if k == 6 then 0x54de5729 else if k == 7 then 0x23d967bf else
    if k == 8 then 0xb3667a2e else if k == 9 then 0xc4614ab8 else if k == 10 then 0x5d681b02 else if k == 11 then 0x2a6f2b94 else
    if k == 12 then 0xb40bbe37 else if k == 13 then 0xc30c8ea1 else if k == 14 then 0x5a05df1b else 0x2d02ef8d
  }

  /** The entry for a byte: row by its high four bits, place by its low four. */
  function Table(x: bv32): bv32 {
    var r, k := x >> 4, x & 0xf;
    if r == 0 then Row0(k)
    else if r == 1 then Row1(k)
    else if r == 2 then Row2(k)
    else if r == 3 then Row3(k)
    else if r == 4 then Row4(k)
    else if r == 5 then Row5(k)
    else if r == 6 then Row6(k)
    else if r == 7 then Row7(k)
    else if r == 8 then Row8(k)
    else if r == 9 then Row9(k)
    else if r == 10 then RowA(k)
    else if r == 11 then RowB(k)
    else if r == 12 then RowC(k)
    else if r == 13 then RowD(k)
    else if r == 14 then RowE(k)
    else RowF(k)
  }

  /** `__crc32_hashmap`. */
  method Crc32(s: seq<bv8>) returns (crc: bv32)
    ensures crc == BitwiseCrc(s)
  {
    hide Table, Shift8, Xor, Byte, Rest;
    crc := 0;
    var i := 0;
    while i < |s|
      invariant 0 <= i <= |s|
      invariant crc == BitwiseCrc(s[..i])
    {
      ByteStep(crc, s[i]);
      assert s[..i + 1][..i] == s[..i];
      crc := Xor(Table(Byte(Xor(crc, s[i] as bv32))), Rest(crc));
      i := i + 1;
    }
    assert s[..i] == s;
  }

  // ---------- The register is linear ----------

  lemma HalfXor(a: bv32, b: bv32)
    ensures Half(Xor(a, b)) == Xor(Half(a), Half(b))
  {
  }

  lemma LowBitXor(a: bv32, b: bv32)
    ensures (a ^ b) & 1 == (a & 1) ^ (b & 1)
    ensures a & 1 == 0 || a & 1 == 1
  {
  }

  lemma FeedbackXor(a: bv32, b: bv32)
    ensures Feedback(Xor(a, b)) == Xor(Feedback(a), Feedback(b))
  {
    LowBitXor(a, b);
    LowBitXor(b, a);
  }

  lemma XorAssoc(a: bv32, b: bv32, c: bv32)
    ensures Xor(Xor(a, b), c) == Xor(a, Xor(b, c))
  {
  }

  lemma XorComm(a: bv32, b: bv32)
    ensures Xor(a, b) == Xor(b, a)
  {
  }

  lemma XorShuffle(a: bv32, b: bv32, c: bv32, d: bv32)
    ensures Xor(Xor(a, b), Xor(c, d)) == Xor(Xor(a, c), Xor(b, d))
  {
    hide Xor;
    XorAssoc(a, b, Xor(c, d));
    XorAssoc(b, c, d);
    XorComm(b, c);
    XorAssoc(c, b, d);
    XorAssoc(a, c, Xor(b, d));
  }

  lemma ShiftXor(a: bv32, b: bv32)
    ensures Shift(Xor(a, b)) == Xor(Shift(a), Shift(b))
  {
    hide Half, Feedback, Xor;
    HalfXor(a, b);
    FeedbackXor(a, b);
    XorShuffle(Half(a), Half(b), Feedback(a), Feedback(b));
  }

  lemma Shift8Xor(a: bv32, b: bv32)
    ensures Shift8(Xor(a, b)) == Xor(Shift8(a), Shift8(b))
  {
    hide Shift, Xor;
    var a1, b1 := Shift(a), Shift(b);
    var a2, b2 := Shift(a1), Shift(b1);
    var a3, b3 := Shift(a2), Shift(b2);
    var a4, b4 := Shift(a3), Shift(b3);
    var a5, b5 := Shift(a4), Shift(b4);
    var a6, b6 := Shift(a5), Shift(b5);
    var a7, b7 := Shift(a6), Shift(b6);
    ShiftXor(a, b);
    ShiftXor(a1, b1);
    ShiftXor(a2, b2);
    ShiftXor(a3, b3);
    ShiftXor(a4, b4);
    ShiftXor(a5, b5);
    ShiftXor(a6, b6);
    ShiftXor(a7, b7);
  }

  /** Without a bit falling out there is no feedback. */
  lemma ShiftEven(e: bv32)
    requires e & 1 == 0
    ensures Shift(e) == Half(e)
  {
  }

  lemma EvenHalves(d: bv32)
    requires d & 0xff == 0
    ensures d & 1 == 0 && (d >> 1) & 1 == 0 && (d >> 2) & 1 == 0 && (d >> 3) & 1 == 0
    ensures (d >> 4) & 1 == 0 && (d >> 5) & 1 == 0 && (d >> 6) & 1 == 0 && (d >> 7) & 1 == 0
    ensures Half(d) == d >> 1 && Half(d >> 1) == d >> 2 && Half(d >> 2) == d >> 3 && Half(d >> 3) == d >> 4
    ensures Half(d >> 4) == d >> 5 && Half(d >> 5) == d >> 6 && Half(d >> 6) == d >> 7 && Half(d >> 7) == Rest(d)
  {
  }

  /** Eight zero bits leave the register without feedback. */
  lemma Shift8High(d: bv32)
    requires d & 0xff == 0
    ensures Shift8(d) == Rest(d)
  {
    hide Shift, Half, Rest;
    EvenHalves(d);
    ShiftEven(d);
    ShiftEven(d >> 1);
    ShiftEven(d >> 2);
    ShiftEven(d >> 3);
    ShiftEven(d >> 4);
    ShiftEven(d >> 5);
    ShiftEven(d >> 6);
    ShiftEven(d >> 7);
  }

  lemma Parts(c: bv32)
    ensures c == Xor(Byte(c), High(c)) && High(c) & 0xff == 0 && Rest(High(c)) == Rest(c)
  {
  }

  /** Eight steps act on the low byte as the table does, and move the rest down. */
  lemma Shift8Splits(c: bv32)
    ensures Shift8(c) == Xor(Shift8(Byte(c)), Rest(c))
  {
    hide Shift8, Xor, Byte, High, Rest;
    Parts(c);
    Shift8Xor(Byte(c), High(c));
    Shift8High(High(c));
  }

  // ---------- The table holds the eight-step results ----------

  // Shifting is linear, so the results for single bits give those for whole rows.

  lemma Row0Quarter(k: bv32)
    requires k <= 3
    ensures Row0(k) == Shift8(k)
  {
  }

  lemma Row0Half(k: bv32)
    requires k <= 7
    ensures Row0(k) == Shift8(k)
  {
    if k <= 3 {
      Row0Quarter(k);
    } else {
      var l := k & 3;
      assert l <= 3 && k == Xor(4, l) && Row0(k) == Xor(0x076dc419, Row0(l));
      assert Shift8(4) == 0x076dc419;
      hide Shift8, Row0, Xor;
      Row0Quarter(l);
      Shift8Xor(4, l);
    }
  }

  lemma Row0Mirror(k: bv32)
    requires 8 <= k <= 15
    ensures k & 7 <= 7 && k == Xor(8, k & 7) && Row0(k) == Xor(0x0edb8832, Row0(k & 7))
  {
  }

  lemma Row0IsShift8(k: bv32)
    requires k <= 15
    ensures Row0(k) == Shift8(0x0 | k) == Shift8(k)
  {
    assert 0x0 | k == k;
    if k <= 7 {
      Row0Half(k);
    } else {
      var l := k & 7;
      Row0Mirror(k);
      assert Shift8(8) == 0x0edb8832;
      hide Shift8, Row0, Xor;
      Row0Half(l);
      Shift8Xor(8, l);
    }
  }

  lemma Row1IsShift8(k: bv32)
    requires k <= 15
    ensures Row1(k) == Shift8(0x10 | k)
  {
    assert Row1(k) == Xor(0x1db71064, Row0(k)) && 0x10 | k == Xor(0x10, k);
    assert Shift8(0x10) == 0x1db71064;
    hide Shift8, Row0, Row1, Xor;
    Row0IsShift8(k);
    Shift8Xor(0x10, k);
  }

  lemma Row2IsShift8(k: bv32)
    requires k <= 15
    ensures Row2(k) == Shift8(0x20 | k)
  {
    assert Row2(k) == Xor(0x3b6e20c8, Row0(k)) && 0x20 | k == Xor(0x20, k);
    assert Shift8(0x20) == 0x3b6e20c8;
    hide Shift8, Row0, Row2, Xor;
    Row0IsShift8(k);
    Shift8Xor(0x20, k);
  }

  lemma Row3IsShift8(k: bv32)
    requires k <= 15
    ensures Row3(k) == Shift8(0x30 | k)
  {
    assert Row3(k) == Xor(0x26d930ac, Row0(k)) && 0x30 | k == Xor(0x30, k);
    assert Shift8(0x30) == 0x26d930ac;
    hide Shift8, Row0, Row3, Xor;
    Row0IsShift8(k);
    Shift8Xor(0x30, k);
  }

  lemma Row4IsShift8(k: bv32)
    requires k <= 15
    ensures Row4(k) == Shift8(0x40 | k)
  {
    assert Row4(k) == Xor(0x76dc4190, Row0(k)) && 0x40 | k == Xor(0x40, k);
    assert Shift8(0x40) == 0x76dc4190;
    hide Shift8, Row0, Row4, Xor;
    Row0IsShift8(k);
    Shift8Xor(0x40, k);
  }

  lemma Row5IsShift8(k: bv32)
    requires k <= 15
    ensures Row5(k) == Shift8(0x50 | k)
  {
    assert Row5(k) == Xor(0x6b6b51f4, Row0(k)) && 0x50 | k == Xor(0x50, k);
    assert Shift8(0x50) == 0x6b6b51f4;
    hide Shift8, Row0, Row5, Xor;
    Row0IsShift8(k);
    Shift8Xor(0x50, k);
  }

  lemma Row6IsShift8(k: bv32)
    requires k <= 15
    ensures Row6(k) == Shift8(0x60 | k)
  {
    assert Row6(k) == Xor(0x4db26158, Row0(k)) && 0x60 | k == Xor(0x60, k);
    assert Shift8(0x60) == 0x4db26158;
    hide Shift8, Row0, Row6, Xor;
    Row0IsShift8(k);
    Shift8Xor(0x60, k);
  }

  lemma Row7IsShift8(k: bv32)
    requires k <= 15
    ensures Row7(k) == Shift8(0x70 | k)
  {
    assert Row7(k) == Xor(0x5005713c, Row0(k)) && 0x70 | k == Xor(0x70, k);
    assert Shift8(0x70) == 0x5005713c;
    hide Shift8, Row0, Row7, Xor;
    Row0IsShift8(k);
    Shift8Xor(0x70, k);
  }

  lemma Row8IsShift8(k: bv32)
    requires k <= 15
    ensures Row8(k) == Shift8(0x80 | k)
  {
    assert Row8(k) == Xor(0xedb88320, Row0(k)) && 0x80 | k == Xor(0x80, k);
    assert Shift8(0x80) == 0xedb88320;
    hide Shift8, Row0, Row8, Xor;
    Row0IsShift8(k);
    Shift8Xor(0x80, k);
  }

  lemma Row9IsShift8(k: bv32)
    requires k <= 15
    ensures Row9(k) == Shift8(0x90 | k)
  {
    assert Row9(k) == Xor(0xf00f9344, Row0(k)) && 0x90 | k == Xor(0x90, k);
    assert Shift8(0x90) == 0xf00f9344;
    hide Shift8, Row0, Row9, Xor;
    Row0IsShift8(k);
    Shift8Xor(0x90, k);
  }

  lemma RowAIsShift8(k: bv32)
    requires k <= 15
    ensures RowA(k) == Shift8(0xa0 | k)
  {
    assert RowA(k) == Xor(0xd6d6a3e8, Row0(k)) && 0xa0 | k == Xor(0xa0, k);
    assert Shift8(0xa0) == 0xd6d6a3e8;
    hide Shift8, Row0, RowA, Xor;
    Row0IsShift8(k);
    Shift8Xor(0xa0, k);
  }

  lemma RowBIsShift8(k: bv32)
    requires k <= 15
    ensures RowB(k) == Shift8(0xb0 | k)
  {
    assert RowB(k) == Xor(0xcb61b38c, Row0(k)) && 0xb0 | k == Xor(0xb0, k);
    assert Shift8(0xb0) == 0xcb61b38c;
    hide Shift8, Row0, RowB, Xor;
    Row0IsShift8(k);
    Shift8Xor(0xb0, k);
  }

  lemma RowCIsShift8(k: bv32)
    requires k <= 15
    ensures RowC(k) == Shift8(0xc0 | k)
  {
    assert RowC(k) == Xor(0x9b64c2b0, Row0(k)) && 0xc0 | k == Xor(0xc0, k);
    assert Shift8(0xc0) == 0x9b64c2b0;
    hide Shift8, Row0, RowC, Xor;
    Row0IsShift8(k);
    Shift8Xor(0xc0, k);
  }

  lemma RowDIsShift8(k: bv32)
    requires k <= 15
    ensures RowD(k) == Shift8(0xd0 | k)
  {
    assert RowD(k) == Xor(0x86d3d2d4, Row0(k)) && 0xd0 | k == Xor(0xd0, k);
    assert Shift8(0xd0) == 0x86d3d2d4;
    hide Shift8, Row0, RowD, Xor;
    Row0IsShift8(k);
    Shift8Xor(0xd0, k);
  }

  lemma RowEIsShift8(k: bv32)
    requires k <= 15
    ensures RowE(k) == Shift8(0xe0 | k)
  {
    assert RowE(k) == Xor(0xa00ae278, Row0(k)) && 0xe0 | k == Xor(0xe0, k);
    assert Shift8(0xe0) == 0xa00ae278;
    hide Shift8, Row0, RowE, Xor;
    Row0IsShift8(k);
    Shift8Xor(0xe0, k);
  }

  lemma RowFIsShift8(k: bv32)
    requires k <= 15
    ensures RowF(k) == Shift8(0xf0 | k)
  {
    assert RowF(k) == Xor(0xbdbdf21c, Row0(k)) && 0xf0 | k == Xor(0xf0, k);
    assert Shift8(0xf0) == 0xbdbdf21c;
    hide Shift8, Row0, RowF, Xor;
    Row0IsShift8(k);
    Shift8Xor(0xf0, k);
  }

  lemma Nibbles(x: bv32)
    requires x <= 0xff
    ensures x & 0xf <= 15 && x >> 4 <= 15
    ensures x >> 4 == 0 ==> 0x0 | (x & 0xf) == x
    ensures x >> 4 == 1 ==> 0x10 | (x & 0xf) == x
    ensures x >> 4 == 2 ==> 0x20 | (x & 0xf) == x
    ensures x >> 4 == 3 ==> 0x30 | (x & 0xf) == x
    ensures x >> 4 == 4 ==> 0x40 | (x & 0xf) == x
    ensures x >> 4 == 5 ==> 0x50 | (x & 0xf) == x
    ensures x >> 4 == 6 ==> 0x60 | (x & 0xf) == x
    ensures x >> 4 == 7 ==> 0x70 | (x & 0xf) == x
    ensures x >> 4 == 8 ==> 0x80 | (x & 0xf) == x
    ensures x >> 4 == 9 ==> 0x90 | (x & 0xf) == x
    ensures x >> 4 == 10 ==> 0xa0 | (x & 0xf) == x
    ensures x >> 4 == 11 ==> 0xb0 | (x & 0xf) == x
    ensures x >> 4 == 12 ==> 0xc0 | (x & 0xf) == x
    ensures x >> 4 == 13 ==> 0xd0 | (x & 0xf) == x
    ensures x >> 4 == 14 ==> 0xe0 | (x & 0xf) == x
    ensures x >> 4 == 15 ==> 0xf0 | (x & 0xf) == x
  {
  }

  lemma TableIsShift8(x: bv32)
    requires x <= 0xff
    ensures Table(x) == Shift8(x)
  {
    hide Shift8, Row0, Row1, Row2, Row3, Row4, Row5, Row6, Row7, Row8, Row9, RowA, RowB, RowC, RowD, RowE, RowF;
    Nibbles(x);
    var r, k := x >> 4, x & 0xf;
    if r == 0 {
      Row0IsShift8(k);
    } else if r == 1 {
      Row1IsShift8(k);
    } else if r == 2 {
      Row2IsShift8(k);
    } else if r == 3 {
      Row3IsShift8(k);
    } else if r == 4 {
      Row4IsShift8(k);
    } else if r == 5 {
      Row5IsShift8(k);
    } else if r == 6 {
      Row6IsShift8(k);
    } else if r == 7 {
      Row7IsShift8(k);
    } else if r == 8 {
      Row8IsShift8(k);
    } else if r == 9 {
      Row9IsShift8(k);
    } else if r == 10 {
      RowAIsShift8(k);
    } else if r == 11 {
      RowBIsShift8(k);
    } else if r == 12 {
      RowCIsShift8(k);
    } else if r == 13 {
      RowDIsShift8(k);
    } else if r == 14 {
      RowEIsShift8(k);
    } else {
      RowFIsShift8(k);
    }
  }

  lemma BytePart(c: bv32, b: bv8)
    ensures Byte(Xor(c, b as bv32)) <= 0xff && Rest(Xor(c, b as bv32)) == Rest(c)
  {
  }

  /** One table step is eight division steps. */
  lemma ByteStep(c: bv32, b: bv8)
    ensures Xor(Table(Byte(Xor(c, b as bv32))), Rest(c)) == Shift8(Xor(c, b as bv32))
  {
    hide Shift8, Table, Xor, Byte, Rest;
    BytePart(c, b);
    Shift8Splits(Xor(c, b as bv32));
    TableIsShift8(Byte(Xor(c, b as bv32)));
  }
}
