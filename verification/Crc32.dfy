/** The image checksum of `tools/generate_crc32_of_image.py`: a table-driven CRC-32, and the
    bit-at-a-time definition of section 8 of RFC 1952. */
module Crc32 {

  // `crc32_table`, sixteen entries a row.

  const ROW_0: seq<bv32> := [
    0x00000000, 0x77073096, 0xee0e612c, 0x990951ba, 0x076dc419, 0x706af48f, 0xe963a535, 0x9e6495a3,
    0x0edb8832, 0x79dcb8a4, 0xe0d5e91e, 0x97d2d988, 0x09b64c2b, 0x7eb17cbd, 0xe7b82d07, 0x90bf1d91]

  const ROW_1: seq<bv32> := [
    0x1db71064, 0x6ab020f2, 0xf3b97148, 0x84be41de, 0x1adad47d, 0x6ddde4eb, 0xf4d4b551, 0x83d385c7,
    0x136c9856, 0x646ba8c0, 0xfd62f97a, 0x8a65c9ec, 0x14015c4f, 0x63066cd9, 0xfa0f3d63, 0x8d080df5]

  const ROW_2: seq<bv32> := [
    0x3b6e20c8, 0x4c69105e, 0xd56041e4, 0xa2677172, 0x3c03e4d1, 0x4b04d447, 0xd20d85fd, 0xa50ab56b,
    0x35b5a8fa, 0x42b2986c, 0xdbbbc9d6, 0xacbcf940, 0x32d86ce3, 0x45df5c75, 0xdcd60dcf, 0xabd13d59]

  const ROW_3: seq<bv32> := [
    0x26d930ac, 0x51de003a, 0xc8d75180, 0xbfd06116, 0x21b4f4b5, 0x56b3c423, 0xcfba9599, 0xb8bda50f,
    0x2802b89e, 0x5f058808, 0xc60cd9b2, 0xb10be924, 0x2f6f7c87, 0x58684c11, 0xc1611dab, 0xb6662d3d]

  const ROW_4: seq<bv32> := [
    0x76dc4190, 0x01db7106, 0x98d220bc, 0xefd5102a, 0x71b18589, 0x06b6b51f, 0x9fbfe4a5, 0xe8b8d433,
    0x7807c9a2, 0x0f00f934, 0x9609a88e, 0xe10e9818, 0x7f6a0dbb, 0x086d3d2d, 0x91646c97, 0xe6635c01]

  const ROW_5: seq<bv32> := [
    0x6b6b51f4, 0x1c6c6162, 0x856530d8, 0xf262004e, 0x6c0695ed, 0x1b01a57b, 0x8208f4c1, 0xf50fc457,
    0x65b0d9c6, 0x12b7e950, 0x8bbeb8ea, 0xfcb9887c, 0x62dd1ddf, 0x15da2d49, 0x8cd37cf3, 0xfbd44c65]

  const ROW_6: seq<bv32> := [
    0x4db26158, 0x3ab551ce, 0xa3bc0074, 0xd4bb30e2, 0x4adfa541, 0x3dd895d7, 0xa4d1c46d, 0xd3d6f4fb,
    0x4369e96a, 0x346ed9fc, 0xad678846, 0xda60b8d0, 0x44042d73, 0x33031de5, 0xaa0a4c5f, 0xdd0d7cc9]

  const ROW_7: seq<bv32> := [
    0x5005713c, 0x270241aa, 0xbe0b1010, 0xc90c2086, 0x5768b525, 0x206f85b3, 0xb966d409, 0xce61e49f,
    0x5edef90e, 0x29d9c998, 0xb0d09822, 0xc7d7a8b4, 0x59b33d17, 0x2eb40d81, 0xb7bd5c3b, 0xc0ba6cad]

  const ROW_8: seq<bv32> := [
    0xedb88320, 0x9abfb3b6, 0x03b6e20c, 0x74b1d29a, 0xead54739, 0x9dd277af, 0x04db2615, 0x73dc1683,
    0xe3630b12, 0x94643b84, 0x0d6d6a3e, 0x7a6a5aa8, 0xe40ecf0b, 0x9309ff9d, 0x0a00ae27, 0x7d079eb1]

  const ROW_9: seq<bv32> := [
    0xf00f9344, 0x8708a3d2, 0x1e01f268, 0x6906c2fe, 0xf762575d, 0x806567cb, 0x196c3671, 0x6e6b06e7,
    0xfed41b76, 0x89d32be0, 0x10da7a5a, 0x67dd4acc, 0xf9b9df6f, 0x8ebeeff9, 0x17b7be43, 0x60b08ed5]

  const ROW_A: seq<bv32> := [
    0xd6d6a3e8, 0xa1d1937e, 0x38d8c2c4, 0x4fdff252, 0xd1bb67f1, 0xa6bc5767, 0x3fb506dd, 0x48b2364b,
    0xd80d2bda, 0xaf0a1b4c, 0x36034af6, 0x41047a60, 0xdf60efc3, 0xa867df55, 0x316e8eef, 0x4669be79]

  const ROW_B: seq<bv32> := [
    0xcb61b38c, 0xbc66831a, 0x256fd2a0, 0x5268e236, 0xcc0c7795, 0xbb0b4703, 0x220216b9, 0x5505262f,
    0xc5ba3bbe, 0xb2bd0b28, 0x2bb45a92, 0x5cb36a04, 0xc2d7ffa7, 0xb5d0cf31, 0x2cd99e8b, 0x5bdeae1d]

  const ROW_C: seq<bv32> := [
    0x9b64c2b0, 0xec63f226, 0x756aa39c, 0x026d930a, 0x9c0906a9, 0xeb0e363f, 0x72076785, 0x05005713,
    0x95bf4a82, 0xe2b87a14, 0x7bb12bae, 0x0cb61b38, 0x92d28e9b, 0xe5d5be0d, 0x7cdcefb7, 0x0bdbdf21]

  const ROW_D: seq<bv32> := [
    0x86d3d2d4, 0xf1d4e242, 0x68ddb3f8, 0x1fda836e, 0x81be16cd, 0xf6b9265b, 0x6fb077e1, 0x18b74777,
    0x88085ae6, 0xff0f6a70, 0x66063bca, 0x11010b5c, 0x8f659eff, 0xf862ae69, 0x616bffd3, 0x166ccf45]

  const ROW_E: seq<bv32> := [
    0xa00ae278, 0xd70dd2ee, 0x4e048354, 0x3903b3c2, 0xa7672661, 0xd06016f7, 0x4969474d, 0x3e6e77db,
    0xaed16a4a, 0xd9d65adc, 0x40df0b66, 0x37d83bf0, 0xa9bcae53, 0xdebb9ec5, 0x47b2cf7f, 0x30b5ffe9]

  const ROW_F: seq<bv32> := [
    0xbdbdf21c, 0xcabac28a, 0x53b39330, 0x24b4a3a6, 0xbad03605, 0xcdd70693, 0x54de5729, 0x23d967bf,
    0xb3667a2e, 0xc4614ab8, 0x5d681b02, 0x2a6f2b94, 0xb40bbe37, 0xc30c8ea1, 0x5a05df1b, 0x2d02ef8d]

  type byte32 = x: bv32 | x < 0x100

  function Row(k: bv32): seq<bv32> {
    match k
    case 0 => ROW_0
    case 1 => ROW_1
    case 2 => ROW_2
    case 3 => ROW_3
    case 4 => ROW_4
    case 5 => ROW_5
    case 6 => ROW_6
    case 7 => ROW_7
    case 8 => ROW_8
    case 9 => ROW_9
    case 10 => ROW_A
    case 11 => ROW_B
    case 12 => ROW_C
    case 13 => ROW_D
    case 14 => ROW_E
    case _ => ROW_F
  }

  /** `crc32_table[i]`. */
  function Lookup(i: byte32): bv32
  {
    var row := Row(i >> 4);
    if |row| == 16 then row[(i & 0xF) as nat] else 0
  }

  // The three register operations, named so that proofs need not look inside them.

  function Xor(a: bv32, b: bv32): bv32 {
    a ^ b
  }

  function Low(x: bv32): (i: byte32) {
    x & 0xFF
  }

  function High(x: bv32): bv32 {
    x >> 8
  }

  // ---- The definition ----

  /** One shift of the register with the reflected polynomial. */
  function Shift1(x: bv32): bv32 {
    if x & 1 == 1 then (x >> 1) ^ 0xEDB88320 else x >> 1
  }

  function Shift4(x: bv32): bv32 {
    Shift1(Shift1(Shift1(Shift1(x))))
  }

  function Shift8(x: bv32): bv32 {
    Shift4(Shift4(x))
  }

  /** The register after a message, eight shifts per byte. */
  function Register(init: bv32, data: seq<byte32>): bv32
    decreases |data|
  {
    if data == [] then init else Shift8(Xor(Register(init, data[..|data| - 1]), data[|data| - 1]))
  }

  function Crc(data: seq<byte32>): bv32 {
    Xor(Register(0xFFFFFFFF, data), 0xFFFFFFFF)
  }

  // ---- The table ----

  lemma XorOfParts(a: bv32, b: bv32, c: bv32)
    ensures (a ^ b) & 1 == (a & 1) ^ (b & 1) && (a ^ b) >> 1 == (a >> 1) ^ (b >> 1)
    ensures (a ^ c) ^ (b ^ c) == a ^ b && (a ^ c) ^ b == (a ^ b) ^ c && a ^ (b ^ c) == (a ^ b) ^ c
    ensures a & 1 == 0 || a & 1 == 1
  {
  }

  /** The shift is linear over exclusive or. */
  lemma Shift1Linear(a: bv32, b: bv32)
    ensures Shift1(Xor(a, b)) == Xor(Shift1(a), Shift1(b))
  {
    XorOfParts(a, b, 0);
    XorOfParts(b, a, 0);
    XorOfParts(a >> 1, b >> 1, 0xEDB88320);
  }

  lemma Shift4Linear(a: bv32, b: bv32)
    ensures Shift4(Xor(a, b)) == Xor(Shift4(a), Shift4(b))
  {
    hide Shift1, Xor;
    Shift1Linear(a, b);
    Shift1Linear(Shift1(a), Shift1(b));
    Shift1Linear(Shift1(Shift1(a)), Shift1(Shift1(b)));
    Shift1Linear(Shift1(Shift1(Shift1(a))), Shift1(Shift1(Shift1(b))));
  }

  lemma Shift8Linear(a: bv32, b: bv32)
    ensures Shift8(Xor(a, b)) == Xor(Shift8(a), Shift8(b))
  {
    hide Shift4, Xor;
    Shift4Linear(a, b);
    Shift4Linear(Shift4(a), Shift4(b));
  }

  /** The first row holds the shifted values 0 to 15. */
  lemma FirstRow()
    ensures ROW_0 == [Shift8(0), Shift8(1), Shift8(2), Shift8(3), Shift8(4), Shift8(5), Shift8(6), Shift8(7),
                      Shift8(8), Shift8(9), Shift8(10), Shift8(11), Shift8(12), Shift8(13), Shift8(14), Shift8(15)]
  {
  }

  /** The first row offset by `head`. */
  function Offset(head: bv32): seq<bv32> {
    [Xor(head, ROW_0[0]), Xor(head, ROW_0[1]), Xor(head, ROW_0[2]), Xor(head, ROW_0[3]),
      Xor(head, ROW_0[4]), Xor(head, ROW_0[5]), Xor(head, ROW_0[6]), Xor(head, ROW_0[7]),
     Xor(head, ROW_0[8]), Xor(head, ROW_0[9]), Xor(head, ROW_0[10]), Xor(head, ROW_0[11]),
      Xor(head, ROW_0[12]), Xor(head, ROW_0[13]), Xor(head, ROW_0[14]), Xor(head, ROW_0[15])]
  }

  // Every other row is the first one offset by the shifted value of its own start.

  lemma RowsFrom0()
    ensures ROW_0 == Offset(Shift8(0x00))
  {
  }

  lemma RowsFrom1()
    ensures ROW_1 == Offset(Shift8(0x10))
  {
  }

  lemma RowsFrom2()
    ensures ROW_2 == Offset(Shift8(0x20)) && ROW_3 == Offset(Shift8(0x30))
  {
  }

  lemma RowsFrom4()
    ensures ROW_4 == Offset(Shift8(0x40)) && ROW_5 == Offset(Shift8(0x50))
  {
  }

  lemma RowsFrom6()
    ensures ROW_6 == Offset(Shift8(0x60)) && ROW_7 == Offset(Shift8(0x70))
  {
  }

  lemma RowsFrom8()
    ensures ROW_8 == Offset(Shift8(0x80)) && ROW_9 == Offset(Shift8(0x90))
  {
  }

  lemma RowsFromA()
    ensures ROW_A == Offset(Shift8(0xA0)) && ROW_B == Offset(Shift8(0xB0))
  {
  }

  lemma RowsFromC()
    ensures ROW_C == Offset(Shift8(0xC0)) && ROW_D == Offset(Shift8(0xD0))
  {
  }

  lemma RowsFromE()
    ensures ROW_E == Offset(Shift8(0xE0)) && ROW_F == Offset(Shift8(0xF0))
  {
  }

  /** Halving a value whose low bits are clear takes no polynomial. */
  lemma EvenShift4(x: bv32)
    requires x & 0xF == 0
    ensures Shift4(x) == x >> 4
  {
    EvenShift(x);
    EvenShift(x >> 1);
    EvenShift(x >> 2);
    EvenShift(x >> 3);
    LowBits(x);
    hide Shift1;
  }

  lemma EvenShift(x: bv32)
    requires x & 1 == 0
    ensures Shift1(x) == x >> 1
  {
  }

  lemma LowBits(x: bv32)
    requires x & 0xF == 0
    ensures x & 1 == 0 && (x >> 1) & 1 == 0 && (x >> 2) & 1 == 0 && (x >> 3) & 1 == 0
    ensures x >> 1 >> 1 == x >> 2 && x >> 2 >> 1 == x >> 3 && x >> 3 >> 1 == x >> 4
  {
  }

  /** Eight shifts of the register are one step of the table algorithm. */
  lemma ShiftsSplit(x: bv32)
    ensures Shift8(x) == Xor(Shift8(Low(x)), High(x))
  {
    var h := x & 0xFFFFFF00;
    HighBits(x);
    Shift8Linear(x & 0xFF, h);
    EvenShift4(h);
    EvenShift4(h >> 4);
    hide Shift4, Xor;
  }

  lemma HighBits(x: bv32)
    ensures var h := x & 0xFFFFFF00;
            Xor(x & 0xFF, h) == x && h >> 4 >> 4 == x >> 8 && h & 0xF == 0 && (h >> 4) & 0xF == 0
  {
  }

  lemma Nibbles(i: byte32)
    ensures Xor(i & 0xF0, i & 0xF) == i && i & 0xF < 16 && i >> 4 < 16 && i & 0xF0 == (i >> 4) << 4
  {
  }

  /** Every one of the 256 table entries is the eight-fold shift of its index. */
  lemma LookupIsShift8(i: byte32)
    ensures Lookup(i) == Shift8(i)
  {
    var lo, hi := i & 0xF, i >> 4;
    Nibbles(i);
    Shift8Linear(i & 0xF0, lo);
    LowNibble(lo);
    RowIsOffset(hi);
    OffsetAt(Shift8(i & 0xF0), lo as nat);
    hide Shift8, Row, Offset, Xor;
  }

  lemma LowNibble(lo: bv32)
    requires lo < 16
    ensures lo as nat < 16 && ROW_0[lo as nat] == Shift8(lo)
  {
    FirstRow();
    hide Shift8;
    assert lo == 0 || lo == 1 || lo == 2 || lo == 3 || lo == 4 || lo == 5 || lo == 6 || lo == 7
      || lo == 8 || lo == 9 || lo == 10 || lo == 11 || lo == 12 || lo == 13 || lo == 14 || lo == 15;
  }

  lemma RowIsOffset(hi: bv32)
    requires hi < 16
    ensures Row(hi) == Offset(Shift8(hi << 4))
  {
    RowsFrom0();
    RowsFrom1();
    RowsFrom2();
    RowsFrom4();
    RowsFrom6();
    RowsFrom8();
    RowsFromA();
    RowsFromC();
    RowsFromE();
    hide Shift8, Offset;
    assert hi == 0 || hi == 1 || hi == 2 || hi == 3 || hi == 4 || hi == 5 || hi == 6 || hi == 7
      || hi == 8 || hi == 9 || hi == 10 || hi == 11 || hi == 12 || hi == 13 || hi == 14 || hi == 15;
  }

  lemma OffsetAt(head: bv32, j: nat)
    requires j < 16
    ensures |ROW_0| == |Offset(head)| == 16 && Offset(head)[j] == Xor(head, ROW_0[j])
  {
    hide Xor;
    assert j == 0 || j == 1 || j == 2 || j == 3 || j == 4 || j == 5 || j == 6 || j == 7
      || j == 8 || j == 9 || j == 10 || j == 11 || j == 12 || j == 13 || j == 14 || j == 15;
  }

  // ---- The algorithm ----

  /** One iteration of `createcrc32`. */
  function Step(output: bv32, data: byte32): bv32 {
    Xor(Lookup(Low(Xor(output, data))), High(output))
  }

  lemma ByteBits(output: bv32, data: byte32)
    ensures High(Xor(output, data)) == High(output)
  {
  }

  lemma StepIsShift8(output: bv32, data: byte32)
    ensures Step(output, data) == Shift8(Xor(output, data))
  {
    hide Shift8, Lookup, Xor, Low, High;
    var x := Xor(output, data);
    ByteBits(output, data);
    LookupIsShift8(Low(x));
    ShiftsSplit(x);
  }

  /** `createcrc32`: the table algorithm computes the bit-at-a-time checksum of every byte string. */
  method CreateCrc32(data: seq<byte32>) returns (crc: bv32)
    ensures crc == Crc(data)
  {
    hide Shift8, Step, Xor;
    var output: bv32 := 0xFFFFFFFF;
    for i := 0 to |data|
      invariant output == Register(0xFFFFFFFF, data[..i])
    {
      assert data[..i + 1][..i] == data[..i];
      StepIsShift8(output, data[i]);
      output := Step(output, data[i]);
    }
    assert data[..|data|] == data;
    crc := Xor(output, 0xFFFFFFFF);
  }

  // ---- The check value of this CRC ----

  lemma {:induction false} RegisterNext(init: bv32, data: seq<byte32>, x: byte32)
    ensures Register(init, data + [x]) == Shift8(Xor(Register(init, data), x))
  {
    hide Shift8, Xor;
    assert (data + [x])[..|data|] == data;
  }

  lemma CheckSteps0()
    ensures Shift8(Xor(0xFFFFFFFF, 0x31)) == 0x7C231048
    ensures Shift8(Xor(0x7C231048, 0x32)) == 0xB0ACBB32
    ensures Shift8(Xor(0xB0ACBB32, 0x33)) == 0x77B79C2D
  {
  }

  lemma CheckSteps1()
    ensures Shift8(Xor(0x77B79C2D, 0x34)) == 0x641C1F5C
    ensures Shift8(Xor(0x641C1F5C, 0x35)) == 0x340AC5E3
    ensures Shift8(Xor(0x340AC5E3, 0x36)) == 0xF68D2C9E
  {
  }

  lemma CheckSteps2()
    ensures Shift8(Xor(0xF68D2C9E, 0x37)) == 0xAFFC9660
    ensures Shift8(Xor(0xAFFC9660, 0x38)) == 0x651F2550
    ensures Shift8(Xor(0x651F2550, 0x39)) == 0x340BC6D9
  {
  }

  /** The checksum of the digits 1 to 9. */
  lemma {:induction false} CheckValue()
    ensures Crc([0x31, 0x32, 0x33, 0x34, 0x35, 0x36, 0x37, 0x38, 0x39]) == 0xCBF43926
  {
    CheckSteps0();
    CheckSteps1();
    CheckSteps2();
    hide Shift8, Register;
    var three: seq<byte32>, six: seq<byte32> := [0x31, 0x32, 0x33], [0x31, 0x32, 0x33, 0x34, 0x35, 0x36];
    var init := 0xFFFFFFFF;
    RegisterOfThree(init, [], 0x31, 0x32, 0x33);
    RegisterOfThree(init, three, 0x34, 0x35, 0x36);
    RegisterOfThree(init, six, 0x37, 0x38, 0x39);
    RegisterOfNone(init);
    assert [] + [0x31, 0x32, 0x33] == three && three + [0x34, 0x35, 0x36] == six;
    assert six + [0x37, 0x38, 0x39] == [0x31, 0x32, 0x33, 0x34, 0x35, 0x36, 0x37, 0x38, 0x39];
  }

  lemma {:induction false} RegisterOfNone(init: bv32)
    ensures Register(init, []) == init
  {
  }

  lemma {:induction false} RegisterOfThree(init: bv32, data: seq<byte32>, x: byte32, y: byte32, z: byte32)
    ensures Register(init, data + [x, y, z]) == Shift8(Xor(Shift8(Xor(Shift8(Xor(Register(init, data), x)), y)), z))
  {
    hide Shift8, Xor, Register;
    RegisterNext(init, data, x);
    RegisterNext(init, data + [x], y);
    RegisterNext(init, data + [x] + [y], z);
    assert data + [x] + [y] + [z] == data + [x, y, z];
  }

  // ---- Error detection ----

  lemma Shift1NonZero(x: bv32)
    requires x != 0
    ensures Shift1(x) != 0
  {
  }

  lemma Shift4NonZero(x: bv32)
    requires x != 0
    ensures Shift4(x) != 0
  {
    hide Shift1;
    Shift1NonZero(x);
    Shift1NonZero(Shift1(x));
    Shift1NonZero(Shift1(Shift1(x)));
    Shift1NonZero(Shift1(Shift1(Shift1(x))));
  }

  lemma XorZero(a: bv32, b: bv32)
    ensures Xor(a, b) == 0 <==> a == b
  {
    XorUndone(a, b);
    hide Xor;
  }

  lemma XorUndone(a: bv32, b: bv32)
    ensures Xor(a, a) == 0 && Xor(Xor(a, b), b) == a && Xor(0, b) == b
  {
  }

  /** The shifts lose nothing. */
  lemma Shift8Injective(a: bv32, b: bv32)
    requires a != b
    ensures Shift8(a) != Shift8(b)
  {
    Shift8Linear(a, b);
    XorZero(a, b);
    XorZero(Shift8(a), Shift8(b));
    hide Shift4, Xor;
    var d := Xor(a, b);
    Shift4NonZero(d);
    Shift4NonZero(Shift4(d));
  }

  lemma XorInjective(a: bv32, b: bv32, d: bv32)
    ensures (Xor(a, d) == Xor(b, d) <==> a == b) && (Xor(d, a) == Xor(d, b) <==> a == b)
  {
  }

  /** The register carries on from any point of the message. */
  lemma {:induction false} RegisterSplits(init: bv32, a: seq<byte32>, b: seq<byte32>)
    ensures Register(init, a + b) == Register(Register(init, a), b)
    decreases |b|
  {
    hide Shift8, Xor;
    if b == [] {
      assert a + b == a;
    } else {
      var n := |b| - 1;
      assert (a + b)[..|a + b| - 1] == a + b[..n];
      RegisterSplits(init, a, b[..n]);
    }
  }

  /** Different registers stay different whatever follows. */
  lemma {:induction false} RegisterInjective(x: bv32, y: bv32, data: seq<byte32>)
    requires x != y
    ensures Register(x, data) != Register(y, data)
    decreases |data|
  {
    hide Shift8, Xor;
    if data == [] {
    } else {
      var n := |data| - 1;
      RegisterInjective(x, y, data[..n]);
      var p, q := Register(x, data[..n]), Register(y, data[..n]);
      XorInjective(p, q, data[n]);
      Shift8Injective(Xor(p, data[n]), Xor(q, data[n]));
    }
  }

  lemma {:induction false} RegisterOfOne(init: bv32, x: byte32)
    ensures Register(init, [x]) == Shift8(Xor(init, x))
  {
    hide Shift8, Xor;
    assert [x][..0] == [];
  }

  /** Changing any one byte of an image, anywhere, changes its checksum. */
  lemma OneByteIsDetected(before: seq<byte32>, x: byte32, y: byte32, after: seq<byte32>)
    requires x != y
    ensures Crc(before + [x] + after) != Crc(before + [y] + after)
  {
    hide Shift8, Xor, Register;
    var r := Register(0xFFFFFFFF, before);
    RegisterSplits(0xFFFFFFFF, before + [x], after);
    RegisterSplits(0xFFFFFFFF, before + [y], after);
    RegisterSplits(0xFFFFFFFF, before, [x]);
    RegisterSplits(0xFFFFFFFF, before, [y]);
    RegisterOfOne(r, x);
    RegisterOfOne(r, y);
    XorInjective(x, y, r);
    Shift8Injective(Xor(r, x), Xor(r, y));
    var p, q := Register(0xFFFFFFFF, before + [x]), Register(0xFFFFFFFF, before + [y]);
    RegisterInjective(p, q, after);
    XorInjective(Register(p, after), Register(q, after), 0xFFFFFFFF);
  }
}
