/** The table-driven CRC-32, and the damage it cannot miss.

    The reference is the bit-at-a-time remainder by the reflected polynomial, as
    the table generator in section 8 of RFC 1952 computes it; the table is proved
    equal to it entry by entry.  The initial and final complements of that section
    are not applied. */
module Crc32 {
  import opened Base
  import opened ShiftRegister

  const POLYNOMIAL: bv32 := 0xedb88320

  function BitStep(x: bv32): bv32 {
    if x & 1 == 1 then (x >> 1) ^ POLYNOMIAL else x >> 1
  }

  /** Eight bit steps, spelled out. */
  function EightSteps(x: bv32): bv32 {
    BitStep(BitStep(BitStep(BitStep(BitStep(BitStep(BitStep(BitStep(x))))))))
  }

  /** One byte of division. */
  function ByteStep(x: bv32): bv32 {
    Iterate(BitStep, ByteWidth(), x)
  }

  function ByteWidth(): nat { 8 }

  // The constant table, 16 entries a row.

  function Row0(i: bv32): (v: bv32)
    requires 0 <= i <= 15
    ensures v == EightSteps(i)
  {
    match i
    case 0 => 0x00000000
    case 1 => 0x77073096
    case 2 => 0xee0e612c
    case 3 => 0x990951ba
    case 4 => 0x076dc419
    case 5 => 0x706af48f
    case 6 => 0xe963a535
    case 7 => 0x9e6495a3
    case 8 => 0x0edb8832
    case 9 => 0x79dcb8a4
    case 10 => 0xe0d5e91e
    case 11 => 0x97d2d988
    case 12 => 0x09b64c2b
    case 13 => 0x7eb17cbd
    case 14 => 0xe7b82d07
    case _ => 0x90bf1d91
  }

  function Row1(i: bv32): (v: bv32)
    requires 16 <= i <= 31
    ensures v == EightSteps(i)
  {
    match i
    case 16 => 0x1db71064
    case 17 => 0x6ab020f2
    case 18 => 0xf3b97148
    case 19 => 0x84be41de
    case 20 => 0x1adad47d
    case 21 => 0x6ddde4eb
    case 22 => 0xf4d4b551
    case 23 => 0x83d385c7
    case 24 => 0x136c9856
    case 25 => 0x646ba8c0
    case 26 => 0xfd62f97a
    case 27 => 0x8a65c9ec
    case 28 => 0x14015c4f
    case 29 => 0x63066cd9
    case 30 => 0xfa0f3d63
    case _ => 0x8d080df5
  }

  function Row2(i: bv32): (v: bv32)
    requires 32 <= i <= 47
    ensures v == EightSteps(i)
  {
    match i
    case 32 => 0x3b6e20c8
    case 33 => 0x4c69105e
    case 34 => 0xd56041e4
    case 35 => 0xa2677172
    case 36 => 0x3c03e4d1
    case 37 => 0x4b04d447
    case 38 => 0xd20d85fd
    case 39 => 0xa50ab56b
    case 40 => 0x35b5a8fa
    case 41 => 0x42b2986c
    case 42 => 0xdbbbc9d6
    case 43 => 0xacbcf940
    case 44 => 0x32d86ce3
    case 45 => 0x45df5c75
    case 46 => 0xdcd60dcf
    case _ => 0xabd13d59
  }

  function Row3(i: bv32): (v: bv32)
    requires 48 <= i <= 63
    ensures v == EightSteps(i)
  {
    match i
    case 48 => 0x26d930ac
    case 49 => 0x51de003a
    case 50 => 0xc8d75180
    case 51 => 0xbfd06116
    case 52 => 0x21b4f4b5
    case 53 => 0x56b3c423
    case 54 => 0xcfba9599
    case 55 => 0xb8bda50f
    case 56 => 0x2802b89e
    case 57 => 0x5f058808
    case 58 => 0xc60cd9b2
    case 59 => 0xb10be924
    case 60 => 0x2f6f7c87
    case 61 => 0x58684c11
    case 62 => 0xc1611dab
    case _ => 0xb6662d3d
  }

  function Row4(i: bv32): (v: bv32)
    requires 64 <= i <= 79
    ensures v == EightSteps(i)
  {
    match i
    case 64 => 0x76dc4190
    case 65 => 0x01db7106
    case 66 => 0x98d220bc
    case 67 => 0xefd5102a
    case 68 => 0x71b18589
    case 69 => 0x06b6b51f
    case 70 => 0x9fbfe4a5
    case 71 => 0xe8b8d433
    case 72 => 0x7807c9a2
    case 73 => 0x0f00f934
    case 74 => 0x9609a88e
    case 75 => 0xe10e9818
    case 76 => 0x7f6a0dbb
    case 77 => 0x086d3d2d
    case 78 => 0x91646c97
    case _ => 0xe6635c01
  }

  function Row5(i: bv32): (v: bv32)
    requires 80 <= i <= 95
    ensures v == EightSteps(i)
  {
    match i
    case 80 => 0x6b6b51f4
    case 81 => 0x1c6c6162
    case 82 => 0x856530d8
    case 83 => 0xf262004e
    case 84 => 0x6c0695ed
    case 85 => 0x1b01a57b
    case 86 => 0x8208f4c1
    case 87 => 0xf50fc457
    case 88 => 0x65b0d9c6
    case 89 => 0x12b7e950
    case 90 => 0x8bbeb8ea
    case 91 => 0xfcb9887c
    case 92 => 0x62dd1ddf
    case 93 => 0x15da2d49
    case 94 => 0x8cd37cf3
    case _ => 0xfbd44c65
  }

  function Row6(i: bv32): (v: bv32)
    requires 96 <= i <= 111
    ensures v == EightSteps(i)
  {
    match i
    case 96 => 0x4db26158
    case 97 => 0x3ab551ce
    case 98 => 0xa3bc0074
    case 99 => 0xd4bb30e2
    case 100 => 0x4adfa541
    case 101 => 0x3dd895d7
    case 102 => 0xa4d1c46d
    case 103 => 0xd3d6f4fb
    case 104 => 0x4369e96a
    case 105 => 0x346ed9fc
    case 106 => 0xad678846
    case 107 => 0xda60b8d0
    case 108 => 0x44042d73
    case 109 => 0x33031de5
    case 110 => 0xaa0a4c5f
    case _ => 0xdd0d7cc9
  }

  function Row7(i: bv32): (v: bv32)
    requires 112 <= i <= 127
    ensures v == EightSteps(i)
  {
    match i
    case 112 => 0x5005713c
    case 113 => 0x270241aa
    case 114 => 0xbe0b1010
    case 115 => 0xc90c2086
    case 116 => 0x5768b525
    case 117 => 0x206f85b3
    case 118 => 0xb966d409
    case 119 => 0xce61e49f
    case 120 => 0x5edef90e
    case 121 => 0x29d9c998
    case 122 => 0xb0d09822
    case 123 => 0xc7d7a8b4
    case 124 => 0x59b33d17
    case 125 => 0x2eb40d81
    case 126 => 0xb7bd5c3b
    case _ => 0xc0ba6cad
  }

  function Row8(i: bv32): (v: bv32)
    requires 128 <= i <= 143
    ensures v == EightSteps(i)
  {
    match i
    case 128 => 0xedb88320
    case 129 => 0x9abfb3b6
    case 130 => 0x03b6e20c
    case 131 => 0x74b1d29a
    case 132 => 0xead54739
    case 133 => 0x9dd277af
    case 134 => 0x04db2615
    case 135 => 0x73dc1683
    case 136 => 0xe3630b12
    case 137 => 0x94643b84
    case 138 => 0x0d6d6a3e
    case 139 => 0x7a6a5aa8
    case 140 => 0xe40ecf0b
    case 141 => 0x9309ff9d
    case 142 => 0x0a00ae27
    case _ => 0x7d079eb1
  }

  function Row9(i: bv32): (v: bv32)
    requires 144 <= i <= 159
    ensures v == EightSteps(i)
  {
    match i
    case 144 => 0xf00f9344
    case 145 => 0x8708a3d2
    case 146 => 0x1e01f268
    case 147 => 0x6906c2fe
    case 148 => 0xf762575d
    case 149 => 0x806567cb
    case 150 => 0x196c3671
    case 151 => 0x6e6b06e7
    case 152 => 0xfed41b76
    case 153 => 0x89d32be0
    case 154 => 0x10da7a5a
    case 155 => 0x67dd4acc
    case 156 => 0xf9b9df6f
    case 157 => 0x8ebeeff9
    case 158 => 0x17b7be43
    case _ => 0x60b08ed5
  }

  function Row10(i: bv32): (v: bv32)
    requires 160 <= i <= 175
    ensures v == EightSteps(i)
  {
    match i
    case 160 => 0xd6d6a3e8
    case 161 => 0xa1d1937e
    case 162 => 0x38d8c2c4
    case 163 => 0x4fdff252
    case 164 => 0xd1bb67f1
    case 165 => 0xa6bc5767
    case 166 => 0x3fb506dd
    case 167 => 0x48b2364b
    case 168 => 0xd80d2bda
    case 169 => 0xaf0a1b4c
    case 170 => 0x36034af6
    case 171 => 0x41047a60
    case 172 => 0xdf60efc3
    case 173 => 0xa867df55
    case 174 => 0x316e8eef
    case _ => 0x4669be79
  }

  function Row11(i: bv32): (v: bv32)
    requires 176 <= i <= 191
    ensures v == EightSteps(i)
  {
    match i
    case 176 => 0xcb61b38c
    case 177 => 0xbc66831a
    case 178 => 0x256fd2a0
    case 179 => 0x5268e236
    case 180 => 0xcc0c7795
    case 181 => 0xbb0b4703
    case 182 => 0x220216b9
    case 183 => 0x5505262f
    case 184 => 0xc5ba3bbe
    case 185 => 0xb2bd0b28
    case 186 => 0x2bb45a92
    case 187 => 0x5cb36a04
    case 188 => 0xc2d7ffa7
    case 189 => 0xb5d0cf31
    case 190 => 0x2cd99e8b
    case _ => 0x5bdeae1d
  }

  function Row12(i: bv32): (v: bv32)
    requires 192 <= i <= 207
    ensures v == EightSteps(i)
  {
    match i
    case 192 => 0x9b64c2b0
    case 193 => 0xec63f226
    case 194 => 0x756aa39c
    case 195 => 0x026d930a
    case 196 => 0x9c0906a9
    case 197 => 0xeb0e363f
    case 198 => 0x72076785
    case 199 => 0x05005713
    case 200 => 0x95bf4a82
    case 201 => 0xe2b87a14
    case 202 => 0x7bb12bae
    case 203 => 0x0cb61b38
    case 204 => 0x92d28e9b
    case 205 => 0xe5d5be0d
    case 206 => 0x7cdcefb7
    case _ => 0x0bdbdf21
  }

  function Row13(i: bv32): (v: bv32)
    requires 208 <= i <= 223
    ensures v == EightSteps(i)
  {
    match i
    case 208 => 0x86d3d2d4
    case 209 => 0xf1d4e242
    case 210 => 0x68ddb3f8
    case 211 => 0x1fda836e
    case 212 => 0x81be16cd
    case 213 => 0xf6b9265b
    case 214 => 0x6fb077e1
    case 215 => 0x18b74777
    case 216 => 0x88085ae6
    case 217 => 0xff0f6a70
    case 218 => 0x66063bca
    case 219 => 0x11010b5c
    case 220 => 0x8f659eff
    case 221 => 0xf862ae69
    case 222 => 0x616bffd3
    case _ => 0x166ccf45
  }

  function Row14(i: bv32): (v: bv32)
    requires 224 <= i <= 239
    ensures v == EightSteps(i)
  {
    match i
    case 224 => 0xa00ae278
    case 225 => 0xd70dd2ee
    case 226 => 0x4e048354
    case 227 => 0x3903b3c2
    case 228 => 0xa7672661
    case 229 => 0xd06016f7
    case 230 => 0x4969474d
    case 231 => 0x3e6e77db
    case 232 => 0xaed16a4a
    case 233 => 0xd9d65adc
    case 234 => 0x40df0b66
    case 235 => 0x37d83bf0
    case 236 => 0xa9bcae53
    case 237 => 0xdebb9ec5
    case 238 => 0x47b2cf7f
    case _ => 0x30b5ffe9
  }

  function Row15(i: bv32): (v: bv32)
    requires 240 <= i <= 255
    ensures v == EightSteps(i)
  {
    match i
    case 240 => 0xbdbdf21c
    case 241 => 0xcabac28a
    case 242 => 0x53b39330
    case 243 => 0x24b4a3a6
    case 244 => 0xbad03605
    case 245 => 0xcdd70693
    case 246 => 0x54de5729
    case 247 => 0x23d967bf
    case 248 => 0xb3667a2e
    case 249 => 0xc4614ab8
    case 250 => 0x5d681b02
    case 251 => 0x2a6f2b94
    case 252 => 0xb40bbe37
    case 253 => 0xc30c8ea1
    case 254 => 0x5a05df1b
    case _ => 0x2d02ef8d
  }

  function Table(i: bv32): (v: bv32)
    requires i <= 0xFF
    ensures v == EightSteps(i)
  {
    if i <= 0xF then Row0(i)
    else if i <= 0x1F then Row1(i)
    else if i <= 0x2F then Row2(i)
    else if i <= 0x3F then Row3(i)
    else if i <= 0x4F then Row4(i)
    else if i <= 0x5F then Row5(i)
    else if i <= 0x6F then Row6(i)
    else if i <= 0x7F then Row7(i)
    else if i <= 0x8F then Row8(i)
    else if i <= 0x9F then Row9(i)
    else if i <= 0xAF then Row10(i)
    else if i <= 0xBF then Row11(i)
    else if i <= 0xCF then Row12(i)
    else if i <= 0xDF then Row13(i)
    else if i <= 0xEF then Row14(i)
    else Row15(i)
  }

  function Xor(x: bv32, y: bv32): bv32 { x ^ y }

  function BitUp(w: bv32): bv32 { w << 1 }

  function ByteUp(w: bv32): bv32 { w << 8 }

  function ByteDown(w: bv32): bv32 { w >> 8 }

  function Lift(b: byte): bv32 { (b as bv8) as bv32 }

  /** The checksum as a shift register, before any table. */
  const REGISTER: Register<bv32> := Register(ByteStep, Xor, ByteUp, Lift)

  /** The bitwise remainder of `s` from the state `crc`. */
  function Remainder(crc: bv32, s: seq<byte>): bv32 {
    Feed(REGISTER, crc, s)
  }

  lemma BitStepInjective(x: bv32, y: bv32)
    requires BitStep(x) == BitStep(y)
    ensures x == y
  {
  }

  lemma OddSlides(x: bv32, w: bv32)
    requires w < 0x80000000 && x & 1 == 1
    ensures (x ^ (w << 1)) & 1 == 1 && ((x ^ (w << 1)) >> 1) ^ POLYNOMIAL == ((x >> 1) ^ POLYNOMIAL) ^ w
  {
  }

  lemma EvenSlides(x: bv32, w: bv32)
    requires w < 0x80000000 && x & 1 != 1
    ensures (x ^ (w << 1)) & 1 != 1 && (x ^ (w << 1)) >> 1 == (x >> 1) ^ w
  {
  }

  lemma BitStepSlides(x: bv32, w: bv32)
    requires w < 0x80000000
    ensures BitStep(x ^ (w << 1)) == BitStep(x) ^ w
  {
    if x & 1 == 1 {
      OddSlides(x, w);
    } else {
      EvenSlides(x, w);
    }
  }

  lemma ByteStepIsEightSteps(x: bv32)
    ensures ByteStep(x) == EightSteps(x)
  {
    assert ByteStep(x) == Iterate(BitStep, 8, x);
  }

  lemma ByteUpIsEightUps(w: bv32)
    ensures Iterate(BitUp, 8, w) == ByteUp(w)
  {
  }

  lemma ByteStepInjective()
    ensures Injective(ByteStep)
  {
    forall x: bv32, y: bv32 | BitStep(x) == BitStep(y) ensures x == y { BitStepInjective(x, y); }
    forall x: bv32, y: bv32 | ByteStep(x) == ByteStep(y) ensures x == y {
      IterateInjective(BitStep, ByteWidth(), x, y);
    }
  }

  predicate BitFits(w: bv32) { w < 0x80000000 }

  predicate ByteFits(w: bv32) { w < 0x1000000 }

  lemma BitStepSlidesAll()
    ensures Slides(BitStep, Xor, BitUp, BitFits)
  {
    forall x: bv32, w: bv32 | BitFits(w) ensures BitStep(Xor(x, BitUp(w))) == Xor(BitStep(x), w) {
      BitStepSlides(x, w);
    }
  }

  lemma ByteStepSlides(x: bv32, w: bv32)
    requires ByteFits(w)
    ensures ByteStep(Xor(x, ByteUp(w))) == Xor(ByteStep(x), w)
  {
    BitStepSlidesAll();
    forall k: nat | k < 8 ensures BitFits(Iterate(BitUp, k, w)) { UpFits(w, k); }
    IterateSlides(BitStep, Xor, BitUp, BitFits, ByteWidth(), x, w);
    ByteUpIsEightUps(w);
  }

  lemma UpFits(w: bv32, k: nat)
    requires ByteFits(w) && k < 8
    ensures BitFits(Iterate(BitUp, k, w))
  {
    if k == 0 {
    } else if k == 1 {
    } else if k == 2 {
    } else if k == 3 {
    } else if k == 4 {
    } else if k == 5 {
    } else if k == 6 {
    } else {
    }
  }

  /** The C loop body: one lookup, one shift. */
  function Update(crc: bv32, b: byte): bv32 {
    SplitState(crc, b);
    Xor(Table(Xor(crc & 0xFF, Lift(b))), ByteDown(crc))
  }

  lemma SplitState(crc: bv32, b: byte)
    ensures Xor(Xor(crc & 0xFF, Lift(b)), ByteUp(ByteDown(crc))) == Xor(crc, Lift(b))
    ensures Xor(crc & 0xFF, Lift(b)) <= 0xFF && ByteFits(ByteDown(crc))
  {
  }

  lemma TableIsByteStep(i: bv32)
    requires i <= 0xFF
    ensures Table(i) == ByteStep(i)
  {
    ByteStepIsEightSteps(i);
  }

  lemma Recombine(x: bv32, low: bv32, high: bv32, t: bv32)
    requires Xor(low, ByteUp(high)) == x && ByteFits(high)
    requires t == ByteStep(low)
    ensures Xor(t, high) == ByteStep(x)
  {
    ByteStepSlides(low, high);
  }

  /** One table lookup divides out one byte. */
  lemma UpdateIsByteStep(crc: bv32, b: byte)
    ensures Update(crc, b) == ByteStep(Xor(crc, Lift(b)))
  {
    SplitState(crc, b);
    var low := Xor(crc & 0xFF, Lift(b));
    TableIsByteStep(low);
    Recombine(Xor(crc, Lift(b)), low, ByteDown(crc), Table(low));
  }

  method Crc32(crc: bv32, s: seq<byte>) returns (r: bv32)
    ensures r == Remainder(crc, s)
  {
    r := crc;
    for j := 0 to |s|
      invariant r == Run(Update, crc, s[..j])
    {
      RunSnoc(Update, crc, s[..j], s[j]);
      assert s[..j + 1] == s[..j] + [s[j]];
      r := Update(r, s[j]);
    }
    assert s[..|s|] == s;
    TableWalkIsRemainder(crc, s);
  }

  lemma TableWalkIsRemainder(crc: bv32, s: seq<byte>)
    ensures Run(Update, crc, s) == Remainder(crc, s)
  {
    forall x: bv32, b: byte ensures Update(x, b) == ByteStep(Xor(x, Lift(b))) { UpdateIsByteStep(x, b); }
    RunIsFeed(Update, REGISTER, crc, s);
  }

  lemma XorAssociative(x: bv32, y: bv32, z: bv32)
    ensures Xor(Xor(x, y), z) == Xor(x, Xor(y, z))
  {
    calc { Xor(Xor(x, y), z); Xor(x ^ y, z); (x ^ y) ^ z; x ^ (y ^ z); x ^ Xor(y, z); Xor(x, Xor(y, z)); }
  }

  lemma XorUndoes(x: bv32, z: bv32)
    ensures Xor(Xor(x, z), z) == x && Xor(x, 0) == x
  {
  }

  lemma XorCommutes(x: bv32, y: bv32)
    ensures Xor(x, y) == Xor(y, x)
  {
  }

  lemma XorCancels(x: bv32, y: bv32, z: bv32)
    ensures Xor(x, z) == Xor(y, z) ==> x == y
    ensures Xor(z, x) == Xor(z, y) ==> x == y
  {
    XorUndoes(x, z);
    XorUndoes(y, z);
    XorCommutes(x, z);
    XorCommutes(y, z);
  }

  lemma LowByte(x: bv32, w: bv32)
    requires x <= 0xFF && ByteFits(w)
    ensures Xor(x, ByteUp(w)) & 0xFF == x && Xor(x, ByteUp(w)) >> 8 == w
  {
  }

  lemma LiftInjective(p: byte, q: byte)
    requires Lift(p) == Lift(q)
    ensures p == q
  {
    ByteRoundTrip(p);
    ByteRoundTrip(q);
    WidenInjective(p as bv8, q as bv8);
  }

  lemma WidenInjective(x: bv8, y: bv8)
    requires x as bv32 == y as bv32
    ensures x == y
  {
  }

  lemma LiftIsByte(b: byte)
    ensures Lift(b) <= 0xFF
  {
  }

  lemma WordsSeparate(p: byte, q: byte, v: bv32, w: bv32)
    requires ByteFits(v) && ByteFits(w) && Xor(Lift(p), ByteUp(v)) == Xor(Lift(q), ByteUp(w))
    ensures p == q && v == w
  {
    LiftIsByte(p);
    LiftIsByte(q);
    LowByte(Lift(p), v);
    LowByte(Lift(q), w);
    LiftInjective(p, q);
  }

  lemma XorAssociates()
    ensures Associates(Xor, 0)
  {
    forall x: bv32, y: bv32, z: bv32 ensures Xor(Xor(x, y), z) == Xor(x, Xor(y, z)) { XorAssociative(x, y, z); }
    forall x: bv32 ensures Xor(x, 0) == x { XorUndoes(x, 0); }
  }

  lemma XorCancelsAll()
    ensures Cancels(Xor)
  {
    forall x: bv32, y: bv32, z: bv32 | Xor(x, z) == Xor(y, z) ensures x == y { XorCancels(x, y, z); }
    forall x: bv32, y: bv32, z: bv32 | Xor(z, x) == Xor(z, y) ensures x == y { XorCancels(x, y, z); }
  }

  lemma SeparatesAll()
    ensures Separates(REGISTER, ByteFits)
  {
    forall p: byte, q: byte, v: bv32, w: bv32 {:trigger Lift(p), Lift(q), ByteFits(v), ByteFits(w)}
      | ByteFits(v) && ByteFits(w) && Xor(Lift(p), ByteUp(v)) == Xor(Lift(q), ByteUp(w))
      ensures p == q && v == w
    {
      WordsSeparate(p, q, v, w);
    }
  }

  /** Bytes packed so far stay below the next free byte. */
  function Bound(n: nat): bv32
    requires n < 4
  {
    match n
    case 0 => 0x1
    case 1 => 0x100
    case 2 => 0x10000
    case _ => 0x1000000
  }

  lemma PackGrows(b: byte, w: bv32, n: nat)
    requires n < 3 && w < Bound(n)
    ensures Xor(Lift(b), ByteUp(w)) < Bound(n + 1)
  {
    LiftIsByte(b);
    var x := Lift(b);
    match n
    case 0 => PackGrowsBits(x, w, 0x1, 0x100);
    case 1 => PackGrowsBits(x, w, 0x100, 0x10000);
    case _ => PackGrowsBits(x, w, 0x10000, 0x1000000);
  }

  lemma PackGrowsBits(x: bv32, w: bv32, bound: bv32, next: bv32)
    requires x <= 0xFF && bound <= 0x10000 && next == ByteUp(bound) && w < bound
    ensures Xor(x, ByteUp(w)) < next
  {
  }

  predicate Below(w: bv32, n: nat) { n < 4 && w < Bound(n) }

  lemma ShortDataFits(data: seq<byte>)
    requires |data| <= 4
    ensures PacksFit(REGISTER, 0, ByteFits, data)
  {
    forall b: byte, w: bv32, n: nat {:trigger Lift(b), Below(w, n)} | n < 3 && Below(w, n)
      ensures Below(Xor(Lift(b), ByteUp(w)), n + 1)
    {
      PackGrows(b, w, n);
    }
    forall i | 0 < i <= |data| ensures ByteFits(Pack(REGISTER, 0, data[i..])) {
      PackStaysBelow(REGISTER, 0, Below, 3, data[i..]);
      BoundFits(Pack(REGISTER, 0, data[i..]), |data| - i);
    }
  }

  lemma BoundFits(w: bv32, n: nat)
    requires Below(w, n)
    ensures ByteFits(w)
  {
  }

  /** Damage confined to 4 consecutive bytes always changes the checksum. */
  lemma BurstChangesRemainder(crc: bv32, prefix: seq<byte>, a: seq<byte>, b: seq<byte>, suffix: seq<byte>)
    requires |a| == |b| <= 4
    ensures Remainder(crc, prefix + a + suffix) == Remainder(crc, prefix + b + suffix) <==> a == b
  {
    ByteStepInjective();
    forall x: bv32, w: bv32 | ByteFits(w) ensures ByteStep(Xor(x, ByteUp(w))) == Xor(ByteStep(x), w) {
      ByteStepSlides(x, w);
    }
    XorAssociates();
    XorCancelsAll();
    SeparatesAll();
    assert Laws(REGISTER, 0, ByteFits);
    ShortDataFits(a);
    ShortDataFits(b);
    BurstDetected(REGISTER, 0, ByteFits, crc, prefix, a, b, suffix);
  }
}
