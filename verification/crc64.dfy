/** The table-driven CRC-64, and the damage it cannot miss.

    The reference is the bit-at-a-time remainder by the reflected polynomial;
    the table is proved equal to it entry by entry. */
module Crc64 {
  import opened Base
  import opened ShiftRegister

  const POLYNOMIAL: bv64 := 0x95ac9329ac4bc9b5

  function BitStep(x: bv64): bv64 {
    if x & 1 == 1 then (x >> 1) ^ POLYNOMIAL else x >> 1
  }

  /** Eight bit steps, spelled out. */
  function EightSteps(x: bv64): bv64 {
    BitStep(BitStep(BitStep(BitStep(BitStep(BitStep(BitStep(BitStep(x))))))))
  }

  /** One byte of division. */
  function ByteStep(x: bv64): bv64 {
    Iterate(BitStep, ByteWidth(), x)
  }

  function ByteWidth(): nat { 8 }

  // The constant table, 16 entries a row.

  function Row0(i: bv64): (v: bv64)
    requires 0 <= i <= 15
    ensures v == EightSteps(i)
  {
    match i
    case 0 => 0x0000000000000000
    case 1 => 0x7ad870c830358979
    case 2 => 0xf5b0e190606b12f2
    case 3 => 0x8f689158505e9b8b
    case 4 => 0xc038e5739841b68f
    case 5 => 0xbae095bba8743ff6
    case 6 => 0x358804e3f82aa47d
    case 7 => 0x4f50742bc81f2d04
    case 8 => 0xab28ecb46814fe75
    case 9 => 0xd1f09c7c5821770c
    case 10 => 0x5e980d24087fec87
    case 11 => 0x24407dec384a65fe
    case 12 => 0x6b1009c7f05548fa
    case 13 => 0x11c8790fc060c183
    case 14 => 0x9ea0e857903e5a08
    case _ => 0xe478989fa00bd371
  }

  function Row1(i: bv64): (v: bv64)
    requires 16 <= i <= 31
    ensures v == EightSteps(i)
  {
    match i
    case 16 => 0x7d08ff3b88be6f81
    case 17 => 0x07d08ff3b88be6f8
    case 18 => 0x88b81eabe8d57d73
    case 19 => 0xf2606e63d8e0f40a
    case 20 => 0xbd301a4810ffd90e
    case 21 => 0xc7e86a8020ca5077
    case 22 => 0x4880fbd87094cbfc
    case 23 => 0x32588b1040a14285
    case 24 => 0xd620138fe0aa91f4
    case 25 => 0xacf86347d09f188d
    case 26 => 0x2390f21f80c18306
    case 27 => 0x594882d7b0f40a7f
    case 28 => 0x1618f6fc78eb277b
    case 29 => 0x6cc0863448deae02
    case 30 => 0xe3a8176c18803589
    case _ => 0x997067a428b5bcf0
  }

  function Row2(i: bv64): (v: bv64)
    requires 32 <= i <= 47
    ensures v == EightSteps(i)
  {
    match i
    case 32 => 0xfa11fe77117cdf02
    case 33 => 0x80c98ebf2149567b
    case 34 => 0x0fa11fe77117cdf0
    case 35 => 0x75796f2f41224489
    case 36 => 0x3a291b04893d698d
    case 37 => 0x40f16bccb908e0f4
    case 38 => 0xcf99fa94e9567b7f
    case 39 => 0xb5418a5cd963f206
    case 40 => 0x513912c379682177
    case 41 => 0x2be1620b495da80e
    case 42 => 0xa489f35319033385
    case 43 => 0xde51839b2936bafc
    case 44 => 0x9101f7b0e12997f8
    case 45 => 0xebd98778d11c1e81
    case 46 => 0x64b116208142850a
    case _ => 0x1e6966e8b1770c73
  }

  function Row3(i: bv64): (v: bv64)
    requires 48 <= i <= 63
    ensures v == EightSteps(i)
  {
    match i
    case 48 => 0x8719014c99c2b083
    case 49 => 0xfdc17184a9f739fa
    case 50 => 0x72a9e0dcf9a9a271
    case 51 => 0x08719014c99c2b08
    case 52 => 0x4721e43f0183060c
    case 53 => 0x3df994f731b68f75
    case 54 => 0xb29105af61e814fe
    case 55 => 0xc849756751dd9d87
    case 56 => 0x2c31edf8f1d64ef6
    case 57 => 0x56e99d30c1e3c78f
    case 58 => 0xd9810c6891bd5c04
    case 59 => 0xa3597ca0a188d57d
    case 60 => 0xec09088b6997f879
    case 61 => 0x96d1784359a27100
    case 62 => 0x19b9e91b09fcea8b
    case _ => 0x636199d339c963f2
  }

  function Row4(i: bv64): (v: bv64)
    requires 64 <= i <= 79
    ensures v == EightSteps(i)
  {
    match i
    case 64 => 0xdf7adabd7a6e2d6f
    case 65 => 0xa5a2aa754a5ba416
    case 66 => 0x2aca3b2d1a053f9d
    case 67 => 0x50124be52a30b6e4
    case 68 => 0x1f423fcee22f9be0
    case 69 => 0x659a4f06d21a1299
    case 70 => 0xeaf2de5e82448912
    case 71 => 0x902aae96b271006b
    case 72 => 0x74523609127ad31a
    case 73 => 0x0e8a46c1224f5a63
    case 74 => 0x81e2d7997211c1e8
    case 75 => 0xfb3aa75142244891
    case 76 => 0xb46ad37a8a3b6595
    case 77 => 0xceb2a3b2ba0eecec
    case 78 => 0x41da32eaea507767
    case _ => 0x3b024222da65fe1e
  }

  function Row5(i: bv64): (v: bv64)
    requires 80 <= i <= 95
    ensures v == EightSteps(i)
  {
    match i
    case 80 => 0xa2722586f2d042ee
    case 81 => 0xd8aa554ec2e5cb97
    case 82 => 0x57c2c41692bb501c
    case 83 => 0x2d1ab4dea28ed965
    case 84 => 0x624ac0f56a91f461
    case 85 => 0x1892b03d5aa47d18
    case 86 => 0x97fa21650afae693
    case 87 => 0xed2251ad3acf6fea
    case 88 => 0x095ac9329ac4bc9b
    case 89 => 0x7382b9faaaf135e2
    case 90 => 0xfcea28a2faafae69
    case 91 => 0x8632586aca9a2710
    case 92 => 0xc9622c4102850a14
    case 93 => 0xb3ba5c8932b0836d
    case 94 => 0x3cd2cdd162ee18e6
    case _ => 0x460abd1952db919f
  }

  function Row6(i: bv64): (v: bv64)
    requires 96 <= i <= 111
    ensures v == EightSteps(i)
  {
    match i
    case 96 => 0x256b24ca6b12f26d
    case 97 => 0x5fb354025b277b14
    case 98 => 0xd0dbc55a0b79e09f
    case 99 => 0xaa03b5923b4c69e6
    case 100 => 0xe553c1b9f35344e2
    case 101 => 0x9f8bb171c366cd9b
    case 102 => 0x10e3202993385610
    case 103 => 0x6a3b50e1a30ddf69
    case 104 => 0x8e43c87e03060c18
    case 105 => 0xf49bb8b633338561
    case 106 => 0x7bf329ee636d1eea
    case 107 => 0x012b592653589793
    case 108 => 0x4e7b2d0d9b47ba97
    case 109 => 0x34a35dc5ab7233ee
    case 110 => 0xbbcbcc9dfb2ca865
    case _ => 0xc113bc55cb19211c
  }

  function Row7(i: bv64): (v: bv64)
    requires 112 <= i <= 127
    ensures v == EightSteps(i)
  {
    match i
    case 112 => 0x5863dbf1e3ac9dec
    case 113 => 0x22bbab39d3991495
    case 114 => 0xadd33a6183c78f1e
    case 115 => 0xd70b4aa9b3f20667
    case 116 => 0x985b3e827bed2b63
    case 117 => 0xe2834e4a4bd8a21a
    case 118 => 0x6debdf121b863991
    case 119 => 0x1733afda2bb3b0e8
    case 120 => 0xf34b37458bb86399
    case 121 => 0x8993478dbb8deae0
    case 122 => 0x06fbd6d5ebd3716b
    case 123 => 0x7c23a61ddbe6f812
    case 124 => 0x3373d23613f9d516
    case 125 => 0x49aba2fe23cc5c6f
    case 126 => 0xc6c333a67392c7e4
    case _ => 0xbc1b436e43a74e9d
  }

  function Row8(i: bv64): (v: bv64)
    requires 128 <= i <= 143
    ensures v == EightSteps(i)
  {
    match i
    case 128 => 0x95ac9329ac4bc9b5
    case 129 => 0xef74e3e19c7e40cc
    case 130 => 0x601c72b9cc20db47
    case 131 => 0x1ac40271fc15523e
    case 132 => 0x5594765a340a7f3a
    case 133 => 0x2f4c0692043ff643
    case 134 => 0xa02497ca54616dc8
    case 135 => 0xdafce7026454e4b1
    case 136 => 0x3e847f9dc45f37c0
    case 137 => 0x445c0f55f46abeb9
    case 138 => 0xcb349e0da4342532
    case 139 => 0xb1eceec59401ac4b
    case 140 => 0xfebc9aee5c1e814f
    case 141 => 0x8464ea266c2b0836
    case 142 => 0x0b0c7b7e3c7593bd
    case _ => 0x71d40bb60c401ac4
  }

  function Row9(i: bv64): (v: bv64)
    requires 144 <= i <= 159
    ensures v == EightSteps(i)
  {
    match i
    case 144 => 0xe8a46c1224f5a634
    case 145 => 0x927c1cda14c02f4d
    case 146 => 0x1d148d82449eb4c6
    case 147 => 0x67ccfd4a74ab3dbf
    case 148 => 0x289c8961bcb410bb
    case 149 => 0x5244f9a98c8199c2
    case 150 => 0xdd2c68f1dcdf0249
    case 151 => 0xa7f41839ecea8b30
    case 152 => 0x438c80a64ce15841
    case 153 => 0x3954f06e7cd4d138
    case 154 => 0xb63c61362c8a4ab3
    case 155 => 0xcce411fe1cbfc3ca
    case 156 => 0x83b465d5d4a0eece
    case 157 => 0xf96c151de49567b7
    case 158 => 0x76048445b4cbfc3c
    case _ => 0x0cdcf48d84fe7545
  }

  function Row10(i: bv64): (v: bv64)
    requires 160 <= i <= 175
    ensures v == EightSteps(i)
  {
    match i
    case 160 => 0x6fbd6d5ebd3716b7
    case 161 => 0x15651d968d029fce
    case 162 => 0x9a0d8ccedd5c0445
    case 163 => 0xe0d5fc06ed698d3c
    case 164 => 0xaf85882d2576a038
    case 165 => 0xd55df8e515432941
    case 166 => 0x5a3569bd451db2ca
    case 167 => 0x20ed197575283bb3
    case 168 => 0xc49581ead523e8c2
    case 169 => 0xbe4df122e51661bb
    case 170 => 0x3125607ab548fa30
    case 171 => 0x4bfd10b2857d7349
    case 172 => 0x04ad64994d625e4d
    case 173 => 0x7e7514517d57d734
    case 174 => 0xf11d85092d094cbf
    case _ => 0x8bc5f5c11d3cc5c6
  }

  function Row11(i: bv64): (v: bv64)
    requires 176 <= i <= 191
    ensures v == EightSteps(i)
  {
    match i
    case 176 => 0x12b5926535897936
    case 177 => 0x686de2ad05bcf04f
    case 178 => 0xe70573f555e26bc4
    case 179 => 0x9ddd033d65d7e2bd
    case 180 => 0xd28d7716adc8cfb9
    case 181 => 0xa85507de9dfd46c0
    case 182 => 0x273d9686cda3dd4b
    case 183 => 0x5de5e64efd965432
    case 184 => 0xb99d7ed15d9d8743
    case 185 => 0xc3450e196da80e3a
    case 186 => 0x4c2d9f413df695b1
    case 187 => 0x36f5ef890dc31cc8
    case 188 => 0x79a59ba2c5dc31cc
    case 189 => 0x037deb6af5e9b8b5
    case 190 => 0x8c157a32a5b7233e
    case _ => 0xf6cd0afa9582aa47
  }

  function Row12(i: bv64): (v: bv64)
    requires 192 <= i <= 207
    ensures v == EightSteps(i)
  {
    match i
    case 192 => 0x4ad64994d625e4da
    case 193 => 0x300e395ce6106da3
    case 194 => 0xbf66a804b64ef628
    case 195 => 0xc5bed8cc867b7f51
    case 196 => 0x8aeeace74e645255
    case 197 => 0xf036dc2f7e51db2c
    case 198 => 0x7f5e4d772e0f40a7
    case 199 => 0x05863dbf1e3ac9de
    case 200 => 0xe1fea520be311aaf
    case 201 => 0x9b26d5e88e0493d6
    case 202 => 0x144e44b0de5a085d
    case 203 => 0x6e963478ee6f8124
    case 204 => 0x21c640532670ac20
    case 205 => 0x5b1e309b16452559
    case 206 => 0xd476a1c3461bbed2
    case _ => 0xaeaed10b762e37ab
  }

  function Row13(i: bv64): (v: bv64)
    requires 208 <= i <= 223
    ensures v == EightSteps(i)
  {
    match i
    case 208 => 0x37deb6af5e9b8b5b
    case 209 => 0x4d06c6676eae0222
    case 210 => 0xc26e573f3ef099a9
    case 211 => 0xb8b627f70ec510d0
    case 212 => 0xf7e653dcc6da3dd4
    case 213 => 0x8d3e2314f6efb4ad
    case 214 => 0x0256b24ca6b12f26
    case 215 => 0x788ec2849684a65f
    case 216 => 0x9cf65a1b368f752e
    case 217 => 0xe62e2ad306bafc57
    case 218 => 0x6946bb8b56e467dc
    case 219 => 0x139ecb4366d1eea5
    case 220 => 0x5ccebf68aecec3a1
    case 221 => 0x2616cfa09efb4ad8
    case 222 => 0xa97e5ef8cea5d153
    case _ => 0xd3a62e30fe90582a
  }

  function Row14(i: bv64): (v: bv64)
    requires 224 <= i <= 239
    ensures v == EightSteps(i)
  {
    match i
    case 224 => 0xb0c7b7e3c7593bd8
    case 225 => 0xca1fc72bf76cb2a1
    case 226 => 0x45775673a732292a
    case 227 => 0x3faf26bb9707a053
    case 228 => 0x70ff52905f188d57
    case 229 => 0x0a2722586f2d042e
    case 230 => 0x854fb3003f739fa5
    case 231 => 0xff97c3c80f4616dc
    case 232 => 0x1bef5b57af4dc5ad
    case 233 => 0x61372b9f9f784cd4
    case 234 => 0xee5fbac7cf26d75f
    case 235 => 0x9487ca0fff135e26
    case 236 => 0xdbd7be24370c7322
    case 237 => 0xa10fceec0739fa5b
    case 238 => 0x2e675fb4576761d0
    case _ => 0x54bf2f7c6752e8a9
  }

  function Row15(i: bv64): (v: bv64)
    requires 240 <= i <= 255
    ensures v == EightSteps(i)
  {
    match i
    case 240 => 0xcdcf48d84fe75459
    case 241 => 0xb71738107fd2dd20
    case 242 => 0x387fa9482f8c46ab
    case 243 => 0x42a7d9801fb9cfd2
    case 244 => 0x0df7adabd7a6e2d6
    case 245 => 0x772fdd63e7936baf
    case 246 => 0xf8474c3bb7cdf024
    case 247 => 0x829f3cf387f8795d
    case 248 => 0x66e7a46c27f3aa2c
    case 249 => 0x1c3fd4a417c62355
    case 250 => 0x935745fc4798b8de
    case 251 => 0xe98f353477ad31a7
    case 252 => 0xa6df411fbfb21ca3
    case 253 => 0xdc0731d78f8795da
    case 254 => 0x536fa08fdfd90e51
    case _ => 0x29b7d047efec8728
  }

  function Table(i: bv64): (v: bv64)
    requires i <= 0xFF
    ensures v == EightSteps(i)
  {
    if i <= 0xF then Row0(i)
    else if i <= 0x1F then Row1(i)
    else if i <= 0x2F then Row2(i)
    else if i <= 0x3F then Row3(i)
    else if i <= 0x4F then Row4(i)
    else if i <= 0x5F then Row5(i)
    else if i <= 0x6F then Row6(i)
    else if i <= 0x7F then Row7(i)
    else if i <= 0x8F then Row8(i)
    else if i <= 0x9F then Row9(i)
    else if i <= 0xAF then Row10(i)
    else if i <= 0xBF then Row11(i)
    else if i <= 0xCF then Row12(i)
    else if i <= 0xDF then Row13(i)
    else if i <= 0xEF then Row14(i)
    else Row15(i)
  }

  function Xor(x: bv64, y: bv64): bv64 { x ^ y }

  function BitUp(w: bv64): bv64 { w << 1 }

  function ByteUp(w: bv64): bv64 { w << 8 }

  function ByteDown(w: bv64): bv64 { w >> 8 }

  function Lift(b: byte): bv64 { (b as bv8) as bv64 }

  /** The checksum as a shift register, before any table. */
  const REGISTER: Register<bv64> := Register(ByteStep, Xor, ByteUp, Lift)

  /** The bitwise remainder of `s` from the state `crc`. */
  function Remainder(crc: bv64, s: seq<byte>): bv64 {
    Feed(REGISTER, crc, s)
  }

  lemma BitStepInjective(x: bv64, y: bv64)
    requires BitStep(x) == BitStep(y)
    ensures x == y
  {
  }

  lemma OddSlides(x: bv64, w: bv64)
    requires w < 0x8000000000000000 && x & 1 == 1
    ensures (x ^ (w << 1)) & 1 == 1 && ((x ^ (w << 1)) >> 1) ^ POLYNOMIAL == ((x >> 1) ^ POLYNOMIAL) ^ w
  {
  }

  lemma EvenSlides(x: bv64, w: bv64)
    requires w < 0x8000000000000000 && x & 1 != 1
    ensures (x ^ (w << 1)) & 1 != 1 && (x ^ (w << 1)) >> 1 == (x >> 1) ^ w
  {
  }

  lemma BitStepSlides(x: bv64, w: bv64)
    requires w < 0x8000000000000000
    ensures BitStep(x ^ (w << 1)) == BitStep(x) ^ w
  {
    if x & 1 == 1 {
      OddSlides(x, w);
    } else {
      EvenSlides(x, w);
    }
  }

  lemma ByteStepIsEightSteps(x: bv64)
    ensures ByteStep(x) == EightSteps(x)
  {
    assert ByteStep(x) == Iterate(BitStep, 8, x);
  }

  lemma ByteUpIsEightUps(w: bv64)
    ensures Iterate(BitUp, 8, w) == ByteUp(w)
  {
  }

  lemma ByteStepInjective()
    ensures Injective(ByteStep)
  {
    forall x: bv64, y: bv64 | BitStep(x) == BitStep(y) ensures x == y { BitStepInjective(x, y); }
    forall x: bv64, y: bv64 | ByteStep(x) == ByteStep(y) ensures x == y {
      IterateInjective(BitStep, ByteWidth(), x, y);
    }
  }

  predicate BitFits(w: bv64) { w < 0x8000000000000000 }

  predicate ByteFits(w: bv64) { w < 0x100000000000000 }

  lemma BitStepSlidesAll()
    ensures Slides(BitStep, Xor, BitUp, BitFits)
  {
    forall x: bv64, w: bv64 | BitFits(w) ensures BitStep(Xor(x, BitUp(w))) == Xor(BitStep(x), w) {
      BitStepSlides(x, w);
    }
  }

  lemma ByteStepSlides(x: bv64, w: bv64)
    requires ByteFits(w)
    ensures ByteStep(Xor(x, ByteUp(w))) == Xor(ByteStep(x), w)
  {
    BitStepSlidesAll();
    forall k: nat | k < 8 ensures BitFits(Iterate(BitUp, k, w)) { UpFits(w, k); }
    IterateSlides(BitStep, Xor, BitUp, BitFits, ByteWidth(), x, w);
    ByteUpIsEightUps(w);
  }

  lemma UpFits(w: bv64, k: nat)
    requires ByteFits(w) && k < 8
    ensures BitFits(Iterate(BitUp, k, w))
  {
    if k == 0 {
    } else if k == 1 {
    } else if k == 2 {
    } else if k == 3 {
    } else if k == 4 {
    } else if k == 5 {
    } else if k == 6 {
    } else {
    }
  }

  /** The C loop body: one lookup, one shift. */
  function Update(crc: bv64, b: byte): bv64 {
    SplitState(crc, b);
    Xor(Table(Xor(crc & 0xFF, Lift(b))), ByteDown(crc))
  }

  lemma SplitState(crc: bv64, b: byte)
    ensures Xor(Xor(crc & 0xFF, Lift(b)), ByteUp(ByteDown(crc))) == Xor(crc, Lift(b))
    ensures Xor(crc & 0xFF, Lift(b)) <= 0xFF && ByteFits(ByteDown(crc))
  {
  }

  lemma TableIsByteStep(i: bv64)
    requires i <= 0xFF
    ensures Table(i) == ByteStep(i)
  {
    ByteStepIsEightSteps(i);
  }

  lemma Recombine(x: bv64, low: bv64, high: bv64, t: bv64)
    requires Xor(low, ByteUp(high)) == x && ByteFits(high)
    requires t == ByteStep(low)
    ensures Xor(t, high) == ByteStep(x)
  {
    ByteStepSlides(low, high);
  }

  /** One table lookup divides out one byte. */
  lemma UpdateIsByteStep(crc: bv64, b: byte)
    ensures Update(crc, b) == ByteStep(Xor(crc, Lift(b)))
  {
    SplitState(crc, b);
    var low := Xor(crc & 0xFF, Lift(b));
    TableIsByteStep(low);
    Recombine(Xor(crc, Lift(b)), low, ByteDown(crc), Table(low));
  }

  method Crc64(crc: bv64, s: seq<byte>) returns (r: bv64)
    ensures r == Remainder(crc, s)
  {
    r := crc;
    for j := 0 to |s|
      invariant r == Run(Update, crc, s[..j])
    {
      RunSnoc(Update, crc, s[..j], s[j]);
      assert s[..j + 1] == s[..j] + [s[j]];
      r := Update(r, s[j]);
    }
    assert s[..|s|] == s;
    TableWalkIsRemainder(crc, s);
  }

  lemma TableWalkIsRemainder(crc: bv64, s: seq<byte>)
    ensures Run(Update, crc, s) == Remainder(crc, s)
  {
    forall x: bv64, b: byte ensures Update(x, b) == ByteStep(Xor(x, Lift(b))) { UpdateIsByteStep(x, b); }
    RunIsFeed(Update, REGISTER, crc, s);
  }

  lemma XorAssociative(x: bv64, y: bv64, z: bv64)
    ensures Xor(Xor(x, y), z) == Xor(x, Xor(y, z))
  {
    calc { Xor(Xor(x, y), z); Xor(x ^ y, z); (x ^ y) ^ z; x ^ (y ^ z); x ^ Xor(y, z); Xor(x, Xor(y, z)); }
  }

  lemma XorUndoes(x: bv64, z: bv64)
    ensures Xor(Xor(x, z), z) == x && Xor(x, 0) == x
  {
  }

  lemma XorCommutes(x: bv64, y: bv64)
    ensures Xor(x, y) == Xor(y, x)
  {
  }

  lemma XorCancels(x: bv64, y: bv64, z: bv64)
    ensures Xor(x, z) == Xor(y, z) ==> x == y
    ensures Xor(z, x) == Xor(z, y) ==> x == y
  {
    XorUndoes(x, z);
    XorUndoes(y, z);
    XorCommutes(x, z);
    XorCommutes(y, z);
  }

  lemma LowByte(x: bv64, w: bv64)
    requires x <= 0xFF && ByteFits(w)
    ensures Xor(x, ByteUp(w)) & 0xFF == x && Xor(x, ByteUp(w)) >> 8 == w
  {
  }

  lemma LiftInjective(p: byte, q: byte)
    requires Lift(p) == Lift(q)
    ensures p == q
  {
    ByteRoundTrip(p);
    ByteRoundTrip(q);
    WidenInjective(p as bv8, q as bv8);
  }

  lemma WidenInjective(x: bv8, y: bv8)
    requires x as bv64 == y as bv64
    ensures x == y
  {
  }

  lemma LiftIsByte(b: byte)
    ensures Lift(b) <= 0xFF
  {
  }

  lemma WordsSeparate(p: byte, q: byte, v: bv64, w: bv64)
    requires ByteFits(v) && ByteFits(w) && Xor(Lift(p), ByteUp(v)) == Xor(Lift(q), ByteUp(w))
    ensures p == q && v == w
  {
    LiftIsByte(p);
    LiftIsByte(q);
    LowByte(Lift(p), v);
    LowByte(Lift(q), w);
    LiftInjective(p, q);
  }

  lemma XorAssociates()
    ensures Associates(Xor, 0)
  {
    forall x: bv64, y: bv64, z: bv64 ensures Xor(Xor(x, y), z) == Xor(x, Xor(y, z)) { XorAssociative(x, y, z); }
    forall x: bv64 ensures Xor(x, 0) == x { XorUndoes(x, 0); }
  }

  lemma XorCancelsAll()
    ensures Cancels(Xor)
  {
    forall x: bv64, y: bv64, z: bv64 | Xor(x, z) == Xor(y, z) ensures x == y { XorCancels(x, y, z); }
    forall x: bv64, y: bv64, z: bv64 | Xor(z, x) == Xor(z, y) ensures x == y { XorCancels(x, y, z); }
  }

  lemma SeparatesAll()
    ensures Separates(REGISTER, ByteFits)
  {
    forall p: byte, q: byte, v: bv64, w: bv64 {:trigger Lift(p), Lift(q), ByteFits(v), ByteFits(w)}
      | ByteFits(v) && ByteFits(w) && Xor(Lift(p), ByteUp(v)) == Xor(Lift(q), ByteUp(w))
      ensures p == q && v == w
    {
      WordsSeparate(p, q, v, w);
    }
  }

  /** Bytes packed so far stay below the next free byte. */
  function Bound(n: nat): bv64
    requires n < 8
  {
    match n
    case 0 => 0x1
    case 1 => 0x100
    case 2 => 0x10000
    case 3 => 0x1000000
    case 4 => 0x100000000
    case 5 => 0x10000000000
    case 6 => 0x1000000000000
    case _ => 0x100000000000000
  }

  lemma PackGrows(b: byte, w: bv64, n: nat)
    requires n < 7 && w < Bound(n)
    ensures Xor(Lift(b), ByteUp(w)) < Bound(n + 1)
  {
    LiftIsByte(b);
    var x := Lift(b);
    match n
    case 0 => PackGrowsBits(x, w, 0x1, 0x100);
    case 1 => PackGrowsBits(x, w, 0x100, 0x10000);
    case 2 => PackGrowsBits(x, w, 0x10000, 0x1000000);
    case 3 => PackGrowsBits(x, w, 0x1000000, 0x100000000);
    case 4 => PackGrowsBits(x, w, 0x100000000, 0x10000000000);
    case 5 => PackGrowsBits(x, w, 0x10000000000, 0x1000000000000);
    case _ => PackGrowsBits(x, w, 0x1000000000000, 0x100000000000000);
  }

  lemma PackGrowsBits(x: bv64, w: bv64, bound: bv64, next: bv64)
    requires x <= 0xFF && bound <= 0x1000000000000 && next == ByteUp(bound) && w < bound
    ensures Xor(x, ByteUp(w)) < next
  {
  }

  predicate Below(w: bv64, n: nat) { n < 8 && w < Bound(n) }

  lemma ShortDataFits(data: seq<byte>)
    requires |data| <= 8
    ensures PacksFit(REGISTER, 0, ByteFits, data)
  {
    forall b: byte, w: bv64, n: nat {:trigger Lift(b), Below(w, n)} | n < 7 && Below(w, n)
      ensures Below(Xor(Lift(b), ByteUp(w)), n + 1)
    {
      PackGrows(b, w, n);
    }
    forall i | 0 < i <= |data| ensures ByteFits(Pack(REGISTER, 0, data[i..])) {
      PackStaysBelow(REGISTER, 0, Below, 7, data[i..]);
      BoundFits(Pack(REGISTER, 0, data[i..]), |data| - i);
    }
  }

  lemma BoundFits(w: bv64, n: nat)
    requires Below(w, n)
    ensures ByteFits(w)
  {
  }

  /** Damage confined to 8 consecutive bytes always changes the checksum. */
  lemma BurstChangesRemainder(crc: bv64, prefix: seq<byte>, a: seq<byte>, b: seq<byte>, suffix: seq<byte>)
    requires |a| == |b| <= 8
    ensures Remainder(crc, prefix + a + suffix) == Remainder(crc, prefix + b + suffix) <==> a == b
  {
    ByteStepInjective();
    forall x: bv64, w: bv64 | ByteFits(w) ensures ByteStep(Xor(x, ByteUp(w))) == Xor(ByteStep(x), w) {
      ByteStepSlides(x, w);
    }
    XorAssociates();
    XorCancelsAll();
    SeparatesAll();
    assert Laws(REGISTER, 0, ByteFits);
    ShortDataFits(a);
    ShortDataFits(b);
    BurstDetected(REGISTER, 0, ByteFits, crc, prefix, a, b, suffix);
  }
}
