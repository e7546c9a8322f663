/** The table-driven CRC-32 step the traditional ZIP cipher uses for its
    first and third key registers (src/formats/zip_crypto.rs, lines 55-115),
    together with the bitwise definition of the reflected CRC-32 over the
    polynomial 0xEDB88320 that the table is meant to encode. */
module Crc32 {

  /** The reflected CRC-32 polynomial. */
  const Polynomial: bv32 := 0xEDB88320

  /** One bit of reflected CRC division: shift right, and fold the polynomial
      (written out, equal to `Polynomial`) in when the bit shifted out is set.
      The fold is written without a branch: `0 - (c & 1)` is all ones when
      the low bit is set and zero otherwise. */
  function ShiftBit(c: bv32): bv32 {
    (c >> 1) ^ (0xEDB88320 & (0 - (c & 1)))
  }

  /** Eight bit steps: the bitwise reference for consuming one byte. */
  function ShiftByte(c: bv32): bv32 {
    ShiftBit(ShiftBit(ShiftBit(ShiftBit(ShiftBit(ShiftBit(ShiftBit(ShiftBit(c))))))))
  }

  // The 256 entries of the source's table, in the source's order, written as
  // sixteen rows of sixteen joined pairwise.
  const Table: seq<bv32> :=
    ((([0x00000000, 0x77073096, 0xee0e612c, 0x990951ba, 0x076dc419, 0x706af48f, 0xe963a535, 0x9e6495a3,
       0x0edb8832, 0x79dcb8a4, 0xe0d5e91e, 0x97d2d988, 0x09b64c2b, 0x7eb17cbd, 0xe7b82d07, 0x90bf1d91] +
      [0x1db71064, 0x6ab020f2, 0xf3b97148, 0x84be41de, 0x1adad47d, 0x6ddde4eb, 0xf4d4b551, 0x83d385c7,
       0x136c9856, 0x646ba8c0, 0xfd62f97a, 0x8a65c9ec, 0x14015c4f, 0x63066cd9, 0xfa0f3d63, 0x8d080df5]) +
     ([0x3b6e20c8, 0x4c69105e, 0xd56041e4, 0xa2677172, 0x3c03e4d1, 0x4b04d447, 0xd20d85fd, 0xa50ab56b,
       0x35b5a8fa, 0x42b2986c, 0xdbbbc9d6, 0xacbcf940, 0x32d86ce3, 0x45df5c75, 0xdcd60dcf, 0xabd13d59] +
      [0x26d930ac, 0x51de003a, 0xc8d75180, 0xbfd06116, 0x21b4f4b5, 0x56b3c423, 0xcfba9599, 0xb8bda50f,
       0x2802b89e, 0x5f058808, 0xc60cd9b2, 0xb10be924, 0x2f6f7c87, 0x58684c11, 0xc1611dab, 0xb6662d3d])) +
     (([0x76dc4190, 0x01db7106, 0x98d220bc, 0xefd5102a, 0x71b18589, 0x06b6b51f, 0x9fbfe4a5, 0xe8b8d433,
       0x7807c9a2, 0x0f00f934, 0x9609a88e, 0xe10e9818, 0x7f6a0dbb, 0x086d3d2d, 0x91646c97, 0xe6635c01] +
      [0x6b6b51f4, 0x1c6c6162, 0x856530d8, 0xf262004e, 0x6c0695ed, 0x1b01a57b, 0x8208f4c1, 0xf50fc457,
       0x65b0d9c6, 0x12b7e950, 0x8bbeb8ea, 0xfcb9887c, 0x62dd1ddf, 0x15da2d49, 0x8cd37cf3, 0xfbd44c65]) +
     ([0x4db26158, 0x3ab551ce, 0xa3bc0074, 0xd4bb30e2, 0x4adfa541, 0x3dd895d7, 0xa4d1c46d, 0xd3d6f4fb,
       0x4369e96a, 0x346ed9fc, 0xad678846, 0xda60b8d0, 0x44042d73, 0x33031de5, 0xaa0a4c5f, 0xdd0d7cc9] +
      [0x5005713c, 0x270241aa, 0xbe0b1010, 0xc90c2086, 0x5768b525, 0x206f85b3, 0xb966d409, 0xce61e49f,
       0x5edef90e, 0x29d9c998, 0xb0d09822, 0xc7d7a8b4, 0x59b33d17, 0x2eb40d81, 0xb7bd5c3b, 0xc0ba6cad]))) +
    ((([0xedb88320, 0x9abfb3b6, 0x03b6e20c, 0x74b1d29a, 0xead54739, 0x9dd277af, 0x04db2615, 0x73dc1683,
       0xe3630b12, 0x94643b84, 0x0d6d6a3e, 0x7a6a5aa8, 0xe40ecf0b, 0x9309ff9d, 0x0a00ae27, 0x7d079eb1] +
      [0xf00f9344, 0x8708a3d2, 0x1e01f268, 0x6906c2fe, 0xf762575d, 0x806567cb, 0x196c3671, 0x6e6b06e7,
       0xfed41b76, 0x89d32be0, 0x10da7a5a, 0x67dd4acc, 0xf9b9df6f, 0x8ebeeff9, 0x17b7be43, 0x60b08ed5]) +
     ([0xd6d6a3e8, 0xa1d1937e, 0x38d8c2c4, 0x4fdff252, 0xd1bb67f1, 0xa6bc5767, 0x3fb506dd, 0x48b2364b,
       0xd80d2bda, 0xaf0a1b4c, 0x36034af6, 0x41047a60, 0xdf60efc3, 0xa867df55, 0x316e8eef, 0x4669be79] +
      [0xcb61b38c, 0xbc66831a, 0x256fd2a0, 0x5268e236, 0xcc0c7795, 0xbb0b4703, 0x220216b9, 0x5505262f,
       0xc5ba3bbe, 0xb2bd0b28, 0x2bb45a92, 0x5cb36a04, 0xc2d7ffa7, 0xb5d0cf31, 0x2cd99e8b, 0x5bdeae1d])) +
     (([0x9b64c2b0, 0xec63f226, 0x756aa39c, 0x026d930a, 0x9c0906a9, 0xeb0e363f, 0x72076785, 0x05005713,
       0x95bf4a82, 0xe2b87a14, 0x7bb12bae, 0x0cb61b38, 0x92d28e9b, 0xe5d5be0d, 0x7cdcefb7, 0x0bdbdf21] +
      [0x86d3d2d4, 0xf1d4e242, 0x68ddb3f8, 0x1fda836e, 0x81be16cd, 0xf6b9265b, 0x6fb077e1, 0x18b74777,
       0x88085ae6, 0xff0f6a70, 0x66063bca, 0x11010b5c, 0x8f659eff, 0xf862ae69, 0x616bffd3, 0x166ccf45]) +
     ([0xa00ae278, 0xd70dd2ee, 0x4e048354, 0x3903b3c2, 0xa7672661, 0xd06016f7, 0x4969474d, 0x3e6e77db,
       0xaed16a4a, 0xd9d65adc, 0x40df0b66, 0x37d83bf0, 0xa9bcae53, 0xdebb9ec5, 0x47b2cf7f, 0x30b5ffe9] +
      [0xbdbdf21c, 0xcabac28a, 0x53b39330, 0x24b4a3a6, 0xbad03605, 0xcdd70693, 0x54de5729, 0x23d967bf,
       0xb3667a2e, 0xc4614ab8, 0x5d681b02, 0x2a6f2b94, 0xb40bbe37, 0xc30c8ea1, 0x5a05df1b, 0x2d02ef8d])))


  /** Eight bit steps on a whole register are the steps on its low byte
      folded into the register shifted down one byte: the division is linear,
      and the upper bytes only shift. */
  lemma ShiftByteSplits(c: bv32)
    ensures ShiftByte(c) == (c >> 8) ^ ShiftByte(c & 0xff)
  {
  }

  /** The table-driven step of the source's `crc32_update`: the register
      shifted down one byte, folded with the table entry that the low byte of
      the register mixed with the input byte selects. */
  function Update(crc: bv32, b: bv8): bv32
  {
    TableIsReflectedCrc();
    (crc >> 8) ^ Table[(crc ^ (b as bv32)) & 0xff]
  }

  /** The table step is the bitwise CRC-32 division of the register mixed
      with the byte, eight bits at a time. */
  lemma UpdateIsBitwise(crc: bv32, b: bv8)
    ensures Update(crc, b) == ShiftByte(crc ^ (b as bv32))
  {
    TableIsReflectedCrc();
    ShiftByteSplits(crc ^ (b as bv32));
    assert (crc ^ (b as bv32)) >> 8 == crc >> 8;
  }

  /** The table has 256 entries and entry n is the CRC remainder of the single
      byte n; in particular entry 128 is the polynomial itself. */
  lemma TableIsReflectedCrc()
    ensures |Table| == 256
    ensures Table[128] == Polynomial
    ensures forall n: bv32 | n < 256 :: Table[n] == ShiftByte(n)
  {
    Entries0();
    TableRow0(); TableRow1(); TableRow2(); TableRow3(); TableRow4(); TableRow5(); TableRow6(); TableRow7();
    TableRow8(); TableRow9(); TableRow10(); TableRow11(); TableRow12(); TableRow13(); TableRow14(); TableRow15();
    TableRow16(); TableRow17(); TableRow18(); TableRow19(); TableRow20(); TableRow21(); TableRow22(); TableRow23();
    TableRow24(); TableRow25(); TableRow26(); TableRow27(); TableRow28(); TableRow29(); TableRow30(); TableRow31();
  }

  // Each table entry checked against eight bit steps, two entries per lemma,
  // eight entries per row (entry 0 is left to the caller of the first row).
  lemma Entries0()
    ensures Table[0] == ShiftByte(0)
    ensures Table[1] == ShiftByte(1)
  {
  }
  lemma Entries1()
    ensures Table[2] == ShiftByte(2)
    ensures Table[3] == ShiftByte(3)
  {
  }
  lemma Entries2()
    ensures Table[4] == ShiftByte(4)
    ensures Table[5] == ShiftByte(5)
  {
  }
  lemma Entries3()
    ensures Table[6] == ShiftByte(6)
    ensures Table[7] == ShiftByte(7)
  {
  }
  lemma Entries4()
    ensures Table[8] == ShiftByte(8)
    ensures Table[9] == ShiftByte(9)
  {
  }
  lemma Entries5()
    ensures Table[10] == ShiftByte(10)
    ensures Table[11] == ShiftByte(11)
  {
  }
  lemma Entries6()
    ensures Table[12] == ShiftByte(12)
    ensures Table[13] == ShiftByte(13)
  {
  }
  lemma Entries7()
    ensures Table[14] == ShiftByte(14)
    ensures Table[15] == ShiftByte(15)
  {
  }
  lemma Entries8()
    ensures Table[16] == ShiftByte(16)
    ensures Table[17] == ShiftByte(17)
  {
  }
  lemma Entries9()
    ensures Table[18] == ShiftByte(18)
    ensures Table[19] == ShiftByte(19)
  {
  }
  lemma Entries10()
    ensures Table[20] == ShiftByte(20)
    ensures Table[21] == ShiftByte(21)
  {
  }
  lemma Entries11()
    ensures Table[22] == ShiftByte(22)
    ensures Table[23] == ShiftByte(23)
  {
  }
  lemma Entries12()
    ensures Table[24] == ShiftByte(24)
    ensures Table[25] == ShiftByte(25)
  {
  }
  lemma Entries13()
    ensures Table[26] == ShiftByte(26)
    ensures Table[27] == ShiftByte(27)
  {
  }
  lemma Entries14()
    ensures Table[28] == ShiftByte(28)
    ensures Table[29] == ShiftByte(29)
  {
  }
  lemma Entries15()
    ensures Table[30] == ShiftByte(30)
    ensures Table[31] == ShiftByte(31)
  {
  }
  lemma Entries16()
    ensures Table[32] == ShiftByte(32)
    ensures Table[33] == ShiftByte(33)
  {
  }
  lemma Entries17()
    ensures Table[34] == ShiftByte(34)
    ensures Table[35] == ShiftByte(35)
  {
  }
  lemma Entries18()
    ensures Table[36] == ShiftByte(36)
    ensures Table[37] == ShiftByte(37)
  {
  }
  lemma Entries19()
    ensures Table[38] == ShiftByte(38)
    ensures Table[39] == ShiftByte(39)
  {
  }
  lemma Entries20()
    ensures Table[40] == ShiftByte(40)
    ensures Table[41] == ShiftByte(41)
  {
  }
  lemma Entries21()
    ensures Table[42] == ShiftByte(42)
    ensures Table[43] == ShiftByte(43)
  {
  }
  lemma Entries22()
    ensures Table[44] == ShiftByte(44)
    ensures Table[45] == ShiftByte(45)
  {
  }
  lemma Entries23()
    ensures Table[46] == ShiftByte(46)
    ensures Table[47] == ShiftByte(47)
  {
  }
  lemma Entries24()
    ensures Table[48] == ShiftByte(48)
    ensures Table[49] == ShiftByte(49)
  {
  }
  lemma Entries25()
    ensures Table[50] == ShiftByte(50)
    ensures Table[51] == ShiftByte(51)
  {
  }
  lemma Entries26()
    ensures Table[52] == ShiftByte(52)
    ensures Table[53] == ShiftByte(53)
  {
  }
  lemma Entries27()
    ensures Table[54] == ShiftByte(54)
    ensures Table[55] == ShiftByte(55)
  {
  }
  lemma Entries28()
    ensures Table[56] == ShiftByte(56)
    ensures Table[57] == ShiftByte(57)
  {
  }
  lemma Entries29()
    ensures Table[58] == ShiftByte(58)
    ensures Table[59] == ShiftByte(59)
  {
  }
  lemma Entries30()
    ensures Table[60] == ShiftByte(60)
    ensures Table[61] == ShiftByte(61)
  {
  }
  lemma Entries31()
    ensures Table[62] == ShiftByte(62)
    ensures Table[63] == ShiftByte(63)
  {
  }
  lemma Entries32()
    ensures Table[64] == ShiftByte(64)
    ensures Table[65] == ShiftByte(65)
  {
  }
  lemma Entries33()
    ensures Table[66] == ShiftByte(66)
    ensures Table[67] == ShiftByte(67)
  {
  }
  lemma Entries34()
    ensures Table[68] == ShiftByte(68)
    ensures Table[69] == ShiftByte(69)
  {
  }
  lemma Entries35()
    ensures Table[70] == ShiftByte(70)
    ensures Table[71] == ShiftByte(71)
  {
  }
  lemma Entries36()
    ensures Table[72] == ShiftByte(72)
    ensures Table[73] == ShiftByte(73)
  {
  }
  lemma Entries37()
    ensures Table[74] == ShiftByte(74)
    ensures Table[75] == ShiftByte(75)
  {
  }
  lemma Entries38()
    ensures Table[76] == ShiftByte(76)
    ensures Table[77] == ShiftByte(77)
  {
  }
  lemma Entries39()
    ensures Table[78] == ShiftByte(78)
    ensures Table[79] == ShiftByte(79)
  {
  }
  lemma Entries40()
    ensures Table[80] == ShiftByte(80)
    ensures Table[81] == ShiftByte(81)
  {
  }
  lemma Entries41()
    ensures Table[82] == ShiftByte(82)
    ensures Table[83] == ShiftByte(83)
  {
  }
  lemma Entries42()
    ensures Table[84] == ShiftByte(84)
    ensures Table[85] == ShiftByte(85)
  {
  }
  lemma Entries43()
    ensures Table[86] == ShiftByte(86)
    ensures Table[87] == ShiftByte(87)
  {
  }
  lemma Entries44()
    ensures Table[88] == ShiftByte(88)
    ensures Table[89] == ShiftByte(89)
  {
  }
  lemma Entries45()
    ensures Table[90] == ShiftByte(90)
    ensures Table[91] == ShiftByte(91)
  {
  }
  lemma Entries46()
    ensures Table[92] == ShiftByte(92)
    ensures Table[93] == ShiftByte(93)
  {
  }
  lemma Entries47()
    ensures Table[94] == ShiftByte(94)
    ensures Table[95] == ShiftByte(95)
  {
  }
  lemma Entries48()
    ensures Table[96] == ShiftByte(96)
    ensures Table[97] == ShiftByte(97)
  {
  }
  lemma Entries49()
    ensures Table[98] == ShiftByte(98)
    ensures Table[99] == ShiftByte(99)
  {
  }
  lemma Entries50()
    ensures Table[100] == ShiftByte(100)
    ensures Table[101] == ShiftByte(101)
  {
  }
  lemma Entries51()
    ensures Table[102] == ShiftByte(102)
    ensures Table[103] == ShiftByte(103)
  {
  }
  lemma Entries52()
    ensures Table[104] == ShiftByte(104)
    ensures Table[105] == ShiftByte(105)
  {
  }
  lemma Entries53()
    ensures Table[106] == ShiftByte(106)
    ensures Table[107] == ShiftByte(107)
  {
  }
  lemma Entries54()
    ensures Table[108] == ShiftByte(108)
    ensures Table[109] == ShiftByte(109)
  {
  }
  lemma Entries55()
    ensures Table[110] == ShiftByte(110)
    ensures Table[111] == ShiftByte(111)
  {
  }
  lemma Entries56()
    ensures Table[112] == ShiftByte(112)
    ensures Table[113] == ShiftByte(113)
  {
  }
  lemma Entries57()
    ensures Table[114] == ShiftByte(114)
    ensures Table[115] == ShiftByte(115)
  {
  }
  lemma Entries58()
    ensures Table[116] == ShiftByte(116)
    ensures Table[117] == ShiftByte(117)
  {
  }
  lemma Entries59()
    ensures Table[118] == ShiftByte(118)
    ensures Table[119] == ShiftByte(119)
  {
  }
  lemma Entries60()
    ensures Table[120] == ShiftByte(120)
    ensures Table[121] == ShiftByte(121)
  {
  }
  lemma Entries61()
    ensures Table[122] == ShiftByte(122)
    ensures Table[123] == ShiftByte(123)
  {
  }
  lemma Entries62()
    ensures Table[124] == ShiftByte(124)
    ensures Table[125] == ShiftByte(125)
  {
  }
  lemma Entries63()
    ensures Table[126] == ShiftByte(126)
    ensures Table[127] == ShiftByte(127)
  {
  }
  lemma Entries64()
    ensures Table[128] == ShiftByte(128)
    ensures Table[129] == ShiftByte(129)
  {
  }
  lemma Entries65()
    ensures Table[130] == ShiftByte(130)
    ensures Table[131] == ShiftByte(131)
  {
  }
  lemma Entries66()
    ensures Table[132] == ShiftByte(132)
    ensures Table[133] == ShiftByte(133)
  {
  }
  lemma Entries67()
    ensures Table[134] == ShiftByte(134)
    ensures Table[135] == ShiftByte(135)
  {
  }
  lemma Entries68()
    ensures Table[136] == ShiftByte(136)
    ensures Table[137] == ShiftByte(137)
  {
  }
  lemma Entries69()
    ensures Table[138] == ShiftByte(138)
    ensures Table[139] == ShiftByte(139)
  {
  }
  lemma Entries70()
    ensures Table[140] == ShiftByte(140)
    ensures Table[141] == ShiftByte(141)
  {
  }
  lemma Entries71()
    ensures Table[142] == ShiftByte(142)
    ensures Table[143] == ShiftByte(143)
  {
  }
  lemma Entries72()
    ensures Table[144] == ShiftByte(144)
    ensures Table[145] == ShiftByte(145)
  {
  }
  lemma Entries73()
    ensures Table[146] == ShiftByte(146)
    ensures Table[147] == ShiftByte(147)
  {
  }
  lemma Entries74()
    ensures Table[148] == ShiftByte(148)
    ensures Table[149] == ShiftByte(149)
  {
  }
  lemma Entries75()
    ensures Table[150] == ShiftByte(150)
    ensures Table[151] == ShiftByte(151)
  {
  }
  lemma Entries76()
    ensures Table[152] == ShiftByte(152)
    ensures Table[153] == ShiftByte(153)
  {
  }
  lemma Entries77()
    ensures Table[154] == ShiftByte(154)
    ensures Table[155] == ShiftByte(155)
  {
  }
  lemma Entries78()
    ensures Table[156] == ShiftByte(156)
    ensures Table[157] == ShiftByte(157)
  {
  }
  lemma Entries79()
    ensures Table[158] == ShiftByte(158)
    ensures Table[159] == ShiftByte(159)
  {
  }
  lemma Entries80()
    ensures Table[160] == ShiftByte(160)
    ensures Table[161] == ShiftByte(161)
  {
  }
  lemma Entries81()
    ensures Table[162] == ShiftByte(162)
    ensures Table[163] == ShiftByte(163)
  {
  }
  lemma Entries82()
    ensures Table[164] == ShiftByte(164)
    ensures Table[165] == ShiftByte(165)
  {
  }
  lemma Entries83()
    ensures Table[166] == ShiftByte(166)
    ensures Table[167] == ShiftByte(167)
  {
  }
  lemma Entries84()
    ensures Table[168] == ShiftByte(168)
    ensures Table[169] == ShiftByte(169)
  {
  }
  lemma Entries85()
    ensures Table[170] == ShiftByte(170)
    ensures Table[171] == ShiftByte(171)
  {
  }
  lemma Entries86()
    ensures Table[172] == ShiftByte(172)
    ensures Table[173] == ShiftByte(173)
  {
  }
  lemma Entries87()
    ensures Table[174] == ShiftByte(174)
    ensures Table[175] == ShiftByte(175)
  {
  }
  lemma Entries88()
    ensures Table[176] == ShiftByte(176)
    ensures Table[177] == ShiftByte(177)
  {
  }
  lemma Entries89()
    ensures Table[178] == ShiftByte(178)
    ensures Table[179] == ShiftByte(179)
  {
  }
  lemma Entries90()
    ensures Table[180] == ShiftByte(180)
    ensures Table[181] == ShiftByte(181)
  {
  }
  lemma Entries91()
    ensures Table[182] == ShiftByte(182)
    ensures Table[183] == ShiftByte(183)
  {
  }
  lemma Entries92()
    ensures Table[184] == ShiftByte(184)
    ensures Table[185] == ShiftByte(185)
  {
  }
  lemma Entries93()
    ensures Table[186] == ShiftByte(186)
    ensures Table[187] == ShiftByte(187)
  {
  }
  lemma Entries94()
    ensures Table[188] == ShiftByte(188)
    ensures Table[189] == ShiftByte(189)
  {
  }
  lemma Entries95()
    ensures Table[190] == ShiftByte(190)
    ensures Table[191] == ShiftByte(191)
  {
  }
  lemma Entries96()
    ensures Table[192] == ShiftByte(192)
    ensures Table[193] == ShiftByte(193)
  {
  }
  lemma Entries97()
    ensures Table[194] == ShiftByte(194)
    ensures Table[195] == ShiftByte(195)
  {
  }
  lemma Entries98()
    ensures Table[196] == ShiftByte(196)
    ensures Table[197] == ShiftByte(197)
  {
  }
  lemma Entries99()
    ensures Table[198] == ShiftByte(198)
    ensures Table[199] == ShiftByte(199)
  {
  }
  lemma Entries100()
    ensures Table[200] == ShiftByte(200)
    ensures Table[201] == ShiftByte(201)
  {
  }
  lemma Entries101()
    ensures Table[202] == ShiftByte(202)
    ensures Table[203] == ShiftByte(203)
  {
  }
  lemma Entries102()
    ensures Table[204] == ShiftByte(204)
    ensures Table[205] == ShiftByte(205)
  {
  }
  lemma Entries103()
    ensures Table[206] == ShiftByte(206)
    ensures Table[207] == ShiftByte(207)
  {
  }
  lemma Entries104()
    ensures Table[208] == ShiftByte(208)
    ensures Table[209] == ShiftByte(209)
  {
  }
  lemma Entries105()
    ensures Table[210] == ShiftByte(210)
    ensures Table[211] == ShiftByte(211)
  {
  }
  lemma Entries106()
    ensures Table[212] == ShiftByte(212)
    ensures Table[213] == ShiftByte(213)
  {
  }
  lemma Entries107()
    ensures Table[214] == ShiftByte(214)
    ensures Table[215] == ShiftByte(215)
  {
  }
  lemma Entries108()
    ensures Table[216] == ShiftByte(216)
    ensures Table[217] == ShiftByte(217)
  {
  }
  lemma Entries109()
    ensures Table[218] == ShiftByte(218)
    ensures Table[219] == ShiftByte(219)
  {
  }
  lemma Entries110()
    ensures Table[220] == ShiftByte(220)
    ensures Table[221] == ShiftByte(221)
  {
  }
  lemma Entries111()
    ensures Table[222] == ShiftByte(222)
    ensures Table[223] == ShiftByte(223)
  {
  }
  lemma Entries112()
    ensures Table[224] == ShiftByte(224)
    ensures Table[225] == ShiftByte(225)
  {
  }
  lemma Entries113()
    ensures Table[226] == ShiftByte(226)
    ensures Table[227] == ShiftByte(227)
  {
  }
  lemma Entries114()
    ensures Table[228] == ShiftByte(228)
    ensures Table[229] == ShiftByte(229)
  {
  }
  lemma Entries115()
    ensures Table[230] == ShiftByte(230)
    ensures Table[231] == ShiftByte(231)
  {
  }
  lemma Entries116()
    ensures Table[232] == ShiftByte(232)
    ensures Table[233] == ShiftByte(233)
  {
  }
  lemma Entries117()
    ensures Table[234] == ShiftByte(234)
    ensures Table[235] == ShiftByte(235)
  {
  }
  lemma Entries118()
    ensures Table[236] == ShiftByte(236)
    ensures Table[237] == ShiftByte(237)
  {
  }
  lemma Entries119()
    ensures Table[238] == ShiftByte(238)
    ensures Table[239] == ShiftByte(239)
  {
  }
  lemma Entries120()
    ensures Table[240] == ShiftByte(240)
    ensures Table[241] == ShiftByte(241)
  {
  }
  lemma Entries121()
    ensures Table[242] == ShiftByte(242)
    ensures Table[243] == ShiftByte(243)
  {
  }
  lemma Entries122()
    ensures Table[244] == ShiftByte(244)
    ensures Table[245] == ShiftByte(245)
  {
  }
  lemma Entries123()
    ensures Table[246] == ShiftByte(246)
    ensures Table[247] == ShiftByte(247)
  {
  }
  lemma Entries124()
    ensures Table[248] == ShiftByte(248)
    ensures Table[249] == ShiftByte(249)
  {
  }
  lemma Entries125()
    ensures Table[250] == ShiftByte(250)
    ensures Table[251] == ShiftByte(251)
  {
  }
  lemma Entries126()
    ensures Table[252] == ShiftByte(252)
    ensures Table[253] == ShiftByte(253)
  {
  }
  lemma Entries127()
    ensures Table[254] == ShiftByte(254)
    ensures Table[255] == ShiftByte(255)
  {
  }
  lemma TableRow0()
    ensures forall n: bv32 | 1 <= n < 8 :: Table[n] == ShiftByte(n)
  {
    Entries0(); Entries1(); Entries2(); Entries3();
  }
  lemma TableRow1()
    ensures forall n: bv32 | 8 <= n < 16 :: Table[n] == ShiftByte(n)
  {
    Entries4(); Entries5(); Entries6(); Entries7();
  }
  lemma TableRow2()
    ensures forall n: bv32 | 16 <= n < 24 :: Table[n] == ShiftByte(n)
  {
    Entries8(); Entries9(); Entries10(); Entries11();
  }
  lemma TableRow3()
    ensures forall n: bv32 | 24 <= n < 32 :: Table[n] == ShiftByte(n)
  {
    Entries12(); Entries13(); Entries14(); Entries15();
  }
  lemma TableRow4()
    ensures forall n: bv32 | 32 <= n < 40 :: Table[n] == ShiftByte(n)
  {
    Entries16(); Entries17(); Entries18(); Entries19();
  }
  lemma TableRow5()
    ensures forall n: bv32 | 40 <= n < 48 :: Table[n] == ShiftByte(n)
  {
    Entries20(); Entries21(); Entries22(); Entries23();
  }
  lemma TableRow6()
    ensures forall n: bv32 | 48 <= n < 56 :: Table[n] == ShiftByte(n)
  {
    Entries24(); Entries25(); Entries26(); Entries27();
  }
  lemma TableRow7()
    ensures forall n: bv32 | 56 <= n < 64 :: Table[n] == ShiftByte(n)
  {
    Entries28(); Entries29(); Entries30(); Entries31();
  }
  lemma TableRow8()
    ensures forall n: bv32 | 64 <= n < 72 :: Table[n] == ShiftByte(n)
  {
    Entries32(); Entries33(); Entries34(); Entries35();
  }
  lemma TableRow9()
    ensures forall n: bv32 | 72 <= n < 80 :: Table[n] == ShiftByte(n)
  {
    Entries36(); Entries37(); Entries38(); Entries39();
  }
  lemma TableRow10()
    ensures forall n: bv32 | 80 <= n < 88 :: Table[n] == ShiftByte(n)
  {
    Entries40(); Entries41(); Entries42(); Entries43();
  }
  lemma TableRow11()
    ensures forall n: bv32 | 88 <= n < 96 :: Table[n] == ShiftByte(n)
  {
    Entries44(); Entries45(); Entries46(); Entries47();
  }
  lemma TableRow12()
    ensures forall n: bv32 | 96 <= n < 104 :: Table[n] == ShiftByte(n)
  {
    Entries48(); Entries49(); Entries50(); Entries51();
  }
  lemma TableRow13()
    ensures forall n: bv32 | 104 <= n < 112 :: Table[n] == ShiftByte(n)
  {
    Entries52(); Entries53(); Entries54(); Entries55();
  }
  lemma TableRow14()
    ensures forall n: bv32 | 112 <= n < 120 :: Table[n] == ShiftByte(n)
  {
    Entries56(); Entries57(); Entries58(); Entries59();
  }
  lemma TableRow15()
    ensures forall n: bv32 | 120 <= n < 128 :: Table[n] == ShiftByte(n)
  {
    Entries60(); Entries61(); Entries62(); Entries63();
  }
  lemma TableRow16()
    ensures forall n: bv32 | 128 <= n < 136 :: Table[n] == ShiftByte(n)
  {
    Entries64(); Entries65(); Entries66(); Entries67();
  }
  lemma TableRow17()
    ensures forall n: bv32 | 136 <= n < 144 :: Table[n] == ShiftByte(n)
  {
    Entries68(); Entries69(); Entries70(); Entries71();
  }
  lemma TableRow18()
    ensures forall n: bv32 | 144 <= n < 152 :: Table[n] == ShiftByte(n)
  {
    Entries72(); Entries73(); Entries74(); Entries75();
  }
  lemma TableRow19()
    ensures forall n: bv32 | 152 <= n < 160 :: Table[n] == ShiftByte(n)
  {
    Entries76(); Entries77(); Entries78(); Entries79();
  }
  lemma TableRow20()
    ensures forall n: bv32 | 160 <= n < 168 :: Table[n] == ShiftByte(n)
  {
    Entries80(); Entries81(); Entries82(); Entries83();
  }
  lemma TableRow21()
    ensures forall n: bv32 | 168 <= n < 176 :: Table[n] == ShiftByte(n)
  {
    Entries84(); Entries85(); Entries86(); Entries87();
  }
  lemma TableRow22()
    ensures forall n: bv32 | 176 <= n < 184 :: Table[n] == ShiftByte(n)
  {
    Entries88(); Entries89(); Entries90(); Entries91();
  }
  lemma TableRow23()
    ensures forall n: bv32 | 184 <= n < 192 :: Table[n] == ShiftByte(n)
  {
    Entries92(); Entries93(); Entries94(); Entries95();
  }
  lemma TableRow24()
    ensures forall n: bv32 | 192 <= n < 200 :: Table[n] == ShiftByte(n)
  {
    Entries96(); Entries97(); Entries98(); Entries99();
  }
  lemma TableRow25()
    ensures forall n: bv32 | 200 <= n < 208 :: Table[n] == ShiftByte(n)
  {
    Entries100(); Entries101(); Entries102(); Entries103();
  }
  lemma TableRow26()
    ensures forall n: bv32 | 208 <= n < 216 :: Table[n] == ShiftByte(n)
  {
    Entries104(); Entries105(); Entries106(); Entries107();
  }
  lemma TableRow27()
    ensures forall n: bv32 | 216 <= n < 224 :: Table[n] == ShiftByte(n)
  {
    Entries108(); Entries109(); Entries110(); Entries111();
  }
  lemma TableRow28()
    ensures forall n: bv32 | 224 <= n < 232 :: Table[n] == ShiftByte(n)
  {
    Entries112(); Entries113(); Entries114(); Entries115();
  }
  lemma TableRow29()
    ensures forall n: bv32 | 232 <= n < 240 :: Table[n] == ShiftByte(n)
  {
    Entries116(); Entries117(); Entries118(); Entries119();
  }
  lemma TableRow30()
    ensures forall n: bv32 | 240 <= n < 248 :: Table[n] == ShiftByte(n)
  {
    Entries120(); Entries121(); Entries122(); Entries123();
  }
  lemma TableRow31()
    ensures forall n: bv32 | 248 <= n < 256 :: Table[n] == ShiftByte(n)
  {
    Entries124(); Entries125(); Entries126(); Entries127();
  }
}
