/** The target's table of 256 checksum words, and what its entries are. */
module Crc32Table {

  const POLY: bv32 := 0xEDB8_8320

  /** One of the eight entries of a table row. */
  function Pick(k: bv8, a: bv32, b: bv32, c: bv32, d: bv32, e: bv32, f: bv32, g: bv32, h: bv32): bv32 {
    if k == 0 then a else if k == 1 then b else if k == 2 then c else if k == 3 then d
    else if k == 4 then e else if k == 5 then f else if k == 6 then g else h
  }

  /** The table, as 32 rows of eight entries. */
  function Table(x: bv8): bv32 {
    var r, k := x >> 3, x & 7;
    if r == 0 then Pick(k, 0x00000000, 0x77073096, 0xEE0E612C, 0x990951BA, 0x076DC419, 0x706AF48F, 0xE963A535, 0x9E6495A3)
    else if r == 1 then Pick(k, 0x0EDB8832, 0x79DCB8A4, 0xE0D5E91E, 0x97D2D988, 0x09B64C2B, 0x7EB17CBD, 0xE7B82D07, 0x90BF1D91)
    else if r == 2 then Pick(k, 0x1DB71064, 0x6AB020F2, 0xF3B97148, 0x84BE41DE, 0x1ADAD47D, 0x6DDDE4EB, 0xF4D4B551, 0x83D385C7)
    else if r == 3 then Pick(k, 0x136C9856, 0x646BA8C0, 0xFD62F97A, 0x8A65C9EC, 0x14015C4F, 0x63066CD9, 0xFA0F3D63, 0x8D080DF5)
    else if r == 4 then Pick(k, 0x3B6E20C8, 0x4C69105E, 0xD56041E4, 0xA2677172, 0x3C03E4D1, 0x4B04D447, 0xD20D85FD, 0xA50AB56B)
    else if r == 5 then Pick(k, 0x35B5A8FA, 0x42B2986C, 0xDBBBC9D6, 0xACBCF940, 0x32D86CE3, 0x45DF5C75, 0xDCD60DCF, 0xABD13D59)
    else if r == 6 then Pick(k, 0x26D930AC, 0x51DE003A, 0xC8D75180, 0xBFD06116, 0x21B4F4B5, 0x56B3C423, 0xCFBA9599, 0xB8BDA50F)
    else if r == 7 then Pick(k, 0x2802B89E, 0x5F058808, 0xC60CD9B2, 0xB10BE924, 0x2F6F7C87, 0x58684C11, 0xC1611DAB, 0xB6662D3D)
    else if r == 8 then Pick(k, 0x76DC4190, 0x01DB7106, 0x98D220BC, 0xEFD5102A, 0x71B18589, 0x06B6B51F, 0x9FBFE4A5, 0xE8B8D433)
    else if r == 9 then Pick(k, 0x7807C9A2, 0x0F00F934, 0x9609A88E, 0xE10E9818, 0x7F6A0DBB, 0x086D3D2D, 0x91646C97, 0xE6635C01)
    else if r == 10 then Pick(k, 0x6B6B51F4, 0x1C6C6162, 0x856530D8, 0xF262004E, 0x6C0695ED, 0x1B01A57B, 0x8208F4C1, 0xF50FC457)
    else if r == 11 then Pick(k, 0x65B0D9C6, 0x12B7E950, 0x8BBEB8EA, 0xFCB9887C, 0x62DD1DDF, 0x15DA2D49, 0x8CD37CF3, 0xFBD44C65)
    else if r == 12 then Pick(k, 0x4DB26158, 0x3AB551CE, 0xA3BC0074, 0xD4BB30E2, 0x4ADFA541, 0x3DD895D7, 0xA4D1C46D, 0xD3D6F4FB)
    else if r == 13 then Pick(k, 0x4369E96A, 0x346ED9FC, 0xAD678846, 0xDA60B8D0, 0x44042D73, 0x33031DE5, 0xAA0A4C5F, 0xDD0D7CC9)
    else if r == 14 then Pick(k, 0x5005713C, 0x270241AA, 0xBE0B1010, 0xC90C2086, 0x5768B525, 0x206F85B3, 0xB966D409, 0xCE61E49F)
    else if r == 15 then Pick(k, 0x5EDEF90E, 0x29D9C998, 0xB0D09822, 0xC7D7A8B4, 0x59B33D17, 0x2EB40D81, 0xB7BD5C3B, 0xC0BA6CAD)
    else if r == 16 then Pick(k, 0xEDB88320, 0x9ABFB3B6, 0x03B6E20C, 0x74B1D29A, 0xEAD54739, 0x9DD277AF, 0x04DB2615, 0x73DC1683)
    else if r == 17 then Pick(k, 0xE3630B12, 0x94643B84, 0x0D6D6A3E, 0x7A6A5AA8, 0xE40ECF0B, 0x9309FF9D, 0x0A00AE27, 0x7D079EB1)
    else if r == 18 then Pick(k, 0xF00F9344, 0x8708A3D2, 0x1E01F268, 0x6906C2FE, 0xF762575D, 0x806567CB, 0x196C3671, 0x6E6B06E7)
    else if r == 19 then Pick(k, 0xFED41B76, 0x89D32BE0, 0x10DA7A5A, 0x67DD4ACC, 0xF9B9DF6F, 0x8EBEEFF9, 0x17B7BE43, 0x60B08ED5)
    else if r == 20 then Pick(k, 0xD6D6A3E8, 0xA1D1937E, 0x38D8C2C4, 0x4FDFF252, 0xD1BB67F1, 0xA6BC5767, 0x3FB506DD, 0x48B2364B)
    else if r == 21 then Pick(k, 0xD80D2BDA, 0xAF0A1B4C, 0x36034AF6, 0x41047A60, 0xDF60EFC3, 0xA867DF55, 0x316E8EEF, 0x4669BE79)
    else if r == 22 then Pick(k, 0xCB61B38C, 0xBC66831A, 0x256FD2A0, 0x5268E236, 0xCC0C7795, 0xBB0B4703, 0x220216B9, 0x5505262F)
    else if r == 23 then Pick(k, 0xC5BA3BBE, 0xB2BD0B28, 0x2BB45A92, 0x5CB36A04, 0xC2D7FFA7, 0xB5D0CF31, 0x2CD99E8B, 0x5BDEAE1D)
    else if r == 24 then Pick(k, 0x9B64C2B0, 0xEC63F226, 0x756AA39C, 0x026D930A, 0x9C0906A9, 0xEB0E363F, 0x72076785, 0x05005713)
    else if r == 25 then Pick(k, 0x95BF4A82, 0xE2B87A14, 0x7BB12BAE, 0x0CB61B38, 0x92D28E9B, 0xE5D5BE0D, 0x7CDCEFB7, 0x0BDBDF21)
    else if r == 26 then Pick(k, 0x86D3D2D4, 0xF1D4E242, 0x68DDB3F8, 0x1FDA836E, 0x81BE16CD, 0xF6B9265B, 0x6FB077E1, 0x18B74777)
    else if r == 27 then Pick(k, 0x88085AE6, 0xFF0F6A70, 0x66063BCA, 0x11010B5C, 0x8F659EFF, 0xF862AE69, 0x616BFFD3, 0x166CCF45)
    else if r == 28 then Pick(k, 0xA00AE278, 0xD70DD2EE, 0x4E048354, 0x3903B3C2, 0xA7672661, 0xD06016F7, 0x4969474D, 0x3E6E77DB)
    else if r == 29 then Pick(k, 0xAED16A4A, 0xD9D65ADC, 0x40DF0B66, 0x37D83BF0, 0xA9BCAE53, 0xDEBB9EC5, 0x47B2CF7F, 0x30B5FFE9)
    else if r == 30 then Pick(k, 0xBDBDF21C, 0xCABAC28A, 0x53B39330, 0x24B4A3A6, 0xBAD03605, 0xCDD70693, 0x54DE5729, 0x23D967BF)
    else Pick(k, 0xB3667A2E, 0xC4614AB8, 0x5D681B02, 0x2A6F2B94, 0xB40BBE37, 0xC30C8EA1, 0x5A05DF1B, 0x2D02EF8D)
  }

  function RawStep(w: bv32): bv32 {
    if w & 1 == 1 then (w >> 1) ^ POLY else w >> 1
  }

  function RawEight(w: bv32): bv32 {
    RawStep(RawStep(RawStep(RawStep(RawStep(RawStep(RawStep(RawStep(w))))))))
  }

  // ---------------------------------------------------------------------------------------------
  // Row by row: each entry is eight bit steps of its index.

  lemma Row0(x: bv8)
    ensures x >> 3 == 0 ==> Table(x) == RawEight(x as bv32)
  {}

  lemma Row1(x: bv8)
    ensures x >> 3 == 1 ==> Table(x) == RawEight(x as bv32)
  {}

  lemma Row2(x: bv8)
    ensures x >> 3 == 2 ==> Table(x) == RawEight(x as bv32)
  {}

  lemma Row3(x: bv8)
    ensures x >> 3 == 3 ==> Table(x) == RawEight(x as bv32)
  {}

  lemma Row4(x: bv8)
    ensures x >> 3 == 4 ==> Table(x) == RawEight(x as bv32)
  {}

  lemma Row5(x: bv8)
    ensures x >> 3 == 5 ==> Table(x) == RawEight(x as bv32)
  {}

  lemma Row6(x: bv8)
    ensures x >> 3 == 6 ==> Table(x) == RawEight(x as bv32)
  {}

  lemma Row7(x: bv8)
    ensures x >> 3 == 7 ==> Table(x) == RawEight(x as bv32)
  {}

  lemma Row8(x: bv8)
    ensures x >> 3 == 8 ==> Table(x) == RawEight(x as bv32)
  {}

  lemma Row9(x: bv8)
    ensures x >> 3 == 9 ==> Table(x) == RawEight(x as bv32)
  {}

  lemma Row10(x: bv8)
    ensures x >> 3 == 10 ==> Table(x) == RawEight(x as bv32)
  {}

  lemma Row11(x: bv8)
    ensures x >> 3 == 11 ==> Table(x) == RawEight(x as bv32)
  {}

  lemma Row12(x: bv8)
    ensures x >> 3 == 12 ==> Table(x) == RawEight(x as bv32)
  {}

  lemma Row13(x: bv8)
    ensures x >> 3 == 13 ==> Table(x) == RawEight(x as bv32)
  {}

  lemma Row14(x: bv8)
    ensures x >> 3 == 14 ==> Table(x) == RawEight(x as bv32)
  {}

  lemma Row15(x: bv8)
    ensures x >> 3 == 15 ==> Table(x) == RawEight(x as bv32)
  {}

  lemma Row16(x: bv8)
    ensures x >> 3 == 16 ==> Table(x) == RawEight(x as bv32)
  {}

  lemma Row17(x: bv8)
    ensures x >> 3 == 17 ==> Table(x) == RawEight(x as bv32)
  {}

  lemma Row18(x: bv8)
    ensures x >> 3 == 18 ==> Table(x) == RawEight(x as bv32)
  {}

  lemma Row19(x: bv8)
    ensures x >> 3 == 19 ==> Table(x) == RawEight(x as bv32)
  {}

  lemma Row20(x: bv8)
    ensures x >> 3 == 20 ==> Table(x) == RawEight(x as bv32)
  {}

  lemma Row21(x: bv8)
    ensures x >> 3 == 21 ==> Table(x) == RawEight(x as bv32)
  {}

  lemma Row22(x: bv8)
    ensures x >> 3 == 22 ==> Table(x) == RawEight(x as bv32)
  {}

  lemma Row23(x: bv8)
    ensures x >> 3 == 23 ==> Table(x) == RawEight(x as bv32)
  {}

  lemma Row24(x: bv8)
    ensures x >> 3 == 24 ==> Table(x) == RawEight(x as bv32)
  {}

  lemma Row25(x: bv8)
    ensures x >> 3 == 25 ==> Table(x) == RawEight(x as bv32)
  {}

  lemma Row26(x: bv8)
    ensures x >> 3 == 26 ==> Table(x) == RawEight(x as bv32)
  {}

  lemma Row27(x: bv8)
    ensures x >> 3 == 27 ==> Table(x) == RawEight(x as bv32)
  {}

  lemma Row28(x: bv8)
    ensures x >> 3 == 28 ==> Table(x) == RawEight(x as bv32)
  {}

  lemma Row29(x: bv8)
    ensures x >> 3 == 29 ==> Table(x) == RawEight(x as bv32)
  {}

  lemma Row30(x: bv8)
    ensures x >> 3 == 30 ==> Table(x) == RawEight(x as bv32)
  {}

  lemma Row31(x: bv8)
    ensures x >> 3 == 31 ==> Table(x) == RawEight(x as bv32)
  {}

  lemma EveryEntry(x: bv8)
    ensures Table(x) == RawEight(x as bv32)
  {
    hide Table, RawEight;
    Row0(x); Row1(x); Row2(x); Row3(x); Row4(x); Row5(x); Row6(x); Row7(x);
    Row8(x); Row9(x); Row10(x); Row11(x); Row12(x); Row13(x); Row14(x); Row15(x);
    Row16(x); Row17(x); Row18(x); Row19(x); Row20(x); Row21(x); Row22(x); Row23(x);
    Row24(x); Row25(x); Row26(x); Row27(x); Row28(x); Row29(x); Row30(x); Row31(x);
  }
}
