/**
 * CRC-32 (core/uds_transfer_ctx.c): the table-driven update against bit-serial
 * division by the reflected polynomial 0xEDB88320, and its error detection.
 */
module Crc32 {
  import opened Bytes

  // The 256-entry lookup table, as sixteen rows of sixteen.
  const ROW_0: seq<word> := [
    0x00000000, 0x77073096, 0xEE0E612C, 0x990951BA, 0x076DC419, 0x706AF48F, 0xE963A535, 0x9E6495A3,
    0x0EDB8832, 0x79DCB8A4, 0xE0D5E91E, 0x97D2D988, 0x09B64C2B, 0x7EB17CBD, 0xE7B82D07, 0x90BF1D91]
  const ROW_1: seq<word> := [
    0x1DB71064, 0x6AB020F2, 0xF3B97148, 0x84BE41DE, 0x1ADAD47D, 0x6DDDE4EB, 0xF4D4B551, 0x83D385C7,
    0x136C9856, 0x646BA8C0, 0xFD62F97A, 0x8A65C9EC, 0x14015C4F, 0x63066CD9, 0xFA0F3D63, 0x8D080DF5]
  const ROW_2: seq<word> := [
    0x3B6E20C8, 0x4C69105E, 0xD56041E4, 0xA2677172, 0x3C03E4D1, 0x4B04D447, 0xD20D85FD, 0xA50AB56B,
    0x35B5A8FA, 0x42B2986C, 0xDBBBC9D6, 0xACBCF940, 0x32D86CE3, 0x45DF5C75, 0xDCD60DCF, 0xABD13D59]
  const ROW_3: seq<word> := [
    0x26D930AC, 0x51DE003A, 0xC8D75180, 0xBFD06116, 0x21B4F4B5, 0x56B3C423, 0xCFBA9599, 0xB8BDA50F,
    0x2802B89E, 0x5F058808, 0xC60CD9B2, 0xB10BE924, 0x2F6F7C87, 0x58684C11, 0xC1611DAB, 0xB6662D3D]
  const ROW_4: seq<word> := [
    0x76DC4190, 0x01DB7106, 0x98D220BC, 0xEFD5102A, 0x71B18589, 0x06B6B51F, 0x9FBFE4A5, 0xE8B8D433,
    0x7807C9A2, 0x0F00F934, 0x9609A88E, 0xE10E9818, 0x7F6A0DBB, 0x086D3D2D, 0x91646C97, 0xE6635C01]
  const ROW_5: seq<word> := [
    0x6B6B51F4, 0x1C6C6162, 0x856530D8, 0xF262004E, 0x6C0695ED, 0x1B01A57B, 0x8208F4C1, 0xF50FC457,
    0x65B0D9C6, 0x12B7E950, 0x8BBEB8EA, 0xFCB9887C, 0x62DD1DDF, 0x15DA2D49, 0x8CD37CF3, 0xFBD44C65]
  const ROW_6: seq<word> := [
    0x4DB26158, 0x3AB551CE, 0xA3BC0074, 0xD4BB30E2, 0x4ADFA541, 0x3DD895D7, 0xA4D1C46D, 0xD3D6F4FB,
    0x4369E96A, 0x346ED9FC, 0xAD678846, 0xDA60B8D0, 0x44042D73, 0x33031DE5, 0xAA0A4C5F, 0xDD0D7CC9]
  const ROW_7: seq<word> := [
    0x5005713C, 0x270241AA, 0xBE0B1010, 0xC90C2086, 0x5768B525, 0x206F85B3, 0xB966D409, 0xCE61E49F,
    0x5EDEF90E, 0x29D9C998, 0xB0D09822, 0xC7D7A8B4, 0x59B33D17, 0x2EB40D81, 0xB7BD5C3B, 0xC0BA6CAD]
  const ROW_8: seq<word> := [
    0xEDB88320, 0x9ABFB3B6, 0x03B6E20C, 0x74B1D29A, 0xEAD54739, 0x9DD277AF, 0x04DB2615, 0x73DC1683,
    0xE3630B12, 0x94643B84, 0x0D6D6A3E, 0x7A6A5AA8, 0xE40ECF0B, 0x9309FF9D, 0x0A00AE27, 0x7D079EB1]
  const ROW_9: seq<word> := [
    0xF00F9344, 0x8708A3D2, 0x1E01F268, 0x6906C2FE, 0xF762575D, 0x806567CB, 0x196C3671, 0x6E6B06E7,
    0xFED41B76, 0x89D32BE0, 0x10DA7A5A, 0x67DD4ACC, 0xF9B9DF6F, 0x8EBEEFF9, 0x17B7BE43, 0x60B08ED5]
  const ROW_A: seq<word> := [
    0xD6D6A3E8, 0xA1D1937E, 0x38D8C2C4, 0x4FDFF252, 0xD1BB67F1, 0xA6BC5767, 0x3FB506DD, 0x48B2364B,
    0xD80D2BDA, 0xAF0A1B4C, 0x36034AF6, 0x41047A60, 0xDF60EFC3, 0xA867DF55, 0x316E8EEF, 0x4669BE79]
  const ROW_B: seq<word> := [
    0xCB61B38C, 0xBC66831A, 0x256FD2A0, 0x5268E236, 0xCC0C7795, 0xBB0B4703, 0x220216B9, 0x5505262F,
    0xC5BA3BBE, 0xB2BD0B28, 0x2BB45A92, 0x5CB36A04, 0xC2D7FFA7, 0xB5D0CF31, 0x2CD99E8B, 0x5BDEAE1D]
  const ROW_C: seq<word> := [
    0x9B64C2B0, 0xEC63F226, 0x756AA39C, 0x026D930A, 0x9C0906A9, 0xEB0E363F, 0x72076785, 0x05005713,
    0x95BF4A82, 0xE2B87A14, 0x7BB12BAE, 0x0CB61B38, 0x92D28E9B, 0xE5D5BE0D, 0x7CDCEFB7, 0x0BDBDF21]
  const ROW_D: seq<word> := [
    0x86D3D2D4, 0xF1D4E242, 0x68DDB3F8, 0x1FDA836E, 0x81BE16CD, 0xF6B9265B, 0x6FB077E1, 0x18B74777,
    0x88085AE6, 0xFF0F6A70, 0x66063BCA, 0x11010B5C, 0x8F659EFF, 0xF862AE69, 0x616BFFD3, 0x166CCF45]
  const ROW_E: seq<word> := [
    0xA00AE278, 0xD70DD2EE, 0x4E048354, 0x3903B3C2, 0xA7672661, 0xD06016F7, 0x4969474D, 0x3E6E77DB,
    0xAED16A4A, 0xD9D65ADC, 0x40DF0B66, 0x37D83BF0, 0xA9BCAE53, 0xDEBB9EC5, 0x47B2CF7F, 0x30B5FFE9]
  const ROW_F: seq<word> := [
    0xBDBDF21C, 0xCABAC28A, 0x53B39330, 0x24B4A3A6, 0xBAD03605, 0xCDD70693, 0x54DE5729, 0x23D967BF,
    0xB3667A2E, 0xC4614AB8, 0x5D681B02, 0x2A6F2B94, 0xB40BBE37, 0xC30C8EA1, 0x5A05DF1B, 0x2D02EF8D]

  function Row(n: byte): (row: seq<word>)
    ensures |row| == 16
  {
    match n
    case 0 => ROW_0
    case 1 => ROW_1
    case 2 => ROW_2
    case 3 => ROW_3
    case 4 => ROW_4
    case 5 => ROW_5
    case 6 => ROW_6
    case 7 => ROW_7
    case 8 => ROW_8
    case 9 => ROW_9
    case 10 => ROW_A
    case 11 => ROW_B
    case 12 => ROW_C
    case 13 => ROW_D
    case 14 => ROW_E
    case _ => ROW_F
  }

  /** k_crc32_table[i] */
  function Table(i: byte): word {
    Row(i >> 4)[(i & 0xF) as int]
  }

  const POLY: word := 0xEDB88320

  /** One step of the shift register: divide out the low bit. */
  function BitStep(c: word): word {
    if c & 1 == 1 then (c >> 1) ^ POLY else c >> 1
  }

  function ByteStep(c: word): word {
    BitStep(BitStep(BitStep(BitStep(BitStep(BitStep(BitStep(BitStep(c))))))))
  }

  /** The register after the whole of s, one bit at a time: the reference definition. */
  function BitSerial(c: word, s: seq<byte>): word
    decreases |s|
  {
    if s == [] then c else BitSerial(ByteStep(Xor(c, s[0] as word)), s[1..])
  }

  // ---- The table holds eight register steps of its index ----

  lemma Row0ok(i: byte)
    requires i >> 4 == 0
    ensures ROW_0[(i & 0xF) as int] == ByteStep(i as word)
  {
    if i == 0x00 {} else if i == 0x01 {} else if i == 0x02 {} else if i == 0x03 {} else if i == 0x04 {}
    else if i == 0x05 {} else if i == 0x06 {} else if i == 0x07 {} else if i == 0x08 {} else if i == 0x09 {}
    else if i == 0x0A {} else if i == 0x0B {} else if i == 0x0C {} else if i == 0x0D {} else if i == 0x0E {}
    else { assert i == 0x0F; }
  }

  lemma Row1ok(i: byte)
    requires i >> 4 == 1
    ensures ROW_1[(i & 0xF) as int] == ByteStep(i as word)
  {
    if i == 0x10 {} else if i == 0x11 {} else if i == 0x12 {} else if i == 0x13 {} else if i == 0x14 {}
    else if i == 0x15 {} else if i == 0x16 {} else if i == 0x17 {} else if i == 0x18 {} else if i == 0x19 {}
    else if i == 0x1A {} else if i == 0x1B {} else if i == 0x1C {} else if i == 0x1D {} else if i == 0x1E {}
    else { assert i == 0x1F; }
  }

  lemma Row2ok(i: byte)
    requires i >> 4 == 2
    ensures ROW_2[(i & 0xF) as int] == ByteStep(i as word)
  {
    if i == 0x20 {} else if i == 0x21 {} else if i == 0x22 {} else if i == 0x23 {} else if i == 0x24 {}
    else if i == 0x25 {} else if i == 0x26 {} else if i == 0x27 {} else if i == 0x28 {} else if i == 0x29 {}
    else if i == 0x2A {} else if i == 0x2B {} else if i == 0x2C {} else if i == 0x2D {} else if i == 0x2E {}
    else { assert i == 0x2F; }
  }

  lemma Row3ok(i: byte)
    requires i >> 4 == 3
    ensures ROW_3[(i & 0xF) as int] == ByteStep(i as word)
  {
    if i == 0x30 {} else if i == 0x31 {} else if i == 0x32 {} else if i == 0x33 {} else if i == 0x34 {}
    else if i == 0x35 {} else if i == 0x36 {} else if i == 0x37 {} else if i == 0x38 {} else if i == 0x39 {}
    else if i == 0x3A {} else if i == 0x3B {} else if i == 0x3C {} else if i == 0x3D {} else if i == 0x3E {}
    else { assert i == 0x3F; }
  }

  lemma Row4ok(i: byte)
    requires i >> 4 == 4
    ensures ROW_4[(i & 0xF) as int] == ByteStep(i as word)
  {
    if i == 0x40 {} else if i == 0x41 {} else if i == 0x42 {} else if i == 0x43 {} else if i == 0x44 {}
    else if i == 0x45 {} else if i == 0x46 {} else if i == 0x47 {} else if i == 0x48 {} else if i == 0x49 {}
    else if i == 0x4A {} else if i == 0x4B {} else if i == 0x4C {} else if i == 0x4D {} else if i == 0x4E {}
    else { assert i == 0x4F; }
  }

  lemma Row5ok(i: byte)
    requires i >> 4 == 5
    ensures ROW_5[(i & 0xF) as int] == ByteStep(i as word)
  {
    if i == 0x50 {} else if i == 0x51 {} else if i == 0x52 {} else if i == 0x53 {} else if i == 0x54 {}
    else if i == 0x55 {} else if i == 0x56 {} else if i == 0x57 {} else if i == 0x58 {} else if i == 0x59 {}
    else if i == 0x5A {} else if i == 0x5B {} else if i == 0x5C {} else if i == 0x5D {} else if i == 0x5E {}
    else { assert i == 0x5F; }
  }

  lemma Row6ok(i: byte)
    requires i >> 4 == 6
    ensures ROW_6[(i & 0xF) as int] == ByteStep(i as word)
  {
    if i == 0x60 {} else if i == 0x61 {} else if i == 0x62 {} else if i == 0x63 {} else if i == 0x64 {}
    else if i == 0x65 {} else if i == 0x66 {} else if i == 0x67 {} else if i == 0x68 {} else if i == 0x69 {}
    else if i == 0x6A {} else if i == 0x6B {} else if i == 0x6C {} else if i == 0x6D {} else if i == 0x6E {}
    else { assert i == 0x6F; }
  }

  lemma Row7ok(i: byte)
    requires i >> 4 == 7
    ensures ROW_7[(i & 0xF) as int] == ByteStep(i as word)
  {
    if i == 0x70 {} else if i == 0x71 {} else if i == 0x72 {} else if i == 0x73 {} else if i == 0x74 {}
    else if i == 0x75 {} else if i == 0x76 {} else if i == 0x77 {} else if i == 0x78 {} else if i == 0x79 {}
    else if i == 0x7A {} else if i == 0x7B {} else if i == 0x7C {} else if i == 0x7D {} else if i == 0x7E {}
    else { assert i == 0x7F; }
  }

  lemma Row8ok(i: byte)
    requires i >> 4 == 8
    ensures ROW_8[(i & 0xF) as int] == ByteStep(i as word)
  {
    if i == 0x80 {} else if i == 0x81 {} else if i == 0x82 {} else if i == 0x83 {} else if i == 0x84 {}
    else if i == 0x85 {} else if i == 0x86 {} else if i == 0x87 {} else if i == 0x88 {} else if i == 0x89 {}
    else if i == 0x8A {} else if i == 0x8B {} else if i == 0x8C {} else if i == 0x8D {} else if i == 0x8E {}
    else { assert i == 0x8F; }
  }

  lemma Row9ok(i: byte)
    requires i >> 4 == 9
    ensures ROW_9[(i & 0xF) as int] == ByteStep(i as word)
  {
    if i == 0x90 {} else if i == 0x91 {} else if i == 0x92 {} else if i == 0x93 {} else if i == 0x94 {}
    else if i == 0x95 {} else if i == 0x96 {} else if i == 0x97 {} else if i == 0x98 {} else if i == 0x99 {}
    else if i == 0x9A {} else if i == 0x9B {} else if i == 0x9C {} else if i == 0x9D {} else if i == 0x9E {}
    else { assert i == 0x9F; }
  }

  lemma RowAok(i: byte)
    requires i >> 4 == 10
    ensures ROW_A[(i & 0xF) as int] == ByteStep(i as word)
  {
    if i == 0xA0 {} else if i == 0xA1 {} else if i == 0xA2 {} else if i == 0xA3 {} else if i == 0xA4 {}
    else if i == 0xA5 {} else if i == 0xA6 {} else if i == 0xA7 {} else if i == 0xA8 {} else if i == 0xA9 {}
    else if i == 0xAA {} else if i == 0xAB {} else if i == 0xAC {} else if i == 0xAD {} else if i == 0xAE {}
    else { assert i == 0xAF; }
  }

  lemma RowBok(i: byte)
    requires i >> 4 == 11
    ensures ROW_B[(i & 0xF) as int] == ByteStep(i as word)
  {
    if i == 0xB0 {} else if i == 0xB1 {} else if i == 0xB2 {} else if i == 0xB3 {} else if i == 0xB4 {}
    else if i == 0xB5 {} else if i == 0xB6 {} else if i == 0xB7 {} else if i == 0xB8 {} else if i == 0xB9 {}
    else if i == 0xBA {} else if i == 0xBB {} else if i == 0xBC {} else if i == 0xBD {} else if i == 0xBE {}
    else { assert i == 0xBF; }
  }

  lemma RowCok(i: byte)
    requires i >> 4 == 12
    ensures ROW_C[(i & 0xF) as int] == ByteStep(i as word)
  {
    if i == 0xC0 {} else if i == 0xC1 {} else if i == 0xC2 {} else if i == 0xC3 {} else if i == 0xC4 {}
    else if i == 0xC5 {} else if i == 0xC6 {} else if i == 0xC7 {} else if i == 0xC8 {} else if i == 0xC9 {}
    else if i == 0xCA {} else if i == 0xCB {} else if i == 0xCC {} else if i == 0xCD {} else if i == 0xCE {}
    else { assert i == 0xCF; }
  }

  lemma RowDok(i: byte)
    requires i >> 4 == 13
    ensures ROW_D[(i & 0xF) as int] == ByteStep(i as word)
  {
    if i == 0xD0 {} else if i == 0xD1 {} else if i == 0xD2 {} else if i == 0xD3 {} else if i == 0xD4 {}
    else if i == 0xD5 {} else if i == 0xD6 {} else if i == 0xD7 {} else if i == 0xD8 {} else if i == 0xD9 {}
    else if i == 0xDA {} else if i == 0xDB {} else if i == 0xDC {} else if i == 0xDD {} else if i == 0xDE {}
    else { assert i == 0xDF; }
  }

  lemma RowEok(i: byte)
    requires i >> 4 == 14
    ensures ROW_E[(i & 0xF) as int] == ByteStep(i as word)
  {
    if i == 0xE0 {} else if i == 0xE1 {} else if i == 0xE2 {} else if i == 0xE3 {} else if i == 0xE4 {}
    else if i == 0xE5 {} else if i == 0xE6 {} else if i == 0xE7 {} else if i == 0xE8 {} else if i == 0xE9 {}
    else if i == 0xEA {} else if i == 0xEB {} else if i == 0xEC {} else if i == 0xED {} else if i == 0xEE {}
    else { assert i == 0xEF; }
  }

  lemma RowFok(i: byte)
    requires i >> 4 == 15
    ensures ROW_F[(i & 0xF) as int] == ByteStep(i as word)
  {
    if i == 0xF0 {} else if i == 0xF1 {} else if i == 0xF2 {} else if i == 0xF3 {} else if i == 0xF4 {}
    else if i == 0xF5 {} else if i == 0xF6 {} else if i == 0xF7 {} else if i == 0xF8 {} else if i == 0xF9 {}
    else if i == 0xFA {} else if i == 0xFB {} else if i == 0xFC {} else if i == 0xFD {} else if i == 0xFE {}
    else { assert i == 0xFF; }
  }

  lemma TableIsByteStep(i: byte)
    ensures Table(i) == ByteStep(i as word)
  {
    hide ByteStep;
    match i >> 4
    case 0 => Row0ok(i);
    case 1 => Row1ok(i);
    case 2 => Row2ok(i);
    case 3 => Row3ok(i);
    case 4 => Row4ok(i);
    case 5 => Row5ok(i);
    case 6 => Row6ok(i);
    case 7 => Row7ok(i);
    case 8 => Row8ok(i);
    case 9 => Row9ok(i);
    case 10 => RowAok(i);
    case 11 => RowBok(i);
    case 12 => RowCok(i);
    case 13 => RowDok(i);
    case 14 => RowEok(i);
    case _ => RowFok(i);
  }

  // ---- Linearity and injectivity of the register ----

  lemma BitStepOdd(c: word, y: word)
    requires c & 1 == 1 && y & 0x8000_0000 == 0
    ensures BitStep(c ^ (y << 1)) == BitStep(c) ^ y
  {}

  lemma BitStepEven(c: word, y: word)
    requires c & 1 != 1 && y & 0x8000_0000 == 0
    ensures BitStep(c ^ (y << 1)) == BitStep(c) ^ y
  {}

  lemma BitStepRaw(c: word, y: word)
    requires y & 0x8000_0000 == 0
    ensures BitStep(c ^ (y << 1)) == BitStep(c) ^ y
  {
    hide *;
    if c & 1 == 1 {
      BitStepOdd(c, y);
    } else {
      BitStepEven(c, y);
    }
  }

  function Twice(y: word): word {
    y << 1
  }

  predicate TopClear(y: word) {
    y & 0x8000_0000 == 0
  }

  lemma BitStepXor(c: word, y: word)
    requires TopClear(y)
    ensures BitStep(Xor(c, Twice(y))) == Xor(BitStep(c), y)
  {
    hide BitStep;
    BitStepRaw(c, y);
  }

  function Twice8(y: word): word {
    Twice(Twice(Twice(Twice(Twice(Twice(Twice(Twice(y))))))))
  }

  /** The top byte of y is clear: eight doublings lose nothing. */
  predicate Top8Clear(y: word) {
    y & 0xFF00_0000 == 0
  }

  lemma Top8ClearDoubled(y: word)
    requires Top8Clear(y)
    ensures TopClear(y) && TopClear(Twice(y)) && TopClear(Twice(Twice(y))) && TopClear(Twice(Twice(Twice(y))))
    ensures TopClear(Twice(Twice(Twice(Twice(y))))) && TopClear(Twice(Twice(Twice(Twice(Twice(y))))))
    ensures TopClear(Twice(Twice(Twice(Twice(Twice(Twice(y)))))))
    ensures TopClear(Twice(Twice(Twice(Twice(Twice(Twice(Twice(y))))))))
  {}

  lemma ByteStepXor(c: word, y: word)
    requires Top8Clear(y)
    ensures ByteStep(Xor(c, Twice8(y))) == Xor(ByteStep(c), y)
  {
    hide BitStep, Xor, Twice, TopClear, Top8Clear;
    Top8ClearDoubled(y);
    var y1 := Twice(y);
    var y2 := Twice(y1);
    var y3 := Twice(y2);
    var y4 := Twice(y3);
    var y5 := Twice(y4);
    var y6 := Twice(y5);
    var y7 := Twice(y6);
    var c1 := BitStep(c);
    var c2 := BitStep(c1);
    var c3 := BitStep(c2);
    var c4 := BitStep(c3);
    var c5 := BitStep(c4);
    var c6 := BitStep(c5);
    var c7 := BitStep(c6);
    BitStepXor(c, y7);
    BitStepXor(c1, y6);
    BitStepXor(c2, y5);
    BitStepXor(c3, y4);
    BitStepXor(c4, y3);
    BitStepXor(c5, y2);
    BitStepXor(c6, y1);
    BitStepXor(c7, y);
  }

  lemma SplitLowByte(x: word)
    ensures Xor(LowByte(x) as word, Twice8(Shift8(x))) == x
    ensures Top8Clear(Shift8(x))
  {}

  lemma ShiftIgnoresLowByte(c: word, b: byte)
    ensures Shift8(Xor(c, b as word)) == Shift8(c)
  {}

  /** The C loop body, one table lookup, is eight register steps. */
  lemma TableStep(c: word, b: byte)
    ensures Xor(Table(LowByte(Xor(c, b as word))), Shift8(c)) == ByteStep(Xor(c, b as word))
  {
    hide *;
    var x := Xor(c, b as word);
    TableIsByteStep(LowByte(x));
    SplitLowByte(x);
    ShiftIgnoresLowByte(c, b);
    ByteStepXor(LowByte(x) as word, Shift8(x));
  }

  /** uds_transfer_crc32_update: a NULL data pointer leaves the accumulator alone. */
  method Update(crcIn: word, data: array?<byte>, from: nat, length: nat) returns (crc: word)
    requires data != null ==> from + length <= data.Length
    ensures data == null ==> crc == crcIn
    ensures data != null ==> crc == BitSerial(crcIn, data[from..from + length])
  {
    hide Xor, Table, ByteStep, LowByte, Shift8;
    crc := crcIn;
    if data == null {
      return;
    }
    ghost var s := data[from..from + length];
    for i := 0 to length
      invariant BitSerial(crcIn, s) == BitSerial(crc, s[i..])
    {
      var idx := LowByte(Xor(crc, data[from + i] as word));
      TableStep(crc, s[i]);
      assert s[i..][1..] == s[i + 1..];
      crc := Xor(Table(idx), Shift8(crc));
    }
  }

  /** mirror_crc32 and security_nvm_crc32: preset to all ones, inverted at the end. */
  function Crc(s: seq<byte>): word {
    Finalise(BitSerial(0xFFFF_FFFF, s))
  }

  function Finalise(c: word): word {
    c ^ 0xFFFF_FFFF
  }

  /** Undoes one register step: the polynomial's top bit shows whether it was subtracted. */
  function BitUnstep(d: word): word {
    if d & 0x8000_0000 != 0 then ((d ^ POLY) << 1) | 1 else d << 1
  }

  lemma BitUnstepStep(c: word)
    ensures BitUnstep(BitStep(c)) == c
  {}

  function ByteUnstep(d: word): word {
    BitUnstep(BitUnstep(BitUnstep(BitUnstep(BitUnstep(BitUnstep(BitUnstep(BitUnstep(d))))))))
  }

  lemma ByteUnstepStep(c: word)
    ensures ByteUnstep(ByteStep(c)) == c
  {
    hide BitStep, BitUnstep;
    var c1 := BitStep(c);
    var c2 := BitStep(c1);
    var c3 := BitStep(c2);
    var c4 := BitStep(c3);
    var c5 := BitStep(c4);
    var c6 := BitStep(c5);
    BitUnstepStep(BitStep(c6));
    BitUnstepStep(c6);
    BitUnstepStep(c5);
    BitUnstepStep(c4);
    BitUnstepStep(c3);
    BitUnstepStep(c2);
    BitUnstepStep(c1);
    BitUnstepStep(c);
  }

  lemma XorLeft(a: word, b: word, x: word)
    requires Xor(a, x) == Xor(b, x)
    ensures a == b
  {}

  /** Equal bytes never hide a difference already in the accumulator. */
  lemma {:induction false} AccumulatorInjective(c: word, d: word, s: seq<byte>)
    requires BitSerial(c, s) == BitSerial(d, s)
    ensures c == d
    decreases |s|
  {
    hide Xor, ByteStep, ByteUnstep;
    if s != [] {
      var x, y := Xor(c, s[0] as word), Xor(d, s[0] as word);
      AccumulatorInjective(ByteStep(x), ByteStep(y), s[1..]);
      ByteUnstepStep(x);
      ByteUnstepStep(y);
      XorLeft(c, d, s[0] as word);
    }
  }

  lemma {:induction false} BitSerialAppend(c: word, s: seq<byte>, t: seq<byte>)
    ensures BitSerial(c, s + t) == BitSerial(BitSerial(c, s), t)
    decreases |s|
  {
    hide Xor, ByteStep;
    if s == [] {
      assert s + t == t;
    } else {
      assert (s + t)[1..] == s[1..] + t;
      BitSerialAppend(ByteStep(Xor(c, s[0] as word)), s[1..], t);
    }
  }

  // ---- Any change within four consecutive bytes changes the register ----

  /** Up to four bytes as a word, first byte least significant. */
  function LE(s: seq<byte>): word
    requires |s| <= 4
  {
    if s == [] then 0 else Xor(s[0] as word, Twice8(LE(s[1..])))
  }

  function ByteSteps(n: nat, c: word): word {
    if n == 0 then c else ByteSteps(n - 1, ByteStep(c))
  }

  predicate OneByte(w: word) {
    w & 0xFFFF_FF00 == 0
  }

  predicate TwoBytes(w: word) {
    w & 0xFFFF_0000 == 0
  }

  /** w has no bit above its low n bytes. */
  predicate Fits(n: nat, w: word) {
    if n == 0 then w == 0 else if n == 1 then OneByte(w) else if n == 2 then TwoBytes(w) else n == 3 ==> Top8Clear(w)
  }

  lemma FitsTop8Clear(n: nat, w: word)
    requires n < 4 && Fits(n, w)
    ensures Top8Clear(w)
  {
    hide OneByte, TwoBytes, Top8Clear;
    if n == 0 {
      ZeroTop8Clear();
    } else if n == 1 {
      OneByteTop8Clear(w);
    } else if n == 2 {
      TwoBytesTop8Clear(w);
    }
  }

  lemma ZeroTop8Clear()
    ensures Top8Clear(0)
  {}

  lemma OneByteTop8Clear(w: word)
    requires OneByte(w)
    ensures Top8Clear(w)
  {}

  lemma TwoBytesTop8Clear(w: word)
    requires TwoBytes(w)
    ensures Top8Clear(w)
  {}

  lemma PrependToZero(b: byte)
    ensures OneByte(Xor(b as word, Twice8(0)))
  {}

  lemma PrependToOne(b: byte, w: word)
    requires OneByte(w)
    ensures TwoBytes(Xor(b as word, Twice8(w)))
  {}

  lemma PrependToTwo(b: byte, w: word)
    requires TwoBytes(w)
    ensures Top8Clear(Xor(b as word, Twice8(w)))
  {}

  lemma FitsPrepend(n: nat, b: byte, w: word)
    requires Fits(n, w)
    ensures Fits(n + 1, Xor(b as word, Twice8(w)))
  {
    hide OneByte, TwoBytes, Top8Clear, Xor, Twice8;
    if n == 0 {
      PrependToZero(b);
    } else if n == 1 {
      PrependToOne(b, w);
    } else if n == 2 {
      PrependToTwo(b, w);
    }
  }

  lemma PrependSplits(b: byte, w: word)
    requires Top8Clear(w)
    ensures LowByte(Xor(b as word, Twice8(w))) == b
    ensures Shift8(Xor(b as word, Twice8(w))) == w
  {}

  lemma {:induction false} LEFits(s: seq<byte>)
    requires |s| <= 4
    ensures Fits(|s|, LE(s))
    decreases |s|
  {
    hide Xor, Twice8, Top8Clear;
    if s != [] {
      LEFits(s[1..]);
      FitsPrepend(|s| - 1, s[0], LE(s[1..]));
    }
  }

  lemma LESplits(s: seq<byte>)
    requires 0 < |s| <= 4
    ensures LowByte(LE(s)) == s[0] && Shift8(LE(s)) == LE(s[1..])
  {
    hide Xor, Twice8, Top8Clear, LowByte, Shift8, Fits;
    LEFits(s[1..]);
    FitsTop8Clear(|s| - 1, LE(s[1..]));
    PrependSplits(s[0], LE(s[1..]));
  }

  lemma {:induction false} LEInjective(s: seq<byte>, t: seq<byte>)
    requires |s| == |t| <= 4
    requires LE(s) == LE(t)
    ensures s == t
    decreases |s|
  {
    hide *;
    if s != [] {
      LESplits(s);
      LESplits(t);
      LEInjective(s[1..], t[1..]);
      assert s == [s[0]] + s[1..] && t == [t[0]] + t[1..];
    }
  }

  /** The register sees a window of up to four bytes as one word xored into it beforehand. */
  lemma {:induction false} WindowIsOneXor(c: word, s: seq<byte>)
    requires |s| <= 4
    ensures BitSerial(c, s) == ByteSteps(|s|, Xor(c, LE(s)))
    decreases |s|
  {
    hide Xor, Twice8, Top8Clear, ByteStep, Fits;
    if s == [] {
      XorZero(c);
    } else {
      var rest := LE(s[1..]);
      var x := Xor(c, s[0] as word);
      LEFits(s[1..]);
      FitsTop8Clear(|s| - 1, rest);
      ByteStepXor(x, rest);
      XorAssociative(c, s[0] as word, Twice8(rest));
      WindowIsOneXor(ByteStep(x), s[1..]);
    }
  }

  lemma XorZero(c: word)
    ensures Xor(c, 0) == c
  {}

  lemma {:induction false} ByteStepsInjective(n: nat, c: word, d: word)
    requires ByteSteps(n, c) == ByteSteps(n, d)
    ensures c == d
  {
    hide ByteStep, ByteUnstep;
    if n > 0 {
      ByteStepsInjective(n - 1, ByteStep(c), ByteStep(d));
      ByteUnstepStep(c);
      ByteUnstepStep(d);
    }
  }

  /** A burst confined to four consecutive bytes always changes the CRC. */
  lemma BurstDetected(pre: seq<byte>, s: seq<byte>, t: seq<byte>, post: seq<byte>)
    requires |s| == |t| <= 4 && s != t
    ensures Crc(pre + s + post) != Crc(pre + t + post)
  {
    hide Xor, ByteStep, BitSerial, LE, Finalise;
    if Crc(pre + s + post) == Crc(pre + t + post) {
      var c := BitSerial(0xFFFF_FFFF, pre);
      FinaliseInjective(BitSerial(0xFFFF_FFFF, pre + s + post), BitSerial(0xFFFF_FFFF, pre + t + post));
      BitSerialAppend(0xFFFF_FFFF, pre + s, post);
      BitSerialAppend(0xFFFF_FFFF, pre + t, post);
      BitSerialAppend(0xFFFF_FFFF, pre, s);
      BitSerialAppend(0xFFFF_FFFF, pre, t);
      AccumulatorInjective(BitSerial(c, s), BitSerial(c, t), post);
      WindowIsOneXor(c, s);
      WindowIsOneXor(c, t);
      ByteStepsInjective(|s|, Xor(c, LE(s)), Xor(c, LE(t)));
      XorCancel(c, LE(s), LE(t));
      LEInjective(s, t);
    }
  }

  // ---- Bursts of bits: 32 consecutive bits that need not start with a byte ----

  function BitSteps(n: nat, c: word): word {
    if n == 0 then c else BitSteps(n - 1, BitStep(c))
  }

  function Half(w: word): word {
    w >> 1
  }

  predicate Even(w: word) {
    w & 1 == 0
  }

  function TwiceN(n: nat, w: word): word {
    if n == 0 then w else Twice(TwiceN(n - 1, w))
  }

  function HalfN(n: nat, w: word): word {
    if n == 0 then w else HalfN(n - 1, Half(w))
  }

  lemma LinearEvenEven(a: word, b: word)
    requires Even(a) && Even(b)
    ensures BitStep(Xor(a, b)) == Xor(BitStep(a), BitStep(b))
  {}

  lemma LinearEvenOdd(a: word, b: word)
    requires Even(a) && !Even(b)
    ensures BitStep(Xor(a, b)) == Xor(BitStep(a), BitStep(b))
  {}

  lemma LinearOddOdd(a: word, b: word)
    requires !Even(a) && !Even(b)
    ensures BitStep(Xor(a, b)) == Xor(BitStep(a), BitStep(b))
  {}

  lemma XorSwaps(a: word, b: word)
    ensures Xor(a, b) == Xor(b, a)
  {}

  /** One register step is linear. */
  lemma BitStepLinear(a: word, b: word)
    ensures BitStep(Xor(a, b)) == Xor(BitStep(a), BitStep(b))
  {
    hide *;
    if Even(a) && Even(b) {
      LinearEvenEven(a, b);
    } else if Even(a) {
      LinearEvenOdd(a, b);
    } else if Even(b) {
      LinearEvenOdd(b, a);
      XorSwaps(a, b);
      XorSwaps(BitStep(a), BitStep(b));
    } else {
      LinearOddOdd(a, b);
    }
  }

  lemma {:induction false} BitStepsLinear(n: nat, a: word, b: word)
    ensures BitSteps(n, Xor(a, b)) == Xor(BitSteps(n, a), BitSteps(n, b))
  {
    hide Xor, BitStep;
    if n > 0 {
      BitStepLinear(a, b);
      BitStepsLinear(n - 1, BitStep(a), BitStep(b));
    }
  }

  lemma {:induction false} BitStepsInjective(n: nat, c: word, d: word)
    requires BitSteps(n, c) == BitSteps(n, d)
    ensures c == d
  {
    hide BitStep, BitUnstep;
    if n > 0 {
      BitStepsInjective(n - 1, BitStep(c), BitStep(d));
      BitUnstepStep(c);
      BitUnstepStep(d);
    }
  }

  lemma {:induction false} BitStepsAdd(m: nat, n: nat, c: word)
    ensures BitSteps(m + n, c) == BitSteps(n, BitSteps(m, c))
  {
    hide BitStep;
    if m > 0 {
      BitStepsAdd(m - 1, n, BitStep(c));
    }
  }

  lemma TwoBitSteps(c: word)
    ensures BitSteps(2, c) == BitStep(BitStep(c))
  {
    hide BitStep;
    assert BitSteps(1, BitStep(c)) == BitStep(BitStep(c));
  }

  lemma EightBitSteps(c: word)
    ensures BitSteps(8, c) == ByteStep(c)
  {
    hide BitStep, BitSteps;
    var c2 := BitStep(BitStep(c));
    var c4 := BitStep(BitStep(c2));
    var c6 := BitStep(BitStep(c4));
    TwoBitSteps(c);
    TwoBitSteps(c2);
    TwoBitSteps(c4);
    TwoBitSteps(c6);
    BitStepsAdd(2, 2, c);
    BitStepsAdd(2, 2, c4);
    BitStepsAdd(4, 4, c);
  }

  lemma {:induction false} BytesAreBits(n: nat, c: word)
    ensures ByteSteps(n, c) == BitSteps(8 * n, c)
  {
    hide ByteStep;
    if n > 0 {
      EightBitSteps(c);
      BitStepsAdd(8, 8 * (n - 1), c);
      BytesAreBits(n - 1, ByteStep(c));
    }
  }

  /** The low n bits of a byte. */
  function LowMask(n: nat): byte
    requires n <= 8
  {
    match n
    case 0 => 0
    case 1 => 0x01
    case 2 => 0x03
    case 3 => 0x07
    case 4 => 0x0F
    case 5 => 0x1F
    case 6 => 0x3F
    case 7 => 0x7F
    case _ => 0xFF
  }

  predicate LowZero(n: nat, w: word)
    requires n <= 8
  {
    w & LowMask(n) as word == 0
  }

  predicate OnlyLow(n: nat, b: byte)
    requires n <= 8
  {
    b & !LowMask(n) == 0
  }

  /** The top n bits of w are 0. */
  predicate HighZero(n: nat, w: word)
    requires n <= 8
  {
    w & ((!LowMask(8 - n)) as word << 24) == 0
  }

  lemma LowZeroStep(n: nat, w: word)
    requires 0 < n <= 8 && LowZero(n, w)
    ensures Even(w) && LowZero(n - 1, Half(w))
  {}

  lemma HighZeroStep(n: nat, w: word)
    requires 0 < n <= 8 && HighZero(n, w)
    ensures TopClear(w) && HighZero(n - 1, Twice(w))
  {}

  lemma EvenHalves(w: word)
    requires Even(w)
    ensures BitStep(w) == Half(w) && Twice(Half(w)) == w
  {}

  lemma TwiceSteps(w: word)
    requires TopClear(w)
    ensures BitStep(Twice(w)) == w
  {}

  /** Zero bits at the low end are shifted out without a trace. */
  lemma {:induction false} LowZeroShifts(n: nat, w: word)
    requires n <= 8 && LowZero(n, w)
    ensures BitSteps(n, w) == HalfN(n, w) && TwiceN(n, HalfN(n, w)) == w
  {
    hide BitStep, LowZero, Even, Half, Twice;
    if n > 0 {
      LowZeroStep(n, w);
      EvenHalves(w);
      LowZeroShifts(n - 1, Half(w));
    }
  }

  /** Doubling n times loses no bit. */
  predicate Room(n: nat, w: word) {
    n == 0 || (Room(n - 1, w) && TopClear(TwiceN(n - 1, w)))
  }

  lemma {:induction false} RoomSteps(n: nat, w: word)
    requires Room(n, w)
    ensures BitSteps(n, TwiceN(n, w)) == w
  {
    hide BitStep, Twice, TopClear;
    if n > 0 {
      TwiceSteps(TwiceN(n - 1, w));
      RoomSteps(n - 1, w);
    }
  }

  lemma {:induction false} TwiceNAdd(m: nat, n: nat, w: word)
    ensures TwiceN(m + n, w) == TwiceN(m, TwiceN(n, w))
  {
    hide Twice;
    if m > 0 {
      TwiceNAdd(m - 1, n, w);
    }
  }

  lemma {:induction false} RoomAdd(m: nat, n: nat, w: word)
    requires Room(n, w) && Room(m, TwiceN(n, w))
    ensures Room(m + n, w)
  {
    hide Twice, TopClear;
    if m > 0 {
      RoomAdd(m - 1, n, w);
      TwiceNAdd(m - 1, n, w);
    }
  }

  lemma {:induction false} RoomFront(n: nat, w: word)
    requires n > 0 && TopClear(w) && Room(n - 1, Twice(w))
    ensures Room(n, w)
  {
    assert TwiceN(1, w) == Twice(w);
    hide Twice, TopClear;
    assert Room(0, w) && TwiceN(0, w) == w;
    RoomAdd(n - 1, 1, w);
  }

  lemma {:induction false} HighZeroRoom(n: nat, w: word)
    requires n <= 8 && HighZero(n, w)
    ensures Room(n, w)
  {
    hide HighZero, Twice, TopClear;
    if n > 0 {
      HighZeroStep(n, w);
      HighZeroRoom(n - 1, Twice(w));
      RoomFront(n, w);
    }
  }

  lemma TwoDoublings(w: word)
    ensures TwiceN(2, w) == Twice(Twice(w))
  {
    hide Twice;
    assert TwiceN(1, w) == Twice(w);
  }

  lemma EightDoublings(w: word)
    ensures TwiceN(8, w) == Twice8(w)
  {
    hide Twice, TwiceN;
    var w2 := Twice(Twice(w));
    var w4 := Twice(Twice(w2));
    var w6 := Twice(Twice(w4));
    TwoDoublings(w);
    TwoDoublings(w2);
    TwoDoublings(w4);
    TwoDoublings(w6);
    TwiceNAdd(2, 2, w);
    TwiceNAdd(2, 2, w4);
    TwiceNAdd(4, 4, w);
  }

  lemma ByteFitsHigh(e: byte)
    ensures HighZero(8, e as word) && HighZero(8, Twice8(e as word)) && HighZero(8, Twice8(Twice8(e as word)))
    ensures Twice8(Twice8(Twice8(Twice8(e as word)))) == 0
  {}

  lemma TopOfByte(r: nat, e: byte)
    requires r <= 8 && OnlyLow(r, e)
    ensures HighZero(8 - r, Twice8(Twice8(Twice8(e as word))))
  {}

  /** A byte with only its low r bits set has room for 32 - r doublings, and none for 32. */
  lemma ByteRoom(r: nat, e: byte)
    requires r <= 8 && OnlyLow(r, e)
    ensures Room(32 - r, e as word) && TwiceN(32, e as word) == 0
  {
    hide *;
    var e0 := e as word;
    var e1 := Twice8(e0);
    var e2 := Twice8(e1);
    var e3 := Twice8(e2);
    ByteFitsHigh(e);
    TopOfByte(r, e);
    HighZeroRoom(8, e0);
    HighZeroRoom(8, e1);
    HighZeroRoom(8, e2);
    HighZeroRoom(8 - r, e3);
    EightDoublings(e0);
    EightDoublings(e1);
    EightDoublings(e2);
    EightDoublings(e3);
    TwiceNAdd(8, 8, e0);
    TwiceNAdd(8, 16, e0);
    TwiceNAdd(8, 24, e0);
    RoomAdd(8, 8, e0);
    RoomAdd(8, 16, e0);
    RoomAdd(8 - r, 24, e0);
  }

  /** 32 steps turn no word whose low r bits are 0 into a byte of only r low bits, but 0. */
  lemma NoBurstVanishes(r: nat, w: word, e: byte)
    requires r <= 8 && LowZero(r, w) && OnlyLow(r, e)
    requires BitSteps(32, w) == e as word
    ensures w == 0 && e == 0
  {
    hide *;
    var e0 := e as word;
    LowZeroShifts(r, w);
    ByteRoom(r, e);
    BitStepsAdd(r, 32 - r, w);
    RoomSteps(32 - r, e0);
    BitStepsInjective(32 - r, HalfN(r, w), TwiceN(32 - r, e0));
    TwiceNAdd(r, 32 - r, e0);
    ZeroStays(32);
    ByteZero(e);
  }

  lemma {:induction false} ZeroStays(n: nat)
    ensures BitSteps(n, 0) == 0
  {
    if n > 0 {
      ZeroSteps();
      ZeroStays(n - 1);
    }
  }

  lemma ZeroSteps()
    ensures BitStep(0) == 0
  {}

  lemma ByteZero(e: byte)
    requires e as word == 0
    ensures e == 0
  {}

  function Difference(a: byte, b: byte): byte {
    a ^ b
  }

  /** The low n bits of two bytes are equal. */
  predicate SameLow(n: nat, a: byte, b: byte)
    requires n <= 8
  {
    Difference(a, b) & LowMask(n) == 0
  }

  /** All but the low n bits are equal. */
  predicate SameHigh(n: nat, a: byte, b: byte)
    requires n <= 8
  {
    OnlyLow(n, Difference(a, b))
  }

  lemma FirstByteDiffers(r: nat, s: seq<byte>, t: seq<byte>)
    requires r <= 8 && |s| == |t| == 4 && SameLow(r, s[0], t[0])
    ensures LowZero(r, Xor(LE(s), LE(t)))
  {
    hide LE;
    LESplits(s);
    LESplits(t);
    LowByteDecides(r, LE(s), LE(t), s[0], t[0]);
  }

  lemma LowByteDecides(r: nat, x: word, y: word, a: byte, b: byte)
    requires r <= 8 && LowByte(x) == a && LowByte(y) == b && SameLow(r, a, b)
    ensures LowZero(r, Xor(x, y))
  {}

  /** Five bytes in the register: the last is xored in before the last eight steps. */
  lemma FiveBytes(c: word, s: seq<byte>)
    requires |s| == 5
    ensures BitSerial(c, s) == ByteStep(Xor(BitSteps(32, Xor(c, LE(s[..4]))), s[4] as word))
  {
    hide Xor, ByteStep, LE;
    WindowIsOneXor(c, s[..4]);
    BytesAreBits(4, Xor(c, LE(s[..4])));
    BitSerialAppend(c, s[..4], s[4..]);
    assert s == s[..4] + s[4..];
    LastByte(BitSerial(c, s[..4]), s[4..]);
  }

  lemma LastByte(c: word, s: seq<byte>)
    requires |s| == 1
    ensures BitSerial(c, s) == ByteStep(Xor(c, s[0] as word))
  {
    hide Xor, ByteStep;
    assert BitSerial(ByteStep(Xor(c, s[0] as word)), s[1..]) == ByteStep(Xor(c, s[0] as word));
  }

  lemma XorBytes(a: byte, b: byte)
    ensures Xor(a as word, b as word) == Difference(a, b) as word
  {}

  lemma XorMoves(x: word, y: word, a: word, b: word)
    requires Xor(x, a) == Xor(y, b)
    ensures Xor(x, y) == Xor(a, b)
  {
    hide *;
    XorMiddle(x, a, y);
    XorOuter(y, b, a);
  }

  lemma XorMiddle(x: word, a: word, y: word)
    ensures Xor(Xor(x, a), Xor(a, y)) == Xor(x, y)
  {}

  lemma XorOuter(y: word, b: word, a: word)
    ensures Xor(Xor(y, b), Xor(a, y)) == Xor(a, b)
  {}

  lemma XorBoth(c: word, x: word, y: word)
    ensures Xor(Xor(c, x), Xor(c, y)) == Xor(x, y)
  {
    hide *;
    XorSwaps(c, x);
    XorMiddle(x, c, y);
  }

  lemma SameHighMeans(n: nat, a: byte, b: byte)
    requires n <= 8 && SameHigh(n, a, b)
    ensures OnlyLow(n, Difference(a, b))
  {}

  /** Equal registers after five bytes: 32 steps turn the difference of the first four into that of the last. */
  lemma EqualRegisters(c: word, s: seq<byte>, t: seq<byte>)
    requires |s| == |t| == 5 && BitSerial(c, s) == BitSerial(c, t)
    ensures BitSteps(32, Xor(LE(s[..4]), LE(t[..4]))) == Difference(s[4], t[4]) as word
  {
    hide *;
    var x, y := Xor(c, LE(s[..4])), Xor(c, LE(t[..4]));
    FiveBytes(c, s);
    FiveBytes(c, t);
    SameLast(BitSteps(32, x), BitSteps(32, y), s[4], t[4]);
    BitStepsLinear(32, x, y);
    XorBoth(c, LE(s[..4]), LE(t[..4]));
  }

  lemma SameLast(x: word, y: word, a: byte, b: byte)
    requires ByteStep(Xor(x, a as word)) == ByteStep(Xor(y, b as word))
    ensures Xor(x, y) == Difference(a, b) as word
  {
    hide *;
    ByteUnstepStep(Xor(x, a as word));
    ByteUnstepStep(Xor(y, b as word));
    XorMoves(x, y, a as word, b as word);
    XorBytes(a, b);
  }

  /** The register after five bytes tells apart any two windows that differ within 32 consecutive bits. */
  lemma BitBurstInRegister(c: word, s: seq<byte>, t: seq<byte>, r: nat)
    requires r <= 8 && |s| == |t| == 5 && BitSerial(c, s) == BitSerial(c, t)
    requires SameLow(r, s[0], t[0]) && SameHigh(r, s[4], t[4])
    ensures s == t
  {
    hide *;
    EqualRegisters(c, s, t);
    FirstByteDiffers(r, s[..4], t[..4]);
    SameHighMeans(r, s[4], t[4]);
    NoBurstVanishes(r, Xor(LE(s[..4]), LE(t[..4])), Difference(s[4], t[4]));
    NoDifference(LE(s[..4]), LE(t[..4]), s[4], t[4]);
    LEInjective(s[..4], t[..4]);
    assert s == s[..4] + [s[4]] && t == t[..4] + [t[4]];
  }

  lemma NoDifference(x: word, y: word, a: byte, b: byte)
    requires Xor(x, y) == 0 && Difference(a, b) == 0
    ensures x == y && a == b
  {}

  /**
   * A burst of up to 32 consecutive bits always changes the CRC, bits taken in the order
   * they are sent: the first byte agrees in its r low bits, the fifth in all but those.
   */
  lemma BitBurstDetected(pre: seq<byte>, s: seq<byte>, t: seq<byte>, post: seq<byte>, r: nat)
    requires r <= 8 && |s| == |t| == 5 && s != t
    requires SameLow(r, s[0], t[0]) && SameHigh(r, s[4], t[4])
    ensures Crc(pre + s + post) != Crc(pre + t + post)
  {
    hide Xor, ByteStep, BitSerial, Finalise, SameLow, SameHigh;
    if Crc(pre + s + post) == Crc(pre + t + post) {
      var c := BitSerial(0xFFFF_FFFF, pre);
      FinaliseInjective(BitSerial(0xFFFF_FFFF, pre + s + post), BitSerial(0xFFFF_FFFF, pre + t + post));
      BitSerialAppend(0xFFFF_FFFF, pre + s, post);
      BitSerialAppend(0xFFFF_FFFF, pre + t, post);
      BitSerialAppend(0xFFFF_FFFF, pre, s);
      BitSerialAppend(0xFFFF_FFFF, pre, t);
      AccumulatorInjective(BitSerial(c, s), BitSerial(c, t), post);
      BitBurstInRegister(c, s, t, r);
    }
  }

  lemma FinaliseInjective(c: word, d: word)
    requires Finalise(c) == Finalise(d)
    ensures c == d
  {}

  // ---- Records with a two-byte magic in front and a CRC trailer over the rest ----

  /** The trailer holds the CRC of everything between it and the magic. */
  predicate Sealed(s: seq<byte>) {
    |s| >= 6 && Crc(s[2..|s| - 4]) == LoadBE32(s[|s| - 4..])
  }

  function Seal(magic: seq<byte>, payload: seq<byte>): (s: seq<byte>)
    requires |magic| == 2
    ensures |s| == |payload| + 6
  {
    magic + payload + BE32(Crc(payload))
  }

  lemma SealIsSealed(magic: seq<byte>, payload: seq<byte>)
    requires |magic| == 2
    ensures Sealed(Seal(magic, payload))
  {
    hide Crc, BE32, LoadBE32;
    var s := Seal(magic, payload);
    assert s[2..|s| - 4] == payload && s[|s| - 4..] == BE32(Crc(payload));
    LoadStoreBE32(Crc(payload));
  }

  /** s with the bytes from i on overwritten by w. */
  function Overwrite(s: seq<byte>, i: nat, w: seq<byte>): (r: seq<byte>)
    requires i + |w| <= |s|
    ensures |r| == |s|
  {
    s[..i] + w + s[i + |w|..]
  }

  lemma OverwriteDiffers(s: seq<byte>, i: nat, w: seq<byte>)
    requires i + |w| <= |s| && Overwrite(s, i, w) != s
    ensures s[i..i + |w|] != w
  {
    assert s == s[..i] + s[i..i + |w|] + s[i + |w|..];
  }

  /** Any change confined to four consecutive payload bytes, or to the trailer, breaks the seal. */
  lemma DamageBreaksSeal(s: seq<byte>, i: nat, w: seq<byte>)
    requires Sealed(s) && i + |w| <= |s| && Overwrite(s, i, w) != s
    requires (2 <= i && |w| <= 4 && i + |w| <= |s| - 4) || |s| - 4 <= i
    ensures !Sealed(Overwrite(s, i, w))
  {
    hide Crc, LoadBE32, Overwrite;
    var n := |s| - 4;
    OverwriteDiffers(s, i, w);
    if n <= i {
      TrailerOverwritten(s, i, w, n);
      StoreLoadBE32(s[n..]);
      StoreLoadBE32(Overwrite(s, i, w)[n..]);
    } else {
      PayloadOverwritten(s, i, w, n);
      BurstDetected(s[2..i], s[i..i + |w|], w, s[i + |w|..n]);
    }
  }

  /** Damage that spares the two magic bytes is damage behind them. */
  lemma DamageSparesMagic(s: seq<byte>, i: nat, w: seq<byte>)
    requires Sealed(s) && i + |w| <= |s| && Overwrite(s, i, w) != s && Overwrite(s, i, w)[..2] == s[..2]
    requires (|w| <= 4 && i + |w| <= |s| - 4) || |s| - 4 <= i
    ensures !Sealed(Overwrite(s, i, w))
  {
    hide Crc, LoadBE32, Overwrite, Sealed;
    if 2 <= i {
      DamageBreaksSeal(s, i, w);
    } else {
      var v := if i + |w| < 2 then [] else w[2 - i..];
      LaterPart(s, i, w, v);
      DamageBreaksSeal(s, 2, v);
    }
  }

  lemma LaterPart(s: seq<byte>, i: nat, w: seq<byte>, v: seq<byte>)
    requires i < 2 <= |s| && i + |w| <= |s| && Overwrite(s, i, w)[..2] == s[..2]
    requires v == if i + |w| < 2 then [] else w[2 - i..]
    ensures 2 + |v| <= |s| && Overwrite(s, 2, v) == Overwrite(s, i, w)
  {
    var d := Overwrite(s, i, w);
    forall k | 0 <= k < |s|
      ensures Overwrite(s, 2, v)[k] == d[k]
    {
      assert k < 2 ==> d[k] == d[..2][k] == s[..2][k];
    }
  }

  lemma TrailerOverwritten(s: seq<byte>, i: nat, w: seq<byte>, n: nat)
    requires 2 <= n <= i && i + |w| <= |s| && s[i..i + |w|] != w
    ensures var d := Overwrite(s, i, w); |d| == |s| && d[2..n] == s[2..n] && d[n..] != s[n..]
  {
    var d := Overwrite(s, i, w);
    assert d[i..i + |w|] == w;
    assert d[n..][i - n..i - n + |w|] == w && s[n..][i - n..i - n + |w|] == s[i..i + |w|];
  }

  lemma PayloadOverwritten(s: seq<byte>, i: nat, w: seq<byte>, n: nat)
    requires 2 <= i && i + |w| <= n <= |s|
    ensures var d, pre, post := Overwrite(s, i, w), s[2..i], s[i + |w|..n];
      |d| == |s| && d[n..] == s[n..] && s[2..n] == pre + s[i..i + |w|] + post && d[2..n] == pre + w + post
  {}

  // ---- The check value ----

  /** The digits 1 to 9. */
  const DIGITS: seq<byte> := [0x31, 0x32, 0x33, 0x34, 0x35, 0x36, 0x37, 0x38, 0x39]

  lemma DigitSteps()
    ensures ByteStep(Xor(0xFFFFFFFF, 0x31)) == 0x7C231048
    ensures ByteStep(Xor(0x7C231048, 0x32)) == 0xB0ACBB32
    ensures ByteStep(Xor(0xB0ACBB32, 0x33)) == 0x77B79C2D
    ensures ByteStep(Xor(0x77B79C2D, 0x34)) == 0x641C1F5C
    ensures ByteStep(Xor(0x641C1F5C, 0x35)) == 0x340AC5E3
    ensures ByteStep(Xor(0x340AC5E3, 0x36)) == 0xF68D2C9E
    ensures ByteStep(Xor(0xF68D2C9E, 0x37)) == 0xAFFC9660
    ensures ByteStep(Xor(0xAFFC9660, 0x38)) == 0x651F2550
    ensures ByteStep(Xor(0x651F2550, 0x39)) == 0x340BC6D9
  {}

  lemma AppendByte(c: word, s: seq<byte>, b: byte)
    ensures BitSerial(c, s + [b]) == ByteStep(Xor(BitSerial(c, s), b as word))
  {
    hide Xor, ByteStep, BitSerial;
    BitSerialAppend(c, s, [b]);
    LastByte(BitSerial(c, s), [b]);
  }

  /** The catalogued check value of this CRC, which fixes preset, polynomial and complement. */
  lemma CheckValue()
    ensures Crc(DIGITS) == 0xCBF43926
  {
    hide Xor, ByteStep, BitSerial;
    DigitSteps();
    NoBytes(0xFFFF_FFFF);
    AppendByte(0xFFFF_FFFF, DIGITS[..0], 0x31);
    assert DIGITS[..1] == DIGITS[..0] + [0x31];
    AppendByte(0xFFFF_FFFF, DIGITS[..1], 0x32);
    assert DIGITS[..2] == DIGITS[..1] + [0x32];
    AppendByte(0xFFFF_FFFF, DIGITS[..2], 0x33);
    assert DIGITS[..3] == DIGITS[..2] + [0x33];
    AppendByte(0xFFFF_FFFF, DIGITS[..3], 0x34);
    assert DIGITS[..4] == DIGITS[..3] + [0x34];
    AppendByte(0xFFFF_FFFF, DIGITS[..4], 0x35);
    assert DIGITS[..5] == DIGITS[..4] + [0x35];
    AppendByte(0xFFFF_FFFF, DIGITS[..5], 0x36);
    assert DIGITS[..6] == DIGITS[..5] + [0x36];
    AppendByte(0xFFFF_FFFF, DIGITS[..6], 0x37);
    assert DIGITS[..7] == DIGITS[..6] + [0x37];
    AppendByte(0xFFFF_FFFF, DIGITS[..7], 0x38);
    assert DIGITS[..8] == DIGITS[..7] + [0x38];
    AppendByte(0xFFFF_FFFF, DIGITS[..8], 0x39);
    assert DIGITS[..9] == DIGITS[..8] + [0x39];
    assert DIGITS[..0] == [] && DIGITS[..9] == DIGITS;
  }

  lemma NoBytes(c: word)
    ensures BitSerial(c, []) == c
  {}

  /** The CRC wrapper of the persistence modules: preset, update, finalise. */
  method Crc32Of(data: array<byte>, from: nat, length: nat) returns (crc: word)
    requires from + length <= data.Length
    ensures crc == Crc(data[from..from + length])
  {
    hide BitSerial, Finalise;
    crc := Update(0xFFFF_FFFF, data, from, length);
    crc := Finalise(crc);
  }
}
