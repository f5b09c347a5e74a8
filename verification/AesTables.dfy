/**
  * The constant tables of the block cipher and what they stand for: the
  * S-box and its inverse, and the six columns of the product table, which
  * are multiplications in GF(2^8) by 2, 3, 9, 11, 13 and 14.
  */
module AesTables {

  // Entry `i` (its low four bits) of an array of sixteen bytes.
  function Pick(i: bv8,
    a0: bv8, a1: bv8, a2: bv8, a3: bv8, a4: bv8, a5: bv8, a6: bv8, a7: bv8,
    a8: bv8, a9: bv8, aA: bv8, aB: bv8, aC: bv8, aD: bv8, aE: bv8, aF: bv8): (r: bv8)
  {
    if i & 8 == 0 then
      (if i & 4 == 0 then
        (if i & 2 == 0 then
          (if i & 1 == 0 then a0 else a1)
        else
          (if i & 1 == 0 then a2 else a3))
      else
        (if i & 2 == 0 then
          (if i & 1 == 0 then a4 else a5)
        else
          (if i & 1 == 0 then a6 else a7)))
    else
      (if i & 4 == 0 then
        (if i & 2 == 0 then
          (if i & 1 == 0 then a8 else a9)
        else
          (if i & 1 == 0 then aA else aB))
      else
        (if i & 2 == 0 then
          (if i & 1 == 0 then aC else aD)
        else
          (if i & 1 == 0 then aE else aF)))
  }

  // `aes_sbox[x >> 4][x & 15]`
  function Sbox(x: bv8): (r: bv8)
  {
    var l := x & 0x0F;
    Pick(x >> 4,
      Pick(l, 0x63, 0x7C, 0x77, 0x7B, 0xF2, 0x6B, 0x6F, 0xC5, 0x30, 0x01, 0x67, 0x2B, 0xFE, 0xD7, 0xAB, 0x76),
      Pick(l, 0xCA, 0x82, 0xC9, 0x7D, 0xFA, 0x59, 0x47, 0xF0, 0xAD, 0xD4, 0xA2, 0xAF, 0x9C, 0xA4, 0x72, 0xC0),
      Pick(l, 0xB7, 0xFD, 0x93, 0x26, 0x36, 0x3F, 0xF7, 0xCC, 0x34, 0xA5, 0xE5, 0xF1, 0x71, 0xD8, 0x31, 0x15),
      Pick(l, 0x04, 0xC7, 0x23, 0xC3, 0x18, 0x96, 0x05, 0x9A, 0x07, 0x12, 0x80, 0xE2, 0xEB, 0x27, 0xB2, 0x75),
      Pick(l, 0x09, 0x83, 0x2C, 0x1A, 0x1B, 0x6E, 0x5A, 0xA0, 0x52, 0x3B, 0xD6, 0xB3, 0x29, 0xE3, 0x2F, 0x84),
      Pick(l, 0x53, 0xD1, 0x00, 0xED, 0x20, 0xFC, 0xB1, 0x5B, 0x6A, 0xCB, 0xBE, 0x39, 0x4A, 0x4C, 0x58, 0xCF),
      Pick(l, 0xD0, 0xEF, 0xAA, 0xFB, 0x43, 0x4D, 0x33, 0x85, 0x45, 0xF9, 0x02, 0x7F, 0x50, 0x3C, 0x9F, 0xA8),
      Pick(l, 0x51, 0xA3, 0x40, 0x8F, 0x92, 0x9D, 0x38, 0xF5, 0xBC, 0xB6, 0xDA, 0x21, 0x10, 0xFF, 0xF3, 0xD2),
      Pick(l, 0xCD, 0x0C, 0x13, 0xEC, 0x5F, 0x97, 0x44, 0x17, 0xC4, 0xA7, 0x7E, 0x3D, 0x64, 0x5D, 0x19, 0x73),
      Pick(l, 0x60, 0x81, 0x4F, 0xDC, 0x22, 0x2A, 0x90, 0x88, 0x46, 0xEE, 0xB8, 0x14, 0xDE, 0x5E, 0x0B, 0xDB),
      Pick(l, 0xE0, 0x32, 0x3A, 0x0A, 0x49, 0x06, 0x24, 0x5C, 0xC2, 0xD3, 0xAC, 0x62, 0x91, 0x95, 0xE4, 0x79),
      Pick(l, 0xE7, 0xC8, 0x37, 0x6D, 0x8D, 0xD5, 0x4E, 0xA9, 0x6C, 0x56, 0xF4, 0xEA, 0x65, 0x7A, 0xAE, 0x08),
      Pick(l, 0xBA, 0x78, 0x25, 0x2E, 0x1C, 0xA6, 0xB4, 0xC6, 0xE8, 0xDD, 0x74, 0x1F, 0x4B, 0xBD, 0x8B, 0x8A),
      Pick(l, 0x70, 0x3E, 0xB5, 0x66, 0x48, 0x03, 0xF6, 0x0E, 0x61, 0x35, 0x57, 0xB9, 0x86, 0xC1, 0x1D, 0x9E),
      Pick(l, 0xE1, 0xF8, 0x98, 0x11, 0x69, 0xD9, 0x8E, 0x94, 0x9B, 0x1E, 0x87, 0xE9, 0xCE, 0x55, 0x28, 0xDF),
      Pick(l, 0x8C, 0xA1, 0x89, 0x0D, 0xBF, 0xE6, 0x42, 0x68, 0x41, 0x99, 0x2D, 0x0F, 0xB0, 0x54, 0xBB, 0x16))
  }

  // `aes_invsbox[x >> 4][x & 15]`
  function InvSbox(x: bv8): (r: bv8)
  {
    var l := x & 0x0F;
    Pick(x >> 4,
      Pick(l, 0x52, 0x09, 0x6A, 0xD5, 0x30, 0x36, 0xA5, 0x38, 0xBF, 0x40, 0xA3, 0x9E, 0x81, 0xF3, 0xD7, 0xFB),
      Pick(l, 0x7C, 0xE3, 0x39, 0x82, 0x9B, 0x2F, 0xFF, 0x87, 0x34, 0x8E, 0x43, 0x44, 0xC4, 0xDE, 0xE9, 0xCB),
      Pick(l, 0x54, 0x7B, 0x94, 0x32, 0xA6, 0xC2, 0x23, 0x3D, 0xEE, 0x4C, 0x95, 0x0B, 0x42, 0xFA, 0xC3, 0x4E),
      Pick(l, 0x08, 0x2E, 0xA1, 0x66, 0x28, 0xD9, 0x24, 0xB2, 0x76, 0x5B, 0xA2, 0x49, 0x6D, 0x8B, 0xD1, 0x25),
      Pick(l, 0x72, 0xF8, 0xF6, 0x64, 0x86, 0x68, 0x98, 0x16, 0xD4, 0xA4, 0x5C, 0xCC, 0x5D, 0x65, 0xB6, 0x92),
      Pick(l, 0x6C, 0x70, 0x48, 0x50, 0xFD, 0xED, 0xB9, 0xDA, 0x5E, 0x15, 0x46, 0x57, 0xA7, 0x8D, 0x9D, 0x84),
      Pick(l, 0x90, 0xD8, 0xAB, 0x00, 0x8C, 0xBC, 0xD3, 0x0A, 0xF7, 0xE4, 0x58, 0x05, 0xB8, 0xB3, 0x45, 0x06),
      Pick(l, 0xD0, 0x2C, 0x1E, 0x8F, 0xCA, 0x3F, 0x0F, 0x02, 0xC1, 0xAF, 0xBD, 0x03, 0x01, 0x13, 0x8A, 0x6B),
      Pick(l, 0x3A, 0x91, 0x11, 0x41, 0x4F, 0x67, 0xDC, 0xEA, 0x97, 0xF2, 0xCF, 0xCE, 0xF0, 0xB4, 0xE6, 0x73),
      Pick(l, 0x96, 0xAC, 0x74, 0x22, 0xE7, 0xAD, 0x35, 0x85, 0xE2, 0xF9, 0x37, 0xE8, 0x1C, 0x75, 0xDF, 0x6E),
      Pick(l, 0x47, 0xF1, 0x1A, 0x71, 0x1D, 0x29, 0xC5, 0x89, 0x6F, 0xB7, 0x62, 0x0E, 0xAA, 0x18, 0xBE, 0x1B),
      Pick(l, 0xFC, 0x56, 0x3E, 0x4B, 0xC6, 0xD2, 0x79, 0x20, 0x9A, 0xDB, 0xC0, 0xFE, 0x78, 0xCD, 0x5A, 0xF4),
      Pick(l, 0x1F, 0xDD, 0xA8, 0x33, 0x88, 0x07, 0xC7, 0x31, 0xB1, 0x12, 0x10, 0x59, 0x27, 0x80, 0xEC, 0x5F),
      Pick(l, 0x60, 0x51, 0x7F, 0xA9, 0x19, 0xB5, 0x4A, 0x0D, 0x2D, 0xE5, 0x7A, 0x9F, 0x93, 0xC9, 0x9C, 0xEF),
      Pick(l, 0xA0, 0xE0, 0x3B, 0x4D, 0xAE, 0x2A, 0xF5, 0xB0, 0xC8, 0xEB, 0xBB, 0x3C, 0x83, 0x53, 0x99, 0x61),
      Pick(l, 0x17, 0x2B, 0x04, 0x7E, 0xBA, 0x77, 0xD6, 0x26, 0xE1, 0x69, 0x14, 0x63, 0x55, 0x21, 0x0C, 0x7D))
  }

  // `gf_mul[x][0]`
  function Mul2(x: bv8): (r: bv8)
  {
    var l := x & 0x0F;
    Pick(x >> 4,
      Pick(l, 0x00, 0x02, 0x04, 0x06, 0x08, 0x0A, 0x0C, 0x0E, 0x10, 0x12, 0x14, 0x16, 0x18, 0x1A, 0x1C, 0x1E),
      Pick(l, 0x20, 0x22, 0x24, 0x26, 0x28, 0x2A, 0x2C, 0x2E, 0x30, 0x32, 0x34, 0x36, 0x38, 0x3A, 0x3C, 0x3E),
      Pick(l, 0x40, 0x42, 0x44, 0x46, 0x48, 0x4A, 0x4C, 0x4E, 0x50, 0x52, 0x54, 0x56, 0x58, 0x5A, 0x5C, 0x5E),
      Pick(l, 0x60, 0x62, 0x64, 0x66, 0x68, 0x6A, 0x6C, 0x6E, 0x70, 0x72, 0x74, 0x76, 0x78, 0x7A, 0x7C, 0x7E),
      Pick(l, 0x80, 0x82, 0x84, 0x86, 0x88, 0x8A, 0x8C, 0x8E, 0x90, 0x92, 0x94, 0x96, 0x98, 0x9A, 0x9C, 0x9E),
      Pick(l, 0xA0, 0xA2, 0xA4, 0xA6, 0xA8, 0xAA, 0xAC, 0xAE, 0xB0, 0xB2, 0xB4, 0xB6, 0xB8, 0xBA, 0xBC, 0xBE),
      Pick(l, 0xC0, 0xC2, 0xC4, 0xC6, 0xC8, 0xCA, 0xCC, 0xCE, 0xD0, 0xD2, 0xD4, 0xD6, 0xD8, 0xDA, 0xDC, 0xDE),
      Pick(l, 0xE0, 0xE2, 0xE4, 0xE6, 0xE8, 0xEA, 0xEC, 0xEE, 0xF0, 0xF2, 0xF4, 0xF6, 0xF8, 0xFA, 0xFC, 0xFE),
      Pick(l, 0x1B, 0x19, 0x1F, 0x1D, 0x13, 0x11, 0x17, 0x15, 0x0B, 0x09, 0x0F, 0x0D, 0x03, 0x01, 0x07, 0x05),
      Pick(l, 0x3B, 0x39, 0x3F, 0x3D, 0x33, 0x31, 0x37, 0x35, 0x2B, 0x29, 0x2F, 0x2D, 0x23, 0x21, 0x27, 0x25),
      Pick(l, 0x5B, 0x59, 0x5F, 0x5D, 0x53, 0x51, 0x57, 0x55, 0x4B, 0x49, 0x4F, 0x4D, 0x43, 0x41, 0x47, 0x45),
      Pick(l, 0x7B, 0x79, 0x7F, 0x7D, 0x73, 0x71, 0x77, 0x75, 0x6B, 0x69, 0x6F, 0x6D, 0x63, 0x61, 0x67, 0x65),
      Pick(l, 0x9B, 0x99, 0x9F, 0x9D, 0x93, 0x91, 0x97, 0x95, 0x8B, 0x89, 0x8F, 0x8D, 0x83, 0x81, 0x87, 0x85),
      Pick(l, 0xBB, 0xB9, 0xBF, 0xBD, 0xB3, 0xB1, 0xB7, 0xB5, 0xAB, 0xA9, 0xAF, 0xAD, 0xA3, 0xA1, 0xA7, 0xA5),
      Pick(l, 0xDB, 0xD9, 0xDF, 0xDD, 0xD3, 0xD1, 0xD7, 0xD5, 0xCB, 0xC9, 0xCF, 0xCD, 0xC3, 0xC1, 0xC7, 0xC5),
      Pick(l, 0xFB, 0xF9, 0xFF, 0xFD, 0xF3, 0xF1, 0xF7, 0xF5, 0xEB, 0xE9, 0xEF, 0xED, 0xE3, 0xE1, 0xE7, 0xE5))
  }

  // `gf_mul[x][1]`
  function Mul3(x: bv8): (r: bv8)
  {
    var l := x & 0x0F;
    Pick(x >> 4,
      Pick(l, 0x00, 0x03, 0x06, 0x05, 0x0C, 0x0F, 0x0A, 0x09, 0x18, 0x1B, 0x1E, 0x1D, 0x14, 0x17, 0x12, 0x11),
      Pick(l, 0x30, 0x33, 0x36, 0x35, 0x3C, 0x3F, 0x3A, 0x39, 0x28, 0x2B, 0x2E, 0x2D, 0x24, 0x27, 0x22, 0x21),
      Pick(l, 0x60, 0x63, 0x66, 0x65, 0x6C, 0x6F, 0x6A, 0x69, 0x78, 0x7B, 0x7E, 0x7D, 0x74, 0x77, 0x72, 0x71),
      Pick(l, 0x50, 0x53, 0x56, 0x55, 0x5C, 0x5F, 0x5A, 0x59, 0x48, 0x4B, 0x4E, 0x4D, 0x44, 0x47, 0x42, 0x41),
      Pick(l, 0xC0, 0xC3, 0xC6, 0xC5, 0xCC, 0xCF, 0xCA, 0xC9, 0xD8, 0xDB, 0xDE, 0xDD, 0xD4, 0xD7, 0xD2, 0xD1),
      Pick(l, 0xF0, 0xF3, 0xF6, 0xF5, 0xFC, 0xFF, 0xFA, 0xF9, 0xE8, 0xEB, 0xEE, 0xED, 0xE4, 0xE7, 0xE2, 0xE1),
      Pick(l, 0xA0, 0xA3, 0xA6, 0xA5, 0xAC, 0xAF, 0xAA, 0xA9, 0xB8, 0xBB, 0xBE, 0xBD, 0xB4, 0xB7, 0xB2, 0xB1),
      Pick(l, 0x90, 0x93, 0x96, 0x95, 0x9C, 0x9F, 0x9A, 0x99, 0x88, 0x8B, 0x8E, 0x8D, 0x84, 0x87, 0x82, 0x81),
      Pick(l, 0x9B, 0x98, 0x9D, 0x9E, 0x97, 0x94, 0x91, 0x92, 0x83, 0x80, 0x85, 0x86, 0x8F, 0x8C, 0x89, 0x8A),
      Pick(l, 0xAB, 0xA8, 0xAD, 0xAE, 0xA7, 0xA4, 0xA1, 0xA2, 0xB3, 0xB0, 0xB5, 0xB6, 0xBF, 0xBC, 0xB9, 0xBA),
      Pick(l, 0xFB, 0xF8, 0xFD, 0xFE, 0xF7, 0xF4, 0xF1, 0xF2, 0xE3, 0xE0, 0xE5, 0xE6, 0xEF, 0xEC, 0xE9, 0xEA),
      Pick(l, 0xCB, 0xC8, 0xCD, 0xCE, 0xC7, 0xC4, 0xC1, 0xC2, 0xD3, 0xD0, 0xD5, 0xD6, 0xDF, 0xDC, 0xD9, 0xDA),
      Pick(l, 0x5B, 0x58, 0x5D, 0x5E, 0x57, 0x54, 0x51, 0x52, 0x43, 0x40, 0x45, 0x46, 0x4F, 0x4C, 0x49, 0x4A),
      Pick(l, 0x6B, 0x68, 0x6D, 0x6E, 0x67, 0x64, 0x61, 0x62, 0x73, 0x70, 0x75, 0x76, 0x7F, 0x7C, 0x79, 0x7A),
      Pick(l, 0x3B, 0x38, 0x3D, 0x3E, 0x37, 0x34, 0x31, 0x32, 0x23, 0x20, 0x25, 0x26, 0x2F, 0x2C, 0x29, 0x2A),
      Pick(l, 0x0B, 0x08, 0x0D, 0x0E, 0x07, 0x04, 0x01, 0x02, 0x13, 0x10, 0x15, 0x16, 0x1F, 0x1C, 0x19, 0x1A))
  }

  // `gf_mul[x][2]`
  function Mul9(x: bv8): (r: bv8)
  {
    var l := x & 0x0F;
    Pick(x >> 4,
      Pick(l, 0x00, 0x09, 0x12, 0x1B, 0x24, 0x2D, 0x36, 0x3F, 0x48, 0x41, 0x5A, 0x53, 0x6C, 0x65, 0x7E, 0x77),
      Pick(l, 0x90, 0x99, 0x82, 0x8B, 0xB4, 0xBD, 0xA6, 0xAF, 0xD8, 0xD1, 0xCA, 0xC3, 0xFC, 0xF5, 0xEE, 0xE7),
      Pick(l, 0x3B, 0x32, 0x29, 0x20, 0x1F, 0x16, 0x0D, 0x04, 0x73, 0x7A, 0x61, 0x68, 0x57, 0x5E, 0x45, 0x4C),
      Pick(l, 0xAB, 0xA2, 0xB9, 0xB0, 0x8F, 0x86, 0x9D, 0x94, 0xE3, 0xEA, 0xF1, 0xF8, 0xC7, 0xCE, 0xD5, 0xDC),
      Pick(l, 0x76, 0x7F, 0x64, 0x6D, 0x52, 0x5B, 0x40, 0x49, 0x3E, 0x37, 0x2C, 0x25, 0x1A, 0x13, 0x08, 0x01),
      Pick(l, 0xE6, 0xEF, 0xF4, 0xFD, 0xC2, 0xCB, 0xD0, 0xD9, 0xAE, 0xA7, 0xBC, 0xB5, 0x8A, 0x83, 0x98, 0x91),
      Pick(l, 0x4D, 0x44, 0x5F, 0x56, 0x69, 0x60, 0x7B, 0x72, 0x05, 0x0C, 0x17, 0x1E, 0x21, 0x28, 0x33, 0x3A),
      Pick(l, 0xDD, 0xD4, 0xCF, 0xC6, 0xF9, 0xF0, 0xEB, 0xE2, 0x95, 0x9C, 0x87, 0x8E, 0xB1, 0xB8, 0xA3, 0xAA),
      Pick(l, 0xEC, 0xE5, 0xFE, 0xF7, 0xC8, 0xC1, 0xDA, 0xD3, 0xA4, 0xAD, 0xB6, 0xBF, 0x80, 0x89, 0x92, 0x9B),
      Pick(l, 0x7C, 0x75, 0x6E, 0x67, 0x58, 0x51, 0x4A, 0x43, 0x34, 0x3D, 0x26, 0x2F, 0x10, 0x19, 0x02, 0x0B),
      Pick(l, 0xD7, 0xDE, 0xC5, 0xCC, 0xF3, 0xFA, 0xE1, 0xE8, 0x9F, 0x96, 0x8D, 0x84, 0xBB, 0xB2, 0xA9, 0xA0),
      Pick(l, 0x47, 0x4E, 0x55, 0x5C, 0x63, 0x6A, 0x71, 0x78, 0x0F, 0x06, 0x1D, 0x14, 0x2B, 0x22, 0x39, 0x30),
      Pick(l, 0x9A, 0x93, 0x88, 0x81, 0xBE, 0xB7, 0xAC, 0xA5, 0xD2, 0xDB, 0xC0, 0xC9, 0xF6, 0xFF, 0xE4, 0xED),
      Pick(l, 0x0A, 0x03, 0x18, 0x11, 0x2E, 0x27, 0x3C, 0x35, 0x42, 0x4B, 0x50, 0x59, 0x66, 0x6F, 0x74, 0x7D),
      Pick(l, 0xA1, 0xA8, 0xB3, 0xBA, 0x85, 0x8C, 0x97, 0x9E, 0xE9, 0xE0, 0xFB, 0xF2, 0xCD, 0xC4, 0xDF, 0xD6),
      Pick(l, 0x31, 0x38, 0x23, 0x2A, 0x15, 0x1C, 0x07, 0x0E, 0x79, 0x70, 0x6B, 0x62, 0x5D, 0x54, 0x4F, 0x46))
  }

  // `gf_mul[x][3]`
  function Mul11(x: bv8): (r: bv8)
  {
    var l := x & 0x0F;
    Pick(x >> 4,
      Pick(l, 0x00, 0x0B, 0x16, 0x1D, 0x2C, 0x27, 0x3A, 0x31, 0x58, 0x53, 0x4E, 0x45, 0x74, 0x7F, 0x62, 0x69),
      Pick(l, 0xB0, 0xBB, 0xA6, 0xAD, 0x9C, 0x97, 0x8A, 0x81, 0xE8, 0xE3, 0xFE, 0xF5, 0xC4, 0xCF, 0xD2, 0xD9),
      Pick(l, 0x7B, 0x70, 0x6D, 0x66, 0x57, 0x5C, 0x41, 0x4A, 0x23, 0x28, 0x35, 0x3E, 0x0F, 0x04, 0x19, 0x12),
      Pick(l, 0xCB, 0xC0, 0xDD, 0xD6, 0xE7, 0xEC, 0xF1, 0xFA, 0x93, 0x98, 0x85, 0x8E, 0xBF, 0xB4, 0xA9, 0xA2),
      Pick(l, 0xF6, 0xFD, 0xE0, 0xEB, 0xDA, 0xD1, 0xCC, 0xC7, 0xAE, 0xA5, 0xB8, 0xB3, 0x82, 0x89, 0x94, 0x9F),
      Pick(l, 0x46, 0x4D, 0x50, 0x5B, 0x6A, 0x61, 0x7C, 0x77, 0x1E, 0x15, 0x08, 0x03, 0x32, 0x39, 0x24, 0x2F),
      Pick(l, 0x8D, 0x86, 0x9B, 0x90, 0xA1, 0xAA, 0xB7, 0xBC, 0xD5, 0xDE, 0xC3, 0xC8, 0xF9, 0xF2, 0xEF, 0xE4),
      Pick(l, 0x3D, 0x36, 0x2B, 0x20, 0x11, 0x1A, 0x07, 0x0C, 0x65, 0x6E, 0x73, 0x78, 0x49, 0x42, 0x5F, 0x54),
      Pick(l, 0xF7, 0xFC, 0xE1, 0xEA, 0xDB, 0xD0, 0xCD, 0xC6, 0xAF, 0xA4, 0xB9, 0xB2, 0x83, 0x88, 0x95, 0x9E),
      Pick(l, 0x47, 0x4C, 0x51, 0x5A, 0x6B, 0x60, 0x7D, 0x76, 0x1F, 0x14, 0x09, 0x02, 0x33, 0x38, 0x25, 0x2E),
      Pick(l, 0x8C, 0x87, 0x9A, 0x91, 0xA0, 0xAB, 0xB6, 0xBD, 0xD4, 0xDF, 0xC2, 0xC9, 0xF8, 0xF3, 0xEE, 0xE5),
      Pick(l, 0x3C, 0x37, 0x2A, 0x21, 0x10, 0x1B, 0x06, 0x0D, 0x64, 0x6F, 0x72, 0x79, 0x48, 0x43, 0x5E, 0x55),
      Pick(l, 0x01, 0x0A, 0x17, 0x1C, 0x2D, 0x26, 0x3B, 0x30, 0x59, 0x52, 0x4F, 0x44, 0x75, 0x7E, 0x63, 0x68),
      Pick(l, 0xB1, 0xBA, 0xA7, 0xAC, 0x9D, 0x96, 0x8B, 0x80, 0xE9, 0xE2, 0xFF, 0xF4, 0xC5, 0xCE, 0xD3, 0xD8),
      Pick(l, 0x7A, 0x71, 0x6C, 0x67, 0x56, 0x5D, 0x40, 0x4B, 0x22, 0x29, 0x34, 0x3F, 0x0E, 0x05, 0x18, 0x13),
      Pick(l, 0xCA, 0xC1, 0xDC, 0xD7, 0xE6, 0xED, 0xF0, 0xFB, 0x92, 0x99, 0x84, 0x8F, 0xBE, 0xB5, 0xA8, 0xA3))
  }

  // `gf_mul[x][4]`
  function Mul13(x: bv8): (r: bv8)
  {
    var l := x & 0x0F;
    Pick(x >> 4,
      Pick(l, 0x00, 0x0D, 0x1A, 0x17, 0x34, 0x39, 0x2E, 0x23, 0x68, 0x65, 0x72, 0x7F, 0x5C, 0x51, 0x46, 0x4B),
      Pick(l, 0xD0, 0xDD, 0xCA, 0xC7, 0xE4, 0xE9, 0xFE, 0xF3, 0xB8, 0xB5, 0xA2, 0xAF, 0x8C, 0x81, 0x96, 0x9B),
      Pick(l, 0xBB, 0xB6, 0xA1, 0xAC, 0x8F, 0x82, 0x95, 0x98, 0xD3, 0xDE, 0xC9, 0xC4, 0xE7, 0xEA, 0xFD, 0xF0),
      Pick(l, 0x6B, 0x66, 0x71, 0x7C, 0x5F, 0x52, 0x45, 0x48, 0x03, 0x0E, 0x19, 0x14, 0x37, 0x3A, 0x2D, 0x20),
      Pick(l, 0x6D, 0x60, 0x77, 0x7A, 0x59, 0x54, 0x43, 0x4E, 0x05, 0x08, 0x1F, 0x12, 0x31, 0x3C, 0x2B, 0x26),
      Pick(l, 0xBD, 0xB0, 0xA7, 0xAA, 0x89, 0x84, 0x93, 0x9E, 0xD5, 0xD8, 0xCF, 0xC2, 0xE1, 0xEC, 0xFB, 0xF6),
      Pick(l, 0xD6, 0xDB, 0xCC, 0xC1, 0xE2, 0xEF, 0xF8, 0xF5, 0xBE, 0xB3, 0xA4, 0xA9, 0x8A, 0x87, 0x90, 0x9D),
      Pick(l, 0x06, 0x0B, 0x1C, 0x11, 0x32, 0x3F, 0x28, 0x25, 0x6E, 0x63, 0x74, 0x79, 0x5A, 0x57, 0x40, 0x4D),
      Pick(l, 0xDA, 0xD7, 0xC0, 0xCD, 0xEE, 0xE3, 0xF4, 0xF9, 0xB2, 0xBF, 0xA8, 0xA5, 0x86, 0x8B, 0x9C, 0x91),
      Pick(l, 0x0A, 0x07, 0x10, 0x1D, 0x3E, 0x33, 0x24, 0x29, 0x62, 0x6F, 0x78, 0x75, 0x56, 0x5B, 0x4C, 0x41),
      Pick(l, 0x61, 0x6C, 0x7B, 0x76, 0x55, 0x58, 0x4F, 0x42, 0x09, 0x04, 0x13, 0x1E, 0x3D, 0x30, 0x27, 0x2A),
      Pick(l, 0xB1, 0xBC, 0xAB, 0xA6, 0x85, 0x88, 0x9F, 0x92, 0xD9, 0xD4, 0xC3, 0xCE, 0xED, 0xE0, 0xF7, 0xFA),
      Pick(l, 0xB7, 0xBA, 0xAD, 0xA0, 0x83, 0x8E, 0x99, 0x94, 0xDF, 0xD2, 0xC5, 0xC8, 0xEB, 0xE6, 0xF1, 0xFC),
      Pick(l, 0x67, 0x6A, 0x7D, 0x70, 0x53, 0x5E, 0x49, 0x44, 0x0F, 0x02, 0x15, 0x18, 0x3B, 0x36, 0x21, 0x2C),
      Pick(l, 0x0C, 0x01, 0x16, 0x1B, 0x38, 0x35, 0x22, 0x2F, 0x64, 0x69, 0x7E, 0x73, 0x50, 0x5D, 0x4A, 0x47),
      Pick(l, 0xDC, 0xD1, 0xC6, 0xCB, 0xE8, 0xE5, 0xF2, 0xFF, 0xB4, 0xB9, 0xAE, 0xA3, 0x80, 0x8D, 0x9A, 0x97))
  }

  // `gf_mul[x][5]`
  function Mul14(x: bv8): (r: bv8)
  {
    var l := x & 0x0F;
    Pick(x >> 4,
      Pick(l, 0x00, 0x0E, 0x1C, 0x12, 0x38, 0x36, 0x24, 0x2A, 0x70, 0x7E, 0x6C, 0x62, 0x48, 0x46, 0x54, 0x5A),
      Pick(l, 0xE0, 0xEE, 0xFC, 0xF2, 0xD8, 0xD6, 0xC4, 0xCA, 0x90, 0x9E, 0x8C, 0x82, 0xA8, 0xA6, 0xB4, 0xBA),
      Pick(l, 0xDB, 0xD5, 0xC7, 0xC9, 0xE3, 0xED, 0xFF, 0xF1, 0xAB, 0xA5, 0xB7, 0xB9, 0x93, 0x9D, 0x8F, 0x81),
      Pick(l, 0x3B, 0x35, 0x27, 0x29, 0x03, 0x0D, 0x1F, 0x11, 0x4B, 0x45, 0x57, 0x59, 0x73, 0x7D, 0x6F, 0x61),
      Pick(l, 0xAD, 0xA3, 0xB1, 0xBF, 0x95, 0x9B, 0x89, 0x87, 0xDD, 0xD3, 0xC1, 0xCF, 0xE5, 0xEB, 0xF9, 0xF7),
      Pick(l, 0x4D, 0x43, 0x51, 0x5F, 0x75, 0x7B, 0x69, 0x67, 0x3D, 0x33, 0x21, 0x2F, 0x05, 0x0B, 0x19, 0x17),
      Pick(l, 0x76, 0x78, 0x6A, 0x64, 0x4E, 0x40, 0x52, 0x5C, 0x06, 0x08, 0x1A, 0x14, 0x3E, 0x30, 0x22, 0x2C),
      Pick(l, 0x96, 0x98, 0x8A, 0x84, 0xAE, 0xA0, 0xB2, 0xBC, 0xE6, 0xE8, 0xFA, 0xF4, 0xDE, 0xD0, 0xC2, 0xCC),
      Pick(l, 0x41, 0x4F, 0x5D, 0x53, 0x79, 0x77, 0x65, 0x6B, 0x31, 0x3F, 0x2D, 0x23, 0x09, 0x07, 0x15, 0x1B),
      Pick(l, 0xA1, 0xAF, 0xBD, 0xB3, 0x99, 0x97, 0x85, 0x8B, 0xD1, 0xDF, 0xCD, 0xC3, 0xE9, 0xE7, 0xF5, 0xFB),
      Pick(l, 0x9A, 0x94, 0x86, 0x88, 0xA2, 0xAC, 0xBE, 0xB0, 0xEA, 0xE4, 0xF6, 0xF8, 0xD2, 0xDC, 0xCE, 0xC0),
      Pick(l, 0x7A, 0x74, 0x66, 0x68, 0x42, 0x4C, 0x5E, 0x50, 0x0A, 0x04, 0x16, 0x18, 0x32, 0x3C, 0x2E, 0x20),
      Pick(l, 0xEC, 0xE2, 0xF0, 0xFE, 0xD4, 0xDA, 0xC8, 0xC6, 0x9C, 0x92, 0x80, 0x8E, 0xA4, 0xAA, 0xB8, 0xB6),
      Pick(l, 0x0C, 0x02, 0x10, 0x1E, 0x34, 0x3A, 0x28, 0x26, 0x7C, 0x72, 0x60, 0x6E, 0x44, 0x4A, 0x58, 0x56),
      Pick(l, 0x37, 0x39, 0x2B, 0x25, 0x0F, 0x01, 0x13, 0x1D, 0x47, 0x49, 0x5B, 0x55, 0x7F, 0x71, 0x63, 0x6D),
      Pick(l, 0xD7, 0xD9, 0xCB, 0xC5, 0xEF, 0xE1, 0xF3, 0xFD, 0xA7, 0xA9, 0xBB, 0xB5, 0x9F, 0x91, 0x83, 0x8D))
  }

  // Addition in GF(2^8).
  function Xor(a: bv8, b: bv8): (r: bv8)
  {
    a ^ b
  }

  // Multiplication by x in GF(2^8) with the polynomial x^8+x^4+x^3+x+1.
  function Xtime(x: bv8): (r: bv8)
  {
    var t := x >> 7;
    (x << 1) ^ t ^ (t << 1) ^ (t << 3) ^ (t << 4)
  }

  // The product of two elements of GF(2^8), section 4.2 of FIPS 197: the sum
  // of x times the powers of two that make up `a`.
  function Times(a: bv8, x: bv8): (r: bv8)
  {
    var t1 := x >> 7;
    var x2 := (x << 1) ^ t1 ^ (t1 << 1) ^ (t1 << 3) ^ (t1 << 4);
    var t2 := x2 >> 7;
    var x4 := (x2 << 1) ^ t2 ^ (t2 << 1) ^ (t2 << 3) ^ (t2 << 4);
    var t3 := x4 >> 7;
    var x8 := (x4 << 1) ^ t3 ^ (t3 << 1) ^ (t3 << 3) ^ (t3 << 4);
    var t4 := x8 >> 7;
    var x16 := (x8 << 1) ^ t4 ^ (t4 << 1) ^ (t4 << 3) ^ (t4 << 4);
    var t5 := x16 >> 7;
    var x32 := (x16 << 1) ^ t5 ^ (t5 << 1) ^ (t5 << 3) ^ (t5 << 4);
    var t6 := x32 >> 7;
    var x64 := (x32 << 1) ^ t6 ^ (t6 << 1) ^ (t6 << 3) ^ (t6 << 4);
    var t7 := x64 >> 7;
    var x128 := (x64 << 1) ^ t7 ^ (t7 << 1) ^ (t7 << 3) ^ (t7 << 4);
    (if a & 0x01 != 0 then x else 0)
    ^ (if a & 0x02 != 0 then x2 else 0)
    ^ (if a & 0x04 != 0 then x4 else 0)
    ^ (if a & 0x08 != 0 then x8 else 0)
    ^ (if a & 0x10 != 0 then x16 else 0)
    ^ (if a & 0x20 != 0 then x32 else 0)
    ^ (if a & 0x40 != 0 then x64 else 0)
    ^ (if a & 0x80 != 0 then x128 else 0)
  }

  // The affine map of section 5.1.1 of FIPS 197, and its inverse.
  function Affine(x: bv8): (r: bv8)
  {
    x ^ ((x << 1) | (x >> 7)) ^ ((x << 2) | (x >> 6)) ^ ((x << 3) | (x >> 5)) ^ ((x << 4) | (x >> 4)) ^ 0x63
  }

  function InvAffine(x: bv8): (r: bv8)
  {
    ((x << 1) | (x >> 7)) ^ ((x << 3) | (x >> 5)) ^ ((x << 6) | (x >> 2)) ^ 0x05
  }

  lemma UndoesQuarter0(x: bv8)
    requires x & 0xC0 == 0x00
    ensures InvSbox(Sbox(x)) == x
  {
  }

  lemma UndoesQuarter1(x: bv8)
    requires x & 0xC0 == 0x40
    ensures InvSbox(Sbox(x)) == x
  {
  }

  lemma UndoesQuarter2(x: bv8)
    requires x & 0xC0 == 0x80
    ensures InvSbox(Sbox(x)) == x
  {
  }

  lemma UndoesQuarter3(x: bv8)
    requires x & 0xC0 == 0xC0
    ensures InvSbox(Sbox(x)) == x
  {
  }

  lemma InvSboxUndoes(x: bv8)
    ensures InvSbox(Sbox(x)) == x
  {
    hide Sbox, InvSbox;
    if x & 0xC0 == 0x00 {
      UndoesQuarter0(x);
    } else if x & 0xC0 == 0x40 {
      UndoesQuarter1(x);
    } else if x & 0xC0 == 0x80 {
      UndoesQuarter2(x);
    } else {
      UndoesQuarter3(x);
    }
  }

  lemma AffineUndoes(x: bv8)
    ensures Affine(InvAffine(x)) == x
  {
  }

  lemma InverseQuarter0(x: bv8)
    requires x & 0xC0 == 0x00
    ensures Times(x, InvAffine(Sbox(x))) == if x == 0 then 0 else 1
  {
  }

  lemma InverseQuarter1(x: bv8)
    requires x & 0xC0 == 0x40
    ensures Times(x, InvAffine(Sbox(x))) == 1
  {
  }

  lemma InverseQuarter2(x: bv8)
    requires x & 0xC0 == 0x80
    ensures Times(x, InvAffine(Sbox(x))) == 1
  {
  }

  lemma InverseQuarter3(x: bv8)
    requires x & 0xC0 == 0xC0
    ensures Times(x, InvAffine(Sbox(x))) == 1
  {
  }

  // The S-box is the affine map of the multiplicative inverse, with 0 kept
  // in place of the inverse of 0.
  lemma SboxIsStandard(x: bv8)
    ensures var y := InvAffine(Sbox(x)); Affine(y) == Sbox(x) && Times(x, y) == if x == 0 then 0 else 1
  {
    hide Sbox, Times, Affine, InvAffine;
    AffineUndoes(Sbox(x));
    if x & 0xC0 == 0x00 {
      InverseQuarter0(x);
    } else if x & 0xC0 == 0x40 {
      InverseQuarter1(x);
    } else if x & 0xC0 == 0x80 {
      InverseQuarter2(x);
    } else {
      InverseQuarter3(x);
    }
  }

  lemma Column2Low(x: bv8)
    requires x & 0x80 == 0
    ensures Mul2(x) == Times(2, x)
  {
  }

  lemma Column2High(x: bv8)
    requires x & 0x80 != 0
    ensures Mul2(x) == Times(2, x)
  {
  }

  lemma Column3Low(x: bv8)
    requires x & 0x80 == 0
    ensures Mul3(x) == Times(3, x)
  {
  }

  lemma Column3High(x: bv8)
    requires x & 0x80 != 0
    ensures Mul3(x) == Times(3, x)
  {
  }

  lemma Column9Low(x: bv8)
    requires x & 0x80 == 0
    ensures Mul9(x) == Times(9, x)
  {
  }

  lemma Column9High(x: bv8)
    requires x & 0x80 != 0
    ensures Mul9(x) == Times(9, x)
  {
  }

  lemma Column11Low(x: bv8)
    requires x & 0x80 == 0
    ensures Mul11(x) == Times(11, x)
  {
  }

  lemma Column11High(x: bv8)
    requires x & 0x80 != 0
    ensures Mul11(x) == Times(11, x)
  {
  }

  lemma Column13Low(x: bv8)
    requires x & 0x80 == 0
    ensures Mul13(x) == Times(13, x)
  {
  }

  lemma Column13High(x: bv8)
    requires x & 0x80 != 0
    ensures Mul13(x) == Times(13, x)
  {
  }

  lemma Column14Low(x: bv8)
    requires x & 0x80 == 0
    ensures Mul14(x) == Times(14, x)
  {
  }

  lemma Column14High(x: bv8)
    requires x & 0x80 != 0
    ensures Mul14(x) == Times(14, x)
  {
  }

  lemma Times2(x: bv8)
    ensures Times(2, x) == Xtime(x)
  {
  }

  lemma Times3(x: bv8)
    ensures Times(3, x) == Xor(Xtime(x), x)
  {
  }

  lemma Times9(x: bv8)
    ensures Times(9, x) == Xor(Xtime(Xtime(Xtime(x))), x)
  {
  }

  lemma Times11(x: bv8)
    ensures Times(11, x) == Xor(Xor(Xtime(Xtime(Xtime(x))), Xtime(x)), x)
  {
  }

  lemma Times13(x: bv8)
    ensures Times(13, x) == Xor(Xor(Xtime(Xtime(Xtime(x))), Xtime(Xtime(x))), x)
  {
  }

  lemma Times14(x: bv8)
    ensures Times(14, x) == Xor(Xor(Xtime(Xtime(Xtime(x))), Xtime(Xtime(x))), Xtime(x))
  {
  }

  // Each column of the table multiplies by its constant.
  lemma GfMulIsProduct(x: bv8)
    ensures Mul2(x) == Times(2, x) && Mul3(x) == Times(3, x)
    ensures Mul9(x) == Times(9, x) && Mul11(x) == Times(11, x)
    ensures Mul13(x) == Times(13, x) && Mul14(x) == Times(14, x)
  {
    hide Mul2, Mul3, Mul9, Mul11, Mul13, Mul14, Times;
    if x & 0x80 == 0 {
      Column2Low(x);
      Column3Low(x);
      Column9Low(x);
      Column11Low(x);
      Column13Low(x);
      Column14Low(x);
    } else {
      Column2High(x);
      Column3High(x);
      Column9High(x);
      Column11High(x);
      Column13High(x);
      Column14High(x);
    }
  }

  lemma XtimeAdds(a: bv8, b: bv8)
    ensures Xtime(Xor(a, b)) == Xor(Xtime(a), Xtime(b))
  {
  }

  lemma XorOrder(a: bv8, b: bv8)
    ensures Xor(a, b) == Xor(b, a)
  {
  }

  lemma XorGroups(a: bv8, b: bv8, c: bv8)
    ensures Xor(Xor(a, b), c) == Xor(a, Xor(b, c)) == Xor(b, Xor(a, c))
  {
  }

  lemma XorZero(a: bv8)
    ensures Xor(a, 0) == a && Xor(0, a) == a
  {
  }

  lemma XorTwice(a: bv8, k: bv8)
    ensures Xor(Xor(a, k), k) == a
  {
  }

  lemma XorPairs(a: bv8, b: bv8, c: bv8, d: bv8)
    ensures Xor(Xor(a, b), Xor(c, d)) == Xor(Xor(a, c), Xor(b, d))
  {
    hide Xor;
    XorGroups(a, b, Xor(c, d));
    XorGroups(b, c, d);
    XorGroups(a, c, Xor(b, d));
  }
}
