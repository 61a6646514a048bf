/** The bytes of the AES state: the field GF(2^8), the S-box, and the gates that
compute the S-box from the eight bits of one byte. */
module AesBytes {
  import opened AesWords

  datatype Byte = Byte(v: bv8)

  /** Addition in GF(2^8). */
  function Sum(x: Byte, y: Byte): Byte {
    Byte(x.v ^ y.v)
  }

  /** Multiplication by {02} in GF(2^8), reduced by x^8 + x^4 + x^3 + x + 1. */
  function XTime(x: Byte): Byte {
    Byte((x.v << 1) ^ (if x.v & 0x80 != 0 then 0x1b else 0))
  }

  /** The product in GF(2^8). */
  function Times(x: Byte, y: bv8): Byte {
    var x1 := XTime(x);
    var x2 := XTime(x1);
    var x3 := XTime(x2);
    var x4 := XTime(x3);
    var x5 := XTime(x4);
    var x6 := XTime(x5);
    var x7 := XTime(x6);
    Byte((if y & 0x01 != 0 then x.v else 0) ^ (if y & 0x02 != 0 then x1.v else 0)
         ^ (if y & 0x04 != 0 then x2.v else 0) ^ (if y & 0x08 != 0 then x3.v else 0)
         ^ (if y & 0x10 != 0 then x4.v else 0) ^ (if y & 0x20 != 0 then x5.v else 0)
         ^ (if y & 0x40 != 0 then x6.v else 0) ^ (if y & 0x80 != 0 then x7.v else 0))
  }

  /** The affine map over GF(2) of section 5.1.1 of FIPS 197. */
  function Affine(x: bv8): bv8 {
    x ^ ((x << 1) | (x >> 7)) ^ ((x << 2) | (x >> 6)) ^ ((x << 3) | (x >> 5)) ^ ((x << 4) | (x >> 4)) ^ 0x63
  }

  /** Figure 7 of FIPS 197. */
  function SBox(x: bv8): bv8 {
    if x & 0x80 == 0 then
      if x & 0x40 == 0 then
        if x & 0x20 == 0 then
          if x & 0x10 == 0 then
            if x & 0x08 == 0 then
              if x & 0x04 == 0 then match x & 0x03 {case 0 => 0x63 case 1 => 0x7c case 2 => 0x77 case _ => 0x7b}
              else match x & 0x03 {case 0 => 0xf2 case 1 => 0x6b case 2 => 0x6f case _ => 0xc5}
            else
              if x & 0x04 == 0 then match x & 0x03 {case 0 => 0x30 case 1 => 0x01 case 2 => 0x67 case _ => 0x2b}
              else match x & 0x03 {case 0 => 0xfe case 1 => 0xd7 case 2 => 0xab case _ => 0x76}
          else
            if x & 0x08 == 0 then
              if x & 0x04 == 0 then match x & 0x03 {case 0 => 0xca case 1 => 0x82 case 2 => 0xc9 case _ => 0x7d}
              else match x & 0x03 {case 0 => 0xfa case 1 => 0x59 case 2 => 0x47 case _ => 0xf0}
            else
              if x & 0x04 == 0 then match x & 0x03 {case 0 => 0xad case 1 => 0xd4 case 2 => 0xa2 case _ => 0xaf}
              else match x & 0x03 {case 0 => 0x9c case 1 => 0xa4 case 2 => 0x72 case _ => 0xc0}
        else
          if x & 0x10 == 0 then
            if x & 0x08 == 0 then
              if x & 0x04 == 0 then match x & 0x03 {case 0 => 0xb7 case 1 => 0xfd case 2 => 0x93 case _ => 0x26}
              else match x & 0x03 {case 0 => 0x36 case 1 => 0x3f case 2 => 0xf7 case _ => 0xcc}
            else
              if x & 0x04 == 0 then match x & 0x03 {case 0 => 0x34 case 1 => 0xa5 case 2 => 0xe5 case _ => 0xf1}
              else match x & 0x03 {case 0 => 0x71 case 1 => 0xd8 case 2 => 0x31 case _ => 0x15}
          else
            if x & 0x08 == 0 then
              if x & 0x04 == 0 then match x & 0x03 {case 0 => 0x04 case 1 => 0xc7 case 2 => 0x23 case _ => 0xc3}
              else match x & 0x03 {case 0 => 0x18 case 1 => 0x96 case 2 => 0x05 case _ => 0x9a}
            else
              if x & 0x04 == 0 then match x & 0x03 {case 0 => 0x07 case 1 => 0x12 case 2 => 0x80 case _ => 0xe2}
              else match x & 0x03 {case 0 => 0xeb case 1 => 0x27 case 2 => 0xb2 case _ => 0x75}
      else
        if x & 0x20 == 0 then
          if x & 0x10 == 0 then
            if x & 0x08 == 0 then
              if x & 0x04 == 0 then match x & 0x03 {case 0 => 0x09 case 1 => 0x83 case 2 => 0x2c case _ => 0x1a}
              else match x & 0x03 {case 0 => 0x1b case 1 => 0x6e case 2 => 0x5a case _ => 0xa0}
            else
              if x & 0x04 == 0 then match x & 0x03 {case 0 => 0x52 case 1 => 0x3b case 2 => 0xd6 case _ => 0xb3}
              else match x & 0x03 {case 0 => 0x29 case 1 => 0xe3 case 2 => 0x2f case _ => 0x84}
          else
            if x & 0x08 == 0 then
              if x & 0x04 == 0 then match x & 0x03 {case 0 => 0x53 case 1 => 0xd1 case 2 => 0x00 case _ => 0xed}
              else match x & 0x03 {case 0 => 0x20 case 1 => 0xfc case 2 => 0xb1 case _ => 0x5b}
            else
              if x & 0x04 == 0 then match x & 0x03 {case 0 => 0x6a case 1 => 0xcb case 2 => 0xbe case _ => 0x39}
              else match x & 0x03 {case 0 => 0x4a case 1 => 0x4c case 2 => 0x58 case _ => 0xcf}
        else
          if x & 0x10 == 0 then
            if x & 0x08 == 0 then
              if x & 0x04 == 0 then match x & 0x03 {case 0 => 0xd0 case 1 => 0xef case 2 => 0xaa case _ => 0xfb}
              else match x & 0x03 {case 0 => 0x43 case 1 => 0x4d case 2 => 0x33 case _ => 0x85}
            else
              if x & 0x04 == 0 then match x & 0x03 {case 0 => 0x45 case 1 => 0xf9 case 2 => 0x02 case _ => 0x7f}
              else match x & 0x03 {case 0 => 0x50 case 1 => 0x3c case 2 => 0x9f case _ => 0xa8}
          else
            if x & 0x08 == 0 then
              if x & 0x04 == 0 then match x & 0x03 {case 0 => 0x51 case 1 => 0xa3 case 2 => 0x40 case _ => 0x8f}
              else match x & 0x03 {case 0 => 0x92 case 1 => 0x9d case 2 => 0x38 case _ => 0xf5}
            else
              if x & 0x04 == 0 then match x & 0x03 {case 0 => 0xbc case 1 => 0xb6 case 2 => 0xda case _ => 0x21}
              else match x & 0x03 {case 0 => 0x10 case 1 => 0xff case 2 => 0xf3 case _ => 0xd2}
    else
      if x & 0x40 == 0 then
        if x & 0x20 == 0 then
          if x & 0x10 == 0 then
            if x & 0x08 == 0 then
              if x & 0x04 == 0 then match x & 0x03 {case 0 => 0xcd case 1 => 0x0c case 2 => 0x13 case _ => 0xec}
              else match x & 0x03 {case 0 => 0x5f case 1 => 0x97 case 2 => 0x44 case _ => 0x17}
            else
              if x & 0x04 == 0 then match x & 0x03 {case 0 => 0xc4 case 1 => 0xa7 case 2 => 0x7e case _ => 0x3d}
              else match x & 0x03 {case 0 => 0x64 case 1 => 0x5d case 2 => 0x19 case _ => 0x73}
          else
            if x & 0x08 == 0 then
              if x & 0x04 == 0 then match x & 0x03 {case 0 => 0x60 case 1 => 0x81 case 2 => 0x4f case _ => 0xdc}
              else match x & 0x03 {case 0 => 0x22 case 1 => 0x2a case 2 => 0x90 case _ => 0x88}
            else
              if x & 0x04 == 0 then match x & 0x03 {case 0 => 0x46 case 1 => 0xee case 2 => 0xb8 case _ => 0x14}
              else match x & 0x03 {case 0 => 0xde case 1 => 0x5e case 2 => 0x0b case _ => 0xdb}
        else
          if x & 0x10 == 0 then
            if x & 0x08 == 0 then
              if x & 0x04 == 0 then match x & 0x03 {case 0 => 0xe0 case 1 => 0x32 case 2 => 0x3a case _ => 0x0a}
              else match x & 0x03 {case 0 => 0x49 case 1 => 0x06 case 2 => 0x24 case _ => 0x5c}
            else
              if x & 0x04 == 0 then match x & 0x03 {case 0 => 0xc2 case 1 => 0xd3 case 2 => 0xac case _ => 0x62}
              else match x & 0x03 {case 0 => 0x91 case 1 => 0x95 case 2 => 0xe4 case _ => 0x79}
          else
            if x & 0x08 == 0 then
              if x & 0x04 == 0 then match x & 0x03 {case 0 => 0xe7 case 1 => 0xc8 case 2 => 0x37 case _ => 0x6d}
              else match x & 0x03 {case 0 => 0x8d case 1 => 0xd5 case 2 => 0x4e case _ => 0xa9}
            else
              if x & 0x04 == 0 then match x & 0x03 {case 0 => 0x6c case 1 => 0x56 case 2 => 0xf4 case _ => 0xea}
              else match x & 0x03 {case 0 => 0x65 case 1 => 0x7a case 2 => 0xae case _ => 0x08}
      else
        if x & 0x20 == 0 then
          if x & 0x10 == 0 then
            if x & 0x08 == 0 then
              if x & 0x04 == 0 then match x & 0x03 {case 0 => 0xba case 1 => 0x78 case 2 => 0x25 case _ => 0x2e}
              else match x & 0x03 {case 0 => 0x1c case 1 => 0xa6 case 2 => 0xb4 case _ => 0xc6}
            else
              if x & 0x04 == 0 then match x & 0x03 {case 0 => 0xe8 case 1 => 0xdd case 2 => 0x74 case _ => 0x1f}
              else match x & 0x03 {case 0 => 0x4b case 1 => 0xbd case 2 => 0x8b case _ => 0x8a}
          else
            if x & 0x08 == 0 then
              if x & 0x04 == 0 then match x & 0x03 {case 0 => 0x70 case 1 => 0x3e case 2 => 0xb5 case _ => 0x66}
              else match x & 0x03 {case 0 => 0x48 case 1 => 0x03 case 2 => 0xf6 case _ => 0x0e}
            else
              if x & 0x04 == 0 then match x & 0x03 {case 0 => 0x61 case 1 => 0x35 case 2 => 0x57 case _ => 0xb9}
              else match x & 0x03 {case 0 => 0x86 case 1 => 0xc1 case 2 => 0x1d case _ => 0x9e}
        else
          if x & 0x10 == 0 then
            if x & 0x08 == 0 then
              if x & 0x04 == 0 then match x & 0x03 {case 0 => 0xe1 case 1 => 0xf8 case 2 => 0x98 case _ => 0x11}
              else match x & 0x03 {case 0 => 0x69 case 1 => 0xd9 case 2 => 0x8e case _ => 0x94}
            else
              if x & 0x04 == 0 then match x & 0x03 {case 0 => 0x9b case 1 => 0x1e case 2 => 0x87 case _ => 0xe9}
              else match x & 0x03 {case 0 => 0xce case 1 => 0x55 case 2 => 0x28 case _ => 0xdf}
          else
            if x & 0x08 == 0 then
              if x & 0x04 == 0 then match x & 0x03 {case 0 => 0x8c case 1 => 0xa1 case 2 => 0x89 case _ => 0x0d}
              else match x & 0x03 {case 0 => 0xbf case 1 => 0xe6 case 2 => 0x42 case _ => 0x68}
            else
              if x & 0x04 == 0 then match x & 0x03 {case 0 => 0x41 case 1 => 0x99 case 2 => 0x2d case _ => 0x0f}
              else match x & 0x03 {case 0 => 0xb0 case 1 => 0x54 case 2 => 0xbb case _ => 0x16}
  }

  /** Figure 14 of FIPS 197. */
  function InvSBox(x: bv8): bv8 {
    if x & 0x80 == 0 then
      if x & 0x40 == 0 then
        if x & 0x20 == 0 then
          if x & 0x10 == 0 then
            if x & 0x08 == 0 then
              if x & 0x04 == 0 then match x & 0x03 {case 0 => 0x52 case 1 => 0x09 case 2 => 0x6a case _ => 0xd5}
              else match x & 0x03 {case 0 => 0x30 case 1 => 0x36 case 2 => 0xa5 case _ => 0x38}
            else
              if x & 0x04 == 0 then match x & 0x03 {case 0 => 0xbf case 1 => 0x40 case 2 => 0xa3 case _ => 0x9e}
              else match x & 0x03 {case 0 => 0x81 case 1 => 0xf3 case 2 => 0xd7 case _ => 0xfb}
          else
            if x & 0x08 == 0 then
              if x & 0x04 == 0 then match x & 0x03 {case 0 => 0x7c case 1 => 0xe3 case 2 => 0x39 case _ => 0x82}
              else match x & 0x03 {case 0 => 0x9b case 1 => 0x2f case 2 => 0xff case _ => 0x87}
            else
              if x & 0x04 == 0 then match x & 0x03 {case 0 => 0x34 case 1 => 0x8e case 2 => 0x43 case _ => 0x44}
              else match x & 0x03 {case 0 => 0xc4 case 1 => 0xde case 2 => 0xe9 case _ => 0xcb}
        else
          if x & 0x10 == 0 then
            if x & 0x08 == 0 then
              if x & 0x04 == 0 then match x & 0x03 {case 0 => 0x54 case 1 => 0x7b case 2 => 0x94 case _ => 0x32}
              else match x & 0x03 {case 0 => 0xa6 case 1 => 0xc2 case 2 => 0x23 case _ => 0x3d}
            else
              if x & 0x04 == 0 then match x & 0x03 {case 0 => 0xee case 1 => 0x4c case 2 => 0x95 case _ => 0x0b}
              else match x & 0x03 {case 0 => 0x42 case 1 => 0xfa case 2 => 0xc3 case _ => 0x4e}
          else
            if x & 0x08 == 0 then
              if x & 0x04 == 0 then match x & 0x03 {case 0 => 0x08 case 1 => 0x2e case 2 => 0xa1 case _ => 0x66}
              else match x & 0x03 {case 0 => 0x28 case 1 => 0xd9 case 2 => 0x24 case _ => 0xb2}
            else
              if x & 0x04 == 0 then match x & 0x03 {case 0 => 0x76 case 1 => 0x5b case 2 => 0xa2 case _ => 0x49}
              else match x & 0x03 {case 0 => 0x6d case 1 => 0x8b case 2 => 0xd1 case _ => 0x25}
      else
        if x & 0x20 == 0 then
          if x & 0x10 == 0 then
            if x & 0x08 == 0 then
              if x & 0x04 == 0 then match x & 0x03 {case 0 => 0x72 case 1 => 0xf8 case 2 => 0xf6 case _ => 0x64}
              else match x & 0x03 {case 0 => 0x86 case 1 => 0x68 case 2 => 0x98 case _ => 0x16}
            else
              if x & 0x04 == 0 then match x & 0x03 {case 0 => 0xd4 case 1 => 0xa4 case 2 => 0x5c case _ => 0xcc}
              else match x & 0x03 {case 0 => 0x5d case 1 => 0x65 case 2 => 0xb6 case _ => 0x92}
          else
            if x & 0x08 == 0 then
              if x & 0x04 == 0 then match x & 0x03 {case 0 => 0x6c case 1 => 0x70 case 2 => 0x48 case _ => 0x50}
              else match x & 0x03 {case 0 => 0xfd case 1 => 0xed case 2 => 0xb9 case _ => 0xda}
            else
              if x & 0x04 == 0 then match x & 0x03 {case 0 => 0x5e case 1 => 0x15 case 2 => 0x46 case _ => 0x57}
              else match x & 0x03 {case 0 => 0xa7 case 1 => 0x8d case 2 => 0x9d case _ => 0x84}
        else
          if x & 0x10 == 0 then
            if x & 0x08 == 0 then
              if x & 0x04 == 0 then match x & 0x03 {case 0 => 0x90 case 1 => 0xd8 case 2 => 0xab case _ => 0x00}
              else match x & 0x03 {case 0 => 0x8c case 1 => 0xbc case 2 => 0xd3 case _ => 0x0a}
            else
              if x & 0x04 == 0 then match x & 0x03 {case 0 => 0xf7 case 1 => 0xe4 case 2 => 0x58 case _ => 0x05}
              else match x & 0x03 {case 0 => 0xb8 case 1 => 0xb3 case 2 => 0x45 case _ => 0x06}
          else
            if x & 0x08 == 0 then
              if x & 0x04 == 0 then match x & 0x03 {case 0 => 0xd0 case 1 => 0x2c case 2 => 0x1e case _ => 0x8f}
              else match x & 0x03 {case 0 => 0xca case 1 => 0x3f case 2 => 0x0f case _ => 0x02}
            else
              if x & 0x04 == 0 then match x & 0x03 {case 0 => 0xc1 case 1 => 0xaf case 2 => 0xbd case _ => 0x03}
              else match x & 0x03 {case 0 => 0x01 case 1 => 0x13 case 2 => 0x8a case _ => 0x6b}
    else
      if x & 0x40 == 0 then
        if x & 0x20 == 0 then
          if x & 0x10 == 0 then
            if x & 0x08 == 0 then
              if x & 0x04 == 0 then match x & 0x03 {case 0 => 0x3a case 1 => 0x91 case 2 => 0x11 case _ => 0x41}
              else match x & 0x03 {case 0 => 0x4f case 1 => 0x67 case 2 => 0xdc case _ => 0xea}
            else
              if x & 0x04 == 0 then match x & 0x03 {case 0 => 0x97 case 1 => 0xf2 case 2 => 0xcf case _ => 0xce}
              else match x & 0x03 {case 0 => 0xf0 case 1 => 0xb4 case 2 => 0xe6 case _ => 0x73}
          else
            if x & 0x08 == 0 then
              if x & 0x04 == 0 then match x & 0x03 {case 0 => 0x96 case 1 => 0xac case 2 => 0x74 case _ => 0x22}
              else match x & 0x03 {case 0 => 0xe7 case 1 => 0xad case 2 => 0x35 case _ => 0x85}
            else
              if x & 0x04 == 0 then match x & 0x03 {case 0 => 0xe2 case 1 => 0xf9 case 2 => 0x37 case _ => 0xe8}
              else match x & 0x03 {case 0 => 0x1c case 1 => 0x75 case 2 => 0xdf case _ => 0x6e}
        else
          if x & 0x10 == 0 then
            if x & 0x08 == 0 then
              if x & 0x04 == 0 then match x & 0x03 {case 0 => 0x47 case 1 => 0xf1 case 2 => 0x1a case _ => 0x71}
              else match x & 0x03 {case 0 => 0x1d case 1 => 0x29 case 2 => 0xc5 case _ => 0x89}
            else
              if x & 0x04 == 0 then match x & 0x03 {case 0 => 0x6f case 1 => 0xb7 case 2 => 0x62 case _ => 0x0e}
              else match x & 0x03 {case 0 => 0xaa case 1 => 0x18 case 2 => 0xbe case _ => 0x1b}
          else
            if x & 0x08 == 0 then
              if x & 0x04 == 0 then match x & 0x03 {case 0 => 0xfc case 1 => 0x56 case 2 => 0x3e case _ => 0x4b}
              else match x & 0x03 {case 0 => 0xc6 case 1 => 0xd2 case 2 => 0x79 case _ => 0x20}
            else
              if x & 0x04 == 0 then match x & 0x03 {case 0 => 0x9a case 1 => 0xdb case 2 => 0xc0 case _ => 0xfe}
              else match x & 0x03 {case 0 => 0x78 case 1 => 0xcd case 2 => 0x5a case _ => 0xf4}
      else
        if x & 0x20 == 0 then
          if x & 0x10 == 0 then
            if x & 0x08 == 0 then
              if x & 0x04 == 0 then match x & 0x03 {case 0 => 0x1f case 1 => 0xdd case 2 => 0xa8 case _ => 0x33}
              else match x & 0x03 {case 0 => 0x88 case 1 => 0x07 case 2 => 0xc7 case _ => 0x31}
            else
              if x & 0x04 == 0 then match x & 0x03 {case 0 => 0xb1 case 1 => 0x12 case 2 => 0x10 case _ => 0x59}
              else match x & 0x03 {case 0 => 0x27 case 1 => 0x80 case 2 => 0xec case _ => 0x5f}
          else
            if x & 0x08 == 0 then
              if x & 0x04 == 0 then match x & 0x03 {case 0 => 0x60 case 1 => 0x51 case 2 => 0x7f case _ => 0xa9}
              else match x & 0x03 {case 0 => 0x19 case 1 => 0xb5 case 2 => 0x4a case _ => 0x0d}
            else
              if x & 0x04 == 0 then match x & 0x03 {case 0 => 0x2d case 1 => 0xe5 case 2 => 0x7a case _ => 0x9f}
              else match x & 0x03 {case 0 => 0x93 case 1 => 0xc9 case 2 => 0x9c case _ => 0xef}
        else
          if x & 0x10 == 0 then
            if x & 0x08 == 0 then
              if x & 0x04 == 0 then match x & 0x03 {case 0 => 0xa0 case 1 => 0xe0 case 2 => 0x3b case _ => 0x4d}
              else match x & 0x03 {case 0 => 0xae case 1 => 0x2a case 2 => 0xf5 case _ => 0xb0}
            else
              if x & 0x04 == 0 then match x & 0x03 {case 0 => 0xc8 case 1 => 0xeb case 2 => 0xbb case _ => 0x3c}
              else match x & 0x03 {case 0 => 0x83 case 1 => 0x53 case 2 => 0x99 case _ => 0x61}
          else
            if x & 0x08 == 0 then
              if x & 0x04 == 0 then match x & 0x03 {case 0 => 0x17 case 1 => 0x2b case 2 => 0x04 case _ => 0x7e}
              else match x & 0x03 {case 0 => 0xba case 1 => 0x77 case 2 => 0xd6 case _ => 0x26}
            else
              if x & 0x04 == 0 then match x & 0x03 {case 0 => 0xe1 case 1 => 0x69 case 2 => 0x14 case _ => 0x63}
              else match x & 0x03 {case 0 => 0x55 case 1 => 0x21 case 2 => 0x0c case _ => 0x7d}
  }

  /** SubBytes and its inverse on one byte. */
  function Sub(x: Byte): Byte {
    Byte(SBox(x.v))
  }

  function InvSub(x: Byte): Byte {
    Byte(InvSBox(x.v))
  }

  function InvAffine(y: bv8): bv8 {
    ((y << 1) | (y >> 7)) ^ ((y << 3) | (y >> 5)) ^ ((y << 6) | (y >> 2)) ^ 0x05
  }

  lemma AffineUndone(y: bv8)
    ensures Affine(InvAffine(y)) == y
  {}

  /** The table is what section 5.1.1 of FIPS 197 defines: the affine image of the
  inverse in GF(2^8), with zero taken to itself before the affine map. */
  lemma SBoxIsAffineInverse(x: bv8)
    ensures exists z: bv8 :: SBox(x) == Affine(z) && (if x == 0 then z == 0 else Times(Byte(x), z) == Byte(1))
  {
    var z := InvAffine(SBox(x));
    AffineUndone(SBox(x));
    assert x != 0 ==> Times(Byte(x), z) == Byte(1);
    assert SBox(x) == Affine(z);
  }

  lemma SBoxInverse(x: bv8)
    ensures InvSBox(SBox(x)) == x
  {}

  lemma InvSBoxInverse(x: bv8)
    ensures SBox(InvSBox(x)) == x
  {}

  /** A byte taken apart, the lowest bit first. */
  datatype Bits = Bits(b0: Wire, b1: Wire, b2: Wire, b3: Wire, b4: Wire, b5: Wire, b6: Wire, b7: Wire)

  function Pack(b: Bits): Byte {
    Byte((if b.b0.on then 0x01 else 0) | (if b.b1.on then 0x02 else 0) | (if b.b2.on then 0x04 else 0) | (if b.b3.on then 0x08 else 0)
    | (if b.b4.on then 0x10 else 0) | (if b.b5.on then 0x20 else 0) | (if b.b6.on then 0x40 else 0) | (if b.b7.on then 0x80 else 0))
  }

  function Unpack(x: bv8): Bits {
    Bits(Wire(x & 0x01 != 0), Wire(x & 0x02 != 0), Wire(x & 0x04 != 0), Wire(x & 0x08 != 0),
         Wire(x & 0x10 != 0), Wire(x & 0x20 != 0), Wire(x & 0x40 != 0), Wire(x & 0x80 != 0))
  }

  lemma PackUnpack(x: bv8)
    ensures Pack(Unpack(x)) == Byte(x)
  {}

  lemma UnpackPack(b: Bits)
    ensures Unpack(Pack(b).v) == b
  {}

  /** The wires between the three stages of the S-box circuit. */
  datatype Top = Top(
    t1: Wire, t2: Wire, t3: Wire, t4: Wire, t6: Wire, t8: Wire, t9: Wire, t10: Wire,
    t13: Wire, t14: Wire, t15: Wire, t16: Wire, t17: Wire, t19: Wire, t20: Wire, t22: Wire,
    t23: Wire, t24: Wire, t25: Wire, t26: Wire, t27: Wire, d: Wire)

  datatype Products = Products(
    m46: Wire, m47: Wire, m48: Wire, m49: Wire, m50: Wire, m51: Wire, m52: Wire, m53: Wire,
    m54: Wire, m55: Wire, m56: Wire, m57: Wire, m58: Wire, m59: Wire, m60: Wire, m61: Wire,
    m62: Wire, m63: Wire)

  /** Linear preprocessing. */
  function Preprocess(x: Bits): Top {
    var t1 := XorBit(x.b7, x.b4);
    var t2 := XorBit(x.b7, x.b2);
    var t3 := XorBit(x.b7, x.b1);
    var t4 := XorBit(x.b4, x.b2);
    var t5 := XorBit(x.b3, x.b1);
    var t6 := XorBit(t1, t5);
    var t7 := XorBit(x.b6, x.b5);
    var t8 := XorBit(x.b0, t6);
    var t9 := XorBit(x.b0, t7);
    var t10 := XorBit(t6, t7);
    var t11 := XorBit(x.b6, x.b2);
    var t12 := XorBit(x.b5, x.b2);
    var t13 := XorBit(t3, t4);
    var t14 := XorBit(t6, t11);
    var t15 := XorBit(t5, t11);
    var t16 := XorBit(t5, t12);
    var t17 := XorBit(t9, t16);
    var t18 := XorBit(x.b4, x.b0);
    var t19 := XorBit(t7, t18);
    var t20 := XorBit(t1, t19);
    var t21 := XorBit(x.b1, x.b0);
    var t22 := XorBit(t7, t21);
    var t23 := XorBit(t2, t22);
    var t24 := XorBit(t2, t10);
    var t25 := XorBit(t20, t17);
    var t26 := XorBit(t3, t16);
    var t27 := XorBit(t1, t12);
    var d := x.b0;
    Top(t1, t2, t3, t4, t6, t8, t9, t10, t13, t14, t15, t16, t17, t19, t20, t22, t23, t24, t25, t26, t27, d)
  }

  /** Undoing the linear postprocessing. */
  function InvPreprocess(x: Bits): Top {
    var t23 := XorBit(x.b7, x.b4);
    var t22 := NotBit(XorBit(x.b6, x.b4));
    var t2 := NotBit(XorBit(x.b7, x.b6));
    var t1 := XorBit(x.b4, x.b3);
    var t24 := NotBit(XorBit(x.b3, x.b0));
    var r5 := XorBit(x.b1, x.b0);
    var t8 := NotBit(XorBit(x.b6, t23));
    var t19 := XorBit(t22, r5);
    var t9 := NotBit(XorBit(x.b0, t1));
    var t10 := XorBit(t2, t24);
    var t13 := XorBit(t2, r5);
    var t3 := XorBit(t1, r5);
    var t25 := NotBit(XorBit(x.b5, t1));
    var r13 := XorBit(x.b6, x.b1);
    var t17 := NotBit(XorBit(x.b5, t19));
    var t20 := XorBit(t24, r13);
    var t4 := XorBit(x.b3, t8);
    var r17 := NotBit(XorBit(x.b5, x.b2));
    var r18 := NotBit(XorBit(x.b2, x.b1));
    var r19 := NotBit(XorBit(x.b5, x.b3));
    var d := XorBit(x.b7, r17);
    var t6 := XorBit(t22, r17);
    var t16 := XorBit(r13, r19);
    var t27 := XorBit(t1, r18);
    var t15 := XorBit(t10, t27);
    var t14 := XorBit(t10, r18);
    var t26 := XorBit(t3, t16);
    Top(t1, t2, t3, t4, t6, t8, t9, t10, t13, t14, t15, t16, t17, t19, t20, t22, t23, t24, t25, t26, t27, d)
  }

  /** The nonlinear middle, shared by both directions. */
  function Invert(t: Top): Products {
    var m1 := AndBit(t.t13, t.t6);
    var m6 := AndBit(t.t3, t.t16);
    var m11 := AndBit(t.t1, t.t15);
    var m13 := XorBit(AndBit(t.t4, t.t27), m11);
    var m15 := XorBit(AndBit(t.t2, t.t10), m11);
    var m20 := XorBit(XorBit(XorBit(t.t14, m1), AndBit(t.t23, t.t8)), m13);
    var m21 := XorBit(XorBit(XorBit(AndBit(t.t19, t.d), m1), t.t24), m15);
    var m22 := XorBit(XorBit(XorBit(t.t26, m6), AndBit(t.t22, t.t9)), m13);
    var m23 := XorBit(XorBit(XorBit(AndBit(t.t20, t.t17), m6), m15), t.t25);
    var m25 := AndBit(m22, m20);
    var m37 := XorBit(m21, AndBit(XorBit(m20, m21), XorBit(m23, m25)));
    var m38 := XorBit(XorBit(m20, m25), OrBit(m21, AndBit(m20, m23)));
    var m39 := XorBit(m23, AndBit(XorBit(m22, m23), XorBit(m21, m25)));
    var m40 := XorBit(XorBit(m22, m25), OrBit(m23, AndBit(m21, m22)));
    var m41 := XorBit(m38, m40);
    var m42 := XorBit(m37, m39);
    var m43 := XorBit(m37, m38);
    var m44 := XorBit(m39, m40);
    var m45 := XorBit(m42, m41);
    var m46 := AndBit(m44, t.t6);
    var m47 := AndBit(m40, t.t8);
    var m48 := AndBit(m39, t.d);
    var m49 := AndBit(m43, t.t16);
    var m50 := AndBit(m38, t.t9);
    var m51 := AndBit(m37, t.t17);
    var m52 := AndBit(m42, t.t15);
    var m53 := AndBit(m45, t.t27);
    var m54 := AndBit(m41, t.t10);
    var m55 := AndBit(m44, t.t13);
    var m56 := AndBit(m40, t.t23);
    var m57 := AndBit(m39, t.t19);
    var m58 := AndBit(m43, t.t3);
    var m59 := AndBit(m38, t.t22);
    var m60 := AndBit(m37, t.t20);
    var m61 := AndBit(m42, t.t1);
    var m62 := AndBit(m45, t.t4);
    var m63 := AndBit(m41, t.t2);
    Products(m46, m47, m48, m49, m50, m51, m52, m53, m54, m55, m56, m57, m58, m59, m60, m61, m62, m63)
  }

  /** Linear postprocessing. */
  function Postprocess(m: Products): Bits {
    var l0 := XorBit(m.m61, m.m62);
    var l1 := XorBit(m.m50, m.m56);
    var l2 := XorBit(m.m46, m.m48);
    var l3 := XorBit(m.m47, m.m55);
    var l4 := XorBit(m.m54, m.m58);
    var l5 := XorBit(m.m49, m.m61);
    var l6 := XorBit(m.m62, l5);
    var l7 := XorBit(m.m46, l3);
    var l8 := XorBit(m.m51, m.m59);
    var l9 := XorBit(m.m52, m.m53);
    var l10 := XorBit(m.m53, l4);
    var l11 := XorBit(m.m60, l2);
    var l12 := XorBit(m.m48, m.m51);
    var l13 := XorBit(m.m50, l0);
    var l14 := XorBit(m.m52, m.m61);
    var l15 := XorBit(m.m55, l1);
    var l16 := XorBit(m.m56, l0);
    var l17 := XorBit(m.m57, l1);
    var l18 := XorBit(m.m58, l8);
    var l19 := XorBit(m.m63, l4);
    var l20 := XorBit(l0, l1);
    var l21 := XorBit(l1, l7);
    var l22 := XorBit(l3, l12);
    var l23 := XorBit(l18, l2);
    var l24 := XorBit(l15, l9);
    var l25 := XorBit(l6, l10);
    var l26 := XorBit(l7, l9);
    var l27 := XorBit(l8, l10);
    var l28 := XorBit(l11, l14);
    var l29 := XorBit(l11, l17);
    Bits(
      NotBit(XorBit(l6, l23)),
      NotBit(XorBit(l13, l27)),
      XorBit(l25, l29),
      XorBit(l20, l22),
      XorBit(l6, l21),
      NotBit(XorBit(l19, l28)),
      NotBit(XorBit(l16, l26)),
      XorBit(l6, l24))
  }

  /** Undoing the linear preprocessing. */
  function InvPostprocess(m: Products): Bits {
    var p0 := XorBit(m.m52, m.m61);
    var p1 := XorBit(m.m58, m.m59);
    var p2 := XorBit(m.m54, m.m62);
    var p3 := XorBit(m.m47, m.m50);
    var p4 := XorBit(m.m48, m.m56);
    var p5 := XorBit(m.m46, m.m51);
    var p6 := XorBit(m.m49, m.m60);
    var p7 := XorBit(p0, p1);
    var p8 := XorBit(m.m50, m.m53);
    var p9 := XorBit(m.m55, m.m63);
    var p10 := XorBit(m.m57, p4);
    var p11 := XorBit(p0, p3);
    var p12 := XorBit(m.m46, m.m48);
    var p13 := XorBit(m.m49, m.m51);
    var p14 := XorBit(m.m49, m.m62);
    var p15 := XorBit(m.m54, m.m59);
    var p16 := XorBit(m.m57, m.m61);
    var p17 := XorBit(m.m58, p2);
    var p18 := XorBit(m.m63, p5);
    var p19 := XorBit(p2, p3);
    var p20 := XorBit(p4, p6);
    var p22 := XorBit(p2, p7);
    var p23 := XorBit(p7, p8);
    var p24 := XorBit(p5, p7);
    var p25 := XorBit(p6, p10);
    var p26 := XorBit(p9, p11);
    var p27 := XorBit(p10, p18);
    var p28 := XorBit(p11, p25);
    var p29 := XorBit(p15, p20);
    Bits(
      XorBit(p9, p16),
      XorBit(p14, p23),
      XorBit(p19, p24),
      XorBit(p23, p27),
      XorBit(p12, p22),
      XorBit(p17, p28),
      XorBit(p26, p29),
      XorBit(p13, p22))
  }

  /** The circuit of SubBytes on the eight bits of one byte. */
  function SubBits(x: Bits): Bits {
    Postprocess(Invert(Preprocess(x)))
  }

  function InvSubBits(x: Bits): Bits {
    InvPostprocess(Invert(InvPreprocess(x)))
  }

  lemma SubBitsLowHalf(x: bv8)
    requires x & 0x80 == 0
    ensures SubBits(Unpack(x)) == Unpack(SBox(x))
  {}

  lemma SubBitsHighHalf(x: bv8)
    requires x & 0x80 != 0
    ensures SubBits(Unpack(x)) == Unpack(SBox(x))
  {}

  lemma SubBitsIsSBox(x: bv8)
    ensures SubBits(Unpack(x)) == Unpack(SBox(x))
  {
    hide SubBits, SBox, Unpack;
    if x & 0x80 == 0 {
      SubBitsLowHalf(x);
    } else {
      SubBitsHighHalf(x);
    }
  }

  lemma InvSubBitsLowHalf(x: bv8)
    requires x & 0x80 == 0
    ensures InvSubBits(Unpack(x)) == Unpack(InvSBox(x))
  {}

  lemma InvSubBitsHighHalf(x: bv8)
    requires x & 0x80 != 0
    ensures InvSubBits(Unpack(x)) == Unpack(InvSBox(x))
  {}

  lemma InvSubBitsIsInvSBox(x: bv8)
    ensures InvSubBits(Unpack(x)) == Unpack(InvSBox(x))
  {
    hide InvSubBits, InvSBox, Unpack;
    if x & 0x80 == 0 {
      InvSubBitsLowHalf(x);
    } else {
      InvSubBitsHighHalf(x);
    }
  }

}
