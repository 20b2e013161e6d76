/** The S-box of the specification is the table of figure 7 of FIPS 197. */
module AesSbox {
  import opened Gf256
  import opened AesSpec

  /** The S-box is the affine transformation of the inverse, and nothing else. */
  lemma IsSubByte(b: Byte, y: Byte)
    requires if b == 0 then y == 0x63 else Gmul(b, InvAffine(y)) == 1
    ensures SubByte(b) == y
  {
    hide Gmul, Affine, InvAffine, Inverse;
    AffineInverse(y);
    if b == 0 {
      OfZero();
    } else {
      InverseIsUnique(b, InvAffine(y));
    }
  }

  lemma OfZero()
    ensures Inverse(0) == 0 && Affine(0) == 0x63
  {
  }

  lemma SboxRow0()
    ensures SubByte(0x00) == 0x63 && SubByte(0x01) == 0x7c && SubByte(0x02) == 0x77 && SubByte(0x03) == 0x7b
    ensures SubByte(0x04) == 0xf2 && SubByte(0x05) == 0x6b && SubByte(0x06) == 0x6f && SubByte(0x07) == 0xc5
    ensures SubByte(0x08) == 0x30 && SubByte(0x09) == 0x01 && SubByte(0x0a) == 0x67 && SubByte(0x0b) == 0x2b
    ensures SubByte(0x0c) == 0xfe && SubByte(0x0d) == 0xd7 && SubByte(0x0e) == 0xab && SubByte(0x0f) == 0x76
  {
    hide SubByte;
    IsSubByte(0x00, 0x63); IsSubByte(0x01, 0x7c); IsSubByte(0x02, 0x77); IsSubByte(0x03, 0x7b);
    IsSubByte(0x04, 0xf2); IsSubByte(0x05, 0x6b); IsSubByte(0x06, 0x6f); IsSubByte(0x07, 0xc5);
    IsSubByte(0x08, 0x30); IsSubByte(0x09, 0x01); IsSubByte(0x0a, 0x67); IsSubByte(0x0b, 0x2b);
    IsSubByte(0x0c, 0xfe); IsSubByte(0x0d, 0xd7); IsSubByte(0x0e, 0xab); IsSubByte(0x0f, 0x76);
  }

  lemma SboxRow1()
    ensures SubByte(0x10) == 0xca && SubByte(0x11) == 0x82 && SubByte(0x12) == 0xc9 && SubByte(0x13) == 0x7d
    ensures SubByte(0x14) == 0xfa && SubByte(0x15) == 0x59 && SubByte(0x16) == 0x47 && SubByte(0x17) == 0xf0
    ensures SubByte(0x18) == 0xad && SubByte(0x19) == 0xd4 && SubByte(0x1a) == 0xa2 && SubByte(0x1b) == 0xaf
    ensures SubByte(0x1c) == 0x9c && SubByte(0x1d) == 0xa4 && SubByte(0x1e) == 0x72 && SubByte(0x1f) == 0xc0
  {
    hide SubByte;
    IsSubByte(0x10, 0xca); IsSubByte(0x11, 0x82); IsSubByte(0x12, 0xc9); IsSubByte(0x13, 0x7d);
    IsSubByte(0x14, 0xfa); IsSubByte(0x15, 0x59); IsSubByte(0x16, 0x47); IsSubByte(0x17, 0xf0);
    IsSubByte(0x18, 0xad); IsSubByte(0x19, 0xd4); IsSubByte(0x1a, 0xa2); IsSubByte(0x1b, 0xaf);
    IsSubByte(0x1c, 0x9c); IsSubByte(0x1d, 0xa4); IsSubByte(0x1e, 0x72); IsSubByte(0x1f, 0xc0);
  }

  lemma SboxRow2()
    ensures SubByte(0x20) == 0xb7 && SubByte(0x21) == 0xfd && SubByte(0x22) == 0x93 && SubByte(0x23) == 0x26
    ensures SubByte(0x24) == 0x36 && SubByte(0x25) == 0x3f && SubByte(0x26) == 0xf7 && SubByte(0x27) == 0xcc
    ensures SubByte(0x28) == 0x34 && SubByte(0x29) == 0xa5 && SubByte(0x2a) == 0xe5 && SubByte(0x2b) == 0xf1
    ensures SubByte(0x2c) == 0x71 && SubByte(0x2d) == 0xd8 && SubByte(0x2e) == 0x31 && SubByte(0x2f) == 0x15
  {
    hide SubByte;
    IsSubByte(0x20, 0xb7); IsSubByte(0x21, 0xfd); IsSubByte(0x22, 0x93); IsSubByte(0x23, 0x26);
    IsSubByte(0x24, 0x36); IsSubByte(0x25, 0x3f); IsSubByte(0x26, 0xf7); IsSubByte(0x27, 0xcc);
    IsSubByte(0x28, 0x34); IsSubByte(0x29, 0xa5); IsSubByte(0x2a, 0xe5); IsSubByte(0x2b, 0xf1);
    IsSubByte(0x2c, 0x71); IsSubByte(0x2d, 0xd8); IsSubByte(0x2e, 0x31); IsSubByte(0x2f, 0x15);
  }

  lemma SboxRow3()
    ensures SubByte(0x30) == 0x04 && SubByte(0x31) == 0xc7 && SubByte(0x32) == 0x23 && SubByte(0x33) == 0xc3
    ensures SubByte(0x34) == 0x18 && SubByte(0x35) == 0x96 && SubByte(0x36) == 0x05 && SubByte(0x37) == 0x9a
    ensures SubByte(0x38) == 0x07 && SubByte(0x39) == 0x12 && SubByte(0x3a) == 0x80 && SubByte(0x3b) == 0xe2
    ensures SubByte(0x3c) == 0xeb && SubByte(0x3d) == 0x27 && SubByte(0x3e) == 0xb2 && SubByte(0x3f) == 0x75
  {
    hide SubByte;
    IsSubByte(0x30, 0x04); IsSubByte(0x31, 0xc7); IsSubByte(0x32, 0x23); IsSubByte(0x33, 0xc3);
    IsSubByte(0x34, 0x18); IsSubByte(0x35, 0x96); IsSubByte(0x36, 0x05); IsSubByte(0x37, 0x9a);
    IsSubByte(0x38, 0x07); IsSubByte(0x39, 0x12); IsSubByte(0x3a, 0x80); IsSubByte(0x3b, 0xe2);
    IsSubByte(0x3c, 0xeb); IsSubByte(0x3d, 0x27); IsSubByte(0x3e, 0xb2); IsSubByte(0x3f, 0x75);
  }

  lemma SboxRow4()
    ensures SubByte(0x40) == 0x09 && SubByte(0x41) == 0x83 && SubByte(0x42) == 0x2c && SubByte(0x43) == 0x1a
    ensures SubByte(0x44) == 0x1b && SubByte(0x45) == 0x6e && SubByte(0x46) == 0x5a && SubByte(0x47) == 0xa0
    ensures SubByte(0x48) == 0x52 && SubByte(0x49) == 0x3b && SubByte(0x4a) == 0xd6 && SubByte(0x4b) == 0xb3
    ensures SubByte(0x4c) == 0x29 && SubByte(0x4d) == 0xe3 && SubByte(0x4e) == 0x2f && SubByte(0x4f) == 0x84
  {
    hide SubByte;
    IsSubByte(0x40, 0x09); IsSubByte(0x41, 0x83); IsSubByte(0x42, 0x2c); IsSubByte(0x43, 0x1a);
    IsSubByte(0x44, 0x1b); IsSubByte(0x45, 0x6e); IsSubByte(0x46, 0x5a); IsSubByte(0x47, 0xa0);
    IsSubByte(0x48, 0x52); IsSubByte(0x49, 0x3b); IsSubByte(0x4a, 0xd6); IsSubByte(0x4b, 0xb3);
    IsSubByte(0x4c, 0x29); IsSubByte(0x4d, 0xe3); IsSubByte(0x4e, 0x2f); IsSubByte(0x4f, 0x84);
  }

  lemma SboxRow5()
    ensures SubByte(0x50) == 0x53 && SubByte(0x51) == 0xd1 && SubByte(0x52) == 0x00 && SubByte(0x53) == 0xed
    ensures SubByte(0x54) == 0x20 && SubByte(0x55) == 0xfc && SubByte(0x56) == 0xb1 && SubByte(0x57) == 0x5b
    ensures SubByte(0x58) == 0x6a && SubByte(0x59) == 0xcb && SubByte(0x5a) == 0xbe && SubByte(0x5b) == 0x39
    ensures SubByte(0x5c) == 0x4a && SubByte(0x5d) == 0x4c && SubByte(0x5e) == 0x58 && SubByte(0x5f) == 0xcf
  {
    hide SubByte;
    IsSubByte(0x50, 0x53); IsSubByte(0x51, 0xd1); IsSubByte(0x52, 0x00); IsSubByte(0x53, 0xed);
    IsSubByte(0x54, 0x20); IsSubByte(0x55, 0xfc); IsSubByte(0x56, 0xb1); IsSubByte(0x57, 0x5b);
    IsSubByte(0x58, 0x6a); IsSubByte(0x59, 0xcb); IsSubByte(0x5a, 0xbe); IsSubByte(0x5b, 0x39);
    IsSubByte(0x5c, 0x4a); IsSubByte(0x5d, 0x4c); IsSubByte(0x5e, 0x58); IsSubByte(0x5f, 0xcf);
  }

  lemma SboxRow6()
    ensures SubByte(0x60) == 0xd0 && SubByte(0x61) == 0xef && SubByte(0x62) == 0xaa && SubByte(0x63) == 0xfb
    ensures SubByte(0x64) == 0x43 && SubByte(0x65) == 0x4d && SubByte(0x66) == 0x33 && SubByte(0x67) == 0x85
    ensures SubByte(0x68) == 0x45 && SubByte(0x69) == 0xf9 && SubByte(0x6a) == 0x02 && SubByte(0x6b) == 0x7f
    ensures SubByte(0x6c) == 0x50 && SubByte(0x6d) == 0x3c && SubByte(0x6e) == 0x9f && SubByte(0x6f) == 0xa8
  {
    hide SubByte;
    IsSubByte(0x60, 0xd0); IsSubByte(0x61, 0xef); IsSubByte(0x62, 0xaa); IsSubByte(0x63, 0xfb);
    IsSubByte(0x64, 0x43); IsSubByte(0x65, 0x4d); IsSubByte(0x66, 0x33); IsSubByte(0x67, 0x85);
    IsSubByte(0x68, 0x45); IsSubByte(0x69, 0xf9); IsSubByte(0x6a, 0x02); IsSubByte(0x6b, 0x7f);
    IsSubByte(0x6c, 0x50); IsSubByte(0x6d, 0x3c); IsSubByte(0x6e, 0x9f); IsSubByte(0x6f, 0xa8);
  }

  lemma SboxRow7()
    ensures SubByte(0x70) == 0x51 && SubByte(0x71) == 0xa3 && SubByte(0x72) == 0x40 && SubByte(0x73) == 0x8f
    ensures SubByte(0x74) == 0x92 && SubByte(0x75) == 0x9d && SubByte(0x76) == 0x38 && SubByte(0x77) == 0xf5
    ensures SubByte(0x78) == 0xbc && SubByte(0x79) == 0xb6 && SubByte(0x7a) == 0xda && SubByte(0x7b) == 0x21
    ensures SubByte(0x7c) == 0x10 && SubByte(0x7d) == 0xff && SubByte(0x7e) == 0xf3 && SubByte(0x7f) == 0xd2
  {
    hide SubByte;
    IsSubByte(0x70, 0x51); IsSubByte(0x71, 0xa3); IsSubByte(0x72, 0x40); IsSubByte(0x73, 0x8f);
    IsSubByte(0x74, 0x92); IsSubByte(0x75, 0x9d); IsSubByte(0x76, 0x38); IsSubByte(0x77, 0xf5);
    IsSubByte(0x78, 0xbc); IsSubByte(0x79, 0xb6); IsSubByte(0x7a, 0xda); IsSubByte(0x7b, 0x21);
    IsSubByte(0x7c, 0x10); IsSubByte(0x7d, 0xff); IsSubByte(0x7e, 0xf3); IsSubByte(0x7f, 0xd2);
  }

  lemma SboxRow8()
    ensures SubByte(0x80) == 0xcd && SubByte(0x81) == 0x0c && SubByte(0x82) == 0x13 && SubByte(0x83) == 0xec
    ensures SubByte(0x84) == 0x5f && SubByte(0x85) == 0x97 && SubByte(0x86) == 0x44 && SubByte(0x87) == 0x17
    ensures SubByte(0x88) == 0xc4 && SubByte(0x89) == 0xa7 && SubByte(0x8a) == 0x7e && SubByte(0x8b) == 0x3d
    ensures SubByte(0x8c) == 0x64 && SubByte(0x8d) == 0x5d && SubByte(0x8e) == 0x19 && SubByte(0x8f) == 0x73
  {
    hide SubByte;
    IsSubByte(0x80, 0xcd); IsSubByte(0x81, 0x0c); IsSubByte(0x82, 0x13); IsSubByte(0x83, 0xec);
    IsSubByte(0x84, 0x5f); IsSubByte(0x85, 0x97); IsSubByte(0x86, 0x44); IsSubByte(0x87, 0x17);
    IsSubByte(0x88, 0xc4); IsSubByte(0x89, 0xa7); IsSubByte(0x8a, 0x7e); IsSubByte(0x8b, 0x3d);
    IsSubByte(0x8c, 0x64); IsSubByte(0x8d, 0x5d); IsSubByte(0x8e, 0x19); IsSubByte(0x8f, 0x73);
  }

  lemma SboxRow9()
    ensures SubByte(0x90) == 0x60 && SubByte(0x91) == 0x81 && SubByte(0x92) == 0x4f && SubByte(0x93) == 0xdc
    ensures SubByte(0x94) == 0x22 && SubByte(0x95) == 0x2a && SubByte(0x96) == 0x90 && SubByte(0x97) == 0x88
    ensures SubByte(0x98) == 0x46 && SubByte(0x99) == 0xee && SubByte(0x9a) == 0xb8 && SubByte(0x9b) == 0x14
    ensures SubByte(0x9c) == 0xde && SubByte(0x9d) == 0x5e && SubByte(0x9e) == 0x0b && SubByte(0x9f) == 0xdb
  {
    hide SubByte;
    IsSubByte(0x90, 0x60); IsSubByte(0x91, 0x81); IsSubByte(0x92, 0x4f); IsSubByte(0x93, 0xdc);
    IsSubByte(0x94, 0x22); IsSubByte(0x95, 0x2a); IsSubByte(0x96, 0x90); IsSubByte(0x97, 0x88);
    IsSubByte(0x98, 0x46); IsSubByte(0x99, 0xee); IsSubByte(0x9a, 0xb8); IsSubByte(0x9b, 0x14);
    IsSubByte(0x9c, 0xde); IsSubByte(0x9d, 0x5e); IsSubByte(0x9e, 0x0b); IsSubByte(0x9f, 0xdb);
  }

  lemma SboxRowA()
    ensures SubByte(0xa0) == 0xe0 && SubByte(0xa1) == 0x32 && SubByte(0xa2) == 0x3a && SubByte(0xa3) == 0x0a
    ensures SubByte(0xa4) == 0x49 && SubByte(0xa5) == 0x06 && SubByte(0xa6) == 0x24 && SubByte(0xa7) == 0x5c
    ensures SubByte(0xa8) == 0xc2 && SubByte(0xa9) == 0xd3 && SubByte(0xaa) == 0xac && SubByte(0xab) == 0x62
    ensures SubByte(0xac) == 0x91 && SubByte(0xad) == 0x95 && SubByte(0xae) == 0xe4 && SubByte(0xaf) == 0x79
  {
    hide SubByte;
    IsSubByte(0xa0, 0xe0); IsSubByte(0xa1, 0x32); IsSubByte(0xa2, 0x3a); IsSubByte(0xa3, 0x0a);
    IsSubByte(0xa4, 0x49); IsSubByte(0xa5, 0x06); IsSubByte(0xa6, 0x24); IsSubByte(0xa7, 0x5c);
    IsSubByte(0xa8, 0xc2); IsSubByte(0xa9, 0xd3); IsSubByte(0xaa, 0xac); IsSubByte(0xab, 0x62);
    IsSubByte(0xac, 0x91); IsSubByte(0xad, 0x95); IsSubByte(0xae, 0xe4); IsSubByte(0xaf, 0x79);
  }

  lemma SboxRowB()
    ensures SubByte(0xb0) == 0xe7 && SubByte(0xb1) == 0xc8 && SubByte(0xb2) == 0x37 && SubByte(0xb3) == 0x6d
    ensures SubByte(0xb4) == 0x8d && SubByte(0xb5) == 0xd5 && SubByte(0xb6) == 0x4e && SubByte(0xb7) == 0xa9
    ensures SubByte(0xb8) == 0x6c && SubByte(0xb9) == 0x56 && SubByte(0xba) == 0xf4 && SubByte(0xbb) == 0xea
    ensures SubByte(0xbc) == 0x65 && SubByte(0xbd) == 0x7a && SubByte(0xbe) == 0xae && SubByte(0xbf) == 0x08
  {
    hide SubByte;
    IsSubByte(0xb0, 0xe7); IsSubByte(0xb1, 0xc8); IsSubByte(0xb2, 0x37); IsSubByte(0xb3, 0x6d);
    IsSubByte(0xb4, 0x8d); IsSubByte(0xb5, 0xd5); IsSubByte(0xb6, 0x4e); IsSubByte(0xb7, 0xa9);
    IsSubByte(0xb8, 0x6c); IsSubByte(0xb9, 0x56); IsSubByte(0xba, 0xf4); IsSubByte(0xbb, 0xea);
    IsSubByte(0xbc, 0x65); IsSubByte(0xbd, 0x7a); IsSubByte(0xbe, 0xae); IsSubByte(0xbf, 0x08);
  }

  lemma SboxRowC()
    ensures SubByte(0xc0) == 0xba && SubByte(0xc1) == 0x78 && SubByte(0xc2) == 0x25 && SubByte(0xc3) == 0x2e
    ensures SubByte(0xc4) == 0x1c && SubByte(0xc5) == 0xa6 && SubByte(0xc6) == 0xb4 && SubByte(0xc7) == 0xc6
    ensures SubByte(0xc8) == 0xe8 && SubByte(0xc9) == 0xdd && SubByte(0xca) == 0x74 && SubByte(0xcb) == 0x1f
    ensures SubByte(0xcc) == 0x4b && SubByte(0xcd) == 0xbd && SubByte(0xce) == 0x8b && SubByte(0xcf) == 0x8a
  {
    hide SubByte;
    IsSubByte(0xc0, 0xba); IsSubByte(0xc1, 0x78); IsSubByte(0xc2, 0x25); IsSubByte(0xc3, 0x2e);
    IsSubByte(0xc4, 0x1c); IsSubByte(0xc5, 0xa6); IsSubByte(0xc6, 0xb4); IsSubByte(0xc7, 0xc6);
    IsSubByte(0xc8, 0xe8); IsSubByte(0xc9, 0xdd); IsSubByte(0xca, 0x74); IsSubByte(0xcb, 0x1f);
    IsSubByte(0xcc, 0x4b); IsSubByte(0xcd, 0xbd); IsSubByte(0xce, 0x8b); IsSubByte(0xcf, 0x8a);
  }

  lemma SboxRowD()
    ensures SubByte(0xd0) == 0x70 && SubByte(0xd1) == 0x3e && SubByte(0xd2) == 0xb5 && SubByte(0xd3) == 0x66
    ensures SubByte(0xd4) == 0x48 && SubByte(0xd5) == 0x03 && SubByte(0xd6) == 0xf6 && SubByte(0xd7) == 0x0e
    ensures SubByte(0xd8) == 0x61 && SubByte(0xd9) == 0x35 && SubByte(0xda) == 0x57 && SubByte(0xdb) == 0xb9
    ensures SubByte(0xdc) == 0x86 && SubByte(0xdd) == 0xc1 && SubByte(0xde) == 0x1d && SubByte(0xdf) == 0x9e
  {
    hide SubByte;
    IsSubByte(0xd0, 0x70); IsSubByte(0xd1, 0x3e); IsSubByte(0xd2, 0xb5); IsSubByte(0xd3, 0x66);
    IsSubByte(0xd4, 0x48); IsSubByte(0xd5, 0x03); IsSubByte(0xd6, 0xf6); IsSubByte(0xd7, 0x0e);
    IsSubByte(0xd8, 0x61); IsSubByte(0xd9, 0x35); IsSubByte(0xda, 0x57); IsSubByte(0xdb, 0xb9);
    IsSubByte(0xdc, 0x86); IsSubByte(0xdd, 0xc1); IsSubByte(0xde, 0x1d); IsSubByte(0xdf, 0x9e);
  }

  lemma SboxRowE()
    ensures SubByte(0xe0) == 0xe1 && SubByte(0xe1) == 0xf8 && SubByte(0xe2) == 0x98 && SubByte(0xe3) == 0x11
    ensures SubByte(0xe4) == 0x69 && SubByte(0xe5) == 0xd9 && SubByte(0xe6) == 0x8e && SubByte(0xe7) == 0x94
    ensures SubByte(0xe8) == 0x9b && SubByte(0xe9) == 0x1e && SubByte(0xea) == 0x87 && SubByte(0xeb) == 0xe9
    ensures SubByte(0xec) == 0xce && SubByte(0xed) == 0x55 && SubByte(0xee) == 0x28 && SubByte(0xef) == 0xdf
  {
    hide SubByte;
    IsSubByte(0xe0, 0xe1); IsSubByte(0xe1, 0xf8); IsSubByte(0xe2, 0x98); IsSubByte(0xe3, 0x11);
    IsSubByte(0xe4, 0x69); IsSubByte(0xe5, 0xd9); IsSubByte(0xe6, 0x8e); IsSubByte(0xe7, 0x94);
    IsSubByte(0xe8, 0x9b); IsSubByte(0xe9, 0x1e); IsSubByte(0xea, 0x87); IsSubByte(0xeb, 0xe9);
    IsSubByte(0xec, 0xce); IsSubByte(0xed, 0x55); IsSubByte(0xee, 0x28); IsSubByte(0xef, 0xdf);
  }

  lemma SboxRowF()
    ensures SubByte(0xf0) == 0x8c && SubByte(0xf1) == 0xa1 && SubByte(0xf2) == 0x89 && SubByte(0xf3) == 0x0d
    ensures SubByte(0xf4) == 0xbf && SubByte(0xf5) == 0xe6 && SubByte(0xf6) == 0x42 && SubByte(0xf7) == 0x68
    ensures SubByte(0xf8) == 0x41 && SubByte(0xf9) == 0x99 && SubByte(0xfa) == 0x2d && SubByte(0xfb) == 0x0f
    ensures SubByte(0xfc) == 0xb0 && SubByte(0xfd) == 0x54 && SubByte(0xfe) == 0xbb && SubByte(0xff) == 0x16
  {
    hide SubByte;
    IsSubByte(0xf0, 0x8c); IsSubByte(0xf1, 0xa1); IsSubByte(0xf2, 0x89); IsSubByte(0xf3, 0x0d);
    IsSubByte(0xf4, 0xbf); IsSubByte(0xf5, 0xe6); IsSubByte(0xf6, 0x42); IsSubByte(0xf7, 0x68);
    IsSubByte(0xf8, 0x41); IsSubByte(0xf9, 0x99); IsSubByte(0xfa, 0x2d); IsSubByte(0xfb, 0x0f);
    IsSubByte(0xfc, 0xb0); IsSubByte(0xfd, 0x54); IsSubByte(0xfe, 0xbb); IsSubByte(0xff, 0x16);
  }
}
