/**
 * Published values of XXH32: they fix the constants, the rotations, the order of the words and the tail without
 * reference to how the model computes them.
 */
module Xxh32Vectors {
  import opened Xxh32

  /** "Nobody inspects the spammish repetition". */
  const SPAMMISH: Bytes := FIRST + SECOND + TAIL

  const FIRST: Bytes := [78, 111, 98, 111, 100, 121, 32, 105, 110, 115, 112, 101, 99, 116, 115, 32]
  const SECOND: Bytes := [116, 104, 101, 32, 115, 112, 97, 109, 109, 105, 115, 104, 32, 114, 101, 112]
  const TAIL: Bytes := [101, 116, 105, 116, 105, 111, 110]

  /** The published value of the empty string. */
  lemma EmptyHash()
    ensures Hash([], 0) == 0x02CC5D05
  {
    var none: Bytes := [];
    assert none[Whole(0)..] == [] && Len32(0) == 0;
    assert Add(Add(0, PRIME32_5), 0) == 0x165667B1;
    assert XorShift(0x165667B1, 15) == 0x16564B1D;
    assert Mul(0x16564B1D, PRIME32_2) == 0x7E00CC7B;
    assert XorShift(0x7E00CC7B, 13) == 0x7E033C7D;
    assert Mul(0x7E033C7D, PRIME32_3) == 0x02CC5FC9;
    assert XorShift(0x02CC5FC9, 16) == 0x02CC5D05;
  }

  lemma FirstStripeQuads()
    ensures LittleEndian(78, 111, 98, 111) == 0x6F626F4E
    ensures LittleEndian(100, 121, 32, 105) == 0x69207964
    ensures LittleEndian(110, 115, 112, 101) == 0x6570736E
    ensures LittleEndian(99, 116, 115, 32) == 0x20737463
  {
  }

  lemma FirstStripeWords()
    ensures ReadLE32(FIRST, 0) == 0x6F626F4E
    ensures ReadLE32(FIRST, 4) == 0x69207964
    ensures ReadLE32(FIRST, 8) == 0x6570736E
    ensures ReadLE32(FIRST, 12) == 0x20737463
  {
    hide LittleEndian;
    FirstStripeQuads();
  }

  lemma FirstStripeLane1()
    ensures Lane(0x24234428, 0x6F626F4E) == 0x046A700A
  {
    assert Mul(0x6F626F4E, PRIME32_2) == 0x252F4942 && Add(0x24234428, 0x252F4942) == 0x49528D6A;
    assert Rotl(0x49528D6A, 13) == 0x51AD492A && Mul(0x51AD492A, PRIME32_1) == 0x046A700A;
  }

  lemma FirstStripeLane2()
    ensures Lane(0x85EBCA77, 0x69207964) == 0xBFADF8E3
  {
    assert Mul(0x69207964, PRIME32_2) == 0xE0AD557C && Add(0x85EBCA77, 0xE0AD557C) == 0x66991FF3;
    assert Rotl(0x66991FF3, 13) == 0x23FE6CD3 && Mul(0x23FE6CD3, PRIME32_1) == 0xBFADF8E3;
  }

  lemma FirstStripeLane3()
    ensures Lane(0x00000000, 0x6570736E) == 0x5B32B4AA
  {
    assert Mul(0x6570736E, PRIME32_2) == 0xFE547422 && Add(0x00000000, 0xFE547422) == 0xFE547422;
    assert Rotl(0xFE547422, 13) == 0x8E845FCA && Mul(0x8E845FCA, PRIME32_1) == 0x5B32B4AA;
  }

  lemma FirstStripeLane4()
    ensures Lane(0x61C8864F, 0x20737463) == 0x137E5555
  {
    assert Mul(0x20737463, PRIME32_2) == 0x75623805 && Add(0x61C8864F, 0x75623805) == 0xD72ABE54;
    assert Rotl(0xD72ABE54, 13) == 0x57CA9AE5 && Mul(0x57CA9AE5, PRIME32_1) == 0x137E5555;
  }

  lemma FirstStripe()
    ensures Stripe(Init(0), FIRST, 0) ==
      Acc(0x046A700A, 0xBFADF8E3, 0x5B32B4AA, 0x137E5555)
  {
    hide Lane, ReadLE32;
    FirstStripeWords();
    FirstStripeLane1();
    FirstStripeLane2();
    FirstStripeLane3();
    FirstStripeLane4();
    assert Init(0) == Acc(0x24234428, 0x85EBCA77, 0x00000000, 0x61C8864F);
  }

  lemma SecondStripeQuads()
    ensures LittleEndian(116, 104, 101, 32) == 0x20656874
    ensures LittleEndian(115, 112, 97, 109) == 0x6D617073
    ensures LittleEndian(109, 105, 115, 104) == 0x6873696D
    ensures LittleEndian(32, 114, 101, 112) == 0x70657220
  {
  }

  lemma SecondStripeWords()
    ensures ReadLE32(SECOND, 0) == 0x20656874
    ensures ReadLE32(SECOND, 4) == 0x6D617073
    ensures ReadLE32(SECOND, 8) == 0x6873696D
    ensures ReadLE32(SECOND, 12) == 0x70657220
  {
    hide LittleEndian;
    SecondStripeQuads();
  }

  lemma SecondStripeLane1()
    ensures Lane(0x046A700A, 0x20656874) == 0x719A836E
  {
    assert Mul(0x20656874, PRIME32_2) == 0x3A0B15EC && Add(0x046A700A, 0x3A0B15EC) == 0x3E7585F6;
    assert Rotl(0x3E7585F6, 13) == 0xB0BEC7CE && Mul(0xB0BEC7CE, PRIME32_1) == 0x719A836E;
  }

  lemma SecondStripeLane2()
    ensures Lane(0xBFADF8E3, 0x6D617073) == 0x514C1DE8
  {
    assert Mul(0x6D617073, PRIME32_2) == 0xB3970375 && Add(0xBFADF8E3, 0xB3970375) == 0x7344FC58;
    assert Rotl(0x7344FC58, 13) == 0x9F8B0E68 && Mul(0x9F8B0E68, PRIME32_1) == 0x514C1DE8;
  }

  lemma SecondStripeLane3()
    ensures Lane(0x5B32B4AA, 0x6873696D) == 0x97FA4BA2
  {
    assert Mul(0x6873696D, PRIME32_2) == 0x06E503AB && Add(0x5B32B4AA, 0x06E503AB) == 0x6217B855;
    assert Rotl(0x6217B855, 13) == 0xF70AAC42 && Mul(0xF70AAC42, PRIME32_1) == 0x97FA4BA2;
  }

  lemma SecondStripeLane4()
    ensures Lane(0x137E5555, 0x70657220) == 0x242A97A2
  {
    assert Mul(0x70657220, PRIME32_2) == 0xAE954CE0 && Add(0x137E5555, 0xAE954CE0) == 0xC213A235;
    assert Rotl(0xC213A235, 13) == 0x7446B842 && Mul(0x7446B842, PRIME32_1) == 0x242A97A2;
  }

  lemma SecondStripe()
    ensures Stripe(Acc(0x046A700A, 0xBFADF8E3, 0x5B32B4AA, 0x137E5555), SECOND, 0) ==
      Acc(0x719A836E, 0x514C1DE8, 0x97FA4BA2, 0x242A97A2)
  {
    hide Lane, ReadLE32;
    SecondStripeWords();
    SecondStripeLane1();
    SecondStripeLane2();
    SecondStripeLane3();
    SecondStripeLane4();
  }

  lemma BothStripes()
    ensures Stripes(Init(0), SPAMMISH) == Acc(0x719A836E, 0x514C1DE8, 0x97FA4BA2, 0x242A97A2)
  {
    hide Stripe, Init;
    assert SPAMMISH == FIRST + (SECOND + TAIL);
    StripesSplit(Init(0), FIRST, SECOND + TAIL);
    StripesSplit(Stripes(Init(0), FIRST), SECOND, TAIL);
    assert FIRST[..16] == FIRST && FIRST[16..] == [] && SECOND[..16] == SECOND && SECOND[16..] == [];
    FirstStripe();
    SecondStripe();
  }

  lemma Rotated()
    ensures Rotl(0x719A836E, 1) == 0xE33506DC
    ensures Rotl(0x514C1DE8, 7) == 0xA60EF428
    ensures Rotl(0x97FA4BA2, 12) == 0xA4BA297F
    ensures Rotl(0x242A97A2, 18) == 0x5E8890AA
  {
  }

  lemma Summed()
    ensures Add(0xE33506DC, 0xA60EF428) == 0x8943FB04 && Add(0x8943FB04, 0xA4BA297F) == 0x2DFE2483
    ensures Add(0x2DFE2483, 0x5E8890AA) == 0x8C86B52D && Len32(39) == 39 && Add(0x8C86B52D, 39) == 0x8C86B554
  {
  }

  lemma Converged()
    ensures Add(Converge(Acc(0x719A836E, 0x514C1DE8, 0x97FA4BA2, 0x242A97A2)), Len32(39)) == 0x8C86B554
  {
    hide Rotl, Add, Len32;
    Rotated();
    Summed();
  }

  lemma TailWord()
    ensures Word(0x8C86B554, ReadLE32(TAIL, 0)) == 0x09B51544
  {
    assert LittleEndian(101, 116, 105, 116) == 0x74697465;
    assert Mul(0x74697465, PRIME32_3) == 0xE2776211 && Add(0x8C86B554, 0xE2776211) == 0x6EFE1765;
    assert Rotl(0x6EFE1765, 17) == 0x2ECADDFC && Mul(0x2ECADDFC, PRIME32_4) == 0x09B51544;
  }

  lemma TailBytes()
    ensures Byte(0x09B51544, 105) == 0xCDEFD3C9
    ensures Byte(0xCDEFD3C9, 111) == 0x3852087B
    ensures Byte(0x3852087B, 110) == 0xB3A7011B
  {
    assert Mul(0x00000069, PRIME32_5) == 0x29708799 && Add(0x09B51544, 0x29708799) == 0x33259CDD;
    assert Rotl(0x33259CDD, 11) == 0x2CE6E999 && Mul(0x2CE6E999, PRIME32_1) == 0xCDEFD3C9;
    assert Mul(0x0000006F, PRIME32_5) == 0xAF76F5BF && Add(0xCDEFD3C9, 0xAF76F5BF) == 0x7D66C988;
    assert Rotl(0x7D66C988, 11) == 0x364C43EB && Mul(0x364C43EB, PRIME32_1) == 0x3852087B;
    assert Mul(0x0000006E, PRIME32_5) == 0x99208E0E && Add(0x3852087B, 0x99208E0E) == 0xD1729689;
    assert Rotl(0xD1729689, 11) == 0x94B44E8B && Mul(0x94B44E8B, PRIME32_1) == 0xB3A7011B;
  }

  lemma SpammishEnd()
    ensures Avalanche(0xB3A7011B) == 0xE2293B2F
  {
    assert XorShift(0xB3A7011B, 15) == 0xB3A66655;
    assert Mul(0xB3A66655, PRIME32_2) == 0xE81FA383;
    assert XorShift(0xE81FA383, 13) == 0xE818E37E;
    assert Mul(0xE818E37E, PRIME32_3) == 0xE229D906;
    assert XorShift(0xE229D906, 16) == 0xE2293B2F;
  }

  lemma SpammishRest()
    ensures Rest(0x8C86B554, TAIL) == 0xB3A7011B
  {
    hide Rest, Word, Byte, ReadLE32;
    assert TAIL[0..] == TAIL;
    RestWord(0x8C86B554, TAIL, 0);
    TailWord();
    RestByte(0x09B51544, TAIL, 4);
    RestByte(0xCDEFD3C9, TAIL, 5);
    RestByte(0x3852087B, TAIL, 6);
    TailBytes();
    RestNone(0xB3A7011B, TAIL);
  }

  /** The published value of a string of two stripes, a word and three bytes. */
  lemma SpammishHash()
    ensures Hash(SPAMMISH, 0) == 0xE2293B2F
  {
    hide Stripes, Rest, Avalanche, Converge, Add, Len32, Init;
    assert |SPAMMISH| == 39 && Whole(39) == 32 && SPAMMISH[32..] == TAIL;
    BothStripes();
    Converged();
    SpammishRest();
    SpammishEnd();
  }
}
