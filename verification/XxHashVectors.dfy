/** The model computes XXH64: the published values for inputs that together go through every
    branch of it. */
module XxHashVectors {
  import opened XxHash

  /** Words of four and eight bytes, lowest byte first. */
  lemma Word4(s: seq<bv8>)
    requires |s| >= 4
    ensures Word(s, 4) == Pack(Pack(Pack(Pack(0, s[3]), s[2]), s[1]), s[0])
  {
    hide Pack;
    assert Word(s[3..], 1) == Pack(0, s[3]);
    assert s[2..][1..] == s[3..] && s[1..][1..] == s[2..];
    assert Word(s[2..], 2) == Pack(Pack(0, s[3]), s[2]);
    assert Word(s[1..], 3) == Pack(Pack(Pack(0, s[3]), s[2]), s[1]);
  }

  lemma Word8(s: seq<bv8>)
    requires |s| >= 8
    ensures Word(s, 8) == Pack(Pack(Pack(Pack(Pack(Pack(Pack(Pack(0, s[7]), s[6]), s[5]), s[4]), s[3]), s[2]), s[1]), s[0])
  {
    hide Pack;
    assert s[3..][1..] == s[4..] && s[2..][1..] == s[3..] && s[1..][1..] == s[2..];
    Word4(s[4..]);
    assert Word(s[3..], 5) == Pack(Word(s[4..], 4), s[3]);
    assert Word(s[2..], 6) == Pack(Word(s[3..], 5), s[2]);
    assert Word(s[1..], 7) == Pack(Word(s[2..], 6), s[1]);
  }

  lemma NextByte(acc: bv64, s: seq<bv8>)
    requires s != []
    ensures Bytes1(acc, s) == Bytes1(Mix1(acc, s[0] as bv64), s[1..])
  {
  }

  lemma NoByte(acc: bv64)
    ensures Bytes1(acc, []) == acc
  {
  }

  lemma EmptyInput()
    ensures Xxh64([]) == 0xEF46DB3751D8E999
  {
  }

  lemma OneByteMixes()
    ensures Mix1(0x27D4EB2F165667C6, 0x61) == 0xB86597E419D4D215
  {
  }

  lemma OneByteTail()
    ensures Remaining(0x27D4EB2F165667C6, [0x61]) == 0xB86597E419D4D215
  {
    hide Mix8, Mix4, Mix1, Word, Bytes1;
    var s: seq<bv8> := [0x61];
    OneByteMixes();
    NextByte(0x27D4EB2F165667C6, s);
    NoByte(0xB86597E419D4D215);
    assert s[1..] == [];
  }

  /** The text `a`: single bytes. */
  lemma OneByte()
    ensures Xxh64([0x61]) == 0xD24EC4F1A98C6E5B
  {
    hide Remaining, Avalanche, AddLength;
    var s: seq<bv8> := [0x61];
    OneByteTail();
    OneByteEnds();
    assert s[0..] == s;
  }

  lemma OneByteEnds()
    ensures AddLength(P5, 1) == 0x27D4EB2F165667C6 && Avalanche(0xB86597E419D4D215) == 0xD24EC4F1A98C6E5B
  {
  }

  lemma FiveBytesMixes()
    ensures Mix4(0x27D4EB2F165667CA, 0x6C6C6568) == 0x32168181FBCF636D
    ensures Mix1(0x32168181FBCF636D, 0x6F) == 0x83440ABF65020B16
  {
  }

  lemma FiveBytesTail()
    ensures Remaining(0x27D4EB2F165667CA, [0x68, 0x65, 0x6C, 0x6C, 0x6F]) == 0x83440ABF65020B16
  {
    hide Mix8, Mix4, Mix1, Word, Bytes1;
    var s: seq<bv8> := [0x68, 0x65, 0x6C, 0x6C, 0x6F];
    FiveBytesMixes();
    Word4(s);
    assert Word(s, 4) == 0x6C6C6568;
    NextByte(0x32168181FBCF636D, s[4..]);
    assert s[4..][1..] == s[5..];
    NoByte(0x83440ABF65020B16);
    assert s[5..] == [];
  }

  /** The text `hello`: a word of four bytes, then single bytes. */
  lemma FiveBytes()
    ensures Xxh64([0x68, 0x65, 0x6C, 0x6C, 0x6F]) == 0x26C7827D889F6DA3
  {
    hide Remaining, Avalanche, AddLength;
    var s: seq<bv8> := [0x68, 0x65, 0x6C, 0x6C, 0x6F];
    FiveBytesTail();
    FiveBytesEnds();
    assert s[0..] == s;
  }

  lemma FiveBytesEnds()
    ensures AddLength(P5, 5) == 0x27D4EB2F165667CA && Avalanche(0x83440ABF65020B16) == 0x26C7827D889F6DA3
  {
  }

  lemma FourteenBytesMixes()
    ensures Mix8(0x27D4EB2F165667D3, 0x24A332B79B925200) == 0xF3EC4CE91CAF389D
    ensures Mix4(0xF3EC4CE91CAF389D, 0x95AF002D) == 0xB2CDC7820D3BD049
    ensures Mix1(0xB2CDC7820D3BD049, 0xE) == 0x921865A8E984F65D
    ensures Mix1(0x921865A8E984F65D, 0xEC) == 0x697C492DD7979E3E
  {
  }

  lemma FourteenBytesTail()
    ensures Remaining(0x27D4EB2F165667D3, [0x00, 0x52, 0x92, 0x9B, 0xB7, 0x32, 0xA3, 0x24, 0x2D, 0x00, 0xAF, 0x95, 0x0E, 0xEC]) == 0x697C492DD7979E3E
  {
    hide Mix8, Mix4, Mix1, Word, Bytes1;
    var s: seq<bv8> := [0x00, 0x52, 0x92, 0x9B, 0xB7, 0x32, 0xA3, 0x24, 0x2D, 0x00, 0xAF, 0x95, 0x0E, 0xEC];
    FourteenBytesMixes();
    Word8(s);
    assert Word(s, 8) == 0x24A332B79B925200;
    Word4(s[8..]);
    assert Word(s[8..], 4) == 0x95AF002D;
    NextByte(0xB2CDC7820D3BD049, s[12..]);
    NextByte(0x921865A8E984F65D, s[13..]);
    assert s[8..][4..] == s[12..];
    assert s[12..][1..] == s[13..];
    assert s[13..][1..] == s[14..];
    NoByte(0x697C492DD7979E3E);
    assert s[14..] == [];
  }

  /** The first fourteen bytes of the generator that the reference implementation checks itself
      with: a word of eight bytes, one of four, then single bytes. */
  lemma FourteenBytes()
    ensures Xxh64([0x00, 0x52, 0x92, 0x9B, 0xB7, 0x32, 0xA3, 0x24, 0x2D, 0x00, 0xAF, 0x95, 0x0E, 0xEC]) == 0x8282DCC4994E35C8
  {
    hide Remaining, Avalanche, AddLength;
    var s: seq<bv8> := [0x00, 0x52, 0x92, 0x9B, 0xB7, 0x32, 0xA3, 0x24, 0x2D, 0x00, 0xAF, 0x95, 0x0E, 0xEC];
    FourteenBytesTail();
    FourteenBytesEnds();
    assert s[0..] == s;
  }

  lemma FourteenBytesEnds()
    ensures AddLength(P5, 14) == 0x27D4EB2F165667D3 && Avalanche(0x697C492DD7979E3E) == 0x8282DCC4994E35C8
  {
  }

  lemma WholeStripeMixes()
    ensures Mix4(0x84F22C421A11A8DC, 0x74697465) == 0x9FCA0F5D0AAA110F
    ensures Mix1(0x9FCA0F5D0AAA110F, 0x69) == 0x769671546F21BA14
    ensures Mix1(0x769671546F21BA14, 0x6F) == 0xEAE9B643C5F94E52
    ensures Mix1(0xEAE9B643C5F94E52, 0x6E) == 0x1D0A47483B37CC24
  {
  }

  lemma WholeStripeTail()
    ensures Remaining(0x84F22C421A11A8DC, [0x65, 0x74, 0x69, 0x74, 0x69, 0x6F, 0x6E]) == 0x1D0A47483B37CC24
  {
    hide Mix8, Mix4, Mix1, Word, Bytes1;
    var s: seq<bv8> := [0x65, 0x74, 0x69, 0x74, 0x69, 0x6F, 0x6E];
    WholeStripeMixes();
    Word4(s);
    assert Word(s, 4) == 0x74697465;
    NextByte(0x9FCA0F5D0AAA110F, s[4..]);
    NextByte(0x769671546F21BA14, s[5..]);
    NextByte(0xEAE9B643C5F94E52, s[6..]);
    assert s[4..][1..] == s[5..];
    assert s[5..][1..] == s[6..];
    assert s[6..][1..] == s[7..];
    NoByte(0x1D0A47483B37CC24);
    assert s[7..] == [];
  }

  lemma WholeStripeRounds()
    ensures INITIAL == [0x60EA27EEADC0B5D6, 0xC2B2AE3D27D4EB4F, 0x0, 0x61C8864E7A143579]
    ensures Round(0x60EA27EEADC0B5D6, 0x692079646F626F4E) == 0x37245127A4067E4B
    ensures Round(0xC2B2AE3D27D4EB4F, 0x207374636570736E) == 0x1B302B0A818F92CF
    ensures Round(0x0, 0x6D61707320656874) == 0xCD62D843D0580FCA
    ensures Round(0x61C8864E7A143579, 0x706572206873696D) == 0x1C16E43EF2142A4A
  {
  }

  /** Its first 32 bytes. */
  function StripeBytes(): (s: seq<bv8>)
    ensures |s| == 32
  {
    [0x4E, 0x6F, 0x62, 0x6F, 0x64, 0x79, 0x20, 0x69, 0x6E, 0x73, 0x70, 0x65, 0x63, 0x74, 0x73, 0x20, 0x74, 0x68, 0x65,
     0x20, 0x73, 0x70, 0x61, 0x6D, 0x6D, 0x69, 0x73, 0x68, 0x20, 0x72, 0x65, 0x70]
  }

  lemma WholeStripeWord1()
    ensures Word(StripeBytes()[0..], 8) == 0x692079646F626F4E
  {
    hide Word;
    var s := StripeBytes();
    Word8(s[0..]);
    assert s[0..][0] == 0x4E && s[0..][1] == 0x6F && s[0..][2] == 0x62 && s[0..][3] == 0x6F && s[0..][4] == 0x64 &&
           s[0..][5] == 0x79 && s[0..][6] == 0x20 && s[0..][7] == 0x69;
  }

  lemma WholeStripeWord2()
    ensures Word(StripeBytes()[8..], 8) == 0x207374636570736E
  {
    hide Word;
    var s := StripeBytes();
    Word8(s[8..]);
    assert s[8..][0] == 0x6E && s[8..][1] == 0x73 && s[8..][2] == 0x70 && s[8..][3] == 0x65 && s[8..][4] == 0x63 &&
           s[8..][5] == 0x74 && s[8..][6] == 0x73 && s[8..][7] == 0x20;
  }

  lemma WholeStripeWord3()
    ensures Word(StripeBytes()[16..], 8) == 0x6D61707320656874
  {
    hide Word;
    var s := StripeBytes();
    Word8(s[16..]);
    assert s[16..][0] == 0x74 && s[16..][1] == 0x68 && s[16..][2] == 0x65 && s[16..][3] == 0x20 &&
           s[16..][4] == 0x73 && s[16..][5] == 0x70 && s[16..][6] == 0x61 && s[16..][7] == 0x6D;
  }

  lemma WholeStripeWord4()
    ensures Word(StripeBytes()[24..], 8) == 0x706572206873696D
  {
    hide Word;
    var s := StripeBytes();
    Word8(s[24..]);
    assert s[24..][0] == 0x6D && s[24..][1] == 0x69 && s[24..][2] == 0x73 && s[24..][3] == 0x68 &&
           s[24..][4] == 0x20 && s[24..][5] == 0x72 && s[24..][6] == 0x65 && s[24..][7] == 0x70;
  }

  lemma WholeStripeLanes()
    ensures Stripe(INITIAL, StripeBytes()) == [0x37245127A4067E4B, 0x1B302B0A818F92CF, 0xCD62D843D0580FCA, 0x1C16E43EF2142A4A]
  {
    hide Round, Word, StripeBytes;
    WholeStripeRounds();
    assert StripeBytes()[0..] == StripeBytes();
    WholeStripeWord1();
    WholeStripeWord2();
    WholeStripeWord3();
    WholeStripeWord4();
  }

  lemma WholeStripeMerges()
    ensures MergeRound(0xC4DE2CE639FB8154, 0x37245127A4067E4B) == 0x30D40DDD00AEA144
    ensures MergeRound(0x30D40DDD00AEA144, 0x1B302B0A818F92CF) == 0xE5A1F095BF498698
    ensures MergeRound(0xE5A1F095BF498698, 0xCD62D843D0580FCA) == 0xF9CEE721E748096D
    ensures MergeRound(0xF9CEE721E748096D, 0x1C16E43EF2142A4A) == 0x84F22C421A11A8B5
  {
  }

  lemma WholeStripeConverges()
    ensures Converge([0x37245127A4067E4B, 0x1B302B0A818F92CF, 0xCD62D843D0580FCA, 0x1C16E43EF2142A4A]) == 0x84F22C421A11A8B5
  {
    hide MergeRound;
    WholeStripeMerges();
  }

  lemma WholeStripeEnds()
    ensures AddLength(0x84F22C421A11A8B5, 39) == 0x84F22C421A11A8DC && Avalanche(0x1D0A47483B37CC24) == 0xFBCEA83C8A378BF1
  {
  }

  /** The text `Nobody inspects the spammish repetition`: a whole stripe and a remainder. */
  lemma WholeStripe()
    ensures Xxh64([0x4E, 0x6F, 0x62, 0x6F, 0x64, 0x79, 0x20, 0x69, 0x6E, 0x73, 0x70, 0x65, 0x63, 0x74, 0x73, 0x20,
                   0x74, 0x68, 0x65, 0x20, 0x73, 0x70, 0x61, 0x6D, 0x6D, 0x69, 0x73, 0x68, 0x20, 0x72, 0x65, 0x70,
                   0x65, 0x74, 0x69, 0x74, 0x69, 0x6F, 0x6E]) == 0xFBCEA83C8A378BF1
  {
    hide Remaining, Avalanche, AddLength, Stripe, Converge;
    var s: seq<bv8> := [0x4E, 0x6F, 0x62, 0x6F, 0x64, 0x79, 0x20, 0x69, 0x6E, 0x73, 0x70, 0x65, 0x63, 0x74, 0x73,
                        0x20, 0x74, 0x68, 0x65, 0x20, 0x73, 0x70, 0x61, 0x6D, 0x6D, 0x69, 0x73, 0x68, 0x20, 0x72,
                        0x65, 0x70, 0x65, 0x74, 0x69, 0x74, 0x69, 0x6F, 0x6E];
    WholeStripeLanes();
    WholeStripeConverges();
    WholeStripeTail();
    WholeStripeEnds();
    assert s[0..32] == StripeBytes() && s[32..] == [0x65, 0x74, 0x69, 0x74, 0x69, 0x6F, 0x6E];
    assert Stripes(s, 0) == INITIAL && Stripes(s, 1) == Stripe(INITIAL, s[0..32]);
  }
}
