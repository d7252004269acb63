/** The digest of the alphabet, one of the seven known answers in appendix A.5 of
    RFC 1321, worked out through all 64 operations. The lemmas named `Mixed` evaluate
    four operations each, those named `Operations` place them in the block. */
module Md5KnownAnswer {
  import opened Md5Reference

  /** The 26 lower-case letters. */
  function Alphabet(): (message: seq<byte>)
    ensures |message| == 26
  {
    seq(26, i => 0x61 + i)
  }

  /** The words of the padded message: the letters, the byte 0x80, and 208 bits as the length. */
  predicate AlphabetWords(x: seq<word>) {
    && |x| == 16
    && x[0] == 0x64636261 && x[1] == 0x68676665 && x[2] == 0x6c6b6a69 && x[3] == 0x706f6e6d
    && x[4] == 0x74737271 && x[5] == 0x78777675 && x[6] == 0x00807a79 && x[7] == 0x00000000
    && x[8] == 0x00000000 && x[9] == 0x00000000 && x[10] == 0x00000000 && x[11] == 0x00000000
    && x[12] == 0x00000000 && x[13] == 0x00000000 && x[14] == 0x000000d0 && x[15] == 0x00000000
  }

  lemma Mixed0()
    ensures FF(0x67452301, 0xefcdab89, 0x98badcfe, 0x10325476, 0x64636261, 7, 0xd76aa478) == 0xd6d117a6
    ensures FF(0x10325476, 0xd6d117a6, 0xefcdab89, 0x98badcfe, 0x68676665, 12, 0xe8c7b756) == 0xaab1aaaa
    ensures FF(0x98badcfe, 0xaab1aaaa, 0xd6d117a6, 0xefcdab89, 0x6c6b6a69, 17, 0x242070db) == 0x227d8cf1
    ensures FF(0xefcdab89, 0x227d8cf1, 0xaab1aaaa, 0xd6d117a6, 0x706f6e6d, 22, 0xc1bdceee) == 0x4503b812
  {
  }

  lemma Operations0(x: seq<word>)
    requires AlphabetWords(x)
    ensures Steps(State(0x67452301, 0xefcdab89, 0x98badcfe, 0x10325476), x, 0, 4) ==
            State(0xd6d117a6, 0x4503b812, 0x227d8cf1, 0xaab1aaaa)
  {
    hide Steps, FF, GG, HH, II;
    Mixed0();
    var s := State(0x67452301, 0xefcdab89, 0x98badcfe, 0x10325476);
    StepsNone(s, x, 0);
    StepsNext(s, x, 0, 0);
    StepsNext(s, x, 0, 1);
    StepsNext(s, x, 0, 2);
    StepsNext(s, x, 0, 3);
  }

  lemma Mixed4()
    ensures FF(0xd6d117a6, 0x4503b812, 0x227d8cf1, 0xaab1aaaa, 0x74737271, 7, 0xf57c0faf) == 0xfe15f787
    ensures FF(0xaab1aaaa, 0xfe15f787, 0x4503b812, 0x227d8cf1, 0x78777675, 12, 0x4787c62a) == 0xa811b278
    ensures FF(0x227d8cf1, 0xa811b278, 0xfe15f787, 0x4503b812, 0x00807a79, 17, 0xa8304613) == 0xb71122fc
    ensures FF(0x4503b812, 0xb71122fc, 0xa811b278, 0xfe15f787, 0x00000000, 22, 0xfd469501) == 0xda9bbb0d
  {
  }

  lemma Operations4(x: seq<word>)
    requires AlphabetWords(x)
    ensures Steps(State(0xd6d117a6, 0x4503b812, 0x227d8cf1, 0xaab1aaaa), x, 4, 4) ==
            State(0xfe15f787, 0xda9bbb0d, 0xb71122fc, 0xa811b278)
  {
    hide Steps, FF, GG, HH, II;
    Mixed4();
    var s := State(0xd6d117a6, 0x4503b812, 0x227d8cf1, 0xaab1aaaa);
    StepsNone(s, x, 4);
    StepsNext(s, x, 4, 0);
    StepsNext(s, x, 4, 1);
    StepsNext(s, x, 4, 2);
    StepsNext(s, x, 4, 3);
  }

  lemma Mixed8()
    ensures FF(0xfe15f787, 0xda9bbb0d, 0xb71122fc, 0xa811b278, 0x00000000, 7, 0x698098d8) == 0xae752899
    ensures FF(0xa811b278, 0xae752899, 0xda9bbb0d, 0xb71122fc, 0x00000000, 12, 0x8b44f7af) == 0x2bbe757f
    ensures FF(0xb71122fc, 0x2bbe757f, 0xae752899, 0xda9bbb0d, 0x00000000, 17, 0xffff5bb1) == 0x7d4bd80b
    ensures FF(0xda9bbb0d, 0x7d4bd80b, 0x2bbe757f, 0xae752899, 0x00000000, 22, 0x895cd7be) == 0x56cfa5cb
  {
  }

  lemma Operations8(x: seq<word>)
    requires AlphabetWords(x)
    ensures Steps(State(0xfe15f787, 0xda9bbb0d, 0xb71122fc, 0xa811b278), x, 8, 4) ==
            State(0xae752899, 0x56cfa5cb, 0x7d4bd80b, 0x2bbe757f)
  {
    hide Steps, FF, GG, HH, II;
    Mixed8();
    var s := State(0xfe15f787, 0xda9bbb0d, 0xb71122fc, 0xa811b278);
    StepsNone(s, x, 8);
    StepsNext(s, x, 8, 0);
    StepsNext(s, x, 8, 1);
    StepsNext(s, x, 8, 2);
    StepsNext(s, x, 8, 3);
  }

  lemma Mixed12()
    ensures FF(0xae752899, 0x56cfa5cb, 0x7d4bd80b, 0x2bbe757f, 0x00000000, 7, 0x6b901122) == 0x1754a316
    ensures FF(0x2bbe757f, 0x1754a316, 0x56cfa5cb, 0x7d4bd80b, 0x00000000, 12, 0xfd987193) == 0x85567d90
    ensures FF(0x7d4bd80b, 0x85567d90, 0x1754a316, 0x56cfa5cb, 0x000000d0, 17, 0xa679438e) == 0x00df74d5
    ensures FF(0x56cfa5cb, 0x00df74d5, 0x85567d90, 0x1754a316, 0x00000000, 22, 0x49b40821) == 0x608d6b7e
  {
  }

  lemma Operations12(x: seq<word>)
    requires AlphabetWords(x)
    ensures Steps(State(0xae752899, 0x56cfa5cb, 0x7d4bd80b, 0x2bbe757f), x, 12, 4) ==
            State(0x1754a316, 0x608d6b7e, 0x00df74d5, 0x85567d90)
  {
    hide Steps, FF, GG, HH, II;
    Mixed12();
    var s := State(0xae752899, 0x56cfa5cb, 0x7d4bd80b, 0x2bbe757f);
    StepsNone(s, x, 12);
    StepsNext(s, x, 12, 0);
    StepsNext(s, x, 12, 1);
    StepsNext(s, x, 12, 2);
    StepsNext(s, x, 12, 3);
  }

  lemma Mixed16()
    ensures GG(0x1754a316, 0x608d6b7e, 0x00df74d5, 0x85567d90, 0x68676665, 5, 0xf61e2562) == 0x2d8071cc
    ensures GG(0x85567d90, 0x2d8071cc, 0x608d6b7e, 0x00df74d5, 0x00807a79, 9, 0xc040b340) == 0x5dcee119
    ensures GG(0x00df74d5, 0x5dcee119, 0x2d8071cc, 0x608d6b7e, 0x00000000, 14, 0x265e5a51) == 0xedfe7e4b
    ensures GG(0x608d6b7e, 0xedfe7e4b, 0x5dcee119, 0x2d8071cc, 0x64636261, 20, 0xe9b6c7aa) == 0x4c2145b3
  {
  }

  lemma Operations16(x: seq<word>)
    requires AlphabetWords(x)
    ensures Steps(State(0x1754a316, 0x608d6b7e, 0x00df74d5, 0x85567d90), x, 16, 4) ==
            State(0x2d8071cc, 0x4c2145b3, 0xedfe7e4b, 0x5dcee119)
  {
    hide Steps, FF, GG, HH, II;
    Mixed16();
    var s := State(0x1754a316, 0x608d6b7e, 0x00df74d5, 0x85567d90);
    StepsNone(s, x, 16);
    StepsNext(s, x, 16, 0);
    StepsNext(s, x, 16, 1);
    StepsNext(s, x, 16, 2);
    StepsNext(s, x, 16, 3);
  }

  lemma Mixed20()
    ensures GG(0x2d8071cc, 0x4c2145b3, 0xedfe7e4b, 0x5dcee119, 0x78777675, 5, 0xd62f105d) == 0x570c43e0
    ensures GG(0x5dcee119, 0x570c43e0, 0x4c2145b3, 0xedfe7e4b, 0x00000000, 9, 0x02441453) == 0x977efd2a
    ensures GG(0xedfe7e4b, 0x977efd2a, 0x570c43e0, 0x4c2145b3, 0x00000000, 14, 0xd8a1e681) == 0xc28ab49d
    ensures GG(0x4c2145b3, 0xc28ab49d, 0x977efd2a, 0x570c43e0, 0x74737271, 20, 0xe7d3fbc8) == 0xc9f162d4
  {
  }

  lemma Operations20(x: seq<word>)
    requires AlphabetWords(x)
    ensures Steps(State(0x2d8071cc, 0x4c2145b3, 0xedfe7e4b, 0x5dcee119), x, 20, 4) ==
            State(0x570c43e0, 0xc9f162d4, 0xc28ab49d, 0x977efd2a)
  {
    hide Steps, FF, GG, HH, II;
    Mixed20();
    var s := State(0x2d8071cc, 0x4c2145b3, 0xedfe7e4b, 0x5dcee119);
    StepsNone(s, x, 20);
    StepsNext(s, x, 20, 0);
    StepsNext(s, x, 20, 1);
    StepsNext(s, x, 20, 2);
    StepsNext(s, x, 20, 3);
  }

  lemma Mixed24()
    ensures GG(0x570c43e0, 0xc9f162d4, 0xc28ab49d, 0x977efd2a, 0x00000000, 5, 0x21e1cde6) == 0x25bfae3b
    ensures GG(0x977efd2a, 0x25bfae3b, 0xc9f162d4, 0xc28ab49d, 0x000000d0, 9, 0xc33707d6) == 0x89980104
    ensures GG(0xc28ab49d, 0x89980104, 0x25bfae3b, 0xc9f162d4, 0x706f6e6d, 14, 0xf4d50d87) == 0xf8c8365f
    ensures GG(0xc9f162d4, 0xf8c8365f, 0x89980104, 0x25bfae3b, 0x00000000, 20, 0x455a14ed) == 0xe6d3b398
  {
  }

  lemma Operations24(x: seq<word>)
    requires AlphabetWords(x)
    ensures Steps(State(0x570c43e0, 0xc9f162d4, 0xc28ab49d, 0x977efd2a), x, 24, 4) ==
            State(0x25bfae3b, 0xe6d3b398, 0xf8c8365f, 0x89980104)
  {
    hide Steps, FF, GG, HH, II;
    Mixed24();
    var s := State(0x570c43e0, 0xc9f162d4, 0xc28ab49d, 0x977efd2a);
    StepsNone(s, x, 24);
    StepsNext(s, x, 24, 0);
    StepsNext(s, x, 24, 1);
    StepsNext(s, x, 24, 2);
    StepsNext(s, x, 24, 3);
  }

  lemma Mixed28()
    ensures GG(0x25bfae3b, 0xe6d3b398, 0xf8c8365f, 0x89980104, 0x00000000, 5, 0xa9e3e905) == 0xf54d8710
    ensures GG(0x89980104, 0xf54d8710, 0xe6d3b398, 0xf8c8365f, 0x6c6b6a69, 9, 0xfcefa3f8) == 0x927b72e2
    ensures GG(0xf8c8365f, 0x927b72e2, 0xf54d8710, 0xe6d3b398, 0x00000000, 14, 0x676f02d9) == 0x2e69afc7
    ensures GG(0xe6d3b398, 0x2e69afc7, 0x927b72e2, 0xf54d8710, 0x00000000, 20, 0x8d2a4c8a) == 0xaeb35766
  {
  }

  lemma Operations28(x: seq<word>)
    requires AlphabetWords(x)
    ensures Steps(State(0x25bfae3b, 0xe6d3b398, 0xf8c8365f, 0x89980104), x, 28, 4) ==
            State(0xf54d8710, 0xaeb35766, 0x2e69afc7, 0x927b72e2)
  {
    hide Steps, FF, GG, HH, II;
    Mixed28();
    var s := State(0x25bfae3b, 0xe6d3b398, 0xf8c8365f, 0x89980104);
    StepsNone(s, x, 28);
    StepsNext(s, x, 28, 0);
    StepsNext(s, x, 28, 1);
    StepsNext(s, x, 28, 2);
    StepsNext(s, x, 28, 3);
  }

  lemma Mixed32()
    ensures HH(0xf54d8710, 0xaeb35766, 0x2e69afc7, 0x927b72e2, 0x78777675, 4, 0xfffa3942) == 0xb4bf680e
    ensures HH(0x927b72e2, 0xb4bf680e, 0xaeb35766, 0x2e69afc7, 0x00000000, 11, 0x8771f681) == 0x4c8ffa80
    ensures HH(0x2e69afc7, 0x4c8ffa80, 0xb4bf680e, 0xaeb35766, 0x00000000, 16, 0x6d9d6122) == 0x2361ed0a
    ensures HH(0xaeb35766, 0x2361ed0a, 0x4c8ffa80, 0xb4bf680e, 0x000000d0, 23, 0xfde5380c) == 0x06a5e211
  {
  }

  lemma Operations32(x: seq<word>)
    requires AlphabetWords(x)
    ensures Steps(State(0xf54d8710, 0xaeb35766, 0x2e69afc7, 0x927b72e2), x, 32, 4) ==
            State(0xb4bf680e, 0x06a5e211, 0x2361ed0a, 0x4c8ffa80)
  {
    hide Steps, FF, GG, HH, II;
    Mixed32();
    var s := State(0xf54d8710, 0xaeb35766, 0x2e69afc7, 0x927b72e2);
    StepsNone(s, x, 32);
    StepsNext(s, x, 32, 0);
    StepsNext(s, x, 32, 1);
    StepsNext(s, x, 32, 2);
    StepsNext(s, x, 32, 3);
  }

  lemma Mixed36()
    ensures HH(0xb4bf680e, 0x06a5e211, 0x2361ed0a, 0x4c8ffa80, 0x68676665, 4, 0xa4beea44) == 0xb9c0c733
    ensures HH(0x4c8ffa80, 0xb9c0c733, 0x06a5e211, 0x2361ed0a, 0x74737271, 11, 0x4bdecfa9) == 0xf1e6dc7a
    ensures HH(0x2361ed0a, 0xf1e6dc7a, 0xb9c0c733, 0x06a5e211, 0x00000000, 16, 0xf6bb4b60) == 0x23a9451b
    ensures HH(0x06a5e211, 0x23a9451b, 0xf1e6dc7a, 0xb9c0c733, 0x00000000, 23, 0xbebfbc70) == 0x8d41bf99
  {
  }

  lemma Operations36(x: seq<word>)
    requires AlphabetWords(x)
    ensures Steps(State(0xb4bf680e, 0x06a5e211, 0x2361ed0a, 0x4c8ffa80), x, 36, 4) ==
            State(0xb9c0c733, 0x8d41bf99, 0x23a9451b, 0xf1e6dc7a)
  {
    hide Steps, FF, GG, HH, II;
    Mixed36();
    var s := State(0xb4bf680e, 0x06a5e211, 0x2361ed0a, 0x4c8ffa80);
    StepsNone(s, x, 36);
    StepsNext(s, x, 36, 0);
    StepsNext(s, x, 36, 1);
    StepsNext(s, x, 36, 2);
    StepsNext(s, x, 36, 3);
  }

  lemma Mixed40()
    ensures HH(0xb9c0c733, 0x8d41bf99, 0x23a9451b, 0xf1e6dc7a, 0x00000000, 4, 0x289b7ec6) == 0xa3e88ead
    ensures HH(0xf1e6dc7a, 0xa3e88ead, 0x8d41bf99, 0x23a9451b, 0x64636261, 11, 0xeaa127fa) == 0x02c0b11c
    ensures HH(0x23a9451b, 0x02c0b11c, 0xa3e88ead, 0x8d41bf99, 0x706f6e6d, 16, 0xd4ef3085) == 0x66f6468d
    ensures HH(0x8d41bf99, 0x66f6468d, 0x02c0b11c, 0xa3e88ead, 0x00807a79, 23, 0x04881d05) == 0x90a35af5
  {
  }

  lemma Operations40(x: seq<word>)
    requires AlphabetWords(x)
    ensures Steps(State(0xb9c0c733, 0x8d41bf99, 0x23a9451b, 0xf1e6dc7a), x, 40, 4) ==
            State(0xa3e88ead, 0x90a35af5, 0x66f6468d, 0x02c0b11c)
  {
    hide Steps, FF, GG, HH, II;
    Mixed40();
    var s := State(0xb9c0c733, 0x8d41bf99, 0x23a9451b, 0xf1e6dc7a);
    StepsNone(s, x, 40);
    StepsNext(s, x, 40, 0);
    StepsNext(s, x, 40, 1);
    StepsNext(s, x, 40, 2);
    StepsNext(s, x, 40, 3);
  }

  lemma Mixed44()
    ensures HH(0xa3e88ead, 0x90a35af5, 0x66f6468d, 0x02c0b11c, 0x00000000, 4, 0xd9d4d039) == 0xb5d41f9c
    ensures HH(0x02c0b11c, 0xb5d41f9c, 0x90a35af5, 0x66f6468d, 0x00000000, 11, 0xe6db99e5) == 0xa04b4904
    ensures HH(0x66f6468d, 0xa04b4904, 0xb5d41f9c, 0x90a35af5, 0x00000000, 16, 0x1fa27cf8) == 0x703d54d8
    ensures HH(0x90a35af5, 0x703d54d8, 0xa04b4904, 0xb5d41f9c, 0x6c6b6a69, 23, 0xc4ac5665) == 0x71d10367
  {
  }

  lemma Operations44(x: seq<word>)
    requires AlphabetWords(x)
    ensures Steps(State(0xa3e88ead, 0x90a35af5, 0x66f6468d, 0x02c0b11c), x, 44, 4) ==
            State(0xb5d41f9c, 0x71d10367, 0x703d54d8, 0xa04b4904)
  {
    hide Steps, FF, GG, HH, II;
    Mixed44();
    var s := State(0xa3e88ead, 0x90a35af5, 0x66f6468d, 0x02c0b11c);
    StepsNone(s, x, 44);
    StepsNext(s, x, 44, 0);
    StepsNext(s, x, 44, 1);
    StepsNext(s, x, 44, 2);
    StepsNext(s, x, 44, 3);
  }

  lemma Mixed48()
    ensures II(0xb5d41f9c, 0x71d10367, 0x703d54d8, 0xa04b4904, 0x64636261, 6, 0xf4292244) == 0xfc32dd6e
    ensures II(0xa04b4904, 0xfc32dd6e, 0x71d10367, 0x703d54d8, 0x00000000, 10, 0x432aff97) == 0x65456b34
    ensures II(0x703d54d8, 0x65456b34, 0xfc32dd6e, 0x71d10367, 0x000000d0, 15, 0xab9423a7) == 0xb35602cb
    ensures II(0x71d10367, 0xb35602cb, 0x65456b34, 0xfc32dd6e, 0x78777675, 21, 0xfc93a039) == 0x33edb197
  {
  }

  lemma Operations48(x: seq<word>)
    requires AlphabetWords(x)
    ensures Steps(State(0xb5d41f9c, 0x71d10367, 0x703d54d8, 0xa04b4904), x, 48, 4) ==
            State(0xfc32dd6e, 0x33edb197, 0xb35602cb, 0x65456b34)
  {
    hide Steps, FF, GG, HH, II;
    Mixed48();
    var s := State(0xb5d41f9c, 0x71d10367, 0x703d54d8, 0xa04b4904);
    StepsNone(s, x, 48);
    StepsNext(s, x, 48, 0);
    StepsNext(s, x, 48, 1);
    StepsNext(s, x, 48, 2);
    StepsNext(s, x, 48, 3);
  }

  lemma Mixed52()
    ensures II(0xfc32dd6e, 0x33edb197, 0xb35602cb, 0x65456b34, 0x00000000, 6, 0x655b59c3) == 0xc1e942f1
    ensures II(0x65456b34, 0xc1e942f1, 0x33edb197, 0xb35602cb, 0x706f6e6d, 10, 0x8f0ccc92) == 0xd9bb987c
    ensures II(0xb35602cb, 0xd9bb987c, 0xc1e942f1, 0x33edb197, 0x00000000, 15, 0xffeff47d) == 0x23a68048
    ensures II(0x33edb197, 0x23a68048, 0xd9bb987c, 0xc1e942f1, 0x68676665, 21, 0x85845dd1) == 0x83877d1b
  {
  }

  lemma Operations52(x: seq<word>)
    requires AlphabetWords(x)
    ensures Steps(State(0xfc32dd6e, 0x33edb197, 0xb35602cb, 0x65456b34), x, 52, 4) ==
            State(0xc1e942f1, 0x83877d1b, 0x23a68048, 0xd9bb987c)
  {
    hide Steps, FF, GG, HH, II;
    Mixed52();
    var s := State(0xfc32dd6e, 0x33edb197, 0xb35602cb, 0x65456b34);
    StepsNone(s, x, 52);
    StepsNext(s, x, 52, 0);
    StepsNext(s, x, 52, 1);
    StepsNext(s, x, 52, 2);
    StepsNext(s, x, 52, 3);
  }

  lemma Mixed56()
    ensures II(0xc1e942f1, 0x83877d1b, 0x23a68048, 0xd9bb987c, 0x00000000, 6, 0x6fa87e4f) == 0x0077c208
    ensures II(0xd9bb987c, 0x0077c208, 0x83877d1b, 0x23a68048, 0x00000000, 10, 0xfe2ce6e0) == 0x847fc2e7
    ensures II(0x23a68048, 0x847fc2e7, 0x0077c208, 0x83877d1b, 0x00807a79, 15, 0xa3014314) == 0xa3e2247f
    ensures II(0x83877d1b, 0xa3e2247f, 0x847fc2e7, 0x0077c208, 0x00000000, 21, 0x4e0811a1) == 0x5e6bc930
  {
  }

  lemma Operations56(x: seq<word>)
    requires AlphabetWords(x)
    ensures Steps(State(0xc1e942f1, 0x83877d1b, 0x23a68048, 0xd9bb987c), x, 56, 4) ==
            State(0x0077c208, 0x5e6bc930, 0xa3e2247f, 0x847fc2e7)
  {
    hide Steps, FF, GG, HH, II;
    Mixed56();
    var s := State(0xc1e942f1, 0x83877d1b, 0x23a68048, 0xd9bb987c);
    StepsNone(s, x, 56);
    StepsNext(s, x, 56, 0);
    StepsNext(s, x, 56, 1);
    StepsNext(s, x, 56, 2);
    StepsNext(s, x, 56, 3);
  }

  lemma Mixed60()
    ensures II(0x0077c208, 0x5e6bc930, 0xa3e2247f, 0x847fc2e7, 0x74737271, 6, 0xf7537e82) == 0x708ed9c2
    ensures II(0x847fc2e7, 0x708ed9c2, 0x5e6bc930, 0xa3e2247f, 0x00000000, 10, 0xbd3af235) == 0x2baf1354
    ensures II(0xa3e2247f, 0x2baf1354, 0x708ed9c2, 0x5e6bc930, 0x6c6b6a69, 15, 0x2ad7d2bb) == 0xd38f1e7f
    ensures II(0x5e6bc930, 0xd38f1e7f, 0x2baf1354, 0x708ed9c2, 0x00000000, 21, 0xeb86d391) == 0x1116e6d8
  {
  }

  lemma Operations60(x: seq<word>)
    requires AlphabetWords(x)
    ensures Steps(State(0x0077c208, 0x5e6bc930, 0xa3e2247f, 0x847fc2e7), x, 60, 4) ==
            State(0x708ed9c2, 0x1116e6d8, 0xd38f1e7f, 0x2baf1354)
  {
    hide Steps, FF, GG, HH, II;
    Mixed60();
    var s := State(0x0077c208, 0x5e6bc930, 0xa3e2247f, 0x847fc2e7);
    StepsNone(s, x, 60);
    StepsNext(s, x, 60, 0);
    StepsNext(s, x, 60, 1);
    StepsNext(s, x, 60, 2);
    StepsNext(s, x, 60, 3);
  }

  lemma AllOperations(x: seq<word>)
    requires AlphabetWords(x)
    ensures Steps(INITIAL, x, 0, 64) ==
            State(0x708ed9c2, 0x1116e6d8, 0xd38f1e7f, 0x2baf1354)
  {
    hide Step, Steps;
    Start();
    Operations0(x);
    Operations4(x);
    StepsJoin(State(0x67452301, 0xefcdab89, 0x98badcfe, 0x10325476), x, 0, 4, 4);
    Operations8(x);
    StepsJoin(State(0x67452301, 0xefcdab89, 0x98badcfe, 0x10325476), x, 0, 8, 4);
    Operations12(x);
    StepsJoin(State(0x67452301, 0xefcdab89, 0x98badcfe, 0x10325476), x, 0, 12, 4);
    Operations16(x);
    StepsJoin(State(0x67452301, 0xefcdab89, 0x98badcfe, 0x10325476), x, 0, 16, 4);
    Operations20(x);
    StepsJoin(State(0x67452301, 0xefcdab89, 0x98badcfe, 0x10325476), x, 0, 20, 4);
    Operations24(x);
    StepsJoin(State(0x67452301, 0xefcdab89, 0x98badcfe, 0x10325476), x, 0, 24, 4);
    Operations28(x);
    StepsJoin(State(0x67452301, 0xefcdab89, 0x98badcfe, 0x10325476), x, 0, 28, 4);
    Operations32(x);
    StepsJoin(State(0x67452301, 0xefcdab89, 0x98badcfe, 0x10325476), x, 0, 32, 4);
    Operations36(x);
    StepsJoin(State(0x67452301, 0xefcdab89, 0x98badcfe, 0x10325476), x, 0, 36, 4);
    Operations40(x);
    StepsJoin(State(0x67452301, 0xefcdab89, 0x98badcfe, 0x10325476), x, 0, 40, 4);
    Operations44(x);
    StepsJoin(State(0x67452301, 0xefcdab89, 0x98badcfe, 0x10325476), x, 0, 44, 4);
    Operations48(x);
    StepsJoin(State(0x67452301, 0xefcdab89, 0x98badcfe, 0x10325476), x, 0, 48, 4);
    Operations52(x);
    StepsJoin(State(0x67452301, 0xefcdab89, 0x98badcfe, 0x10325476), x, 0, 52, 4);
    Operations56(x);
    StepsJoin(State(0x67452301, 0xefcdab89, 0x98badcfe, 0x10325476), x, 0, 56, 4);
    Operations60(x);
    StepsJoin(State(0x67452301, 0xefcdab89, 0x98badcfe, 0x10325476), x, 0, 60, 4);
  }

  lemma Start()
    ensures INITIAL == State(0x67452301, 0xefcdab89, 0x98badcfe, 0x10325476)
  {
  }

  /** The one block of the padded message. */
  lemma Block()
    ensures var p := Padded(Alphabet());
            && |p| == 64
            && (forall k :: 0 <= k < 26 ==> p[k] == 0x61 + k)
            && p[26] == 0x80 && p[56] == 0xd0
            && (forall k :: 27 <= k < 56 || 57 <= k < 64 ==> p[k] == 0)
  {
    assert LengthBytes(Alphabet()) == [0xd0, 0, 0, 0, 0, 0, 0, 0];
  }

  lemma BlockWords(p: seq<byte>)
    requires |p| == 64
    requires forall k :: 0 <= k < 26 ==> p[k] == 0x61 + k
    requires p[26] == 0x80 && p[56] == 0xd0
    requires forall k :: 27 <= k < 56 || 57 <= k < 64 ==> p[k] == 0
    ensures AlphabetWords(Words(p))
  {
  }

  lemma Sums()
    ensures Add(0x67452301, 0x708ed9c2) == 0xd7d3fcc3
    ensures Add(0xefcdab89, 0x1116e6d8) == 0x00e49261
    ensures Add(0x98badcfe, 0xd38f1e7f) == 0x6c49fb7d
    ensures Add(0x10325476, 0x2baf1354) == 0x3be167ca
  {
  }

  /** The block is transformed into this state. */
  lemma AlphabetState()
    ensures |Padded(Alphabet())| == 64
    ensures Transform(INITIAL, Padded(Alphabet())) == State(0xd7d3fcc3, 0x00e49261, 0x6c49fb7d, 0x3be167ca)
  {
    hide *;
    Block();
    BlockWords(Padded(Alphabet()));
    AllOperations(Words(Padded(Alphabet())));
    Start();
    Sums();
    TransformIs(INITIAL, Padded(Alphabet()));
  }

  lemma TransformIs(s: State, block: seq<byte>)
    requires |block| == 64
    ensures var t := Steps(s, Words(block), 0, 64);
            Transform(s, block) == State(Add(s.a, t.a), Add(s.b, t.b), Add(s.c, t.c), Add(s.d, t.d))
  {
    hide Steps, Words, Add;
  }

  lemma AlphabetOutput(s: State)
    requires s == State(0xd7d3fcc3, 0x00e49261, 0x6c49fb7d, 0x3be167ca)
    ensures StateBytes(s) ==
            [0xc3, 0xfc, 0xd3, 0xd7, 0x61, 0x92, 0xe4, 0x00, 0x7d, 0xfb, 0x49, 0x6c, 0xca, 0x67, 0xe1, 0x3b]
  {
  }

  /** MD5("abcdefghijklmnopqrstuvwxyz") is c3fcd3d7 6192e400 7dfb496c ca67e13b. */
  lemma AlphabetDigest()
    ensures Md5(Alphabet()) ==
            [0xc3, 0xfc, 0xd3, 0xd7, 0x61, 0x92, 0xe4, 0x00, 0x7d, 0xfb, 0x49, 0x6c, 0xca, 0x67, 0xe1, 0x3b]
  {
    hide *;
    AlphabetState();
    FoldOne(INITIAL, Padded(Alphabet()));
    AlphabetOutput(Transform(INITIAL, Padded(Alphabet())));
    Md5Is(Alphabet());
  }

  lemma Md5Is(message: seq<byte>)
    ensures Md5(message) == StateBytes(Fold(INITIAL, Padded(message)))
  {
    hide Fold, Padded;
  }
}
