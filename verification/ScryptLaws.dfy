/** The definitions of ScryptSpec against the wording of RFC 7914: the Salsa20/8
    test vector of section 8, the byte order of the words, and the steps of
    scryptBlockMix and scryptROMix. */
module ScryptLaws {
  import opened Words
  import opened ScryptSpec
  import opened ScryptSmix

  // The states between the double rounds

  const X0: Block := Block(0x219a877e, 0x86c93e4f, 0xe640a97c, 0x268f7141,
                           0x5b55eeba, 0xb5c1618c, 0x1146f80d, 0x1d3bcd6d,
                           0x19f324ee, 0x853d9bdf, 0x4b1e1214, 0x32aac55a,
                           0x291d0276, 0x2948c709, 0x8dc6ebed, 0x5ec2b8b8)

  const X1: Block := Block(0x482665b1, 0xe6b639e8, 0x5528d0b6, 0x7163bf72,
                           0x93580e01, 0x0c50b5fd, 0xea23785c, 0xead125ec,
                           0xf701a95d, 0xd590a7ea, 0x209aedeb, 0x965705b9,
                           0xd6e1a597, 0x6f4dbdbc, 0x53299386, 0x10a42604)

  const X2: Block := Block(0xe9e67835, 0x5a0e63c0, 0x85bf1cf2, 0xbce03a58,
                           0x95e02c9d, 0x10a33116, 0x91024ee3, 0xa399c709,
                           0x678d68da, 0x70e69077, 0x3dffe364, 0xc393c734,
                           0xf3fc17d5, 0x8805fb7c, 0x4e709f83, 0x64b0ce84)

  const X3: Block := Block(0x28f2a180, 0x5e3bb01c, 0x03040a5c, 0x69e5ea6b,
                           0x997f9f3c, 0x1c650ad9, 0x9a28760a, 0x1c5778b3,
                           0x89e18946, 0x5055ce7c, 0x3fec3108, 0x20123a83,
                           0x764c0e51, 0x44dda9f5, 0xf8616b01, 0x5632c6dc)

  const X4: Block := Block(0x7aea9826, 0x1302ca17, 0xe589d7bf, 0xdf5f9ac1,
                           0x25cb5c4a, 0xc7729c16, 0x51d583f0, 0x0bf39b29,
                           0x4e3e14c6, 0x37a92e04, 0x6ca759ea, 0x87eba846,
                           0xe7af226e, 0x332bca23, 0xafa0c137, 0x22cca90f)

  /** The output of section 8. */
  const OUTPUT: Block := Block(0x9c851fa4, 0x99cc0866, 0xcbca813b, 0x05ef0c02,
                               0x81214b04, 0x7d33fda2, 0x631c7bfd, 0x292f6896,
                               0x683139b4, 0xbce6c9e3, 0xb7c56bfe, 0xba966da0,
                               0x10cc24e4, 0x5c74912c, 0x3d67ad24, 0x818f61c7)

  lemma Columns0()
    ensures Quarter(0x219a877e, 0x5b55eeba, 0x19f324ee, 0x291d0276) == (0x08857f83, 0x0091149f, 0x4ecb1eaa, 0xaf742b9d)
    ensures Quarter(0xb5c1618c, 0x853d9bdf, 0x2948c709, 0x86c93e4f) == (0xc3e54d59, 0xc0727641, 0x4ee75de5, 0xbc4dffa4)
    ensures Quarter(0x4b1e1214, 0x8dc6ebed, 0xe640a97c, 0x1146f80d) == (0x6585dfa2, 0xbf43fb43, 0x225a0768, 0xd113843e)
    ensures Quarter(0x5ec2b8b8, 0x268f7141, 0x1d3bcd6d, 0x32aac55a) == (0x55af2fd9, 0x90307809, 0xfb5a4eb0, 0x6a7df42b)
  {}

  lemma Rows0()
    ensures Quarter(0x08857f83, 0xbc4dffa4, 0x225a0768, 0x90307809) == (0x482665b1, 0xe6b639e8, 0x5528d0b6, 0x7163bf72)
    ensures Quarter(0xc3e54d59, 0xd113843e, 0xfb5a4eb0, 0x0091149f) == (0x0c50b5fd, 0xea23785c, 0xead125ec, 0x93580e01)
    ensures Quarter(0x6585dfa2, 0x6a7df42b, 0x4ecb1eaa, 0xc0727641) == (0x209aedeb, 0x965705b9, 0xf701a95d, 0xd590a7ea)
    ensures Quarter(0x55af2fd9, 0xaf742b9d, 0x4ee75de5, 0xbf43fb43) == (0x10a42604, 0xd6e1a597, 0x6f4dbdbc, 0x53299386)
  {}

  lemma Round0()
    ensures DoubleRound(X0) == X1
  {
    hide Quarter;
    Columns0();
    Rows0();
  }

  lemma Columns1()
    ensures Quarter(0x482665b1, 0x93580e01, 0xf701a95d, 0xd6e1a597) == (0xb4cf7248, 0x175daa0e, 0xff1ed7e2, 0x46dfa758)
    ensures Quarter(0x0c50b5fd, 0xd590a7ea, 0x6f4dbdbc, 0xe6b639e8) == (0xde3bd4f1, 0x56e75513, 0x1f5b9d7a, 0xb8e79720)
    ensures Quarter(0x209aedeb, 0x53299386, 0x5528d0b6, 0xea23785c) == (0xd8b882ab, 0x0c1ab003, 0x3e130cef, 0x5dbd3119)
    ensures Quarter(0x10a42604, 0x7163bf72, 0xead125ec, 0x965705b9) == (0x0f4f975e, 0x0cf661a1, 0xdfde6fd7, 0x0c781823)
  {}

  lemma Rows1()
    ensures Quarter(0xb4cf7248, 0xb8e79720, 0x3e130cef, 0x0cf661a1) == (0xe9e67835, 0x5a0e63c0, 0x85bf1cf2, 0xbce03a58)
    ensures Quarter(0xde3bd4f1, 0x5dbd3119, 0xdfde6fd7, 0x175daa0e) == (0x10a33116, 0x91024ee3, 0xa399c709, 0x95e02c9d)
    ensures Quarter(0xd8b882ab, 0x0c781823, 0xff1ed7e2, 0x56e75513) == (0x3dffe364, 0xc393c734, 0x678d68da, 0x70e69077)
    ensures Quarter(0x0f4f975e, 0x46dfa758, 0x1f5b9d7a, 0x0c1ab003) == (0x64b0ce84, 0xf3fc17d5, 0x8805fb7c, 0x4e709f83)
  {}

  lemma Round1()
    ensures DoubleRound(X1) == X2
  {
    hide Quarter;
    Columns1();
    Rows1();
  }

  lemma Columns2()
    ensures Quarter(0xe9e67835, 0x95e02c9d, 0x678d68da, 0xf3fc17d5) == (0xfbef1227, 0x64a829f3, 0x7ac93847, 0xdfbb4c3b)
    ensures Quarter(0x10a33116, 0x70e69077, 0x8805fb7c, 0x5a0e63c0) == (0x43dbdd85, 0x282cfb42, 0x285d4b0d, 0x12c789d1)
    ensures Quarter(0x3dffe364, 0x4e709f83, 0x85bf1cf2, 0x91024ee3) == (0x60e759d5, 0xcf69bc64, 0x56808ce8, 0xd82bca5e)
    ensures Quarter(0x64b0ce84, 0xbce03a58, 0xa399c709, 0xc393c734) == (0x05ea3220, 0x9eaae64c, 0x14f0670f, 0xaa38b147)
  {}

  lemma Rows2()
    ensures Quarter(0xfbef1227, 0x12c789d1, 0x56808ce8, 0x9eaae64c) == (0x28f2a180, 0x5e3bb01c, 0x03040a5c, 0x69e5ea6b)
    ensures Quarter(0x43dbdd85, 0xd82bca5e, 0x14f0670f, 0x64a829f3) == (0x1c650ad9, 0x9a28760a, 0x1c5778b3, 0x997f9f3c)
    ensures Quarter(0x60e759d5, 0xaa38b147, 0x7ac93847, 0x282cfb42) == (0x3fec3108, 0x20123a83, 0x89e18946, 0x5055ce7c)
    ensures Quarter(0x05ea3220, 0xdfbb4c3b, 0x285d4b0d, 0xcf69bc64) == (0x5632c6dc, 0x764c0e51, 0x44dda9f5, 0xf8616b01)
  {}

  lemma Round2()
    ensures DoubleRound(X2) == X3
  {
    hide Quarter;
    Columns2();
    Rows2();
  }

  lemma Columns3()
    ensures Quarter(0x28f2a180, 0x997f9f3c, 0x89e18946, 0x764c0e51) == (0xb0e98b83, 0x062877f3, 0xbfd36f18, 0x0aad76ee)
    ensures Quarter(0x1c650ad9, 0x5055ce7c, 0x44dda9f5, 0x5e3bb01c) == (0x1abe5aed, 0x0008b4c1, 0x9fa29dcd, 0x346a63e9)
    ensures Quarter(0x3fec3108, 0xf8616b01, 0x03040a5c, 0x9a28760a) == (0x678d4e77, 0xf232e26c, 0x3d22e238, 0x22bcf3e0)
    ensures Quarter(0x5632c6dc, 0x69e5ea6b, 0x1c5778b3, 0x20123a83) == (0x0fa7223d, 0x4b6545d0, 0x2c4e21f0, 0x4cea3475)
  {}

  lemma Rows3()
    ensures Quarter(0xb0e98b83, 0x346a63e9, 0x3d22e238, 0x4b6545d0) == (0x7aea9826, 0x1302ca17, 0xe589d7bf, 0xdf5f9ac1)
    ensures Quarter(0x1abe5aed, 0x22bcf3e0, 0x2c4e21f0, 0x062877f3) == (0xc7729c16, 0x51d583f0, 0x0bf39b29, 0x25cb5c4a)
    ensures Quarter(0x678d4e77, 0x4cea3475, 0xbfd36f18, 0x0008b4c1) == (0x6ca759ea, 0x87eba846, 0x4e3e14c6, 0x37a92e04)
    ensures Quarter(0x0fa7223d, 0x0aad76ee, 0x9fa29dcd, 0xf232e26c) == (0x22cca90f, 0xe7af226e, 0x332bca23, 0xafa0c137)
  {}

  lemma Round3()
    ensures DoubleRound(X3) == X4
  {
    hide Quarter;
    Columns3();
    Rows3();
  }

  /** Section 8: the Salsa20/8 core. */
  lemma SalsaVector()
    ensures Salsa(X0, 4) == OUTPUT
  {
    hide DoubleRound;
    Round0();
    Round1();
    Round2();
    Round3();
    assert Rounds(X0, 0) == X0;
    assert Rounds(X0, 1) == X1;
    assert Rounds(X0, 2) == X2;
    assert Rounds(X0, 3) == X3;
    assert Rounds(X0, 4) == X4;
  }

  /** The octets of section 8 that begin its input and its output. */
  lemma LittleEndianWords()
    ensures Load32(0x7e, 0x87, 0x9a, 0x21) == X0.x0 && Load32(0xa4, 0x1f, 0x85, 0x9c) == OUTPUT.x0
    ensures Byte(OUTPUT.x0, 0) == 0xa4 && Byte(OUTPUT.x0, 1) == 0x1f
    ensures Byte(OUTPUT.x0, 2) == 0x85 && Byte(OUTPUT.x0, 3) == 0x9c
  {}

  /** Word w of a block is at its octets 4w to 4w + 3. */
  lemma WordOrder(b: seq<bv8>, o: nat)
    requires o + 64 <= |b|
    ensures BlockAt(b, o).x0 == WordAt(b, o + 0) && BlockAt(b, o).x1 == WordAt(b, o + 4)
    ensures BlockAt(b, o).x2 == WordAt(b, o + 8) && BlockAt(b, o).x3 == WordAt(b, o + 12)
    ensures BlockAt(b, o).x4 == WordAt(b, o + 16) && BlockAt(b, o).x5 == WordAt(b, o + 20)
    ensures BlockAt(b, o).x6 == WordAt(b, o + 24) && BlockAt(b, o).x7 == WordAt(b, o + 28)
    ensures BlockAt(b, o).x8 == WordAt(b, o + 32) && BlockAt(b, o).x9 == WordAt(b, o + 36)
    ensures BlockAt(b, o).x10 == WordAt(b, o + 40) && BlockAt(b, o).x11 == WordAt(b, o + 44)
    ensures BlockAt(b, o).x12 == WordAt(b, o + 48) && BlockAt(b, o).x13 == WordAt(b, o + 52)
    ensures BlockAt(b, o).x14 == WordAt(b, o + 56) && BlockAt(b, o).x15 == WordAt(b, o + 60)
    ensures WordAt(b, o) == Load32(b[o], b[o + 1], b[o + 2], b[o + 3])
  {
    hide Load32;
  }

  /** Section 4: X runs over B[0] to B[2r - 1] from B[2r - 1] on, and Y[i] is X
      after block i. */
  ghost predicate BlockMixRun(b: seq<Block>, y: seq<Block>) {
    && |y| == |b| >= 1 && y[0] == Salsa(XorWords(b[|b| - 1], b[0]), 4)
    && forall i :: 1 <= i < |b| ==> y[i] == Salsa(XorWords(y[i - 1], b[i]), 4)
  }

  lemma {:induction false} ChainIsRun(b: seq<Block>, y: seq<Block>, i: nat)
    requires BlockMixRun(b, y) && i < |b|
    ensures Chain(b, i + 1) == y[i]
  {
    hide Salsa, XorWords;
    if i > 0 {
      ChainIsRun(b, y, i - 1);
    } else {
      assert Chain(b, 0) == b[|b| - 1];
    }
  }

  /** Section 4: the result is Y[0], Y[2], ..., Y[2r - 2], Y[1], Y[3], ..., Y[2r - 1]. */
  lemma BlockMixSteps(b: seq<Block>, y: seq<Block>, r: nat, i: nat)
    requires r >= 1 && |b| == 2 * r && BlockMixRun(b, y) && i < r
    ensures BlockMix(b, r)[i] == y[2 * i] && BlockMix(b, r)[r + i] == y[2 * i + 1]
  {
    hide Chain, Salsa;
    ChainIsRun(b, y, 2 * i);
    ChainIsRun(b, y, 2 * i + 1);
  }

  /** Section 5: V[0] to V[N - 1] with X after them, then X through N mixing steps. */
  ghost predicate ROMixRun(b: seq<Block>, r: nat, n: nat, v: seq<seq<Block>>, x: seq<seq<Block>>)
    requires r >= 1 && |b| == 2 * r && n >= 1
  {
    && |v| == n + 1 && (forall i :: 0 <= i <= n ==> |v[i]| == 2 * r)
    && v[0] == b && (forall i :: 1 <= i <= n ==> v[i] == BlockMix(v[i - 1], r))
    && |x| == n + 1 && (forall i :: 0 <= i <= n ==> |x[i]| == 2 * r)
    && x[0] == v[n]
    && (forall i :: 1 <= i <= n ==> x[i] == BlockMix(XorBlocks(x[i - 1], v[Integerify(x[i - 1]) % n]), r))
  }

  lemma {:induction false} FillIsRun(b: seq<Block>, r: nat, n: nat, v: seq<seq<Block>>, x: seq<seq<Block>>, i: nat)
    requires r >= 1 && |b| == 2 * r && n >= 1 && ROMixRun(b, r, n, v, x) && i <= n
    ensures Fill(b, r, i) == v[i]
  {
    hide BlockMix, XorBlocks, Integerify;
    if i > 0 {
      FillIsRun(b, r, n, v, x, i - 1);
    }
  }

  lemma {:induction false} MixIsRun(b: seq<Block>, r: nat, n: nat, v: seq<seq<Block>>, x: seq<seq<Block>>, i: nat)
    requires r >= 1 && |b| == 2 * r && n >= 1 && ROMixRun(b, r, n, v, x) && i <= n
    ensures Mix(b, r, n, i) == x[i]
  {
    hide BlockMix, XorBlocks, Integerify, Fill;
    if i == 0 {
      FillIsRun(b, r, n, v, x, n);
    } else {
      MixIsRun(b, r, n, v, x, i - 1);
      FillIsRun(b, r, n, v, x, Integerify(x[i - 1]) % n);
    }
  }

  /** Section 5: scryptROMix is X after the last mixing step. */
  lemma ROMixSteps(b: seq<Block>, r: nat, n: nat, v: seq<seq<Block>>, x: seq<seq<Block>>)
    requires r >= 1 && |b| == 2 * r && n >= 1 && ROMixRun(b, r, n, v, x)
    ensures ROMix(b, r, n) == x[n]
  {
    hide ROMixRun, Mix;
    MixIsRun(b, r, n, v, x, n);
    assert |x| == n + 1 by {
      RunLength(b, r, n, v, x);
    }
  }

  lemma RunLength(b: seq<Block>, r: nat, n: nat, v: seq<seq<Block>>, x: seq<seq<Block>>)
    requires r >= 1 && |b| == 2 * r && n >= 1 && ROMixRun(b, r, n, v, x)
    ensures |x| == n + 1
  {}

  lemma FirstWords(ws: seq<bv32>)
    requires |ws| >= 2
    ensures LittleEndian(ws) == ws[0] as nat + 0x1_0000_0000 * (ws[1] as nat + 0x1_0000_0000 * LittleEndian(ws[2..]))
  {
    assert ws[1..][1..] == ws[2..];
    assert LittleEndian(ws[1..]) == ws[1] as nat + 0x1_0000_0000 * LittleEndian(ws[2..]);
  }

  /** Section 5: Integerify reads the last block as a little-endian integer. */
  lemma IntegerifyWords(x: seq<Block>)
    requires |x| >= 1
    ensures exists high: nat ::
              Integerify(x) == x[|x| - 1].x0 as nat + 0x1_0000_0000 * (x[|x| - 1].x1 as nat + 0x1_0000_0000 * high)
  {
    hide LittleEndian;
    FirstWords(x[|x| - 1].Words());
  }
}
