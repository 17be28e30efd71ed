/** Coder and extractor of V.34 mapping frames end to end. */
module V34FrameTransfer {
  import opened BitIo
  import opened V34Scrambler
  import opened V34ShellMapper
  import opened V34Frame
  import opened V34FrameCoder
  import opened V34FrameExtractor

  /** Line bits through the descrambler, one by one. */
  method DescrambleBits(descr: Scrambler, line: array<bool>, n: nat) returns (data: Bits)
    requires descr.Valid() && n <= line.Length && line != descr.hist
    modifies descr`pos, descr.hist
    ensures descr.Valid() && data == Descramble(descr.taps, old(descr.Line()), line[..n])
  {
    hide Scrambler.Line, Descramble, After, Mask, Push;
    ghost var h := descr.Line();
    data := [];
    NoBits(descr.taps, h);
    assert line[..0] == [];
    for i := 0 to n
      invariant descr.Valid() && descr.Line() == After(h, line[..i]) && data == Descramble(descr.taps, h, line[..i])
    {
      OneBit(descr.taps, descr.Line(), line[i]);
      var v := descr.DescrambleBit(line[i]);
      assert line[..i + 1] == line[..i] + [line[i]];
      DescrambleAppend(descr.taps, h, line[..i], [line[i]]);
      AfterAppend(h, line[..i], [line[i]]);
      data := data + [v];
    }
  }

  lemma NoBits(t: Taps, h: History)
    requires GoodTaps(t)
    ensures Descramble(t, h, []) == [] && After(h, []) == h
  {
  }

  lemma OneBit(t: Taps, h: History, bit: bool)
    requires GoodTaps(t)
    ensures Descramble(t, h, [bit]) == [Exor(bit, Mask(t, h))] && After(h, [bit]) == Push(h, bit)
  {
    hide Mask, Push;
    assert [bit][1..] == [] && Descramble(t, Push(h, bit), []) == [] && After(Push(h, bit), []) == Push(h, bit);
  }

  /** Data scrambled and mapped by the coder, extracted and descrambled: they come back, no
      frame is counted bad, whatever U0 the trellis chose. */
  method Transfer(md: Mode, callModem: bool, data: Bits, nframes: nat, u0: seq<bool>) returns (received: Bits, nBad: nat)
    requires ModeOk(md) && |u0| == 4 * nframes && |data| == StreamLen(md, 0, nframes)
    ensures received == data && nBad == 0
  {
    hide ModeOk, StreamLen, EncodeStream, DecodeStream, BadFrames, InAlphabet, Scramble, Descramble, Scrambler.Line, After, ShellMapper.Valid;
    var tx := new FrameEncoder(md, callModem);
    var mapper := new ShellMapper();
    var descr := new Scrambler(callModem);
    ghost var h := descr.Line();
    ghost var line := Scramble(descr.taps, h, data);
    ModeMeans(md);
    CodedStreamIsGood(md, 0, line, 0, u0, nframes);
    StreamRoundTrip(md, 0, line, 0, u0, nframes);
    DescrambleInverts(descr.taps, h, data);
    var y, used := tx.Encode(data, nframes, u0);
    assert y == EncodeStream(md, 0, line, 0, u0, nframes);
    var bits := new bool[used];
    assert |y| / 8 == nframes;
    var nbits, z;
    nbits, nBad, z := ExtractBits(md, mapper, y, 0, bits);
    received := DescrambleBits(descr, bits, nbits);
  }

  lemma ModeMeans(md: Mode)
    requires ModeOk(md)
    ensures md.p >= 1
  {
  }
}
