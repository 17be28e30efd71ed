/** A whole page through the encoder and the decoder. */
module T4Transfer {
  import opened BitIo
  import opened T4Runs
  import opened T4Rows
  import opened T4Page
  import opened T4PageProofs
  import opened T4Pixels
  import T4Encoder
  import T4Decoder

  lemma PackedLine(lines: seq<seq<Byte>>, w: nat, i: nat)
    requires Packed(lines, w) && i < |lines|
    ensures |lines[i]| == Stride(w) && Lines(lines, w)[i] == Pixels(lines[i], w)
  {
    hide Pixels;
  }

  lemma AllPacked(lines: seq<seq<Byte>>, w: nat)
    requires Packed(lines, w)
    ensures AllWidth(Lines(lines, w), w)
  {
  }

  lemma FirstPart(scheme: Scheme, k: int, minRowBits: int, width: nat, rows: seq<Row>)
    requires AllWidth(rows, width)
    ensures ValidCoder(StartCoder(scheme, width, k), width)
    ensures rows[0..] == rows
    ensures [] + PageBits(scheme, k, minRowBits, StartCoder(scheme, width, k), width, rows[0..])
         == CodedPage(scheme, k, minRowBits, width, rows)
  {
    hide PageBits;
    assert rows[0..] == rows;
    StartCoderValid(scheme, width, k);
  }

  lemma NextPart(scheme: Scheme, k: int, minRowBits: int, c: Coder, width: nat, rows: seq<Row>, i: nat, s: Bits)
    requires i < |rows| && ValidCoder(c, width) && AllWidth(rows, width)
    ensures |rows[i]| == width && Increasing(c.ref) && ValidCoder(NextCoder(scheme, k, c, rows[i]), width)
    ensures AllWidth(rows[i..], width) && AllWidth(rows[i + 1..], width)
    ensures s + PageBits(scheme, k, minRowBits, c, width, rows[i..])
         == s + RowBits(scheme, minRowBits, c, rows[i])
              + PageBits(scheme, k, minRowBits, NextCoder(scheme, k, c, rows[i]), width, rows[i + 1..])
  {
    hide PageBits, RowBits, NextCoder, ValidCoder;
    assert rows[i..][1..] == rows[i + 1..];
    PageFirstLine(scheme, k, minRowBits, c, width, rows[i..]);
    Assoc(s, RowBits(scheme, minRowBits, c, rows[i]),
          PageBits(scheme, k, minRowBits, NextCoder(scheme, k, c, rows[i]), width, rows[i + 1..]));
  }

  /** Coding all lines and the end of the page puts out the page's bits and at most seven
      ones. */
  method EncodePage(width: nat, scheme: Scheme, k: int, minRowBits: int, lines: seq<seq<Byte>>) returns (bytes: seq<Byte>)
    requires width >= 1 && Packed(lines, width)
    ensures AllWidth(Lines(lines, width), width)
    ensures exists n :: 0 <= n < 8
              && BytesBits(bytes) == CodedPage(scheme, k, minRowBits, width, Lines(lines, width)) + T4Encoder.Ones(n)
  {
    hide PageBits, CodedPage, RowBits, NextCoder, EndBits, ValidCoder, T4Encoder.Encoder.Stream, T4Encoder.Encoder.Lists,
      T4Encoder.Encoder.Clean, Pixels, BytesBits, Lines, Packed, AllWidth, T4Encoder.Ones;
    ghost var rows := Lines(lines, width);
    AllPacked(lines, width);
    FirstPart(scheme, k, minRowBits, width, rows);
    var e := new T4Encoder.Encoder(width, scheme, k);
    e.SetMinRowBits(minRowBits);
    e.StateIsValid();
    for i := 0 to |lines|
      invariant e.Valid() && fresh(e.refRuns) && fresh(e.curRuns)
      invariant e.width == width && e.scheme == scheme && e.k == k && e.minRowBits == minRowBits
      invariant e.refSteps <= e.refRuns.Length && ValidCoder(e.State(), width) && AllWidth(rows[i..], width)
      invariant e.Stream() + PageBits(scheme, k, minRowBits, e.State(), width, rows[i..])
             == CodedPage(scheme, k, minRowBits, width, rows)
    {
      PackedLine(lines, width, i);
      NextPart(scheme, k, minRowBits, e.State(), width, rows, i, e.Stream());
      e.EncodeRow(lines[i]);
      e.StateIsValid();
    }
    LastPageBits(scheme, k, minRowBits, e.State(), width);
    assert rows[|lines|..] == [];
    e.EndPage();
    bytes := e.buf;
  }

  /** The page round trip on packed lines: whatever follows the coded page, the decoder
      reports the end of the page, no bad line, and hands over exactly the lines coded. */
  method SendPage(width: nat, scheme: Scheme, k: int, minRowBits: int, lines: seq<seq<Byte>>, trailing: seq<Byte>)
    returns (r: int, badRows: nat, received: seq<seq<Byte>>)
    requires 1 <= width <= RUN_CAP && |lines| <= MAX_ROWS && Packed(lines, width)
    ensures r == 1 && badRows == 0
    ensures Packed(received, width) && Lines(received, width) == Lines(lines, width)
  {
    hide PageBits, CodedPage, DecodePage, T4Encoder.Ones, BytesBits, Pixels;
    var bytes := EncodePage(width, scheme, k, minRowBits, lines);
    ghost var rows := Lines(lines, width);
    BytesBitsAppend(bytes, trailing);
    PageRoundTrip(scheme, k, minRowBits, width, rows, BytesBits(bytes + trailing));
    T4Decoder.NoTrues(|rows|);
    var d := new T4Decoder.Decoder(width, scheme);
    r := d.Put(bytes + trailing, StartPage(width));
    badRows := d.badRows;
    received := d.emitted;
  }
}
