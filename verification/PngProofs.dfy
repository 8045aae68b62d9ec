/** The decoder inverts the encoder, and every filtering RFC 2083 allows. */
module PngProofs {
  import opened Common
  import opened Png

  /** A byte v filtered by the byte a left of it, b above it and c above that, as sections 6.2 to
      6.6 of RFC 2083 define the types None, Sub, Up, Average and Paeth. */
  function Filtered(kind: byte, v: byte, a: byte, b: byte, c: byte): byte
    requires kind <= 4
  {
    match kind
    case 0 => v
    case 1 => (v - a) % 256
    case 2 => (v - b) % 256
    case 3 => (v - (a + b) / 2) % 256
    case 4 => (v - Paeth(a, b, c)) % 256
  }

  /** One scanline filtered; a pixel has four bytes, and outside the image there are zeros. */
  function FilterLine(kind: byte, line: seq<byte>, prev: seq<byte>): (filtered: seq<byte>)
    requires kind <= 4 && |line| == |prev|
    ensures |filtered| == |line|
  {
    seq(|line|, x requires 0 <= x < |line| =>
      Filtered(kind, line[x], if x < 4 then 0 else line[x - 4], prev[x], if x < 4 then 0 else prev[x - 4]))
  }

  lemma FilteredByPrediction(kind: byte, v: byte, a: byte, b: byte, c: byte)
    requires kind <= 4
    ensures Filtered(kind, v, a, b, c) == (v - Predict(kind, a, b, c)) % 0x100
    ensures (Filtered(kind, v, a, b, c) + Predict(kind, a, b, c)) % 0x100 == v
  {
    hide Paeth;
  }

  lemma {:induction false} UnfilterInverts(kind: byte, line: seq<byte>, prev: seq<byte>, x: nat)
    requires kind <= 4 && |line| == |prev| && x <= |line|
    ensures Unfilter(kind, line[..x] + FilterLine(kind, line, prev)[x..], prev, x, |line|) == Ok(line)
    decreases |line| - x
  {
    hide Predict, Step;
    var filtered := FilterLine(kind, line, prev);
    if x < |line| {
      StepInverts(kind, line, prev, x);
      UnfilterInverts(kind, line, prev, x + 1);
    } else {
      assert line[..x] + filtered[x..] == line;
    }
  }

  lemma StepInverts(kind: byte, line: seq<byte>, prev: seq<byte>, x: nat)
    requires kind <= 4 && |line| == |prev| && x < |line|
    ensures var filtered := FilterLine(kind, line, prev);
      Step(kind, line[..x] + filtered[x..], prev, x) == Ok(line[..x + 1] + filtered[x + 1..])
  {
    hide Predict, Filtered;
    var filtered := FilterLine(kind, line, prev);
    var now := line[..x] + filtered[x..];
    FilteredByPrediction(
      kind, line[x], if x < 4 then 0 else line[x - 4], prev[x], if x < 4 then 0 else prev[x - 4]);
    if kind == 0 {
      PredictsNothing(if x < 4 then 0 else line[x - 4], prev[x], if x < 4 then 0 else prev[x - 4]);
    }
    assert PredictAt(kind, now, prev, x) == PredictAt(kind, line, prev, x);
    assert now[x := line[x]] == line[..x + 1] + filtered[x + 1..];
    assert kind == 0 ==> now == now[x := line[x]];
  }

  lemma PredictsNothing(a: byte, b: byte, c: byte)
    ensures Predict(0, a, b, c) == 0
  {
  }

  /** The predictor of type 4 is a neighbour nearest to left + up - upLeft, the earlier of
      left, up and upper left winning a tie (section 6.6 of RFC 2083). */
  lemma PaethIsNearest(left: byte, up: byte, upLeft: byte)
    ensures var p, estimate := Paeth(left, up, upLeft), left + up - upLeft;
      && p in {left, up, upLeft}
      && Abs(estimate - p) <= Abs(estimate - left) && Abs(estimate - p) <= Abs(estimate - up)
      && Abs(estimate - p) <= Abs(estimate - upLeft)
      && (Abs(estimate - left) == Abs(estimate - p) ==> p == left)
      && (Abs(estimate - left) != Abs(estimate - p) && Abs(estimate - up) == Abs(estimate - p) ==> p == up)
  {
  }

  predicate AreKinds(kinds: seq<byte>) {
    forall k :: 0 <= k < |kinds| ==> kinds[k] <= 4
  }

  /** All scanlines, each behind its own filter type. */
  function FilterRows(kinds: seq<byte>, pixels: seq<byte>, prev: seq<byte>): seq<byte>
    requires AreKinds(kinds) && |pixels| == |kinds| * |prev|
  {
    if kinds == [] then []
    else
      var stride := |prev|;
      assert |kinds| * stride == stride + |kinds[1..]| * stride;
      [kinds[0]] + FilterLine(kinds[0], pixels[..stride], prev)
      + FilterRows(kinds[1..], pixels[stride..], pixels[..stride])
  }

  lemma RowAt(before: seq<byte>, kind: byte, line: seq<byte>, rest: seq<byte>, after: seq<byte>)
    ensures var raw := before + ([kind] + line + rest) + after;
      && |before| < |raw| && raw[|before|] == kind
      && Slice(raw, |before| + 1, |before| + 1 + |line|) == line
      && raw == before + [kind] + line + rest + after
  {
    var raw := before + ([kind] + line + rest) + after;
    assert raw == before + [kind] + line + rest + after;
  }

  lemma {:induction false} ScanlinesInvert(kinds: seq<byte>, pixels: seq<byte>, prev: seq<byte>,
      before: seq<byte>, after: seq<byte>)
    requires AreKinds(kinds) && |pixels| == |kinds| * |prev|
    ensures Scanlines(before + FilterRows(kinds, pixels, prev) + after, |before|, prev, |kinds|, |prev|) == Ok(pixels)
    decreases |kinds|
  {
    hide Unfilter, FilterLine, Slice;
    if kinds != [] {
      var stride := |prev|;
      assert |kinds| * stride == stride + |kinds[1..]| * stride;
      var first := pixels[..stride];
      var line := FilterLine(kinds[0], first, prev);
      var rest := FilterRows(kinds[1..], pixels[stride..], first);
      RowAt(before, kinds[0], line, rest, after);
      UnfilterInverts(kinds[0], first, prev, 0);
      assert first[..0] + line[0..] == line;
      ScanlinesInvert(kinds[1..], pixels[stride..], first, before + [kinds[0]] + line, after);
      assert first + pixels[stride..] == pixels;
    }
  }

  predicate AreChunks(chunks: seq<Chunk>) {
    forall k :: 0 <= k < |chunks| ==> |chunks[k].kind| == 4 && |chunks[k].payload| < WORD
  }

  function ChunksBytes(chunks: seq<Chunk>, z: Zlib): seq<byte>
    requires AreChunks(chunks)
  {
    if chunks == [] then [] else ChunkBytes(chunks[0].kind, chunks[0].payload, z) + ChunksBytes(chunks[1..], z)
  }

  /** Where the parts of a chunk lie. */
  lemma ChunkAt(before: seq<byte>, kind: seq<byte>, payload: seq<byte>, rest: seq<byte>, z: Zlib)
    requires |kind| == 4 && |payload| < WORD
    ensures var data, at, n := before + (ChunkBytes(kind, payload, z) + rest), |before|, |payload|;
      && |data| - at >= 12 + n && Unpack32(data[at..at + 4]) == n
      && Slice(data, at + 4, at + 8) == kind && Slice(data, at + 8, at + 8 + n) == payload
      && data == before + ChunkBytes(kind, payload, z) + rest && |ChunkBytes(kind, payload, z)| == 12 + n
  {
    hide Unpack32;
    var data, at, n := before + (ChunkBytes(kind, payload, z) + rest), |before|, |payload|;
    assert data[at..at + 4] == Pack32(n);
  }

  lemma {:induction false} ParseInverts(before: seq<byte>, chunks: seq<Chunk>, z: Zlib)
    requires AreChunks(chunks)
    ensures Parse(before + ChunksBytes(chunks, z), |before|) == Ok(chunks)
    decreases |chunks|
  {
    hide Unpack32, ChunkBytes, Slice;
    if chunks == [] {
      assert before + [] == before;
    } else {
      var c, rest := chunks[0], ChunksBytes(chunks[1..], z);
      ChunkAt(before, c.kind, c.payload, rest, z);
      ParseInverts(before + ChunkBytes(c.kind, c.payload, z), chunks[1..], z);
      assert [c] + chunks[1..] == chunks;
    }
  }

  /** Whatever the filter of each scanline, however the compressed stream is cut into chunks,
      and whatever other chunks stand among them, the decoder returns the image. */
  lemma DecoderInverts(image: Image, kinds: seq<byte>, chunks: seq<Chunk>, idat: seq<byte>, after: seq<byte>, z: Zlib)
    requires AreKinds(kinds) && |kinds| == image.height && |image.pixels| == image.height * (4 * image.width)
    requires AreChunks(chunks)
    requires Collect(chunks, NO_HEADER, []) == Ok((Header(image.width, image.height, 8, 6), idat))
    requires z.decompress(idat) == Some(FilterRows(kinds, image.pixels, Zeros(4 * image.width)) + after)
    ensures Decode(SIGNATURE + ChunksBytes(chunks, z), z) == Ok(image)
  {
    hide Scanlines, FilterRows, Collect, Parse, ChunksBytes;
    ParseInverts(SIGNATURE, chunks, z);
    var rows := FilterRows(kinds, image.pixels, Zeros(4 * image.width));
    assert [] + rows + after == rows + after;
    ScanlinesInvert(kinds, image.pixels, Zeros(4 * image.width), [], after);
  }

  function Flatten(pieces: seq<seq<byte>>): seq<byte> {
    if pieces == [] then [] else pieces[0] + Flatten(pieces[1..])
  }

  function DataChunks(pieces: seq<seq<byte>>): seq<Chunk> {
    seq(|pieces|, k requires 0 <= k < |pieces| => Chunk(IDAT, pieces[k]))
  }

  lemma {:induction false} SplitCollects(pieces: seq<seq<byte>>, header: Header, idat: seq<byte>)
    ensures Collect(DataChunks(pieces) + [Chunk(IEND, [])], header, idat) == Ok((header, idat + Flatten(pieces)))
    decreases |pieces|
  {
    var chunks := DataChunks(pieces) + [Chunk(IEND, [])];
    assert IDAT[1] != IHDR[1] && IEND[1] != IHDR[1] && IEND[1] != IDAT[1];
    if pieces == [] {
      assert chunks[1..] == [];
      assert idat + [] == idat;
    } else {
      assert chunks[1..] == DataChunks(pieces[1..]) + [Chunk(IEND, [])];
      SplitCollects(pieces[1..], header, idat + pieces[0]);
      assert idat + pieces[0] + Flatten(pieces[1..]) == idat + (pieces[0] + Flatten(pieces[1..]));
    }
  }

  /** Any filters and any split of the stream into data chunks. */
  lemma AnyFiltersAnySplit(image: Image, kinds: seq<byte>, pieces: seq<seq<byte>>, z: Zlib)
    requires Lawful(z) && image.width < WORD && image.height < WORD
    requires AreKinds(kinds) && |kinds| == image.height && |image.pixels| == image.height * (4 * image.width)
    requires Flatten(pieces) == z.compress(FilterRows(kinds, image.pixels, Zeros(4 * image.width)))
    requires forall k :: 0 <= k < |pieces| ==> |pieces[k]| < WORD
    ensures var chunks :=
        [Chunk(IHDR, HeaderBytes(image.width, image.height))] + (DataChunks(pieces) + [Chunk(IEND, [])]);
      AreChunks(chunks) && Decode(SIGNATURE + ChunksBytes(chunks, z), z) == Ok(image)
  {
    hide Decode, Unpack32, HeaderBytes;
    var rest := DataChunks(pieces) + [Chunk(IEND, [])];
    var chunks := [Chunk(IHDR, HeaderBytes(image.width, image.height))] + rest;
    var header := Header(image.width, image.height, 8, 6);
    var rows := FilterRows(kinds, image.pixels, Zeros(4 * image.width));
    assert chunks[1..] == rest;
    SplitCollects(pieces, header, []);
    assert [] + Flatten(pieces) == Flatten(pieces);
    assert rows + [] == rows;
    DecoderInverts(image, kinds, chunks, Flatten(pieces), [], z);
  }

  /** The pixel data of a decoded image: whole scanlines, except that the last may lack up to
      four bytes, which the byte loop does not notice when its filter type is zero. */
  predicate Fits(pixels: seq<byte>, rows: nat, stride: nat) {
    if rows == 0 || stride == 0 then pixels == [] else rows * stride - 4 <= |pixels| <= rows * stride
  }

  lemma {:induction false} UnfilterReads(kind: byte, line: seq<byte>, prev: seq<byte>, x: nat, stride: nat)
    requires x < stride && Unfilter(kind, line, prev, x, stride).Ok?
    ensures |prev| >= stride && (stride > 4 ==> |line| >= stride - 4)
    decreases stride - x
  {
    hide PredictAt;
    if x + 1 < stride {
      UnfilterReads(kind, Step(kind, line, prev, x).value, prev, x + 1, stride);
    }
  }

  lemma {:induction false} DecodedFits(raw: seq<byte>, i: nat, prev: seq<byte>, rows: nat, stride: nat)
    requires stride % 4 == 0 && Scanlines(raw, i, prev, rows, stride).Ok?
    ensures rows > 0 && stride > 0 ==> |prev| >= stride
    ensures Fits(Scanlines(raw, i, prev, rows, stride).value, rows, stride)
    decreases rows
  {
    hide Unfilter;
    if rows > 0 {
      var line := Unfilter(raw[i], Slice(raw, i + 1, i + 1 + stride), prev, 0, stride).value;
      DecodedFits(raw, i + 1 + stride, line, rows - 1, stride);
      if stride > 0 {
        UnfilterReads(raw[i], Slice(raw, i + 1, i + 1 + stride), prev, 0, stride);
        assert rows * stride == stride + (rows - 1) * stride;
      }
    }
  }

  lemma {:induction false} UnfilterNone(line: seq<byte>, prev: seq<byte>, x: nat, stride: nat)
    requires x <= stride <= |prev| && |line| + 4 >= stride
    ensures Unfilter(0, line, prev, x, stride) == Ok(line)
    decreases stride - x
  {
    hide PredictAt;
    if x < stride {
      UnfilterNone(line, prev, x + 1, stride);
    }
  }

  /** What is left behind a scanline fits too, and a scanline that is not whole is the last. */
  lemma FitsRest(pixels: seq<byte>, rows: nat, stride: nat)
    requires rows > 0 && stride % 4 == 0 && Fits(pixels, rows, stride)
    ensures |pixels| + 4 >= stride
    ensures if stride <= |pixels| then Fits(pixels[stride..], rows - 1, stride) else rows == 1
  {
    assert rows * stride == stride + (rows - 1) * stride;
    if rows >= 2 {
      assert (rows - 1) * stride == stride + (rows - 2) * stride;
      assert (rows - 2) * stride >= 0;
    }
  }

  /** A whole scanline of type zero, and what decodes behind it. */
  lemma WholeRow(pixels: seq<byte>, rows: nat, prev: seq<byte>, before: seq<byte>)
    requires rows > 0 && |prev| <= |pixels|
    requires var line, left := pixels[..|prev|], pixels[|prev|..];
      Scanlines(before + [0] + line + RawRows(left, rows - 1, |prev|), |before| + 1 + |prev|, line, rows - 1, |prev|)
      == Ok(left)
    ensures Scanlines(before + RawRows(pixels, rows, |prev|), |before|, prev, rows, |prev|) == Ok(pixels)
  {
    hide Unfilter, Slice;
    var stride := |prev|;
    var line, left := pixels[..stride], pixels[stride..];
    var rest := RawRows(left, rows - 1, stride);
    SliceWhole(pixels, stride);
    RowAt(before, 0, line, rest, []);
    assert before + ([0] + line + rest) + [] == before + ([0] + line + rest);
    UnfilterNone(line, prev, 0, stride);
    assert before + [0] + line + rest == before + ([0] + line + rest);
    assert line + left == pixels;
  }

  lemma LastRowBytes(before: seq<byte>, pixels: seq<byte>, rows: nat, stride: nat)
    requires rows == 1 && |pixels| < stride
    ensures RawRows(pixels, rows, stride) == [0] + pixels
    ensures var raw := before + ([0] + pixels);
      |raw| > |before| && raw[|before|] == 0 && Slice(raw, |before| + 1, |before| + 1 + stride) == pixels
  {
    assert RawRows([], rows - 1, stride) == [];
  }

  /** A last scanline that is not whole. */
  lemma LastRow(pixels: seq<byte>, rows: nat, prev: seq<byte>, before: seq<byte>)
    requires rows == 1 && |pixels| < |prev| <= |pixels| + 4
    ensures Scanlines(before + RawRows(pixels, rows, |prev|), |before|, prev, rows, |prev|) == Ok(pixels)
  {
    hide Unfilter, RawRows;
    LastRowBytes(before, pixels, rows, |prev|);
    UnfilterNone(pixels, prev, 0, |prev|);
    assert pixels + [] == pixels;
  }

  lemma {:induction false} RawRowsInvert(pixels: seq<byte>, rows: nat, prev: seq<byte>, before: seq<byte>)
    requires |prev| % 4 == 0 && Fits(pixels, rows, |prev|)
    ensures Scanlines(before + RawRows(pixels, rows, |prev|), |before|, prev, rows, |prev|) == Ok(pixels)
    decreases rows
  {
    if rows > 0 {
      hide Scanlines, RawRows;
      var stride := |prev|;
      FitsRest(pixels, rows, stride);
      if stride <= |pixels| {
        var line := pixels[..stride];
        RawRowsInvert(pixels[stride..], rows - 1, line, before + [0] + line);
        WholeRow(pixels, rows, prev, before);
      } else {
        LastRow(pixels, rows, prev, before);
      }
    }
  }

  lemma SliceWhole(s: seq<byte>, n: nat)
    requires n <= |s|
    ensures Slice(s, 0, n) == s[..n]
  {
  }

  /** What `_encode_png` writes, `_decode_png` reads back: exactly the images whose pixel data
      fits, among them every image of width x height x 4 bytes. */
  lemma RoundTrip(image: Image, z: Zlib)
    requires Lawful(z) && Encode(image, z).Ok?
    ensures Decode(Encode(image, z).value, z) == Ok(image) <==> Fits(image.pixels, image.height, 4 * image.width)
  {
    hide Scanlines, RawRows, Fits, Encode, Decode;
    var stride := 4 * image.width;
    var rows := RawRows(image.pixels, image.height, stride);
    EncodedDecodes(image, z);
    if Fits(image.pixels, image.height, stride) {
      RawRowsInvert(image.pixels, image.height, Zeros(stride), []);
      assert [] + rows == rows;
    } else {
      if Scanlines(rows, 0, Zeros(stride), image.height, stride).Ok? {
        DecodedFits(rows, 0, Zeros(stride), image.height, stride);
      }
    }
  }

  /** Decoding what was encoded comes down to its scanlines. */
  lemma EncodedDecodes(image: Image, z: Zlib)
    requires Lawful(z) && Encode(image, z).Ok?
    ensures Decode(Encode(image, z).value, z)
            == Inflated(Header(image.width, image.height, 8, 6),
                        Some(RawRows(image.pixels, image.height, 4 * image.width)))
  {
    hide Inflated, RawRows, Unpack32, HeaderBytes, Parse;
    var packed := z.compress(RawRows(image.pixels, image.height, 4 * image.width));
    var chunks := [Chunk(IHDR, HeaderBytes(image.width, image.height))] + (DataChunks([packed]) + [Chunk(IEND, [])]);
    assert chunks[1..] == DataChunks([packed]) + [Chunk(IEND, [])];
    SplitCollects([packed], Header(image.width, image.height, 8, 6), []);
    assert [] + (packed + []) == packed;
    EncodedChunks(image, packed, z);
    ParseInverts(SIGNATURE, chunks, z);
  }

  lemma Regroup(a: seq<byte>, b: seq<byte>, c: seq<byte>, d: seq<byte>)
    ensures a + (b + (c + (d + []))) == a + b + c + d
  {
  }

  lemma EncodedChunks(image: Image, packed: seq<byte>, z: Zlib)
    requires image.width < WORD && image.height < WORD && |packed| < WORD
    ensures var chunks :=
        [Chunk(IHDR, HeaderBytes(image.width, image.height))] + (DataChunks([packed]) + [Chunk(IEND, [])]);
      && AreChunks(chunks)
      && SIGNATURE + ChunksBytes(chunks, z)
         == SIGNATURE + ChunkBytes(IHDR, HeaderBytes(image.width, image.height), z)
            + ChunkBytes(IDAT, packed, z) + ChunkBytes(IEND, [], z)
  {
    hide HeaderBytes, ChunkBytes;
    var header := Chunk(IHDR, HeaderBytes(image.width, image.height));
    var data, end := Chunk(IDAT, packed), Chunk(IEND, []);
    assert [header] + (DataChunks([packed]) + [end]) == [header, data, end];
    assert [header, data, end][1..] == [data, end] && [data, end][1..] == [end] && [end][1..] == [];
    assert ChunksBytes([end], z) == ChunkBytes(IEND, [], z) + [];
    assert ChunksBytes([data, end], z) == ChunkBytes(IDAT, packed, z) + ChunksBytes([end], z);
    Regroup(SIGNATURE, ChunkBytes(IHDR, header.payload, z), ChunkBytes(IDAT, packed, z), ChunkBytes(IEND, [], z));
  }

  /** A decoded image has pixel data that fits. */
  lemma DecodedImageFits(data: seq<byte>, z: Zlib)
    requires Decode(data, z).Ok?
    ensures var image := Decode(data, z).value; Fits(image.pixels, image.height, 4 * image.width)
  {
    hide Scanlines, Fits;
    var header := Collected(Parse(data, 8), NO_HEADER, []).value;
    DecodedFits(z.decompress(header.1).value, 0, Zeros(4 * header.0.width), header.0.height, 4 * header.0.width);
  }

  /** The four bytes at k, most significant first. */
  function BigEndian(s: seq<byte>, k: nat): int
    requires k + 4 <= |s|
  {
    var a: int, b: int, c: int, d: int := s[k], s[k + 1], s[k + 2], s[k + 3];
    a * 0x100_0000 + b * 0x1_0000 + c * 0x100 + d
  }

  lemma UnpackedIsBigEndian(s: seq<byte>, k: nat)
    requires k + 4 <= |s|
    ensures Unpack32(s[k..k + 4]) == BigEndian(s, k)
  {
    var t := s[k..k + 4];
    assert t[0] == s[k] && t[1] == s[k + 1] && t[2] == s[k + 2] && t[3] == s[k + 3];
  }

  /** The fields of a header chunk. */
  lemma HeaderInFull(s: seq<byte>)
    requires |s| == 10
    ensures HeaderOf(s) == Header(BigEndian(s, 0), BigEndian(s, 4), s[8], s[9])
  {
    hide Unpack32;
    UnpackedIsBigEndian(s, 0);
    UnpackedIsBigEndian(s, 4);
    assert s[..4] == s[0..4];
  }

  /** When the byte loop raises: for a neighbour or a byte that is not there, unless the type is
      zero, which reads only its neighbours, or for an unknown type. */
  lemma {:induction false} UnfilterFailsFrom(kind: byte, line: seq<byte>, prev: seq<byte>, x: nat, stride: nat)
    requires x <= stride && kind <= 4
    ensures Unfilter(kind, line, prev, x, stride).Ok? <==>
      || x == stride
      || (stride <= |prev| && (if kind == 0 then stride <= 4 || stride - 4 <= |line| else stride <= |line|))
      || (stride <= |prev| && kind == 0 && stride <= |line| + 4)
    ensures Unfilter(kind, line, prev, x, stride).Err? ==>
      Unfilter(kind, line, prev, x, stride).error == IndexOutOfRange
    decreases stride - x
  {
    hide PredictAt;
    if x < stride {
      var step := Step(kind, line, prev, x);
      if step.Ok? {
        UnfilterFailsFrom(kind, step.value, prev, x + 1, stride);
      }
    }
  }

  lemma UnfilterFails(kind: byte, line: seq<byte>, prev: seq<byte>, stride: nat)
    requires stride > 0
    ensures Unfilter(kind, line, prev, 0, stride).Ok? <==>
      kind <= 4 && stride <= |prev| && stride <= |line| + (if kind == 0 then 4 else 0)
    ensures Unfilter(kind, line, prev, 0, stride).Err? ==>
      Unfilter(kind, line, prev, 0, stride).error == if kind > 4 && prev != [] then UnknownFilter else IndexOutOfRange
  {
    if kind <= 4 {
      UnfilterFailsFrom(kind, line, prev, 0, stride);
    }
  }

  predicate IsHeader(c: Chunk) { c.kind == [73, 72, 68, 82] }

  predicate IsData(c: Chunk) { c.kind == [73, 68, 65, 84] }

  /** The payloads of all data chunks, joined. */
  function DataOf(chunks: seq<Chunk>): seq<byte> {
    if chunks == [] then []
    else
      var last := |chunks| - 1;
      DataOf(chunks[..last]) + if IsData(chunks[last]) then chunks[last].payload else []
  }

  /** The last header chunk, if any. */
  function HeaderAmong(chunks: seq<Chunk>): Option<Chunk> {
    if chunks == [] then None
    else
      var last := |chunks| - 1;
      if IsHeader(chunks[last]) then Some(chunks[last]) else HeaderAmong(chunks[..last])
  }

  lemma {:induction false} CollectConcat(a: seq<Chunk>, b: seq<Chunk>, header: Header, idat: seq<byte>)
    ensures Collect(a + b, header, idat) == var first := Collect(a, header, idat);
      if first.Err? then first else Collect(b, first.value.0, first.value.1)
    decreases |a|
  {
    hide HeaderOf;
    if a == [] {
      assert a + b == b;
    } else {
      assert (a + b)[1..] == a[1..] + b;
      var payload := a[0].payload;
      if a[0].kind == IHDR {
        if |payload| >= 10 {
          CollectConcat(a[1..], b, HeaderOf(payload[..10]), idat);
        }
      } else {
        CollectConcat(a[1..], b, header, if a[0].kind == IDAT then idat + payload else idat);
      }
    }
  }

  /** The last header, and the data of all data chunks, whatever stands among them; nothing exactly
      when a header chunk has less than ten bytes. */
  predicate Gathers(chunks: seq<Chunk>, r: Result<(Header, seq<byte>)>) {
    && (r.Ok? <==> forall k :: 0 <= k < |chunks| && IsHeader(chunks[k]) ==> |chunks[k].payload| >= 10)
    && (r.Ok? ==>
          && r.value.1 == DataOf(chunks)
          && match HeaderAmong(chunks)
             case None => r.value.0 == NO_HEADER
             case Some(c) => |c.payload| >= 10 && r.value.0 == HeaderOf(c.payload[..10]))
  }

  /** One more chunk. */
  lemma CollectedChunk(c: Chunk, header: Header, idat: seq<byte>)
    ensures var r := Collect([c], header, idat);
      if IsHeader(c) then if |c.payload| < 10 then r.Err? else r == Ok((HeaderOf(c.payload[..10]), idat))
      else r == Ok((header, if IsData(c) then idat + c.payload else idat))
  {
    hide HeaderOf;
    assert [c][1..] == [];
  }

  lemma GathersOneMore(front: seq<Chunk>, c: Chunk, r: Result<(Header, seq<byte>)>)
    requires Gathers(front, r)
    ensures Gathers(front + [c], if r.Err? then r else Collect([c], r.value.0, r.value.1))
  {
    hide HeaderOf, Collect, HeaderAmong, DataOf;
    var all := front + [c];
    assert forall k :: 0 <= k < |front| ==> all[k] == front[k];
    assert all[|front|] == c;
    DataGrows(front, c);
    if r.Ok? {
      CollectedChunk(c, r.value.0, r.value.1);
    }
  }

  lemma DataGrows(front: seq<Chunk>, c: Chunk)
    ensures DataOf(front + [c]) == if IsData(c) then DataOf(front) + c.payload else DataOf(front)
    ensures HeaderAmong(front + [c]) == if IsHeader(c) then Some(c) else HeaderAmong(front)
    ensures !(IsHeader(c) && IsData(c))
  {
    assert (front + [c])[..|front|] == front;
    if IsHeader(c) {
      assert c.kind[1] == 72;
    }
  }

  /** What the chunk loop collects. */
  lemma {:induction false} CollectInFull(chunks: seq<Chunk>)
    ensures Gathers(chunks, Collect(chunks, NO_HEADER, []))
    decreases |chunks|
  {
    if chunks != [] {
      hide Gathers, Collect;
      var last := |chunks| - 1;
      CollectInFull(chunks[..last]);
      assert chunks == chunks[..last] + [chunks[last]];
      CollectConcat(chunks[..last], [chunks[last]], NO_HEADER, []);
      GathersOneMore(chunks[..last], chunks[last], Collect(chunks[..last], NO_HEADER, []));
    }
  }

  /** Decoding, step by step: the signature, the chunks, the one supported shape, the data. */
  lemma DecodeInFull(data: seq<byte>, z: Zlib)
    ensures Decode(data, z) == Err(NotPng) <==> !([137, 80, 78, 71, 13, 10, 26, 10] <= data)
    ensures [137, 80, 78, 71, 13, 10, 26, 10] <= data && Parse(data, 8).Ok? ==>
      var chunks := Parse(data, 8).value;
      match HeaderAmong(chunks)
      case None => Decode(data, z) == Err(Unsupported)
      case Some(c) =>
        if exists k :: 0 <= k < |chunks| && IsHeader(chunks[k]) && |chunks[k].payload| < 10
        then Decode(data, z) == Err(Malformed)
        else
          |c.payload| >= 10
          && if c.payload[8] != 8 || c.payload[9] != 6 then Decode(data, z) == Err(Unsupported)
             else if z.decompress(DataOf(chunks)).None? then Decode(data, z) == Err(Inflate)
             else
               Decode(data, z)
               == Inflated(Header(BigEndian(c.payload, 0), BigEndian(c.payload, 4), 8, 6), z.decompress(DataOf(chunks)))
    ensures [137, 80, 78, 71, 13, 10, 26, 10] <= data && Parse(data, 8).Err? ==> Decode(data, z) == Err(Malformed)
  {
    hide Parse, Collect, Scanlines, HeaderOf, DataOf, HeaderAmong;
    if Parse(data, 8).Ok? {
      var chunks := Parse(data, 8).value;
      CollectInFull(chunks);
      HeaderPicked(chunks);
      if HeaderAmong(chunks).Some? && |HeaderAmong(chunks).value.payload| >= 10 {
        HeaderInFull(HeaderAmong(chunks).value.payload[..10]);
      }
    }
    var scan := Collected(Parse(data, 8), NO_HEADER, []);
    if scan.Ok? && z.decompress(scan.value.1).Some? {
      var header := scan.value.0;
      ScanlineErrors(z.decompress(scan.value.1).value, 0, Zeros(4 * header.width), header.height, 4 * header.width);
    }
  }

  lemma {:induction false} UnfilterErrors(kind: byte, line: seq<byte>, prev: seq<byte>, x: nat, stride: nat)
    requires x <= stride
    ensures var r := Unfilter(kind, line, prev, x, stride); r.Err? ==> r.error in {IndexOutOfRange, UnknownFilter}
    decreases stride - x
  {
    hide PredictAt;
    if x < stride && Step(kind, line, prev, x).Ok? {
      UnfilterErrors(kind, Step(kind, line, prev, x).value, prev, x + 1, stride);
    }
  }

  /** Scanlines raise for what is not there or an unknown filter only. */
  lemma {:induction false} ScanlineErrors(raw: seq<byte>, i: nat, prev: seq<byte>, rows: nat, stride: nat)
    ensures var r := Scanlines(raw, i, prev, rows, stride); r.Err? ==> r.error in {IndexOutOfRange, UnknownFilter}
    decreases rows
  {
    hide Unfilter, Slice;
    if rows > 0 && i < |raw| {
      UnfilterErrors(raw[i], Slice(raw, i + 1, i + 1 + stride), prev, 0, stride);
      var line := Unfilter(raw[i], Slice(raw, i + 1, i + 1 + stride), prev, 0, stride);
      if line.Ok? {
        ScanlineErrors(raw, i + 1 + stride, line.value, rows - 1, stride);
      }
    }
  }

  lemma {:induction false} HeaderPicked(chunks: seq<Chunk>)
    ensures HeaderAmong(chunks).None? ==> forall k :: 0 <= k < |chunks| ==> !IsHeader(chunks[k])
    decreases |chunks|
  {
    if chunks != [] {
      HeaderPicked(chunks[..|chunks| - 1]);
      assert forall k :: 0 <= k < |chunks| - 1 ==> chunks[..|chunks| - 1][k] == chunks[k];
    }
  }

  function Followed(chunks: seq<Chunk>, rest: Result<seq<Chunk>>): Result<seq<Chunk>> {
    if rest.Err? then rest else Ok(chunks + rest.value)
  }

  /** One chunk, and what is behind it. */
  lemma ParseStep(data: seq<byte>, pos: nat)
    requires pos + 4 <= |data|
    ensures var n := Unpack32(data[pos..pos + 4]);
      Parse(data, pos)
      == Followed([Chunk(Slice(data, pos + 4, pos + 8), Slice(data, pos + 8, pos + 8 + n))], Parse(data, pos + 12 + n))
  {
    hide Unpack32, Slice;
  }

  lemma ParseEnd(data: seq<byte>, pos: nat)
    requires pos >= |data|
    ensures Parse(data, pos) == Ok([])
  {
  }

  /** Behind whole chunks parsing goes on. */
  lemma {:induction false} ParseGoesOn(before: seq<byte>, chunks: seq<Chunk>, tail: seq<byte>, z: Zlib)
    requires AreChunks(chunks)
    ensures var data := before + ChunksBytes(chunks, z) + tail;
      Parse(data, |before|) == Followed(chunks, Parse(data, |before + ChunksBytes(chunks, z)|))
    decreases |chunks|
  {
    hide Unpack32, ChunkBytes, Slice, Parse;
    var data := before + ChunksBytes(chunks, z) + tail;
    if chunks == [] {
      assert data == before + tail && before + ChunksBytes(chunks, z) == before;
      FollowNothing(Parse(data, |before|));
    } else {
      var c, rest := chunks[0], ChunksBytes(chunks[1..], z);
      var next := before + ChunkBytes(c.kind, c.payload, z);
      ChunkAt(before, c.kind, c.payload, rest + tail, z);
      assert data == before + (ChunkBytes(c.kind, c.payload, z) + (rest + tail)) && data == next + rest + tail;
      ParseStep(data, |before|);
      ParseGoesOn(next, chunks[1..], tail, z);
      assert |next + rest| == |before + ChunksBytes(chunks, z)|;
      FollowOne(c, chunks, Parse(data, |next + rest|));
    }
  }

  lemma FollowNothing(rest: Result<seq<Chunk>>)
    ensures Followed([], rest) == rest
  {
    assert rest.Ok? ==> [] + rest.value == rest.value;
  }

  lemma FollowOne(c: Chunk, chunks: seq<Chunk>, rest: Result<seq<Chunk>>)
    requires chunks != [] && chunks[0] == c
    ensures Followed([c], Followed(chunks[1..], rest)) == Followed(chunks, rest)
  {
    assert rest.Ok? ==> [c] + (chunks[1..] + rest.value) == chunks + rest.value;
  }

  /** A chunk that its announced length takes past the end. */
  lemma TornChunk(front: seq<byte>, tail: seq<byte>)
    requires |tail| >= 4 && |tail| <= 12 + BigEndian(tail, 0)
    ensures Parse(front + tail, |front|) == Ok([Torn(tail)])
  {
    hide Unpack32, Parse, BigEndian, Slice;
    var data, n := front + tail, BigEndian(tail, 0);
    UnpackedIsBigEndian(tail, 0);
    assert data[|front|..|front| + 4] == tail[0..4];
    TornParts(front, tail);
    ParseStep(data, |front|);
    ParseEnd(data, |front| + 12 + n);
    assert [Torn(tail)] + [] == [Torn(tail)];
  }

  lemma TornParts(front: seq<byte>, tail: seq<byte>)
    requires |tail| >= 4 && BigEndian(tail, 0) >= 0
    ensures var data, n := front + tail, BigEndian(tail, 0);
      && Slice(data, |front| + 4, |front| + 8) == Torn(tail).kind
      && Slice(data, |front| + 8, |front| + 8 + n) == Torn(tail).payload
  {
    hide BigEndian;
  }

  /** The part of a chunk that is there. */
  function Torn(tail: seq<byte>): Chunk
    requires |tail| >= 4
  {
    var n := BigEndian(tail, 0);
    Chunk(tail[4..if |tail| < 8 then |tail| else 8],
          if |tail| < 8 then [] else tail[8..if |tail| < 8 + n then |tail| else 8 + n])
  }

  /** What is left behind whole chunks: one to three bytes raise, a chunk that is not whole is
      taken as far as it goes. */
  lemma TornTail(before: seq<byte>, chunks: seq<Chunk>, tail: seq<byte>, z: Zlib)
    requires AreChunks(chunks)
    ensures var data := before + ChunksBytes(chunks, z) + tail;
      && (0 < |tail| < 4 ==> Parse(data, |before|) == Err(Malformed))
      && (|tail| >= 4 && |tail| <= 12 + BigEndian(tail, 0) ==> Parse(data, |before|) == Ok(chunks + [Torn(tail)]))
  {
    var front := before + ChunksBytes(chunks, z);
    ParseGoesOn(before, chunks, tail, z);
    hide Unpack32, ChunksBytes, Torn, BigEndian;
    if |tail| >= 4 && |tail| <= 12 + BigEndian(tail, 0) {
      hide Parse;
      TornChunk(front, tail);
    }
  }

  lemma {:induction false} RawRowsSize(pixels: seq<byte>, rows: nat, stride: nat)
    requires |pixels| == rows * stride
    ensures |RawRows(pixels, rows, stride)| == rows * (1 + stride)
    decreases rows
  {
    if rows > 0 {
      Multiples(rows, stride);
      RawRowsSize(pixels[stride..], rows - 1, stride);
    }
  }

  /** The scanline at a place of the raw data is the row at a place of the pixel data. */
  predicate IsRow(raw: seq<byte>, at: nat, pixels: seq<byte>, off: nat, stride: nat) {
    && at + 1 + stride <= |raw| && off + stride <= |pixels|
    && raw[at..at + 1 + stride] == [0] + pixels[off..off + stride]
  }

  lemma RowShifted(
    first: seq<byte>, raw: seq<byte>, at: nat, front: seq<byte>, pixels: seq<byte>, off: nat, stride: nat)
    requires IsRow(raw, at, pixels, off, stride)
    ensures IsRow(first + raw, |first| + at, front + pixels, |front| + off, stride)
  {
    assert (first + raw)[|first| + at..|first| + at + 1 + stride] == raw[at..at + 1 + stride];
    assert (front + pixels)[|front| + off..|front| + off + stride] == pixels[off..off + stride];
  }

  /** The bytes of the scanlines: a zero before each, then its bytes of the pixel data. */
  lemma {:induction false} RawRowsFrom(pixels: seq<byte>, rows: nat, stride: nat, y: nat, at: nat, off: nat)
    requires y < rows && |pixels| == rows * stride && at == y * (1 + stride) && off == y * stride
    ensures IsRow(RawRows(pixels, rows, stride), at, pixels, off, stride)
    decreases rows
  {
    hide RawRows, IsRow;
    Multiples(rows, stride);
    var front, left := pixels[..stride], pixels[stride..];
    FirstRawRow(pixels, rows, stride);
    var rest := RawRows(left, rows - 1, stride);
    if y == 0 {
      FirstIsRow(front, rest, left, stride);
    } else {
      Multiples(y, stride);
      RawRowsFrom(left, rows - 1, stride, y - 1, at - 1 - stride, off - stride);
      RowShifted([0] + front, rest, at - 1 - stride, front, left, off - stride, stride);
    }
    assert pixels == front + left;
  }

  lemma FirstIsRow(front: seq<byte>, rest: seq<byte>, left: seq<byte>, stride: nat)
    requires |front| == stride
    ensures IsRow([0] + front + rest, 0, front + left, 0, stride)
  {
    assert (front + left)[0..stride] == front;
    assert ([0] + front + rest)[0..1 + stride] == [0] + front;
  }

  lemma RawRowsAt(pixels: seq<byte>, rows: nat, stride: nat, y: nat)
    requires y < rows && |pixels| == rows * stride
    ensures |RawRows(pixels, rows, stride)| == rows * (1 + stride)
    ensures IsRow(RawRows(pixels, rows, stride), y * (1 + stride), pixels, y * stride, stride)
  {
    hide RawRows, IsRow;
    RawRowsSize(pixels, rows, stride);
    Multiples(y + 1, stride);
    RawRowsFrom(pixels, rows, stride, y, y * (1 + stride), y * stride);
  }

  lemma FirstRawRow(pixels: seq<byte>, rows: nat, stride: nat)
    requires rows > 0 && stride <= |pixels|
    ensures RawRows(pixels, rows, stride) == [0] + pixels[..stride] + RawRows(pixels[stride..], rows - 1, stride)
  {
    SliceWhole(pixels, stride);
  }

  lemma Multiples(rows: nat, stride: nat)
    requires rows > 0
    ensures rows * stride == stride + (rows - 1) * stride
    ensures rows * (1 + stride) == 1 + stride + (rows - 1) * (1 + stride)
    ensures (rows - 1) * stride >= 0 && (rows - 1) * (1 + stride) >= 0
  {
  }

  /** The file `_encode_png` writes, byte by byte, n being the size of the compressed scanlines;
      each CRC is that of kind and payload. It raises exactly for sizes of more than four bytes. */
  lemma EncodedInFull(image: Image, z: Zlib)
    ensures var packed := z.compress(RawRows(image.pixels, image.height, 4 * image.width));
      Encode(image, z) == Err(Unpackable) <==>
        image.width >= 0x1_0000_0000 || image.height >= 0x1_0000_0000 || |packed| >= 0x1_0000_0000
    ensures var packed := z.compress(RawRows(image.pixels, image.height, 4 * image.width));
      Encode(image, z).Ok? ==>
        var f, n := Encode(image, z).value, |packed|;
        && |f| == 57 + n && f[..8] == [137, 80, 78, 71, 13, 10, 26, 10]
        && f[8..16] == [0, 0, 0, 13, 73, 72, 68, 82]
        && BigEndian(f, 16) == image.width && BigEndian(f, 20) == image.height && f[24..29] == [8, 6, 0, 0, 0]
        && BigEndian(f, 29) == z.crc(f[12..29]) % 0x1_0000_0000
        && BigEndian(f, 33) == n && f[37..41] == [73, 68, 65, 84] && f[41..41 + n] == packed
        && BigEndian(f, 41 + n) == z.crc(f[37..41 + n]) % 0x1_0000_0000
        && f[45 + n..53 + n] == [0, 0, 0, 0, 73, 69, 78, 68]
        && BigEndian(f, 53 + n) == z.crc(f[49 + n..53 + n]) % 0x1_0000_0000
  {
    hide RawRows, Unpack32, BigEndian;
    var packed := z.compress(RawRows(image.pixels, image.height, 4 * image.width));
    if Encode(image, z).Ok? {
      EncodedFile(image.width, image.height, packed, z);
    }
  }

  lemma EncodedFile(width: nat, height: nat, packed: seq<byte>, z: Zlib)
    requires width < WORD && height < WORD && |packed| < WORD
    ensures var n := |packed|;
      var f := SIGNATURE + ChunkBytes(IHDR, HeaderBytes(width, height), z)
        + ChunkBytes(IDAT, packed, z) + ChunkBytes(IEND, [], z);
      && |f| == 57 + n && f[..8] == [137, 80, 78, 71, 13, 10, 26, 10]
      && f[8..16] == [0, 0, 0, 13, 73, 72, 68, 82]
      && BigEndian(f, 16) == width && BigEndian(f, 20) == height && f[24..29] == [8, 6, 0, 0, 0]
      && BigEndian(f, 29) == z.crc(f[12..29]) % 0x1_0000_0000
      && BigEndian(f, 33) == n && f[37..41] == [73, 68, 65, 84] && f[41..41 + n] == packed
      && BigEndian(f, 41 + n) == z.crc(f[37..41 + n]) % 0x1_0000_0000
      && f[45 + n..53 + n] == [0, 0, 0, 0, 73, 69, 78, 68]
      && BigEndian(f, 53 + n) == z.crc(f[49 + n..53 + n]) % 0x1_0000_0000
  {
    hide BigEndian, ChunkBytes, HeaderBytes;
    var n, header := |packed|, HeaderBytes(width, height);
    var a, b, c := ChunkBytes(IHDR, header, z), ChunkBytes(IDAT, packed, z), ChunkBytes(IEND, [], z);
    var f := SIGNATURE + a + b + c;
    ChunkLayout(SIGNATURE, IHDR, HeaderBytes(width, height), b + c, z);
    ChunkLayout(SIGNATURE + a, IDAT, packed, c, z);
    ChunkLayout(SIGNATURE + a + b, IEND, [], [], z);
    assert SIGNATURE + a + (b + c) == f && SIGNATURE + a + b + c + [] == f;
    HeaderLayout(width, height);
    HeaderPlaced(f, HeaderBytes(width, height));
    Empty32(f, 45 + n);
    Thirteen32(f);
    assert f[8..16] == f[8..12] + f[12..16] && f[45 + n..53 + n] == f[45 + n..49 + n] + f[49 + n..53 + n];
  }

  /** Where the parts of a chunk lie in a file. */
  lemma ChunkLayout(before: seq<byte>, kind: seq<byte>, payload: seq<byte>, after: seq<byte>, z: Zlib)
    requires |kind| == 4 && |payload| < WORD
    ensures var f, at, n := before + ChunkBytes(kind, payload, z) + after, |before|, |payload|;
      && |ChunkBytes(kind, payload, z)| == 12 + n && |f| == at + 12 + n + |after|
      && BigEndian(f, at) == n && f[at..at + 4] == Pack32(n)
      && f[at + 4..at + 8] == kind && f[at + 8..at + 8 + n] == payload
      && BigEndian(f, at + 8 + n) == z.crc(f[at + 4..at + 8 + n]) % 0x1_0000_0000
  {
    hide Unpack32, BigEndian;
    var f, at, n := before + ChunkBytes(kind, payload, z) + after, |before|, |payload|;
    var crc := z.crc(kind + payload) % WORD;
    assert f[at..at + 4] == Pack32(n) && f[at + 4..at + 8 + n] == kind + payload;
    assert f[at + 8 + n..at + 12 + n] == Pack32(crc);
    UnpackedIsBigEndian(f, at);
    UnpackedIsBigEndian(f, at + 8 + n);
  }

  lemma HeaderLayout(width: nat, height: nat)
    requires width < WORD && height < WORD
    ensures var s := HeaderBytes(width, height);
      && |s| == 13 && BigEndian(s, 0) == width && BigEndian(s, 4) == height && s[8..13] == [8, 6, 0, 0, 0]
  {
    hide Unpack32, BigEndian;
    var s := HeaderBytes(width, height);
    assert s[0..4] == Pack32(width) && s[4..8] == Pack32(height);
    UnpackedIsBigEndian(s, 0);
    UnpackedIsBigEndian(s, 4);
  }

  lemma HeaderPlaced(f: seq<byte>, s: seq<byte>)
    requires |s| == 13 && |f| >= 29 && f[16..29] == s
    ensures BigEndian(f, 16) == BigEndian(s, 0) && BigEndian(f, 20) == BigEndian(s, 4) && f[24..29] == s[8..13]
  {
    forall k | 0 <= k < 13 ensures f[16 + k] == s[k] {
      assert f[16..29][k] == s[k];
    }
  }

  lemma Empty32(f: seq<byte>, at: nat)
    requires at + 4 <= |f| && f[at..at + 4] == Pack32(0)
    ensures f[at..at + 4] == [0, 0, 0, 0]
  {
  }

  lemma Thirteen32(f: seq<byte>)
    requires 12 <= |f| && f[8..12] == Pack32(13)
    ensures f[8..12] == [0, 0, 0, 13]
  {
  }
}
