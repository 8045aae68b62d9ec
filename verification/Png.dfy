/**
 The PNG codec of tools/generate_brand_assets.py over 8-bit RGBA images.

 A Python slice past the end is shorter, an index past the end raises, and `struct.unpack`
 raises unless it is given exactly its bytes; every raised error is a value here. zlib and the
 CRC are parameters: the decoder never looks at a CRC, and all that is asked of zlib is that
 decompression undoes compression.
 */
module Png {
  import opened Common

  type byte = b: int | 0 <= b < 0x100

  const WORD := 0x1_0000_0000

  datatype Error =
    | NotPng | Malformed | Unsupported | Inflate | IndexOutOfRange | UnknownFilter | ShortPixel | Unpackable | Missing

  datatype Result<+T> = Ok(value: T) | Err(error: Error)

  datatype Zlib = Zlib(
    compress: seq<byte> -> seq<byte>, decompress: seq<byte> -> Option<seq<byte>>, crc: seq<byte> -> nat)

  ghost predicate Lawful(z: Zlib) {
    forall s: seq<byte> :: z.decompress(z.compress(s)) == Some(s)
  }

  datatype Image = Image(width: nat, height: nat, pixels: seq<byte>)

  datatype Header = Header(width: nat, height: nat, bitDepth: nat, colorType: nat)

  const SIGNATURE: seq<byte> := [0x89, 0x50, 0x4E, 0x47, 0x0D, 0x0A, 0x1A, 0x0A]
  const IHDR: seq<byte> := [0x49, 0x48, 0x44, 0x52]
  const IDAT: seq<byte> := [0x49, 0x44, 0x41, 0x54]
  const IEND: seq<byte> := [0x49, 0x45, 0x4E, 0x44]
  const NO_HEADER := Header(0, 0, 0, 0)

  /** `s[lo:hi]`. */
  function Slice(s: seq<byte>, lo: nat, hi: nat): (r: seq<byte>)
    requires lo <= hi
    ensures |r| == (if |s| < lo then 0 else if |s| < hi then |s| - lo else hi - lo)
    ensures forall k :: 0 <= k < |r| ==> r[k] == s[lo + k]
  {
    if hi <= |s| then s[lo..hi] else if lo <= |s| then s[lo..] else []
  }

  /** `struct.pack(">I", n)` of a number it accepts. */
  function Pack32(n: nat): (s: seq<byte>)
    requires n < WORD
    ensures |s| == 4 && Unpack32(s) == n
  {
    var n1 := n / 0x100;
    var n2 := n1 / 0x100;
    var n3 := n2 / 0x100;
    [n3, n2 % 0x100, n1 % 0x100, n % 0x100]
  }

  function Unpack32(s: seq<byte>): nat
    requires |s| == 4
  {
    var a: int, b: int, c: int, d: int := s[0], s[1], s[2], s[3];
    0x100 * (0x100 * (0x100 * a + b) + c) + d
  }

  /** `struct.unpack(">IIBB", …)`. */
  function HeaderOf(s: seq<byte>): Header
    requires |s| == 10
  {
    Header(Unpack32(s[..4]), Unpack32(s[4..8]), s[8], s[9])
  }

  datatype Chunk = Chunk(kind: seq<byte>, payload: seq<byte>)

  /** The chunks from `pos` on, their CRCs unread. */
  function Parse(data: seq<byte>, pos: nat): (r: Result<seq<Chunk>>)
    ensures r.Err? ==> r.error == Malformed
    decreases |data| - pos
  {
    if pos >= |data| then Ok([])
    else if |data| - pos < 4 then Err(Malformed)
    else
      var length := Unpack32(data[pos..pos + 4]);
      var rest := Parse(data, pos + 12 + length);
      if rest.Err? then rest
      else Ok([Chunk(Slice(data, pos + 4, pos + 8), Slice(data, pos + 8, pos + 8 + length))] + rest.value)
  }

  /** The last header and all image data. */
  function Collect(chunks: seq<Chunk>, header: Header, idat: seq<byte>): (r: Result<(Header, seq<byte>)>)
    ensures r.Err? ==> r.error == Malformed
  {
    if chunks == [] then Ok((header, idat))
    else
      var payload := chunks[0].payload;
      if chunks[0].kind == IHDR then
        if |payload| < 10 then Err(Malformed) else Collect(chunks[1..], HeaderOf(payload[..10]), idat)
      else Collect(chunks[1..], header, if chunks[0].kind == IDAT then idat + payload else idat)
  }

  function Collected(chunks: Result<seq<Chunk>>, header: Header, idat: seq<byte>): Result<(Header, seq<byte>)> {
    if chunks.Err? then Err(chunks.error) else Collect(chunks.value, header, idat)
  }

  /** One turn of the chunk loop. */
  lemma CollectedOne(data: seq<byte>, pos: nat, length: nat, chunk: Chunk, header: Header, idat: seq<byte>)
    requires pos + 4 <= |data| && length == Unpack32(data[pos..pos + 4])
    requires chunk == Chunk(Slice(data, pos + 4, pos + 8), Slice(data, pos + 8, pos + 8 + length))
    ensures var all, rest := Collected(Parse(data, pos), header, idat), Parse(data, pos + 12 + length);
      && (chunk.kind == IHDR && |chunk.payload| < 10 ==> all == Err(Malformed))
      && (chunk.kind == IHDR && |chunk.payload| >= 10 ==> all == Collected(rest, HeaderOf(chunk.payload[..10]), idat))
      && (chunk.kind != IHDR && chunk.kind == IDAT ==> all == Collected(rest, header, idat + chunk.payload))
      && (chunk.kind != IHDR && chunk.kind != IDAT ==> all == Collected(rest, header, idat))
  {
    var rest := Parse(data, pos + 12 + length);
    if rest.Ok? {
      assert ([chunk] + rest.value)[1..] == rest.value;
    }
  }

  function Abs(n: int): nat { if n < 0 then -n else n }

  /** The predictor of filter type 4. */
  function Paeth(left: byte, up: byte, upLeft: byte): byte {
    var estimate := left + up - upLeft;
    var da, db, dc := Abs(estimate - left), Abs(estimate - up), Abs(estimate - upLeft);
    if da <= db && da <= dc then left else if db <= dc then up else upLeft
  }

  /** What each filter type None, Sub, Up, Average, Paeth predicts for a byte. */
  function Predict(kind: byte, left: byte, up: byte, upLeft: byte): byte
    requires kind <= 4
  {
    if kind == 0 then 0
    else if kind == 1 then left
    else if kind == 2 then up
    else if kind == 3 then (left + up) / 2
    else Paeth(left, up, upLeft)
  }

  /** The prediction at `x`; bytes left of the scanline are zero. */
  function PredictAt(kind: byte, line: seq<byte>, prev: seq<byte>, x: nat): byte
    requires kind <= 4 && x < |prev| && (x >= 4 ==> x - 4 < |line|)
  {
    Predict(kind, if x >= 4 then line[x - 4] else 0, prev[x], if x >= 4 then prev[x - 4] else 0)
  }

  /** One turn of the byte loop: the neighbours are read whatever the filter. */
  function Step(kind: byte, line: seq<byte>, prev: seq<byte>, x: nat): (r: Result<seq<byte>>)
    ensures r.Ok? ==> |r.value| == |line|
  {
    if (x >= 4 && x - 4 >= |line|) || x >= |prev| then Err(IndexOutOfRange)
    else if kind == 0 then Ok(line)
    else if kind > 4 then Err(UnknownFilter)
    else if x >= |line| then Err(IndexOutOfRange)
    else Ok(line[x := (line[x] + PredictAt(kind, line, prev, x)) % 0x100])
  }

  /** The byte loop from `x` on. */
  function Unfilter(kind: byte, line: seq<byte>, prev: seq<byte>, x: nat, stride: nat): (r: Result<seq<byte>>)
    requires x <= stride
    ensures r.Ok? ==> |r.value| == |line|
    decreases stride - x
  {
    if x == stride then Ok(line)
    else
      var step := Step(kind, line, prev, x);
      if step.Err? then step else Unfilter(kind, step.value, prev, x + 1, stride)
  }

  /** The scanline loop from `i` on. */
  function Scanlines(raw: seq<byte>, i: nat, prev: seq<byte>, rows: nat, stride: nat): Result<seq<byte>>
    decreases rows
  {
    if rows == 0 then Ok([])
    else if i >= |raw| then Err(IndexOutOfRange)
    else
      var line := Unfilter(raw[i], Slice(raw, i + 1, i + 1 + stride), prev, 0, stride);
      if line.Err? then line
      else Prepended(line.value, Scanlines(raw, i + 1 + stride, line.value, rows - 1, stride))
  }

  function Prepended(front: seq<byte>, rest: Result<seq<byte>>): Result<seq<byte>> {
    if rest.Err? then rest else Ok(front + rest.value)
  }

  lemma PrependNothing(rest: Result<seq<byte>>)
    ensures Prepended([], rest) == rest
  {
    assert rest.Ok? ==> [] + rest.value == rest.value;
  }

  lemma PrependTwice(a: seq<byte>, b: seq<byte>, rest: Result<seq<byte>>)
    ensures Prepended(a, Prepended(b, rest)) == Prepended(a + b, rest)
  {
    assert rest.Ok? ==> a + (b + rest.value) == a + b + rest.value;
  }

  function Zeros(n: nat): seq<byte> { seq(n, _ => 0) }

  /** `_decode_png`. */
  function Decode(data: seq<byte>, z: Zlib): Result<Image> {
    if !(SIGNATURE <= data) then Err(NotPng)
    else
      var scan := Collected(Parse(data, 8), NO_HEADER, []);
      if scan.Err? then Err(scan.error)
      else Inflated(scan.value.0, z.decompress(scan.value.1))
  }

  /** The image of a header and its inflated data. */
  function Inflated(header: Header, raw: Option<seq<byte>>): Result<Image> {
    if header.bitDepth != 8 || header.colorType != 6 then Err(Unsupported)
    else if raw.None? then Err(Inflate)
    else
      var pixels := Scanlines(raw.value, 0, Zeros(4 * header.width), header.height, 4 * header.width);
      if pixels.Err? then Err(pixels.error) else Ok(Image(header.width, header.height, pixels.value))
  }

  method ArrayOf(s: seq<byte>) returns (a: array<byte>)
    ensures fresh(a) && a[..] == s
  {
    a := new byte[|s|](k requires 0 <= k < |s| => s[k]);
  }

  /** The byte loop, in place. */
  method UnfilterInPlace(kind: byte, line: array<byte>, prev: array<byte>, stride: nat) returns (r: Result<()>)
    requires line != prev
    modifies line
    ensures match r
      case Ok(_) => Unfilter(kind, old(line[..]), prev[..], 0, stride) == Ok(line[..])
      case Err(e) => Unfilter(kind, old(line[..]), prev[..], 0, stride) == Err(e)
  {
    for x := 0 to stride
      invariant Unfilter(kind, line[..], prev[..], x, stride) == Unfilter(kind, old(line[..]), prev[..], 0, stride)
    {
      if (x >= 4 && x - 4 >= line.Length) || x >= prev.Length {
        return Err(IndexOutOfRange);
      }
      var left, up, upLeft := if x >= 4 then line[x - 4] else 0, prev[x], if x >= 4 then prev[x - 4] else 0;
      if kind > 4 {
        return Err(UnknownFilter);
      }
      if kind != 0 {
        if x >= line.Length {
          return Err(IndexOutOfRange);
        }
        ghost var before := line[..];
        line[x] := (line[x] + Predict(kind, left, up, upLeft)) % 0x100;
        assert line[..] == before[x := line[x]];
      }
    }
    r := Ok(());
  }

  /** One turn of the chunk loop. */
  method TakeChunk(data: seq<byte>, pos: nat, header: Header, idat: seq<byte>)
    returns (r: Result<()>, nextPos: nat, nextHeader: Header, nextIdat: seq<byte>)
    requires pos < |data|
    ensures nextPos > pos
    ensures r.Ok? ==> Collected(Parse(data, nextPos), nextHeader, nextIdat) == Collected(Parse(data, pos), header, idat)
    ensures r.Err? ==> Collected(Parse(data, pos), header, idat) == Err(r.error)
  {
    hide Unpack32, Slice, HeaderOf;
    r, nextPos, nextHeader, nextIdat := Err(Malformed), pos + 12, header, idat;
    if |data| - pos < 4 {
      return;
    }
    var length := Unpack32(data[pos..pos + 4]);
    var kind, chunk := Slice(data, pos + 4, pos + 8), Slice(data, pos + 8, pos + 8 + length);
    CollectedOne(data, pos, length, Chunk(kind, chunk), header, idat);
    if kind == IHDR {
      if |chunk| < 10 {
        return;
      }
      nextHeader := HeaderOf(chunk[..10]);
    } else if kind == IDAT {
      nextIdat := idat + chunk;
    }
    r, nextPos := Ok(()), pos + 12 + length;
  }

  method ScanLoop(data: seq<byte>) returns (r: Result<(Header, seq<byte>)>)
    ensures r == Collected(Parse(data, 8), NO_HEADER, [])
  {
    var pos: nat, header, idat: seq<byte> := 8, NO_HEADER, [];
    while pos < |data|
      invariant Collected(Parse(data, pos), header, idat) == Collected(Parse(data, 8), NO_HEADER, [])
    {
      var taken: Result<()>;
      taken, pos, header, idat := TakeChunk(data, pos, header, idat);
      if taken.Err? {
        return Err(taken.error);
      }
    }
    r := Ok((header, idat));
  }

  /** `_decode_png`, chunk by chunk and scanline by scanline. */
  method DecodePng(data: seq<byte>, z: Zlib) returns (r: Result<Image>)
    ensures r == Decode(data, z)
  {
    if !(SIGNATURE <= data) {
      return Err(NotPng);
    }
    var scan := ScanLoop(data);
    if scan.Err? {
      return Err(scan.error);
    }
    var header, idat := scan.value.0, scan.value.1;
    if header.bitDepth != 8 || header.colorType != 6 {
      return Err(Unsupported);
    }
    var inflated := z.decompress(idat);
    if inflated.None? {
      return Err(Inflate);
    }
    var pixels := DecodeScanlines(inflated.value, header.height, 4 * header.width);
    r := if pixels.Err? then Err(pixels.error) else Ok(Image(header.width, header.height, pixels.value));
  }

  method DecodeScanlines(raw: seq<byte>, height: nat, stride: nat) returns (r: Result<seq<byte>>)
    ensures r == Scanlines(raw, 0, Zeros(stride), height, stride)
  {
    hide Unfilter, Slice;
    var pixels: seq<byte>, i: nat := [], 0;
    var prev := ArrayOf(Zeros(stride));
    ghost var all := Scanlines(raw, i, prev[..], height, stride);
    PrependNothing(all);
    for y := 0 to height
      invariant Prepended(pixels, Scanlines(raw, i, prev[..], height - y, stride)) == all
    {
      if i >= |raw| {
        return Err(IndexOutOfRange);
      }
      var kind := raw[i];
      i := i + 1;
      var line := ArrayOf(Slice(raw, i, i + stride));
      i := i + stride;
      var done := UnfilterInPlace(kind, line, prev, stride);
      if done.Err? {
        return Err(done.error);
      }
      PrependTwice(pixels, line[..], Scanlines(raw, i, line[..], height - y - 1, stride));
      pixels := pixels + line[..];
      prev := line;
    }
    r := Ok(pixels);
    assert pixels + [] == pixels;
  }

  /** `chunk` of `_encode_png`, of a payload whose length `struct.pack` accepts. */
  function ChunkBytes(kind: seq<byte>, payload: seq<byte>, z: Zlib): seq<byte>
    requires |payload| < WORD
  {
    Pack32(|payload|) + kind + payload + Pack32(z.crc(kind + payload) % WORD)
  }

  /** Every scanline behind a filter type of zero. */
  function RawRows(pixels: seq<byte>, rows: nat, stride: nat): seq<byte>
    decreases rows
  {
    if rows == 0 then []
    else [0] + Slice(pixels, 0, stride) + RawRows(if stride <= |pixels| then pixels[stride..] else [], rows - 1, stride)
  }

  function HeaderBytes(width: nat, height: nat): (s: seq<byte>)
    requires width < WORD && height < WORD
    ensures |s| == 13 && HeaderOf(s[..10]) == Header(width, height, 8, 6)
  {
    var s := Pack32(width) + Pack32(height) + [8, 6, 0, 0, 0];
    assert s[..10][..4] == Pack32(width) && s[..10][4..8] == Pack32(height);
    s
  }

  /** `_encode_png`; `struct.pack` raises on a number of more than four bytes. */
  function Encode(image: Image, z: Zlib): Result<seq<byte>> {
    var packed := z.compress(RawRows(image.pixels, image.height, 4 * image.width));
    if image.width >= WORD || image.height >= WORD || |packed| >= WORD then Err(Unpackable)
    else Ok(SIGNATURE + ChunkBytes(IHDR, HeaderBytes(image.width, image.height), z)
              + ChunkBytes(IDAT, packed, z) + ChunkBytes(IEND, [], z))
  }
}
