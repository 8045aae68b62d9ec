/** When palette snapping is idempotent, and what that makes of a regenerated raster. */
module PaletteProofs {
  import opened Common
  import opened Png
  import opened PngProofs
  import opened Palette

  /** The first role that has the colour. */
  predicate FirstWith(roles: seq<Role>, c: Color, j: nat) {
    j < |roles| && Holds(roles[j], c) && forall k :: 0 <= k < j ==> !Holds(roles[k], c)
  }

  lemma NearestOfHeld(roles: seq<Role>, c: Color, j: nat)
    requires FirstWith(roles, c, j)
    ensures Nearest(c, roles) == j
  {
    assert RoleDistance(c, roles[j]) == 0;
    assert IsNearest(c, roles, j);
    NearestIsNearest(c, roles);
    NearestIsUnique(c, roles, j, Nearest(c, roles));
  }

  /** The first role that has the canonical colour of role i gives that colour back, or role i
      is never chosen because an earlier role has its legacy colour too. */
  ghost predicate StableAt(roles: seq<Role>, i: nat)
    requires i < |roles|
  {
    || (exists j: nat :: FirstWith(roles, roles[i].canonical, j) && roles[j].canonical == roles[i].canonical)
    || (exists k :: 0 <= k < i && Holds(roles[k], roles[i].legacy))
  }

  ghost predicate Stable(roles: seq<Role>) {
    forall i :: 0 <= i < |roles| ==> StableAt(roles, i)
  }

  ghost predicate Idempotent(s: Scheme, composite: bool)
    requires s.roles != []
  {
    forall p: seq<byte> :: |p| == 4 ==>
      SnapPixel(SnapPixel(p, composite, s), composite, s) == SnapPixel(p, composite, s)
  }

  lemma {:induction false} FirstExists(roles: seq<Role>, c: Color, i: nat) returns (j: nat)
    requires i < |roles| && Holds(roles[i], c)
    ensures j <= i && FirstWith(roles, c, j)
  {
    if k: nat :| k < i && Holds(roles[k], c) {
      j := FirstExists(roles, c, k);
    } else {
      j := i;
    }
  }

  /** A role whose canonical colour an earlier role has is chosen only for its legacy colour's sake. */
  lemma ChosenRole(roles: seq<Role>, c: Color)
    requires roles != [] && StableAt(roles, Nearest(c, roles))
    ensures roles[Nearest(roles[Nearest(c, roles)].canonical, roles)].canonical == roles[Nearest(c, roles)].canonical
  {
    hide Distance, RoleDistance;
    var i := Nearest(c, roles);
    NearestIsNearest(c, roles);
    var j := FirstExists(roles, roles[i].canonical, i);
    NearestOfHeld(roles, roles[i].canonical, j);
    if k :| 0 <= k < i && Holds(roles[k], roles[i].legacy) {
      SidesOf(c, roles[i]);
      SidesOf(c, roles[j]);
      SidesOf(c, roles[k]);
      assert j == i;
    } else {
      var first: nat :| FirstWith(roles, roles[i].canonical, first) && roles[first].canonical == roles[i].canonical;
      NearestOfHeld(roles, roles[i].canonical, first);
    }
  }

  lemma SeenAgain(c: Color, alpha: byte, composite: bool, ink: Color)
    ensures Seen(PixelOf(c, if composite then 255 else alpha), composite, ink) == c
  {
    OpaqueOver(c.red, ink.red);
    OpaqueOver(c.green, ink.green);
    OpaqueOver(c.blue, ink.blue);
  }

  lemma SnapTwice(p: seq<byte>, s: Scheme, composite: bool)
    requires s.roles != [] && |p| == 4 && Stable(s.roles)
    ensures SnapPixel(SnapPixel(p, composite, s), composite, s) == SnapPixel(p, composite, s)
  {
    hide Nearest, Seen;
    var c := Seen(p, composite, s.ink);
    ChosenRole(s.roles, c);
    SeenAgain(s.roles[Nearest(c, s.roles)].canonical, p[3], composite, s.ink);
  }

  /** Snapping is idempotent, transparent or composited, exactly under palettes that are stable. */
  lemma IdempotentExactly(s: Scheme, composite: bool)
    requires s.roles != []
    ensures Idempotent(s, composite) <==> Stable(s.roles)
  {
    hide SnapPixel, StableAt;
    if Stable(s.roles) {
      forall p: seq<byte> | |p| == 4
        ensures SnapPixel(SnapPixel(p, composite, s), composite, s) == SnapPixel(p, composite, s)
      {
        SnapTwice(p, s, composite);
      }
    }
    if Idempotent(s, composite) {
      forall i | 0 <= i < |s.roles| ensures StableAt(s.roles, i) {
        IdempotentAt(s, composite, i);
      }
    }
  }

  lemma IdempotentAt(s: Scheme, composite: bool, i: nat)
    requires i < |s.roles| && Idempotent(s, composite)
    ensures StableAt(s.roles, i)
  {
    hide Nearest, Seen;
    var roles, legacy, canonical := s.roles, s.roles[i].legacy, s.roles[i].canonical;
    if !exists k :: 0 <= k < i && Holds(roles[k], legacy) {
      NearestOfHeld(roles, legacy, i);
      var p := PixelOf(legacy, 255);
      SeenAgain(legacy, 255, composite, s.ink);
      SeenAgain(canonical, 255, composite, s.ink);
      assert SnapPixel(p, composite, s) == PixelOf(canonical, 255);
      var j := FirstExists(roles, canonical, i);
      NearestOfHeld(roles, canonical, j);
      assert SnapPixel(SnapPixel(p, composite, s), composite, s) == PixelOf(roles[j].canonical, 255);
    }
  }

  /** In particular where no canonical colour occurs in another role. */
  lemma SeparateIsStable(roles: seq<Role>)
    requires forall i, j :: 0 <= i < |roles| && 0 <= j < |roles| && i != j ==> !Holds(roles[j], roles[i].canonical)
    ensures Stable(roles)
  {
    forall i | 0 <= i < |roles| ensures StableAt(roles, i) {
      assert FirstWith(roles, roles[i].canonical, i);
    }
  }

  /** A digit of a hexadecimal colour. */
  function HexDigit(c: char): (d: nat)
    ensures d < 16
  {
    if '0' <= c <= '9' then c as int - '0' as int
    else if 'a' <= c <= 'f' then c as int - 'a' as int + 10
    else if 'A' <= c <= 'F' then c as int - 'A' as int + 10
    else 0
  }

  /** `_hex` of a colour `#rrggbb`. */
  function Hex(text: string): Color
    requires |text| == 7
  {
    Color(
      16 * HexDigit(text[1]) + HexDigit(text[2]), 16 * HexDigit(text[3]) + HexDigit(text[4]),
      16 * HexDigit(text[5]) + HexDigit(text[6]))
  }

  /** The sixteen digits, in either case, weigh their place in the row. */
  lemma HexDigitsInOrder(d: nat)
    requires d < 16
    ensures HexDigit("0123456789abcdef"[d]) == d && HexDigit("0123456789ABCDEF"[d]) == d
  {
  }

  /** The shipped palettes. */
  const SHIPPED := [
    Role(Hex("#1C2522"), Hex("#17191c")), Role(Hex("#F6F8F7"), Hex("#f5f6f7")), Role(Hex("#5B8DF6"), Hex("#c4d6f7"))]

  lemma ShippedIsStable()
    ensures Stable(SHIPPED)
  {
    SeparateIsStable(SHIPPED);
  }

  lemma {:induction false} SnappedTwice(pixels: seq<byte>, s: Scheme, composite: bool)
    requires s.roles != [] && |pixels| % 4 == 0 && Stable(s.roles)
    ensures Snapped(Snapped(pixels, composite, s), composite, s) == Snapped(pixels, composite, s)
  {
    hide SnapPixel;
    if pixels != [] {
      var n := |pixels| - 4;
      SnappedTwice(pixels[..n], s, composite);
      SnapTwice(pixels[n..], s, composite);
      var once := Snapped(pixels, composite, s);
      assert once[..n] == Snapped(pixels[..n], composite, s);
      assert once[n..] == SnapPixel(pixels[n..], composite, s);
    }
  }

  /** A regenerated raster decodes to the image with its pixels snapped, and nothing else of it
      changed. */
  lemma RecoloredDecodes(data: seq<byte>, composite: bool, s: Scheme, z: Zlib)
    requires Lawful(z) && s.roles != [] && Recolor(data, composite, s, z).Ok?
    ensures Decode(data, z).Ok? && |Decode(data, z).value.pixels| % 4 == 0
    ensures var image := Decode(data, z).value;
      Decode(Recolor(data, composite, s, z).value, z)
      == Ok(Image(image.width, image.height, Snapped(image.pixels, composite, s)))
  {
    hide Decode, Encode, Fits, Snapped;
    var image := Decode(data, z).value;
    var snapped := image.(pixels := Snapped(image.pixels, composite, s));
    DecodedImageFits(data, z);
    FitsByLength(image.pixels, snapped.pixels, image.height, 4 * image.width);
    RoundTrip(snapped, z);
  }

  /** A raster is refused exactly for what its decoding raises, a last pixel that is not whole, or
      a file too big to be written. */
  lemma RecolorFails(data: seq<byte>, composite: bool, s: Scheme, z: Zlib)
    requires s.roles != []
    ensures var decoded, r := Decode(data, z), Recolor(data, composite, s, z);
      if decoded.Err? then r == Err(decoded.error)
      else if |decoded.value.pixels| % 4 != 0 then r == Err(ShortPixel)
      else r.Err? ==> r.error == Unpackable
  {
    hide Decode, Snapped;
  }

  /** A regenerated raster regenerates to itself. */
  lemma RecolorTwice(data: seq<byte>, composite: bool, s: Scheme, z: Zlib)
    requires Lawful(z) && s.roles != [] && Stable(s.roles) && Recolor(data, composite, s, z).Ok?
    ensures Recolor(Recolor(data, composite, s, z).value, composite, s, z) == Recolor(data, composite, s, z)
  {
    hide Decode, Encode, Fits, Snapped;
    var image := Decode(data, z).value;
    var snapped := image.(pixels := Snapped(image.pixels, composite, s));
    DecodedImageFits(data, z);
    assert Fits(snapped.pixels, snapped.height, 4 * snapped.width) by {
      FitsByLength(image.pixels, snapped.pixels, image.height, 4 * image.width);
    }
    RoundTrip(snapped, z);
    SnappedTwice(image.pixels, s, composite);
  }

  lemma FitsByLength(a: seq<byte>, b: seq<byte>, rows: nat, stride: nat)
    requires |a| == |b| && Fits(a, rows, stride)
    ensures Fits(b, rows, stride)
  {
  }
}
