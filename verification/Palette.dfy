/** Palette snapping and raster regeneration of tools/generate_brand_assets.py. */
module Palette {
  import opened Common
  import opened Png
  import opened PngProofs

  datatype Color = Color(red: byte, green: byte, blue: byte)

  /** A role's colour in the legacy palette and in the canonical one. */
  datatype Role = Role(legacy: Color, canonical: Color)

  datatype Scheme = Scheme(roles: seq<Role>, ink: Color)

  predicate Holds(role: Role, c: Color) { role.legacy == c || role.canonical == c }

  function Square(n: int): (s: nat)
    ensures s == 0 <==> n == 0
  {
    n * n
  }

  function Distance(a: Color, b: Color): (d: nat)
    ensures d == 0 <==> a == b
  {
    Square(a.red - b.red) + Square(a.green - b.green) + Square(a.blue - b.blue)
  }

  function RoleDistance(c: Color, role: Role): (d: nat)
    ensures d == 0 <==> Holds(role, c)
  {
    var legacy, canonical := Distance(c, role.legacy), Distance(c, role.canonical);
    if canonical < legacy then canonical else legacy
  }

  /** The first role with a colour nearest to `c`. */
  predicate IsNearest(c: Color, roles: seq<Role>, best: nat) {
    && best < |roles|
    && (forall j :: 0 <= j < |roles| ==> RoleDistance(c, roles[best]) <= RoleDistance(c, roles[j]))
    && (forall j :: 0 <= j < best ==> RoleDistance(c, roles[best]) < RoleDistance(c, roles[j]))
  }

  function Nearest(c: Color, roles: seq<Role>): (best: nat)
    requires roles != []
    ensures best < |roles|
  {
    if |roles| == 1 then 0
    else
      var last := |roles| - 1;
      var best := Nearest(c, roles[..last]);
      if RoleDistance(c, roles[last]) < RoleDistance(c, roles[best]) then last else best
  }

  lemma {:induction false} NearestIsNearest(c: Color, roles: seq<Role>)
    requires roles != []
    ensures IsNearest(c, roles, Nearest(c, roles))
  {
    hide RoleDistance;
    if |roles| > 1 {
      var last := |roles| - 1;
      NearestIsNearest(c, roles[..last]);
      assert forall j :: 0 <= j < last ==> roles[..last][j] == roles[j];
    }
  }

  lemma NearestIsUnique(c: Color, roles: seq<Role>, a: nat, b: nat)
    requires IsNearest(c, roles, a) && IsNearest(c, roles, b)
    ensures a == b
  {
    hide RoleDistance;
    assert RoleDistance(c, roles[a]) == RoleDistance(c, roles[b]);
  }

  function SquaredDistance(a: Color, b: Color): int {
    var ar: int, ag: int, ab: int := a.red, a.green, a.blue;
    var br: int, bg: int, bb: int := b.red, b.green, b.blue;
    (ar - br) * (ar - br) + (ag - bg) * (ag - bg) + (ab - bb) * (ab - bb)
  }

  /** No colour of any role, legacy or canonical, is nearer to c than x is. */
  predicate NoneNearerThan(c: Color, x: Color, roles: seq<Role>) {
    forall k :: 0 <= k < |roles| ==>
      && SquaredDistance(c, x) <= SquaredDistance(c, roles[k].legacy)
      && SquaredDistance(c, x) <= SquaredDistance(c, roles[k].canonical)
  }

  predicate HasNearest(c: Color, roles: seq<Role>, i: nat)
    requires i < |roles|
  {
    NoneNearerThan(c, roles[i].legacy, roles) || NoneNearerThan(c, roles[i].canonical, roles)
  }

  /** The first role one of whose colours is nearest to c of all. */
  predicate Chosen(c: Color, roles: seq<Role>, i: nat) {
    i < |roles| && HasNearest(c, roles, i) && forall j :: 0 <= j < i ==> !HasNearest(c, roles, j)
  }

  lemma DistanceIsSquared(a: Color, b: Color)
    ensures Distance(a, b) == SquaredDistance(a, b)
  {
  }

  lemma HasNearestByDistance(c: Color, roles: seq<Role>, i: nat)
    requires i < |roles|
    ensures HasNearest(c, roles, i) <==>
      forall k :: 0 <= k < |roles| ==> RoleDistance(c, roles[i]) <= RoleDistance(c, roles[k])
  {
    hide SquaredDistance, Distance, RoleDistance;
    forall x ensures Distance(c, x) == SquaredDistance(c, x) {
      DistanceIsSquared(c, x);
    }
    forall k | 0 <= k < |roles|
      ensures RoleDistance(c, roles[k]) <= Distance(c, roles[k].legacy)
      ensures RoleDistance(c, roles[k]) <= Distance(c, roles[k].canonical)
      ensures RoleDistance(c, roles[k]) == Distance(c, roles[k].legacy)
        || RoleDistance(c, roles[k]) == Distance(c, roles[k].canonical)
    {
      SidesOf(c, roles[k]);
    }
  }

  lemma NearestIsChosen(c: Color, roles: seq<Role>)
    requires roles != []
    ensures Chosen(c, roles, Nearest(c, roles))
  {
    hide HasNearest, RoleDistance, Nearest;
    var best := Nearest(c, roles);
    NearestIsNearest(c, roles);
    HasNearestByDistance(c, roles, best);
    forall j | 0 <= j < best ensures !HasNearest(c, roles, j) {
      HasNearestByDistance(c, roles, j);
    }
  }

  /** The loops over roles and the two colours of each; a later colour must be strictly nearer. */
  method FindNearest(c: Color, roles: seq<Role>) returns (best: nat)
    requires roles != []
    ensures best == Nearest(c, roles) && Chosen(c, roles, best)
  {
    hide RoleDistance, Distance, Chosen;
    var distance: Option<nat> := None;
    best := 0;
    for index := 0 to |roles|
      invariant index == 0 <==> distance.None?
      invariant index > 0 ==>
        && IsNearest(c, roles[..index], best)
        && distance == Some(RoleDistance(c, roles[best]))
    {
      ghost var before := distance;
      for side := 0 to 2
        invariant side == 0 ==> distance == before && (index > 0 ==> best < index)
        invariant side == 1 ==> var d := Distance(c, roles[index].legacy);
          && (index == 0 || d < before.value ==> best == index && distance == Some(d))
          && (index > 0 && d >= before.value ==> best < index && distance == before)
        invariant side == 2 ==> var d := RoleDistance(c, roles[index]);
          && (index == 0 || d < before.value ==> best == index && distance == Some(d))
          && (index > 0 && d >= before.value ==> best < index && distance == before)
        invariant index > 0 && distance == before ==> IsNearest(c, roles[..index], best)
      {
        SidesOf(c, roles[index]);
        var d := Distance(c, if side == 0 then roles[index].legacy else roles[index].canonical);
        if distance.None? || d < distance.value {
          best, distance := index, Some(d);
        }
      }
      assert roles[..index + 1][..index] == roles[..index];
    }
    assert roles[..|roles|] == roles;
    NearestIsNearest(c, roles);
    NearestIsUnique(c, roles, best, Nearest(c, roles));
    NearestIsChosen(c, roles);
  }

  lemma SidesOf(c: Color, role: Role)
    ensures RoleDistance(c, role) <= Distance(c, role.legacy) && RoleDistance(c, role) <= Distance(c, role.canonical)
    ensures RoleDistance(c, role) == Distance(c, role.legacy) || RoleDistance(c, role) == Distance(c, role.canonical)
  {
  }

  /** One channel over the ink, as integer arithmetic composites it. */
  function Over(channel: byte, alpha: byte, ink: byte): byte {
    OverFits(channel, alpha, ink);
    (channel as int * alpha as int + ink as int * (255 - alpha as int)) / 255
  }

  lemma OverFits(channel: int, alpha: int, ink: int)
    requires 0 <= channel < 0x100 && 0 <= alpha < 0x100 && 0 <= ink < 0x100
    ensures 0 <= channel * alpha + ink * (255 - alpha) < 255 * 0x100
  {
    Monotone(channel, 255, alpha);
    Monotone(ink, 255, 255 - alpha);
  }

  lemma Monotone(a: nat, b: nat, c: nat)
    requires a <= b
    ensures 0 <= a * c <= b * c
  {
    assert b * c == a * c + (b - a) * c;
  }

  lemma OpaqueOver(channel: byte, ink: byte)
    ensures Over(channel, 255, ink) == channel
  {
  }

  /** Compositing stays between the colour and the ink: all of the one at full alpha, all of the
      other at none. */
  lemma OverBlends(channel: byte, alpha: byte, ink: byte)
    ensures channel <= ink ==> channel <= Over(channel, alpha, ink) <= ink
    ensures ink <= channel ==> ink <= Over(channel, alpha, ink) <= channel
    ensures Over(channel, 255, ink) == channel && Over(channel, 0, ink) == ink
  {
    var c: int, a: int, i: int := channel, alpha, ink;
    assert c * a + i * (255 - a) == 255 * i + (c - i) * a == 255 * c + (i - c) * (255 - a);
    if c <= i {
      Monotone(0, i - c, a);
      Monotone(0, i - c, 255 - a);
      assert (c - i) * a == -((i - c) * a);
    } else {
      Monotone(0, c - i, a);
      Monotone(0, c - i, 255 - a);
      assert (i - c) * (255 - a) == -((c - i) * (255 - a));
    }
  }

  /** The channel that integer division leaves of compositing one over the ink. */
  predicate Blends(r: byte, channel: byte, alpha: byte, ink: byte) {
    var weighted := channel as int * alpha as int + ink as int * (255 - alpha as int);
    255 * r as int <= weighted < 255 * r as int + 255
  }

  lemma OverIsFloor(channel: byte, alpha: byte, ink: byte)
    ensures Blends(Over(channel, alpha, ink), channel, alpha, ink)
  {
  }

  /** The colour a pixel is matched by. */
  function Seen(pixel: seq<byte>, composite: bool, ink: Color): Color
    requires |pixel| == 4
  {
    if !composite then Color(pixel[0], pixel[1], pixel[2])
    else Color(
      Over(pixel[0], pixel[3], ink.red), Over(pixel[1], pixel[3], ink.green), Over(pixel[2], pixel[3], ink.blue))
  }

  function PixelOf(c: Color, alpha: byte): seq<byte> { [c.red, c.green, c.blue, alpha] }

  function SnapPixel(pixel: seq<byte>, composite: bool, s: Scheme): (r: seq<byte>)
    requires |pixel| == 4 && s.roles != []
    ensures |r| == 4
  {
    PixelOf(s.roles[Nearest(Seen(pixel, composite, s.ink), s.roles)].canonical, if composite then 255 else pixel[3])
  }

  /** A pixel becomes the canonical colour of a role that has, in either palette, a colour
      nearest to it; its alpha is kept, or full once composited. */
  lemma SnapsToNearest(pixel: seq<byte>, composite: bool, s: Scheme)
    requires |pixel| == 4 && s.roles != []
    ensures var r, seen := SnapPixel(pixel, composite, s), Seen(pixel, composite, s.ink);
      && r[3] == (if composite then 255 else pixel[3])
      && exists i :: 0 <= i < |s.roles| && Color(r[0], r[1], r[2]) == s.roles[i].canonical
           && NoneNearer(seen, s.roles, s.roles[i])
  {
    hide Nearest, Distance, RoleDistance, Seen;
    var c := Seen(pixel, composite, s.ink);
    var i := Nearest(c, s.roles);
    NearestIsNearest(c, s.roles);
    forall k | 0 <= k < |s.roles|
      ensures RoleDistance(c, s.roles[i]) <= Distance(c, s.roles[k].legacy)
      ensures RoleDistance(c, s.roles[i]) <= Distance(c, s.roles[k].canonical)
    {
      SidesOf(c, s.roles[k]);
    }
    assert NoneNearer(c, s.roles, s.roles[i]);
  }

  /** No colour of any role is nearer than the nearer of this role's two. */
  predicate NoneNearer(c: Color, roles: seq<Role>, role: Role) {
    forall k :: 0 <= k < |roles| ==>
      && RoleDistance(c, role) <= Distance(c, roles[k].legacy)
      && RoleDistance(c, role) <= Distance(c, roles[k].canonical)
  }

  /** The colour a pixel shows: its own, or what is left of it over the ink. */
  predicate Shows(pixel: seq<byte>, composite: bool, ink: Color, seen: Color)
    requires |pixel| == 4
  {
    if !composite then seen == Color(pixel[0], pixel[1], pixel[2])
    else
      && Blends(seen.red, pixel[0], pixel[3], ink.red) && Blends(seen.green, pixel[1], pixel[3], ink.green)
      && Blends(seen.blue, pixel[2], pixel[3], ink.blue)
  }

  /** What a pixel is snapped to: the canonical colour of the first role that has a colour nearest
      to the one it shows; its alpha is kept, or full once composited. */
  ghost predicate SnapsTo(pixel: seq<byte>, composite: bool, s: Scheme, r: seq<byte>)
    requires |pixel| == 4
  {
    exists seen, i: nat ::
      && Shows(pixel, composite, s.ink, seen) && Chosen(seen, s.roles, i)
      && r == [s.roles[i].canonical.red, s.roles[i].canonical.green, s.roles[i].canonical.blue,
               if composite then 255 else pixel[3]]
  }

  lemma SnapInFull(pixel: seq<byte>, composite: bool, s: Scheme)
    requires |pixel| == 4 && s.roles != []
    ensures SnapsTo(pixel, composite, s, SnapPixel(pixel, composite, s))
  {
    hide Nearest, Over, Blends, Chosen;
    var seen := Seen(pixel, composite, s.ink);
    OverIsFloor(pixel[0], pixel[3], s.ink.red);
    OverIsFloor(pixel[1], pixel[3], s.ink.green);
    OverIsFloor(pixel[2], pixel[3], s.ink.blue);
    NearestIsChosen(seen, s.roles);
    assert Shows(pixel, composite, s.ink, seen) && Chosen(seen, s.roles, Nearest(seen, s.roles));
  }

  /** Every pixel is snapped for itself. */
  lemma {:induction false} SnappedAt(pixels: seq<byte>, composite: bool, s: Scheme, k: nat)
    requires |pixels| % 4 == 0 && s.roles != [] && k % 4 == 0 && k < |pixels|
    ensures SnapsTo(pixels[k..k + 4], composite, s, Snapped(pixels, composite, s)[k..k + 4])
    decreases |pixels|
  {
    hide SnapPixel, SnapsTo;
    var n := |pixels| - 4;
    LastSnapped(pixels, composite, s, n);
    hide Snapped;
    if k == n {
      assert pixels[k..k + 4] == pixels[n..];
      SnapInFull(pixels[n..], composite, s);
      assert Snapped(pixels, composite, s)[k..k + 4] == SnapPixel(pixels[n..], composite, s);
    } else {
      var front, all := Snapped(pixels[..n], composite, s), Snapped(pixels, composite, s);
      SnappedAt(pixels[..n], composite, s, k);
      assert pixels[..n][k..k + 4] == pixels[k..k + 4];
      assert all[k..k + 4] == all[..n][k..k + 4] == front[k..k + 4];
    }
  }

  lemma LastSnapped(pixels: seq<byte>, composite: bool, s: Scheme, n: nat)
    requires n % 4 == 0 && |pixels| % 4 == 0 && |pixels| == n + 4 && s.roles != []
    ensures Snapped(pixels, composite, s) == Snapped(pixels[..n], composite, s) + SnapPixel(pixels[n..], composite, s)
  {
    hide SnapPixel;
  }

  function Snapped(pixels: seq<byte>, composite: bool, s: Scheme): (r: seq<byte>)
    requires |pixels| % 4 == 0 && s.roles != []
    ensures |r| == |pixels|
  {
    if pixels == [] then []
    else
      var n := |pixels| - 4;
      Snapped(pixels[..n], composite, s) + SnapPixel(pixels[n..], composite, s)
  }

  lemma EveryPixelSnapped(pixels: seq<byte>, composite: bool, s: Scheme)
    requires |pixels| % 4 == 0 && s.roles != []
    ensures forall k: nat :: k % 4 == 0 && k < |pixels| ==>
      SnapsTo(pixels[k..k + 4], composite, s, Snapped(pixels, composite, s)[k..k + 4])
  {
    hide SnapsTo, Snapped;
    forall k: nat | k % 4 == 0 && k < |pixels|
      ensures SnapsTo(pixels[k..k + 4], composite, s, Snapped(pixels, composite, s)[k..k + 4])
    {
      SnappedAt(pixels, composite, s, k);
    }
  }

  /** The pixel loop, in place. */
  method SnapInPlace(pixels: array<byte>, composite: bool, s: Scheme) returns (r: Result<()>)
    requires s.roles != []
    modifies pixels
    ensures r == if pixels.Length % 4 == 0 then Ok(()) else Err(ShortPixel)
    ensures r.Ok? ==> pixels[..] == Snapped(old(pixels[..]), composite, s)
    ensures r.Ok? ==> forall k: nat :: k % 4 == 0 && k < pixels.Length ==>
      SnapsTo(old(pixels[..])[k..k + 4], composite, s, pixels[..][k..k + 4])
  {
    hide SnapPixel, SnapsTo;
    var offset := 0;
    while offset < pixels.Length
      invariant offset % 4 == 0 && (offset <= pixels.Length || pixels.Length % 4 != 0)
      invariant offset <= pixels.Length
      invariant pixels[..offset] == Snapped(old(pixels[..offset]), composite, s)
      invariant pixels[offset..] == old(pixels[offset..])
    {
      if pixels.Length - offset < 4 {
        return Err(ShortPixel);
      }
      ghost var before := pixels[offset..];
      assert before[..4] == pixels[offset..offset + 4];
      SnapOne(pixels, offset, composite, s);
      assert pixels[offset + 4..] == before[4..] == old(pixels[offset..])[4..] == old(pixels[offset + 4..]);
      ghost var done := old(pixels[..offset + 4]);
      assert done[..offset] == old(pixels[..offset]);
      assert done[offset..] == before[..4] by {
        assert before == old(pixels[offset..]);
      }
      assert Snapped(done, composite, s)
             == Snapped(done[..offset], composite, s) + SnapPixel(done[offset..], composite, s);
      assert pixels[..offset + 4] == pixels[..offset] + pixels[offset..offset + 4];
      offset := offset + 4;
    }
    assert pixels[..] == pixels[..offset] && old(pixels[..]) == old(pixels[..offset]);
    EveryPixelSnapped(old(pixels[..]), composite, s);
    r := Ok(());
  }

  /** One pixel of the loop. */
  method SnapOne(pixels: array<byte>, offset: nat, composite: bool, s: Scheme)
    requires s.roles != [] && offset + 4 <= pixels.Length
    modifies pixels
    ensures pixels[..offset] == old(pixels[..offset]) && pixels[offset + 4..] == old(pixels[offset + 4..])
    ensures pixels[offset..offset + 4] == SnapPixel(old(pixels[offset..offset + 4]), composite, s)
  {
    var red, green, blue, alpha := pixels[offset], pixels[offset + 1], pixels[offset + 2], pixels[offset + 3];
    if composite {
      red, green, blue := Over(red, alpha, s.ink.red), Over(green, alpha, s.ink.green), Over(blue, alpha, s.ink.blue);
      alpha := 255;
    }
    var best := FindNearest(Color(red, green, blue), s.roles);
    var snapped := s.roles[best].canonical;
    pixels[offset], pixels[offset + 1] := snapped.red, snapped.green;
    pixels[offset + 2], pixels[offset + 3] := snapped.blue, alpha;
    assert Seen(old(pixels[offset..offset + 4]), composite, s.ink) == Color(red, green, blue);
    assert pixels[offset..offset + 4] == PixelOf(snapped, alpha);
  }

  /** `_recolor_raster`, from file to file. */
  function Recolor(data: seq<byte>, composite: bool, s: Scheme, z: Zlib): Result<seq<byte>>
    requires s.roles != []
  {
    var decoded := Decode(data, z);
    if decoded.Err? then Err(decoded.error)
    else if |decoded.value.pixels| % 4 != 0 then Err(ShortPixel)
    else Encode(decoded.value.(pixels := Snapped(decoded.value.pixels, composite, s)), z)
  }

  method RecolorRaster(data: seq<byte>, composite: bool, s: Scheme, z: Zlib) returns (r: Result<seq<byte>>)
    requires s.roles != []
    ensures r == Recolor(data, composite, s, z)
  {
    hide Decode, Encode, Snapped;
    var decoded := DecodePng(data, z);
    if decoded.Err? {
      return Err(decoded.error);
    }
    var pixels := ArrayOf(decoded.value.pixels);
    var done := SnapInPlace(pixels, composite, s);
    if done.Err? {
      return Err(done.error);
    }
    r := Encode(Image(decoded.value.width, decoded.value.height, pixels[..]), z);
  }
}
