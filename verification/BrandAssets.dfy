/** The generate/check loop in `main` of tools/generate_brand_assets.py. */
module BrandAssets {
  import opened Common
  import opened Png
  import opened PngProofs
  import opened Palette
  import opened PaletteProofs

  type Files = map<string, seq<byte>>

  /** A generated file: text from the canonical source, a raster recoloured in place, or the
      icon wrapped around a recoloured raster. */
  datatype Asset =
    | Text(path: string, content: seq<byte>)
    | Raster(path: string, composite: bool)
    | Icon(path: string, source: string)

  datatype Brand = Brand(assets: seq<Asset>, scheme: Scheme, z: Zlib)

  /** A little-endian number of four bytes. */
  function Little32(n: nat): (s: seq<byte>)
    requires n < WORD
    ensures |s| == 4 && Unpack32([s[3], s[2], s[1], s[0]]) == n
  {
    var big := Pack32(n);
    var little := [big[3], big[2], big[1], big[0]];
    assert big == [little[3], little[2], little[1], little[0]];
    little
  }

  const ICO_OFFSET := 22

  /** `_ico_from_png`. */
  function Ico(png: seq<byte>): Result<seq<byte>> {
    if |png| >= WORD then Err(Unpackable)
    else Ok([0, 0, 1, 0, 1, 0] + [16, 16, 0, 0, 1, 0, 32, 0] + Little32(|png|) + Little32(ICO_OFFSET) + png)
  }

  /** The directory entry of the icon locates exactly the image it was wrapped around. */
  lemma IcoLocatesPng(png: seq<byte>)
    requires Ico(png).Ok?
    ensures var ico := Ico(png).value;
      && |ico| == ICO_OFFSET + |png|
      && Unpack32([ico[17], ico[16], ico[15], ico[14]]) == |png|
      && Unpack32([ico[21], ico[20], ico[19], ico[18]]) == ICO_OFFSET
      && ico[ICO_OFFSET..ICO_OFFSET + |png|] == png
  {
    hide Unpack32, Little32;
    var length, offset := Little32(|png|), Little32(ICO_OFFSET);
    var ico := Ico(png).value;
    assert ico[14..18] == length && ico[18..22] == offset;
    assert [ico[17], ico[16], ico[15], ico[14]] == [length[3], length[2], length[1], length[0]];
    assert [ico[21], ico[20], ico[19], ico[18]] == [offset[3], offset[2], offset[1], offset[0]];
  }

  /** The four bytes at k, least significant first. */
  function LittleEndian(s: seq<byte>, k: nat): int
    requires k + 4 <= |s|
  {
    var a: int, b: int, c: int, d: int := s[k], s[k + 1], s[k + 2], s[k + 3];
    a + b * 0x100 + c * 0x1_0000 + d * 0x100_0000
  }

  lemma LittleIsLittle(n: nat)
    requires n < WORD
    ensures LittleEndian(Little32(n), 0) == n
  {
    var s := Little32(n);
    var big := [s[3], s[2], s[1], s[0]];
    UnpackedIsBigEndian(big, 0);
    assert big[0..4] == big;
  }

  /** The icon file, field by field: no reserved word, one icon image in the directory, sixteen by
      sixteen, without a palette, one plane of 32 bits, its length and place, and the image. */
  lemma IcoInFull(png: seq<byte>)
    ensures Ico(png).Err? <==> |png| >= 0x1_0000_0000
    ensures Ico(png).Ok? ==>
      var ico := Ico(png).value;
      && |ico| == 22 + |png| && ico[0..2] == [0, 0] && ico[2..4] == [1, 0] && ico[4..6] == [1, 0]
      && ico[6] == 16 && ico[7] == 16 && ico[8] == 0 && ico[9] == 0 && ico[10..12] == [1, 0] && ico[12..14] == [32, 0]
      && LittleEndian(ico, 14) == |png| && LittleEndian(ico, 18) == 22 && ico[22..] == png
  {
    hide Little32, Unpack32, LittleEndian;
    if Ico(png).Ok? {
      var ico := Ico(png).value;
      LittleIsLittle(|png|);
      LittleIsLittle(22);
      LittleShifted(ico, 14, Little32(|png|));
      LittleShifted(ico, 18, Little32(22));
    }
  }

  lemma LittleShifted(s: seq<byte>, k: nat, part: seq<byte>)
    requires k + 4 <= |s| && |part| == 4 && s[k..k + 4] == part
    ensures LittleEndian(s, k) == LittleEndian(part, 0)
  {
    assert s[k] == part[0] && s[k + 1] == part[1] && s[k + 2] == part[2] && s[k + 3] == part[3];
  }

  /** What an asset should hold, given the files as they are. */
  function Expected(files: Files, asset: Asset, brand: Brand): Result<seq<byte>>
    requires brand.scheme.roles != []
  {
    match asset
    case Text(_, content) => Ok(content)
    case Raster(path, composite) =>
      if path !in files then Err(Missing) else Recolor(files[path], composite, brand.scheme, brand.z)
    case Icon(_, source) =>
      if source !in files then Err(Missing)
      else
        var png := Recolor(files[source], false, brand.scheme, brand.z);
        if png.Err? then png else Ico(png.value)
  }

  /** The files after a generate run over some of the assets. */
  function Generated(files: Files, assets: seq<Asset>, brand: Brand): Result<Files>
    requires brand.scheme.roles != []
    decreases |assets|
  {
    if assets == [] then Ok(files)
    else
      var expected := Expected(files, assets[0], brand);
      if expected.Err? then Err(expected.error)
      else Generated(files[assets[0].path := expected.value], assets[1..], brand)
  }

  predicate Current(files: Files, asset: Asset, brand: Brand)
    requires brand.scheme.roles != []
  {
    asset.path in files && Expected(files, asset, brand) == Ok(files[asset.path])
  }

  /** The paths a check run reports. */
  function Drift(files: Files, assets: seq<Asset>, brand: Brand): Result<seq<string>>
    requires brand.scheme.roles != []
  {
    if assets == [] then Ok([])
    else if Expected(files, assets[0], brand).Err? then Err(Expected(files, assets[0], brand).error)
    else Reported(if Current(files, assets[0], brand) then [] else [assets[0].path], Drift(files, assets[1..], brand))
  }

  function Reported(front: seq<string>, rest: Result<seq<string>>): Result<seq<string>> {
    if rest.Err? then rest else Ok(front + rest.value)
  }

  /** No path is generated twice, and no icon is wrapped around a file that is generated later
      or around itself. */
  predicate WellOrdered(assets: seq<Asset>) {
    && (forall i, j :: 0 <= i < j < |assets| ==> assets[i].path != assets[j].path)
    && (forall i, j :: 0 <= i <= j < |assets| && assets[i].Icon? ==> assets[i].source != assets[j].path)
  }

  class Workspace {
    var files: Files

    /** The loop over all assets; text, rasters and icon are in the order of the source. */
    method Run(brand: Brand, check: bool) returns (r: Result<seq<string>>)
      requires brand.scheme.roles != []
      modifies this
      ensures check ==> files == old(files) && r == Drift(old(files), brand.assets, brand)
      ensures !check && r.Ok? ==> Generated(old(files), brand.assets, brand) == Ok(files) && r.value == []
      ensures !check && r.Err? ==> Generated(old(files), brand.assets, brand) == Err(r.error)
    {
      hide Recolor;
      var drifted: seq<string> := [];
      ReportNothing(Drift(files, brand.assets, brand));
      assert brand.assets[0..] == brand.assets;
      for k := 0 to |brand.assets|
        invariant check ==> files == old(files)
        invariant check ==>
          Reported(drifted, Drift(files, brand.assets[k..], brand)) == Drift(files, brand.assets, brand)
        invariant !check ==> drifted == []
        invariant !check ==> Generated(files, brand.assets[k..], brand) == Generated(old(files), brand.assets, brand)
      {
        var asset := brand.assets[k];
        assert brand.assets[k..][0] == asset && brand.assets[k..][1..] == brand.assets[k + 1..];
        var expected := Produce(asset, brand);
        if expected.Err? {
          return Err(expected.error);
        }
        if check {
          ReportOne(files, drifted, brand.assets[k..], brand);
          if asset.path !in files || files[asset.path] != expected.value {
            drifted := drifted + [asset.path];
          }
        } else {
          files := files[asset.path := expected.value];
        }
      }
      assert drifted + [] == drifted;
      r := Ok(drifted);
    }

    /** What one asset should hold: generated text, or a raster read back and recoloured. */
    method Produce(asset: Asset, brand: Brand) returns (r: Result<seq<byte>>)
      requires brand.scheme.roles != []
      ensures r == Expected(files, asset, brand)
    {
      match asset
      case Text(_, content) => r := Ok(content);
      case Raster(path, composite) =>
        if path !in files {
          return Err(Missing);
        }
        r := RecolorRaster(files[path], composite, brand.scheme, brand.z);
      case Icon(_, source) =>
        if source !in files {
          return Err(Missing);
        }
        r := RecolorRaster(files[source], false, brand.scheme, brand.z);
        if r.Ok? {
          r := Ico(r.value);
        }
    }

    /** A check after a generate reports nothing. */
    method GenerateThenCheck(brand: Brand) returns (r: Result<seq<string>>)
      requires brand.scheme.roles != [] && Stable(brand.scheme.roles) && Lawful(brand.z) && WellOrdered(brand.assets)
      modifies this
      ensures r.Ok? ==> r.value == []
      ensures r.Err? ==> Generated(old(files), brand.assets, brand).Err?
    {
      ghost var before := files;
      r := Run(brand, false);
      if r.Ok? {
        NothingDrifts(before, brand);
        r := Run(brand, true);
      }
    }
  }

  lemma ReportNothing(rest: Result<seq<string>>)
    ensures Reported([], rest) == rest
  {
    assert rest.Ok? ==> [] + rest.value == rest.value;
  }

  lemma ReportTwice(a: seq<string>, b: seq<string>, rest: Result<seq<string>>)
    ensures Reported(a, Reported(b, rest)) == Reported(a + b, rest)
  {
    assert rest.Ok? ==> a + (b + rest.value) == a + b + rest.value;
  }

  lemma ReportOne(files: Files, front: seq<string>, assets: seq<Asset>, brand: Brand)
    requires brand.scheme.roles != [] && assets != [] && Expected(files, assets[0], brand).Ok?
    ensures Reported(front, Drift(files, assets, brand))
            == Reported(front + if Current(files, assets[0], brand) then [] else [assets[0].path],
                        Drift(files, assets[1..], brand))
    ensures front + [] == front
  {
    hide Expected, Current, Reported;
    ReportTwice(
      front, if Current(files, assets[0], brand) then [] else [assets[0].path], Drift(files, assets[1..], brand));
  }

  /** An asset stays current when another one is written. */
  lemma StaysCurrent(files: Files, asset: Asset, brand: Brand, path: string, content: seq<byte>)
    requires brand.scheme.roles != [] && Current(files, asset, brand)
    requires asset.path != path && (asset.Icon? ==> asset.source != path)
    ensures Current(files[path := content], asset, brand)
  {
    hide Recolor, Ico;
  }

  /** An asset is current once it is written. */
  lemma BecomesCurrent(files: Files, asset: Asset, brand: Brand)
    requires brand.scheme.roles != [] && Stable(brand.scheme.roles) && Lawful(brand.z)
    requires Expected(files, asset, brand).Ok? && (asset.Icon? ==> asset.source != asset.path)
    ensures Current(files[asset.path := Expected(files, asset, brand).value], asset, brand)
  {
    hide Recolor, Ico, Stable, Lawful;
    if asset.Raster? {
      RecolorTwice(files[asset.path], asset.composite, brand.scheme, brand.z);
    }
  }

  ghost predicate AllAre(files: Files, assets: seq<Asset>, brand: Brand)
    requires brand.scheme.roles != []
  {
    forall k :: 0 <= k < |assets| ==> Current(files, assets[k], brand)
  }

  /** Writing the next asset makes it current and leaves those before it so. */
  lemma OneMoreIsCurrent(files: Files, done: seq<Asset>, asset: Asset, brand: Brand)
    requires brand.scheme.roles != [] && Stable(brand.scheme.roles) && Lawful(brand.z)
    requires WellOrdered(done + [asset]) && AllAre(files, done, brand) && Expected(files, asset, brand).Ok?
    ensures AllAre(files[asset.path := Expected(files, asset, brand).value], done + [asset], brand)
  {
    hide Current, Expected, Stable, Lawful;
    var content, all := Expected(files, asset, brand).value, done + [asset];
    assert all[|done|] == asset;
    BecomesCurrent(files, asset, brand);
    forall k | 0 <= k < |done| ensures Current(files[asset.path := content], all[k], brand) {
      assert all[k] == done[k];
      StaysCurrent(files, done[k], brand, asset.path, content);
    }
  }

  lemma FrontWellOrdered(front: seq<Asset>, rest: seq<Asset>)
    requires WellOrdered(front + rest)
    ensures WellOrdered(front)
  {
    assert forall k :: 0 <= k < |front| ==> (front + rest)[k] == front[k];
  }

  /** Assets that are current stay so to the end of a generate run, and the rest become so. */
  lemma {:induction false} AllCurrent(files: Files, done: seq<Asset>, todo: seq<Asset>, brand: Brand)
    requires brand.scheme.roles != [] && Stable(brand.scheme.roles) && Lawful(brand.z)
    requires WellOrdered(done + todo) && Generated(files, todo, brand).Ok? && AllAre(files, done, brand)
    ensures AllAre(Generated(files, todo, brand).value, done + todo, brand)
    decreases |todo|
  {
    if todo == [] {
      assert done + todo == done;
    } else {
      hide Expected, Stable, Lawful, WellOrdered, AllAre;
      var asset := todo[0];
      assert done + todo == done + [asset] + todo[1..];
      FrontWellOrdered(done + [asset], todo[1..]);
      OneMoreIsCurrent(files, done, asset, brand);
      AllCurrent(files[asset.path := Expected(files, asset, brand).value], done + [asset], todo[1..], brand);
    }
  }

  /** A check reports nothing exactly when every asset is current. */
  lemma {:induction false} NoDriftIsCurrent(files: Files, assets: seq<Asset>, brand: Brand)
    requires brand.scheme.roles != []
    ensures Drift(files, assets, brand) == Ok([])
            <==> forall k :: 0 <= k < |assets| ==> Current(files, assets[k], brand)
  {
    hide Expected;
    if assets != [] {
      NoDriftIsCurrent(files, assets[1..], brand);
      assert forall k :: 0 < k < |assets| ==> assets[k] == assets[1..][k - 1];
      var rest := Drift(files, assets[1..], brand);
      if Current(files, assets[0], brand) && rest == Ok([]) {
        assert [] + rest.value == [];
      }
    }
  }

  /** After a generate run a check run reports nothing. */
  lemma NothingDrifts(files: Files, brand: Brand)
    requires brand.scheme.roles != [] && Stable(brand.scheme.roles) && Lawful(brand.z) && WellOrdered(brand.assets)
    requires Generated(files, brand.assets, brand).Ok?
    ensures Drift(Generated(files, brand.assets, brand).value, brand.assets, brand) == Ok([])
  {
    assert [] + brand.assets == brand.assets;
    AllCurrent(files, [], brand.assets, brand);
    NoDriftIsCurrent(Generated(files, brand.assets, brand).value, brand.assets, brand);
  }

  /** Regenerating current assets changes nothing. */
  lemma {:induction false} CurrentRegenerates(files: Files, assets: seq<Asset>, brand: Brand)
    requires brand.scheme.roles != [] && forall k :: 0 <= k < |assets| ==> Current(files, assets[k], brand)
    ensures Generated(files, assets, brand) == Ok(files)
  {
    hide Expected;
    if assets != [] {
      assert Current(files, assets[0], brand);
      assert files[assets[0].path := files[assets[0].path]] == files;
      CurrentRegenerates(files, assets[1..], brand);
    }
  }

  /** A check passes on exactly the files that generating leaves as they are. */
  lemma CheckIsFixedPoint(files: Files, brand: Brand)
    requires brand.scheme.roles != [] && Stable(brand.scheme.roles) && Lawful(brand.z) && WellOrdered(brand.assets)
    ensures Drift(files, brand.assets, brand) == Ok([]) <==> Generated(files, brand.assets, brand) == Ok(files)
  {
    NoDriftIsCurrent(files, brand.assets, brand);
    if Generated(files, brand.assets, brand) == Ok(files) {
      NothingDrifts(files, brand);
    }
    if Drift(files, brand.assets, brand) == Ok([]) {
      CurrentRegenerates(files, brand.assets, brand);
    }
  }

  /** A generate run leaves every other file alone. */
  lemma {:induction false} OthersUntouched(files: Files, assets: seq<Asset>, brand: Brand, path: string)
    requires brand.scheme.roles != [] && Generated(files, assets, brand).Ok?
    requires forall k :: 0 <= k < |assets| ==> assets[k].path != path
    ensures var after := Generated(files, assets, brand).value;
      (path in after <==> path in files) && (path in files ==> after[path] == files[path])
    decreases |assets|
  {
    hide Expected;
    if assets != [] {
      assert forall k :: 0 <= k < |assets[1..]| ==> assets[1..][k] == assets[k + 1];
      OthersUntouched(files[assets[0].path := Expected(files, assets[0], brand).value], assets[1..], brand, path);
    }
  }

  /** An asset among others that leave its path alone holds what it was expected to hold when its
      turn came. */
  lemma {:induction false} GeneratedAt(files: Files, assets: seq<Asset>, brand: Brand, k: nat) returns (turn: Files)
    requires brand.scheme.roles != [] && k < |assets| && Generated(files, assets, brand).Ok? && WellOrdered(assets)
    ensures Generated(files, assets[..k], brand) == Ok(turn)
    ensures var after := Generated(files, assets, brand).value;
      assets[k].path in after && Expected(turn, assets[k], brand) == Ok(after[assets[k].path])
    decreases |assets|
  {
    hide Expected;
    var next := files[assets[0].path := Expected(files, assets[0], brand).value];
    assert forall i :: 0 <= i < |assets[1..]| ==> assets[1..][i] == assets[i + 1];
    if k == 0 {
      turn := files;
      OthersUntouched(next, assets[1..], brand, assets[0].path);
    } else {
      assert WellOrdered(assets[1..]);
      turn := GeneratedAt(next, assets[1..], brand, k - 1);
      assert assets[..k][0] == assets[0] && assets[..k][1..] == assets[1..][..k - 1];
    }
  }

  /** What a generate run makes of each asset: a text is its canonical content, and a raster is
      the old raster recoloured. */
  lemma GeneratedInFull(files: Files, brand: Brand, k: nat)
    requires brand.scheme.roles != [] && WellOrdered(brand.assets) && Generated(files, brand.assets, brand).Ok?
    requires k < |brand.assets|
    ensures var after, a := Generated(files, brand.assets, brand).value, brand.assets[k];
      && a.path in after
      && (a.Text? ==> after[a.path] == a.content)
      && (a.Raster? ==>
            a.path in files && Recolor(files[a.path], a.composite, brand.scheme, brand.z) == Ok(after[a.path]))
  {
    hide Recolor, Ico;
    var turn := GeneratedAt(files, brand.assets, brand, k);
    assert brand.assets == brand.assets[..k] + brand.assets[k..];
    OthersUntouched(files, brand.assets[..k], brand, brand.assets[k].path);
  }

  /** The icon never carries another image than the raster it duplicates: it is wrapped around
      exactly the file that the run leaves there. */
  lemma IconWrapsRaster(files: Files, brand: Brand, k: nat, j: nat)
    requires brand.scheme.roles != [] && Stable(brand.scheme.roles) && Lawful(brand.z) && WellOrdered(brand.assets)
    requires Generated(files, brand.assets, brand).Ok? && k < |brand.assets| && j < |brand.assets|
    requires brand.assets[k].Icon? && brand.assets[j] == Raster(brand.assets[k].source, false)
    ensures var after, icon := Generated(files, brand.assets, brand).value, brand.assets[k];
      icon.path in after && icon.source in after && Ico(after[icon.source]) == Ok(after[icon.path])
  {
    hide Recolor, Ico;
    var after, icon := Generated(files, brand.assets, brand).value, brand.assets[k];
    var turn := GeneratedAt(files, brand.assets, brand, k);
    assert j < k;
    GeneratedInFull(files, brand, j);
    SourceAtTurn(files, brand, k, j);
    RecolorTwice(files[icon.source], false, brand.scheme, brand.z);
  }

  /** When the icon's turn comes its raster has been regenerated, and stays as it is. */
  lemma SourceAtTurn(files: Files, brand: Brand, k: nat, j: nat)
    requires brand.scheme.roles != [] && WellOrdered(brand.assets) && Generated(files, brand.assets, brand).Ok?
    requires j < k < |brand.assets|
    ensures Generated(files, brand.assets[..k], brand).Ok?
    ensures var turn, after := Generated(files, brand.assets[..k], brand), Generated(files, brand.assets, brand);
      var path := brand.assets[j].path;
      path in turn.value && path in after.value && turn.value[path] == after.value[path]
  {
    hide Expected;
    var turn := GeneratedAt(files, brand.assets, brand, k);
    GeneratedBehind(files, brand.assets, brand, k);
    var rest := brand.assets[k..];
    assert forall i :: 0 <= i < |rest| ==> rest[i] == brand.assets[k + i];
    OthersUntouched(turn, rest, brand, brand.assets[j].path);
    var again := GeneratedAt(files, brand.assets, brand, j);
  }

  lemma {:induction false} GeneratedBehind(files: Files, assets: seq<Asset>, brand: Brand, k: nat)
    requires brand.scheme.roles != [] && k <= |assets| && Generated(files, assets[..k], brand).Ok?
    ensures Generated(files, assets, brand) == Generated(Generated(files, assets[..k], brand).value, assets[k..], brand)
    decreases |assets|
  {
    hide Expected;
    if k > 0 {
      assert assets[..k][0] == assets[0] && assets[..k][1..] == assets[1..][..k - 1];
      GeneratedBehind(files[assets[0].path := Expected(files, assets[0], brand).value], assets[1..], brand, k - 1);
      assert assets[1..][k - 1..] == assets[k..];
    } else {
      assert assets[..0] == [] && assets[0..] == assets;
    }
  }

  /** How many of the assets are not current. */
  function CountDrifted(files: Files, assets: seq<Asset>, brand: Brand): nat
    requires brand.scheme.roles != []
  {
    if assets == [] then 0
    else (if Current(files, assets[0], brand) then 0 else 1) + CountDrifted(files, assets[1..], brand)
  }

  /** A check reports exactly the assets whose file is absent or not what it should be. */
  lemma {:induction false} DriftInFull(files: Files, assets: seq<Asset>, brand: Brand)
    requires brand.scheme.roles != [] && Drift(files, assets, brand).Ok?
    ensures |Drift(files, assets, brand).value| == CountDrifted(files, assets, brand)
    ensures forall path :: path in Drift(files, assets, brand).value <==>
      exists k :: 0 <= k < |assets| && assets[k].path == path && NotCurrent(files, assets[k], brand)
    decreases |assets|
  {
    hide Expected;
    if assets != [] {
      DriftInFull(files, assets[1..], brand);
      assert forall k :: 0 < k < |assets| ==> assets[k] == assets[1..][k - 1];
      forall path ensures path in Drift(files, assets, brand).value <==>
        exists k :: 0 <= k < |assets| && assets[k].path == path && NotCurrent(files, assets[k], brand)
      {
        if k :| 0 <= k < |assets[1..]| && assets[1..][k].path == path && NotCurrent(files, assets[1..][k], brand) {
          assert assets[k + 1].path == path;
        }
      }
    }
  }

  /** The file of an asset is absent, or not what the asset should hold. */
  predicate NotCurrent(files: Files, asset: Asset, brand: Brand)
    requires brand.scheme.roles != []
  {
    asset.path !in files || Expected(files, asset, brand) != Ok(files[asset.path])
  }

  const FAVICON := "apps/console/public/favicon-16x16.png"

  /** The shipped assets, each group sorted by path; `text` is the canonical source. */
  function ShippedAssets(text: string -> seq<byte>): seq<Asset> {
    [ Text("apps/console/public/favicon.svg", text("favicon")),
      Text("logo/solvan-app-icon.svg", text("app_icon")),
      Text("logo/solvan-icon.svg", text("icon")),
      Text("logo/solvan-logo-dark.svg", text("logo_dark")),
      Text("logo/solvan-logo-horizontal.svg", text("logo_horizontal")),
      Text("logo/solvan-logo-mono.svg", text("logo_mono")),
      Raster("apps/console/public/apple-touch-icon.png", true),
      Raster(FAVICON, false),
      Raster("apps/console/public/favicon-32x32.png", false),
      Icon("apps/console/public/favicon.ico", FAVICON) ]
  }

  lemma ShippedAreWellOrdered(text: string -> seq<byte>)
    ensures WellOrdered(ShippedAssets(text))
  {
    var assets := ShippedAssets(text);
    ShippedArePathwiseDistinct();
    assert forall i :: 0 <= i < |assets| ==> assets[i].path == PathOf(i);
  }

  function PathOf(i: nat): string
    requires i < 10
  {
    ShippedAssets(_ => [])[i].path
  }

  lemma ShippedArePathwiseDistinct()
    ensures forall i, j :: 0 <= i < j < 10 ==> PathOf(i) != PathOf(j)
  {
    // Lengths tell most paths apart, and a letter the rest.
    forall i, j | 0 <= i < j < 10 ensures PathOf(i) != PathOf(j) {
      if |PathOf(i)| == |PathOf(j)| {
        assert PathOf(i)[0] != PathOf(j)[0] || PathOf(i)[17] != PathOf(j)[17] || PathOf(i)[28] != PathOf(j)[28];
      }
    }
  }

  /** Only the home-screen icon is composited, and only the favicon is wrapped. */
  lemma ShippedKinds(text: string -> seq<byte>, k: nat)
    requires k < |ShippedAssets(text)|
    ensures var a := ShippedAssets(text)[k];
      && (a.Raster? && a.composite <==> a.path == "apps/console/public/apple-touch-icon.png")
      && (a.Icon? ==>
            a.path == "apps/console/public/favicon.ico" && a.source == "apps/console/public/favicon-16x16.png")
  {
    assert ShippedAssets(text)[k].path == PathOf(k);
    ShippedArePathwiseDistinct();
    assert PathOf(6) == "apps/console/public/apple-touch-icon.png";
  }
}
