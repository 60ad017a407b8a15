/**
 * Canonical names derived from a Sentinel-2 L2A product: the datastrip token
 * read from a granule's `datastripIdentifier`, the intermediate subdirectory
 * name `L2A_<tile>_<granule>_<datastrip>`, and the remote metadata paths
 * handed to the copy tool.
 */
module Naming {
  import opened Wrappers
  import opened PyStr

  /** Suffix that selects a product's metadata file on the remote store. */
  const MetadataGlob: string := "/MTD_*.xml"
  const SubdirPrefix: string := "L2A"

  /**
   * What `parse_xml` reads from a product's metadata document: the `Granule`
   * element (here its identifier, kept as an opaque string) and that
   * element's `datastripIdentifier` attribute.
   */
  datatype GranuleInfo = GranuleInfo(granule: string, datastripIdentifier: string)

  /**
   * `datastripIdentifier.split('_')[-2][1:]`. The index `-2` fails when the
   * identifier has no `_` (one field only); that case is `None`.
   */
  function DatastripToken(datastripIdentifier: string): (r: Option<string>)
    ensures r.None? <==> '_' !in datastripIdentifier
  {
    var fields := Split(datastripIdentifier, '_');
    SplitFields(datastripIdentifier, '_');
    if |fields| < 2 then None else Some(DropFirst(fields[|fields| - 2]))
  }

  /**
   * For an identifier made of `_`-separated fields, the token is the
   * second-to-last field without its leading discriminator character.
   */
  lemma DatastripOfFields(fields: seq<string>)
    requires |fields| >= 2 && FreeOf(fields, '_')
    ensures DatastripToken(Join(fields, '_')) == Some(DropFirst(fields[|fields| - 2]))
  {
    SplitJoin(fields, '_');
  }

  /** A typical identifier: the token is the sensing-start time after the `S` marker. */
  lemma DatastripOfTypicalIdentifier(prefix: string, start: string, version: string)
    requires '_' !in start && '_' !in version
    ensures DatastripToken(prefix + "_S" + start + "_" + version) == Some(start)
  {
    var field := "S" + start;
    var x := prefix + ['_'] + field;
    assert '_' !in field;
    assert x + ['_'] + version == prefix + "_S" + start + "_" + version;
    SplitSnoc(x, version, '_');
    SplitSnoc(prefix, field, '_');
    var fs := Split(prefix, '_') + [field] + [version];
    assert Split(x + ['_'] + version, '_') == fs;
    assert fs[|fs| - 2] == field;
    assert DropFirst(field) == start;
  }

  /** The tile code: characters 38 to 44 of the product title, clamped. */
  function Tile(title: string): (r: string)
    ensures |title| >= 44 ==> r == title[38..44]
    ensures |title| <= 38 ==> r == ""
  {
    Slice(title, 38, 44)
  }

  /**
   * In a product title laid out as `MMM_MSIL2A_<date>_<baseline>_<orbit>_<tile>_...`
   * with fixed-width fields, the characters at offsets 38 to 44 are the tile code.
   */
  lemma TileOfProductTitle(mission: string, date: string, baseline: string, orbit: string,
                           tile: string, rest: string)
    requires |mission| == 3 && |date| == 15 && |baseline| == 5 && |orbit| == 4 && |tile| == 6
    ensures Tile(mission + "_MSIL2A_" + date + "_" + baseline + "_" + orbit + "_" + tile + rest) == tile
  {
    var head := mission + "_MSIL2A_" + date + "_" + baseline + "_" + orbit + "_";
    var title := head + tile + rest;
    assert |head| == 38;
    assert title[38..44] == tile;
  }

  /**
   * `f"L2A_{tile}_{granule}_{datastrip}"` with `tile = title[38:44]`. The name
   * starts with `L2A_` and ends with the datastrip; for a title of at least 44
   * characters the six characters after the prefix are the tile.
   */
  function SubdirName(title: string, granule: string, datastrip: string): (r: string)
    ensures |r| == 6 + |Tile(title)| + |granule| + |datastrip|
    ensures r[..4] == "L2A_"
    ensures |title| >= 44 ==> |r| == 12 + |granule| + |datastrip| && r[4..10] == title[38..44]
    ensures r[|r| - |datastrip|..] == datastrip
  {
    SubdirPrefix + "_" + Tile(title) + "_" + granule + "_" + datastrip
  }

  /**
   * The name splits back into its four parts when none of them holds an `_`:
   * prefix, tile, granule and datastrip can be read off the name.
   */
  lemma SubdirNameFields(title: string, granule: string, datastrip: string)
    requires '_' !in Tile(title) && '_' !in granule && '_' !in datastrip
    ensures Split(SubdirName(title, granule, datastrip), '_') == [SubdirPrefix, Tile(title), granule, datastrip]
  {
    var fields := [SubdirPrefix, Tile(title), granule, datastrip];
    assert FreeOf(fields, '_');
    assert fields[1..][1..][1..] == [datastrip];
    assert Join(fields[1..][1..], '_') == granule + "_" + datastrip;
    assert Join(fields[1..], '_') == Tile(title) + "_" + granule + "_" + datastrip;
    assert Join(fields, '_') == SubdirName(title, granule, datastrip);
    SplitJoin(fields, '_');
  }

  /** The subdirectory for one title, or `None` when its datastrip token cannot be read. */
  function SubdirFor(title: string, info: GranuleInfo): (r: Option<string>)
    ensures r.None? <==> '_' !in info.datastripIdentifier
    ensures r.Some? ==> r.value == SubdirName(title, info.granule, DatastripToken(info.datastripIdentifier).value)
  {
    match DatastripToken(info.datastripIdentifier)
    case None => None
    case Some(d) => Some(SubdirName(title, info.granule, d))
  }

  /** The subdirectory for `title`, reading its metadata through `metadata`. */
  function Resolve(title: string, metadata: string -> GranuleInfo): Option<string>
  {
    SubdirFor(title, metadata(title))
  }

  /**
   * The names `build_intermediate_dir` appends for `titles`, in order, up to
   * the first title whose metadata has no readable datastrip (the Python code
   * raises there).
   */
  function Subdirs(titles: seq<string>, metadata: string -> GranuleInfo): (r: seq<string>)
    ensures |r| <= |titles|
  {
    if titles == [] then []
    else match Resolve(titles[0], metadata)
      case None => []
      case Some(name) => [name] + Subdirs(titles[1..], metadata)
  }

  /** One turn of `build_intermediate_dir`'s loop: the first title's name, if any, comes first. */
  lemma SubdirsCons(title: string, rest: seq<string>, metadata: string -> GranuleInfo)
    ensures var info := metadata(title);
      match DatastripToken(info.datastripIdentifier)
      case None => Subdirs([title] + rest, metadata) == []
      case Some(d) => Subdirs([title] + rest, metadata) == [SubdirName(title, info.granule, d)] + Subdirs(rest, metadata)
  {
    assert ([title] + rest)[1..] == rest;
  }

  /**
   * `Subdirs` names the longest prefix of `titles` whose titles all resolve:
   * entry `i` is the name for title `i`, and the title right after the
   * prefix, if any, does not resolve.
   */
  lemma {:induction false} SubdirsLongestPrefix(titles: seq<string>, metadata: string -> GranuleInfo)
    ensures var r := Subdirs(titles, metadata);
      && (forall i :: 0 <= i < |r| ==> Resolve(titles[i], metadata) == Some(r[i]))
      && (|r| < |titles| ==> Resolve(titles[|r|], metadata).None?)
  {
    if titles != [] && Resolve(titles[0], metadata).Some? {
      var rest := Subdirs(titles[1..], metadata);
      SubdirsLongestPrefix(titles[1..], metadata);
      var r := Subdirs(titles, metadata);
      assert r == [Resolve(titles[0], metadata).value] + rest;
      forall i | 0 < i < |r|
        ensures Resolve(titles[i], metadata) == Some(r[i])
      {
        assert titles[1..][i - 1] == titles[i] && r[i] == rest[i - 1];
      }
      if |r| < |titles| {
        assert titles[1..][|rest|] == titles[|r|];
      }
    }
  }

  /** Every title resolves exactly when `Subdirs` names them all. */
  lemma SubdirsComplete(titles: seq<string>, metadata: string -> GranuleInfo)
    ensures |Subdirs(titles, metadata)| == |titles| <==>
      forall i :: 0 <= i < |titles| ==> '_' in metadata(titles[i]).datastripIdentifier
  {
    SubdirsLongestPrefix(titles, metadata);
  }

  /** `[f"{path}/MTD_*.xml" for path in s3_ids]`. */
  function MetadataPaths(s3Ids: seq<string>): (r: seq<string>)
    ensures |r| == |s3Ids|
    ensures forall i :: 0 <= i < |r| ==>
      |r[i]| == |s3Ids[i]| + |MetadataGlob| && r[i][..|s3Ids[i]|] == s3Ids[i] && r[i][|s3Ids[i]|..] == MetadataGlob
  {
    seq(|s3Ids|, i requires 0 <= i < |s3Ids| => s3Ids[i] + MetadataGlob)
  }

  /** Strips the metadata glob from a remote path: the inverse of one entry of `MetadataPaths`. */
  function ProductOf(path: string): (r: Option<string>)
    ensures r.Some? ==> r.value + MetadataGlob == path
  {
    if |path| >= |MetadataGlob| && path[|path| - |MetadataGlob|..] == MetadataGlob
    then Some(path[..|path| - |MetadataGlob|])
    else None
  }

  /** Every remote path names its product identifier back, at the same position. */
  lemma MetadataPathsRoundTrip(s3Ids: seq<string>)
    ensures forall i :: 0 <= i < |s3Ids| ==> ProductOf(MetadataPaths(s3Ids)[i]) == Some(s3Ids[i])
  {
    var r := MetadataPaths(s3Ids);
    forall i | 0 <= i < |s3Ids|
      ensures ProductOf(r[i]) == Some(s3Ids[i])
    {
      assert r[i] == s3Ids[i] + MetadataGlob;
      assert r[i][..|s3Ids[i]|] == s3Ids[i];
    }
  }
}
