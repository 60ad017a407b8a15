/**
 * The `Downloader` object: its search configuration, the request payload it
 * sends, the product lists that the paginated search fills in place, and the
 * list of intermediate subdirectories built from the products' metadata.
 */
module DataspaceDownloader {
  import opened Wrappers
  import opened Catalog
  import opened Naming

  /** Sent when the configuration has no `cloudCover` entry. */
  const DefaultCloudCover: string := "[0,5]"

  /**
   * The `cloudCover` setting: the configuration's value when the key is
   * present, taken verbatim, and the default range otherwise.
   */
  function CloudCoverSetting(config: map<string, string>): (r: string)
    ensures "cloudCover" in config ==> r == config["cloudCover"]
    ensures "cloudCover" !in config ==> r == DefaultCloudCover
  {
    if "cloudCover" in config then config["cloudCover"] else DefaultCloudCover
  }

  /** The query parameters of the first search request. */
  datatype Payload = Payload(
    productType: string,
    startDate: Option<string>,
    completionDate: Option<string>,
    geometry: Option<string>,
    cloudCover: string,
    sortParam: string,
    sortOrder: string,
    maxRecords: int,
    page: int)

  /** The search succeeds past its first response: status 200 and at least one feature. */
  predicate Proceeds(first: Response)
  {
    first.status == 200 && |first.features| > 0
  }

  class Downloader {
    var inputYaml: string
    var outDir: string

    // search parameters; only `cloudCover` is read from the configuration
    var cloudCover: string
    var startDate: Option<string>
    var completionDate: Option<string>
    var geometry: Option<string>
    var maxRecords: int
    var page: int  // current page, 1-indexed
    var sortParam: string
    var sortOrder: string

    var payload: Payload

    // products found so far, index-aligned
    var titles: seq<string>
    var s3Ids: seq<string>
    var polygons: seq<Geometry>

    var subdirs: seq<string>

    /** The three product lists stay index-aligned. */
    predicate Valid()
      reads this
    {
      |titles| == |s3Ids| == |polygons|
    }

    /**
     * Builds the object from the parsed configuration file `config`: the
     * fixed defaults, the `cloudCover` setting, a payload that snapshots
     * them, and empty product lists.
     */
    constructor (inputYaml: string, outDir: string, config: map<string, string>)
      ensures Valid()
      ensures this.inputYaml == inputYaml && this.outDir == outDir
      ensures cloudCover == CloudCoverSetting(config)
      ensures startDate == None && completionDate == None && geometry == None
      ensures maxRecords == 20 && page == 1 && sortParam == "startDate" && sortOrder == "ascending"
      ensures payload == Payload("S2MSI2A", None, None, None, CloudCoverSetting(config),
                                 "startDate", "ascending", 20, 1)
      ensures titles == [] && s3Ids == [] && polygons == [] && subdirs == []
    {
      this.inputYaml := inputYaml;
      this.outDir := outDir;
      startDate, completionDate, geometry := None, None, None;
      maxRecords, page := 20, 1;
      sortParam, sortOrder := "startDate", "ascending";
      cloudCover := CloudCoverSetting(config);
      payload := Payload("S2MSI2A", startDate, completionDate, geometry, cloudCover,
                         "startDate", "ascending", maxRecords, page);
      titles, s3Ids, subdirs, polygons := [], [], [], [];
    }

    /** Appends each feature's geometry, title and product identifier, in feature order. */
    method AppendFeatures(features: seq<Feature>)
      requires Valid()
      modifies this`titles, this`s3Ids, this`polygons
      ensures Valid()
      ensures titles == old(titles) + Titles(features)
      ensures s3Ids == old(s3Ids) + ProductIds(features)
      ensures polygons == old(polygons) + Geometries(features)
    {
      for j := 0 to |features|
        invariant titles == old(titles) + Titles(features[..j])
        invariant s3Ids == old(s3Ids) + ProductIds(features[..j])
        invariant polygons == old(polygons) + Geometries(features[..j])
      {
        var f := features[j];
        assert features[..j + 1] == features[..j] + [f];
        ProjectionsAppend(features[..j], [f]);
        polygons := polygons + [f.geometry];
        titles := titles + [f.title];
        s3Ids := s3Ids + [f.productIdentifier];
      }
      assert features[..|features|] == features;
    }

    /**
     * Runs the search. `first` is the response to the payload's request and
     * `fetch` answers a GET on a link verbatim. When the first response fails
     * or is empty, nothing changes. Otherwise every visited page's features
     * are appended in order, pages are followed through their first "next"
     * link until one has none, and `page` counts the links followed. The
     * Python code loops forever on a server whose links cycle, so the chain is
     * required to end, after `hops` links.
     */
    method Search(first: Response, fetch: string -> Response, ghost hops: nat)
      requires Valid()
      requires Proceeds(first) ==> EndsAfter(fetch, first, hops)
      modifies this`titles, this`s3Ids, this`polygons, this`page
      ensures Valid()
      ensures !Proceeds(first) ==>
        titles == old(titles) && s3Ids == old(s3Ids) && polygons == old(polygons) && page == old(page)
      ensures Proceeds(first) ==>
        var found := Collected(Visited(fetch, first, hops));
        && titles == old(titles) + Titles(found)
        && s3Ids == old(s3Ids) + ProductIds(found)
        && polygons == old(polygons) + Geometries(found)
        && page == old(page) + hops
      ensures Proceeds(first) ==> |titles| == |old(titles)| + FeatureCount(Visited(fetch, first, hops))
    {
      if first.status != 200 {
        return;
      }
      if |first.features| == 0 {
        return;
      }
      ghost var t0, i0, g0 := titles, s3Ids, polygons;
      var resp := first;
      ghost var left := hops;
      ghost var done: seq<Response> := [];
      while true
        invariant EndsAfter(fetch, resp, left)
        invariant done + Visited(fetch, resp, left) == Visited(fetch, first, hops)
        invariant titles == t0 + Titles(Collected(done))
        invariant s3Ids == i0 + ProductIds(Collected(done))
        invariant polygons == g0 + Geometries(Collected(done))
        invariant page == old(page) + |done|
        decreases left
      {
        AppendFeatures(resp.features);
        ProjectionsSnoc(t0, i0, g0, done, resp);
        VisitedStep(fetch, first, hops, done, resp, left);
        var next := NextIndex(resp.links);
        if next.None? {
          done := done + [resp];
          CollectedCount(done);
          break;
        }
        done := done + [resp];
        resp := fetch(resp.links[next.value].href);
        page := page + 1;
        left := left - 1;
      }
    }

    /**
     * Appends one subdirectory name per title, in order, reading each
     * product's granule metadata through `metadata`. A title whose
     * datastrip identifier holds no `_` stops the loop (the Python code raises
     * there); the names appended before it stay. `ok` says all titles
     * resolved.
     */
    method BuildIntermediateDir(metadata: string -> GranuleInfo) returns (ok: bool)
      modifies this`subdirs
      ensures subdirs == old(subdirs) + Subdirs(titles, metadata)
      ensures ok <==> |Subdirs(titles, metadata)| == |titles|
    {
      for i := 0 to |titles|
        invariant subdirs + Subdirs(titles[i..], metadata) == old(subdirs) + Subdirs(titles, metadata)
        invariant |subdirs| == |old(subdirs)| + i
      {
        var info := metadata(titles[i]);
        var datastrip := DatastripToken(info.datastripIdentifier);
        if datastrip.None? {
          assert Subdirs(titles[i..], metadata) == [] by {
            assert titles[i..] == [titles[i]] + titles[i + 1..];
            SubdirsCons(titles[i], titles[i + 1..], metadata);
          }
          return false;
        }
        var name := SubdirName(titles[i], info.granule, datastrip.value);
        ghost var later := Subdirs(titles[i + 1..], metadata);
        assert Subdirs(titles[i..], metadata) == [name] + later by {
          assert titles[i..] == [titles[i]] + titles[i + 1..];
          SubdirsCons(titles[i], titles[i + 1..], metadata);
        }
        assert (subdirs + [name]) + later == subdirs + ([name] + later);
        subdirs := subdirs + [name];
      }
      assert titles[|titles|..] == [];
      return true;
    }
  }
}
