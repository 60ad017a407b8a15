# dataspace-downloader, modelled in Dafny

`dataspace_downloader/downloader.py` is a client for the Copernicus Data Space
catalogue. Its `Downloader` object does three things:

- It searches the OpenSearch-style resto API for Sentinel-2 L2A products. Each
  page's features are accumulated into three index-aligned lists: titles, S3
  product identifiers and footprint polygons. Pages are followed through the
  first link whose `rel` is `"next"`.
- It lists the remote metadata files of the found products.
- From each product's title and its granule metadata, it derives the
  intermediate subdirectory name `L2A_<tile>_<granule>_<datastrip>` expected
  downstream.

The model has five modules:

- `PyStr` (`pystr.dfy`): the Python string operations the code relies on.
  These are clamping slices, `str.split` on one character, and its inverse
  `join`. The two are proved to be inverses.
- `Naming` (`naming.dfy`): the pure naming logic. This covers the datastrip
  token, the tile code, the subdirectory name, the list of names that
  `build_intermediate_dir` appends, and the remote metadata paths.
- `Catalog` (`catalog.dfy`): search responses as data. Each response has a
  status, `(geometry, title, productIdentifier)` features and `(rel, href)`
  links. The module also holds the chain of pages that following "next" links
  visits, and the features collected along it.
- `DataspaceDownloader` (`downloader.dfy`): the `Downloader` class. Its fields
  are updated in place. The constructor builds the fixed request payload and
  the `cloudCover` default. `Search` is the `while True` pagination loop.
  `BuildIntermediateDir` is the `for` loop over titles.
- `Wrappers` (`wrappers.dfy`): `Option`, used for Python's `None` and for
  operations that raise.

HTTP is a parameter of `Search`:

- `first` is the response to the initial request.
- `fetch: string -> Response` answers a GET on a link's `href`, used verbatim.

The server is modelled as time-invariant: `fetch` is a function, so one `href`
always answers the same page. Under that reading, the code loops forever once the
"next" links lead into a cycle of any length (`Catalog.ReachesCycleNeverEnds`). So `Search` takes a ghost `hops` and requires that the chain ends after exactly
that many followed links (`Catalog.EndsAfter`). `Catalog.EndsAfterUnique` shows
that this count is determined by the server.

## Model

| member | source | states |
|---|---|---|
| `PyStr.Slice` | dataspace_downloader/downloader.py:271 | Python's `s[lo:hi]` with non-negative bounds: both bounds clamp to the length, so the result has exactly `min(hi, len(s)) - lo` characters (none when that is not positive), and character `k` is `s[lo+k]` |
| `PyStr.DropFirst` | dataspace_downloader/downloader.py:260 | `s[1:]`: empty stays empty; otherwise the first character followed by the result gives `s` back |
| `PyStr.Split` | dataspace_downloader/downloader.py:260 | `s.split(sep)` always yields at least one field |
| `PyStr.SplitFields` | dataspace_downloader/downloader.py:260 | the fields of `s.split(sep)` hold no `sep`; joining them with `sep` gives `s`; there is more than one exactly when `sep` occurs in `s` |
| `PyStr.SplitJoin` | dataspace_downloader/downloader.py:260 | `split` inverts `join`: separator-free fields are recovered exactly from their joined string |
| `PyStr.SplitSnoc` | dataspace_downloader/downloader.py:260 | splitting `x + sep + y`, with no `sep` in `y`, gives the fields of `x` followed by `y` |
| `Naming.DatastripToken` | dataspace_downloader/downloader.py:260 | `datastripIdentifier.split('_')[-2][1:]`; there is no token (the index raises) exactly when the identifier holds no `_` |
| `Naming.DatastripOfFields` | dataspace_downloader/downloader.py:260 | for an identifier made of two or more `_`-free fields, the token is the second-to-last field with its first character dropped |
| `Naming.DatastripOfTypicalIdentifier` | dataspace_downloader/downloader.py:260 | for `<anything>_S<start>_<version>` with `_`-free `start` and `version`, the token is `start`, without the `S` marker |
| `Naming.Tile` | dataspace_downloader/downloader.py:271 | `title[38:44]`: the six characters at offsets 38 to 44 when the title has at least 44 characters, empty when it has at most 38 |
| `Naming.TileOfProductTitle` | dataspace_downloader/downloader.py:270-271 | in a title laid out as `MMM_MSIL2A_<15-char date>_<5-char baseline>_<4-char orbit>_<6-char tile>...`, `Tile` is the tile field |
| `Naming.SubdirName` | dataspace_downloader/downloader.py:271-272 | the f-string `L2A_{tile}_{granule}_{datastrip}` with `tile = title[38:44]`: the name starts with `L2A_` and ends with the datastrip; its length is 6 plus the lengths of tile, granule and datastrip; for a title of at least 44 characters, characters 4 to 10 are `title[38:44]` |
| `Naming.SubdirNameFields` | dataspace_downloader/downloader.py:272 | when tile, granule and datastrip hold no `_`, splitting the name on `_` gives back exactly `L2A`, tile, granule and datastrip |
| `Naming.SubdirFor` | dataspace_downloader/downloader.py:269-272 | a title's subdirectory exists exactly when its granule's datastrip identifier holds an `_`; it is then `SubdirName` of the title, the granule and the datastrip token |
| `Naming.Subdirs` | dataspace_downloader/downloader.py:268-273 | the names appended for a title list are at most one per title |
| `Naming.SubdirsLongestPrefix` | dataspace_downloader/downloader.py:268-273 | name `i` is the subdirectory of title `i`, in title order; the title right after the named ones, if any, does not resolve (the loop stops there) |
| `Naming.SubdirsComplete` | dataspace_downloader/downloader.py:268-273 | one name per title is appended exactly when every title's datastrip identifier holds an `_` |
| `Naming.MetadataPaths` | dataspace_downloader/downloader.py:234 | one remote path per product identifier, same order; each path is the identifier followed by `/MTD_*.xml` |
| `Naming.ProductOf` | dataspace_downloader/downloader.py:234 | not code from this line: the inverse built for the round trip. It removes the `/MTD_*.xml` suffix from a path; whenever it gives an identifier, that identifier plus the suffix is the path |
| `Naming.MetadataPathsRoundTrip` | dataspace_downloader/downloader.py:234 | each remote path gives back, through `ProductOf`, the product identifier at the same position |
| `Catalog.NextIndex` | dataspace_downloader/downloader.py:307-314 | `tags.index('next')`: there is none exactly when no link has `rel == "next"`; otherwise it is the first such link |
| `Catalog.EndsAfterUnique` | dataspace_downloader/downloader.py:297-317 | the number of "next" links followed before a page without one is unique for a given first page and server |
| `Catalog.EndsAfterWalk` | dataspace_downloader/downloader.py:297-317 | a walk that ends after `hops` links and reaches page `q` after `n` links has `n <= hops`, and from `q` it ends after the remaining `hops - n` |
| `Catalog.CycleNeverEnds` | dataspace_downloader/downloader.py:297-317 | a page that `n >= 1` followed "next" links lead back to is never left, for any number of steps |
| `Catalog.ReachesCycleNeverEnds` | dataspace_downloader/downloader.py:297-317 | a walk that reaches such a cycle, after any number of links, never reaches a page without a "next" link, so the loop does not end |
| `Catalog.SelfLinkNeverEnds` | dataspace_downloader/downloader.py:297-317 | a page whose first "next" link returns the page itself never reaches a page without one, for any number of steps, so the loop does not end |
| `Catalog.Visited` | dataspace_downloader/downloader.py:297-317 | the walk visits one page more than the links it follows, starting with the first response |
| `Catalog.VisitedChain` | dataspace_downloader/downloader.py:307-315 | each visited page after the first is the response to the previous page's first "next" link, used verbatim; only the last page has no "next" link |
| `Catalog.VisitedStep` | dataspace_downloader/downloader.py:309-317 | one turn of the loop: a page without a "next" link is the last visited page; otherwise the walk goes on, one link fewer, from the response to that link |
| `Catalog.CollectedSnoc` | dataspace_downloader/downloader.py:300-303 | processing one more page adds exactly that page's features, in their order, after those collected before |
| `Catalog.CollectedCount` | dataspace_downloader/downloader.py:300-303 | as many features are collected as the visited pages hold together |
| `Catalog.CollectedAt` | dataspace_downloader/downloader.py:300-303 | feature `j` of page `i` sits at position (features on earlier pages) + `j` of the collected features |
| `Catalog.ProjectionsSnoc` | dataspace_downloader/downloader.py:300-303 | for titles, identifiers and geometries alike, lists holding the projections of some pages plus one more page's projections hold the projections of all those pages |
| `Catalog.TwoPages` | dataspace_downloader/downloader.py:297-317 | a first page of 20 products whose "next" link leads to a last page of 5 yields a walk of one link and 25 products |
| `DataspaceDownloader.CloudCoverSetting` | dataspace_downloader/downloader.py:202-206 | the configuration's `cloudCover` is taken verbatim when present; the value is `"[0,5]"` when the key is missing |
| `DataspaceDownloader.Proceeds` | dataspace_downloader/downloader.py:282-295 | the two early returns of `search`: it goes on only when the first status is 200 (:282) and the first page has at least one feature (:294) |
| `DataspaceDownloader.Downloader.constructor` | dataspace_downloader/downloader.py:138-184 | the defaults are `maxRecords` 20, `page` 1, sorting by `startDate` ascending, no dates and no geometry, and `cloudCover` as configured or defaulted; the payload snapshots these with product type `S2MSI2A`; all lists start empty |
| `DataspaceDownloader.Downloader.AppendFeatures` | dataspace_downloader/downloader.py:300-303 | each feature's geometry, title and product identifier go to the end of `polygons`, `titles` and `s3Ids`, in feature order; the lists stay aligned |
| `DataspaceDownloader.Downloader.Search` | dataspace_downloader/downloader.py:276-317 | a first response with a status other than 200, or with no features, changes nothing; otherwise the three lists gain the features of every visited page, in order, and stay aligned; their length grows by the total feature count; `page` grows by the number of links followed |
| `DataspaceDownloader.Downloader.BuildIntermediateDir` | dataspace_downloader/downloader.py:264-273 | `subdirs` gains `Subdirs(titles)`, in title order, after its earlier entries; it reports success exactly when every title got a name |

## Left out

- HTTP: the two `requests.get` calls (downloader.py:279, :315) are not modelled. The first response and the `fetch` function are inputs to `Search`.
- JSON decoding: missing keys are not modelled. In the model every response has `features` and `properties.links`, every feature has `geometry`, `properties.title` and `properties.productIdentifier`, and every link has `rel` and `href`. The code raises `KeyError` on a missing one (downloader.py:291, :301-303, :307, :314). A feature without `properties` raises after `self.polygons.append` has run (:301-302), so in the code `polygons` is left one longer than `titles` and the three lists lose their alignment (`Valid`). A body that is not JSON is not modelled either: `resp.json()` raises at :290 on the first response, and at :316 on a later one. In the second case the earlier pages' items stay appended and `page` is not incremented for the link just followed.
- Search: the server is modelled as time-invariant (`fetch` is a function of the `href`). Runs in which one `href` answers differently over time, as a changing catalogue can, are not represented; such a run may end in the code where the model says it loops.
- Search: needs the "next" chain to end (`EndsAfter`), because the code's loop does not terminate on cyclic links. Non-termination on cyclic links is shown by `ReachesCycleNeverEnds`, not executed.
- Responses after the first are not status-checked, in the code and in the model alike. Their features are collected whatever their status.
- Printed messages are not modelled: the response text (downloader.py:283), the product count (:291), the missing-file and YAML-error messages (:197, :199) and the `cloudCover` default warning (:205).
- XML parsing of `MTD_MSIL2A.xml` with ElementTree and namespaces (downloader.py:257-259) is not modelled. The metadata lookup is an input to `BuildIntermediateDir` that maps a title to its granule and `datastripIdentifier`. A missing element, which raises `AttributeError` in the code, is not modelled. Neither is a `Granule` element without a `datastripIdentifier` attribute, which raises `KeyError` at :260.
- BuildIntermediateDir: the granule is an opaque identifier string. In the code, `parse_xml` returns the `Granule` XML element itself, which the f-string renders as the element's representation, not as an identifier.
- BuildIntermediateDir: when a datastrip identifier has no `_`, the code raises out of the loop. The model returns `false` instead. Names appended before that point stay in both.
- Reading the YAML configuration file (downloader.py:193-199) is not modelled. The parsed mapping is a constructor input, with each value kept as its text. A list value and the string default for `cloudCover` are therefore not told apart. Failures while reading the file are not modelled. There are three cases:
  - A missing file is caught at :196, but the handler's message reads the misspelled `self.input_yml` (:197), which raises `AttributeError`.
  - A file that exists but cannot be opened (a permission error, or a directory) is caught by neither handler (:196, :198) and raises at :194.
  - A YAML syntax error is caught at :198 and printed at :199. `yaml_data` is then unbound, and :203 raises `UnboundLocalError`. An empty file makes `yaml_data` `None`, and `yaml_data['cloudCover']` then raises an uncaught `TypeError` at :203; that is not modelled either.
- `download_metadata` I/O is not modelled: writing and removing the temporary list file and running `rclone` (downloader.py:237-249). Only the path list is modelled.
- `download` (downloader.py:322-326) only sequences `download_metadata` and `build_intermediate_dir`, so it is not modelled as a method of its own.
- `check_yaml_parameters` and `check_rclone_credentials` are `pass` (downloader.py:210-222). There is nothing to model.
- The fields `instrument`, `productType`, `bands`, `lon` and `lat` are set in the constructor but never read. The date slice `product[11:26]` (downloader.py:270) is never used. None of these are modelled.
- The token acquisition and refresh code after downloader.py:344 is commented out and is not modelled. The older top-level `downloader.py` and `setup.py` are not part of this model.
- CloudCoverSetting: the `"[0,5]"` default follows the evident intent. As written, the code never reaches it: the `except KeyError` handler first evaluates `self.input_yml` (downloader.py:205), a misspelled attribute that raises `AttributeError` before :206 assigns the default. So a configuration without `cloudCover` makes the constructor raise.
- The misspelled names `selsf` (:161), `DATA_DIR` (:269) and `sp` (:242) raise `NameError`, and the attribute `self.input_yml` (:197, :205) raises `AttributeError`. The model follows the evident intent: `self.page`, the output directory of the metadata, `subprocess`, and the configuration path `self.input_yaml`.

## What the code does not do

The model follows the code in each of these places:

- Parameters are not validated. The docstring of `check_yaml_parameters` (downloader.py:211-213) says it checks the parameters and sets a minimum for a reasonable search. Its body is `pass`, so no date order, cloud-cover range or spatial filter is checked.
- Pages after the first are not status-checked. A failed page is processed like any other (downloader.py:315-316).
- A metadata document without a readable datastrip stops `build_intermediate_dir` at that title (downloader.py:260, :268-273). No other title is processed after it.
- There is no retry and no timeout on the HTTP requests (downloader.py:279, :315). The token code after downloader.py:344 is commented out.
