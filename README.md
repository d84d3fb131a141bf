# BDOT10k buildings pipeline — a Dafny model

This project models the four arcpy scripts that build and analyse the BDOT10k
building layers (BUBD) of the Polish voivodeship cities.

- **przetwarzanie_danych.py** covers every year in LATA (2014–2023) and every
  (voivodeship, county) pair of MIASTA. For each pair it:
  - downloads the yearly archive `BASE_URL/<rok>/SHP/<woj>/<teryt>_SHP_<rok>.zip`,
    unless the archive is already cached as `TEMP_DIR/<teryt>_<rok>.zip`;
  - unpacks it, unless it is already unpacked;
  - finds the first BUBD shapefile in walk order;
  - copies that shapefile's sidecar files, under the base name `BUBD_TEMP`, into
    a freshly emptied `TEMP_DIR/clean_<teryt>_<rok>`;
  - imports the copy into the geodatabase as `bubd_<rok>_<teryt>`, unless that
    layer already exists.

  A failure of the download, the unpacking or the export skips only that
  pair.
- **nowy.py** is the earlier variant of the same pipeline. It has no exception
  handling and no clean copy: it imports the located shapefile directly.
- **tworzenie_warstw.py** is the year-over-year change detector. For each year
  it does the following:
  - It collects the existing `bubd_<rok>_<teryt>` layers.
  - A year without any of them resets `poprzednie_budynki`.
  - Otherwise the snapshot of the year is either the single layer or the merge
    `bubd_miasta_<rok>`.
  - When the previous processed year left a snapshot, `bubd_miasta_new_<rok>`
    receives the current features that intersect nothing in that snapshot.
- **wykres.py, lines 38–48** aggregate, per city, the feature counts of the
  city's yearly layers.

## How the model is built

The state is modelled as three classes:

- **Disk** (`Files.Disk`) holds the set of existing paths. File contents are
  not modelled.
- **Network** (`Files.Network`) holds a fixed answer per URL and a log of the
  requests sent.
- **Geodatabase** (`Geo.Geodatabase`) is a map from layer name to a sequence of
  features. A layer's count is its length.

Spatial intersection is a parameter. So are what an archive unpacks to, what
`os.walk` yields and what `ExportFeatures` reads.

Each script function is an imperative `method` over these objects. Its
`ensures` ties the new state to a specification function of the old state
(`Fetch`, `Unpack`, `Prepare`, `Import`, `Unit`, `YearStep`, `Counts`, …). The
loops are proved against folds of those functions (`RunYears`, `DetectRun`,
`Counts`). The properties the scripts promise are lemmas about the
specification functions.

The MIASTA tables differ between the scripts, so every operation takes the
table as a parameter (`Bdot.Miasta`, `Wykres.Config`). LATA is the constant
`Bdot.Lata`.

### Failure handling in the scripts

- **przetwarzanie_danych.py, downloading.** The bare `except` at lines 66–67
  catches a transport failure, a failed `open` and a broken stream alike, and
  turns each into `None`.
  - A broken stream leaves the partly written archive on disk, because `open`
    has already created it.
  - Every later call then treats that file as cached (`PrzetwarzanieDanych.Fetch`,
    `Transfer.StreamBroken`).
- **przetwarzanie_danych.py, the other stages.** An unreadable archive yields
  `None` (lines 75–76). A failed export is caught and printed (lines 120–121),
  and the store is left as it was. A failure of `rmtree`, `makedirs` or
  `copy2` is not caught; the model does not cover it (see "Left out").
- **nowy.py** catches nothing, so any of these ends the whole run:
  - a transport failure;
  - a failed write;
  - an unreadable archive;
  - a failed export.

  `Nowy.Run` carries a `crashed` flag that stops every later pair.

## Model

| member | source | states |
|---|---|---|
| Text.NatToString | przetwarzanie_danych.py:53 | `str(rok)`: at least one character, all decimal digits, and a single digit exactly for numbers below 10 |
| Text.NatToStringInjective | przetwarzanie_danych.py:113 | two numbers with the same decimal rendering are equal, so names that embed a year keep years apart |
| Text.Lower | przetwarzanie_danych.py:84 | `str.lower()` on ASCII: same length, each letter A–Z lowercased and every other character kept |
| Text.EndsWith | przetwarzanie_danych.py:84 | `s.endswith(suffix)`: the last characters of `s` are the suffix |
| Text.Contains | przetwarzanie_danych.py:84 | `sub in s`: `sub` occurs at some position of `s` |
| Text.RemoveAll | przetwarzanie_danych.py:70 | `s.replace(pattern, "")`: every non-overlapping occurrence, scanned left to right, is removed; its properties are stated by `Text.RemoveZipSuffix` |
| Text.RemoveZipSuffix | przetwarzanie_danych.py:70 | removing ".zip" from a dot-free name followed by ".zip" gives back the name |
| Text.Join | przetwarzanie_danych.py:54 | `os.path.join(dir, name)` with the Windows separator |
| Text.LastDot | przetwarzanie_danych.py:99 | the index of the last '.' of a name, or −1 when there is none; no dot follows it |
| Text.Stem | przetwarzanie_danych.py:99 | `os.path.splitext(name)[0]`: the part before the last dot, unless only dots precede that dot |
| Bdot.Range | przetwarzanie_danych.py:23 | LATA has hi−lo years, and the i-th one is lo+i: the years go in ascending order |
| Bdot.ArchiveUrl | przetwarzanie_danych.py:53 | the archive address `BASE_URL/<rok>/SHP/<woj>/<teryt>_SHP_<rok>.zip`; nowy.py:64 builds the same one |
| Bdot.CacheKey | przetwarzanie_danych.py:54 | the cache key `<teryt>_<rok>`; its properties are stated by `Bdot.ZipPathInjective` |
| Bdot.ZipPath | przetwarzanie_danych.py:54 | the cache path `TEMP_DIR\<teryt>_<rok>.zip`; nowy.py:67 builds the same one; its properties are stated by `Bdot.ZipPathInjective` and `Bdot.ZipOutsideClean` |
| Bdot.FolderOf | przetwarzanie_danych.py:70 | the extraction folder: the zip path with every ".zip" removed; its properties are stated by `Bdot.FolderOfZipPath` |
| Bdot.CleanDir | przetwarzanie_danych.py:93 | the staging folder `TEMP_DIR\clean_<teryt>_<rok>`; its properties are stated by `Bdot.ZipOutsideClean` |
| Bdot.CleanShp | przetwarzanie_danych.py:110 | the returned path `clean_dir\BUBD_TEMP.shp` |
| Bdot.LayerName | przetwarzanie_danych.py:113 | the layer name `bubd_<rok>_<teryt>`, used the same way at nowy.py:124, tworzenie_warstw.py:74 and wykres.py:44; its properties are stated by `Bdot.LayerNameInjective` |
| Bdot.FolderOfZipPath | przetwarzanie_danych.py:69-70 | for a dot-free county code, removing ".zip" from the cache path gives TEMP_DIR\<teryt>_<rok>: only the suffix is stripped |
| Bdot.LayerNameInjective | przetwarzanie_danych.py:113-116 | distinct (year, county) pairs get distinct layer names, so the imports of different pairs never collide |
| Bdot.ZipPathInjective | przetwarzanie_danych.py:54-56 | for digit county codes, distinct (year, county) pairs have distinct cache files, so a cache hit is always the pair's own archive |
| Bdot.ZipOutsideClean | przetwarzanie_danych.py:93-94 | a cached archive lies outside every clean folder, so the rmtree of a clean folder never deletes one |
| Files.Disk.Exists | przetwarzanie_danych.py:55 | os.path.exists holds exactly for existing paths |
| Files.Disk.Create | przetwarzanie_danych.py:62 | open(…, "wb") makes the file exist and changes nothing else |
| Files.Disk.Extract | przetwarzanie_danych.py:73-74 | extractall adds the folder and every archive entry below it |
| Files.Disk.RemoveTree | przetwarzanie_danych.py:94 | rmtree removes the directory and everything below it, and nothing else |
| Files.Disk.MakeDirs | przetwarzanie_danych.py:95 | makedirs adds the directory |
| Files.Disk.Copy | przetwarzanie_danych.py:107-108 | copy2 of an existing source adds the target |
| Files.Network.Get | przetwarzanie_danych.py:59 | a request is appended to the log and answered with the server's fixed response for that URL |
| Files.WithoutTree | przetwarzanie_danych.py:94 | the disk after rmtree holds exactly the paths outside the tree |
| Files.Extracted | przetwarzanie_danych.py:74 | the extraction always creates the target folder |
| Files.FirstIn | przetwarzanie_danych.py:83-86 | the index of the first matching file of one listing; None exactly when no file matches |
| Files.FirstMatch | przetwarzanie_danych.py:82-87 | the first position in walk order whose lowercased name ends with ".shp" and contains "bubd"; None exactly when there is none; nothing earlier matches |
| Files.IsBubdShp | przetwarzanie_danych.py:84 | the match test: the lowercased name ends with ".shp" and contains "bubd"; nowy.py:112 uses the same test; its properties are stated by `Files.StemOfBubdShp` and `Files.BubdBeforeSuffix` |
| Files.ShpSuffixDots | przetwarzanie_danych.py:84 | a name whose lowercase ends with ".shp" has a dot four characters from its end and no dot after it |
| Files.BubdBeforeSuffix | przetwarzanie_danych.py:84 | the "bubd" of a matched name starts at a non-dot character before the ".shp" suffix |
| Files.HitPath | nowy.py:113 | `os.path.join(root, f)` of the matched file |
| Files.FirstBubd | nowy.py:110-114 | the path of the first matching file in walk order, or None; its properties are stated by `Files.FirstMatch` |
| Files.StemOfBubdShp | przetwarzanie_danych.py:99 | splitext of a matched name strips exactly its four-character ".shp" suffix |
| Geo.Geodatabase.Exists | tworzenie_warstw.py:75 | arcpy.Exists holds exactly for stored layers |
| Geo.Geodatabase.GetCount | wykres.py:46 | GetCount is the layer's number of features |
| Geo.Geodatabase.ExportFeatures | przetwarzanie_danych.py:118 | a successful export stores the read features under the name; a failed one reports failure and changes nothing |
| Geo.Geodatabase.Merge | tworzenie_warstw.py:86 | Merge writes the concatenation of the inputs' features under the output name and changes no other layer |
| Geo.Geodatabase.CopyNotIntersecting | tworzenie_warstw.py:46-58 | the inverted INTERSECT selection, copied out, writes the non-intersecting features of the source under the output name |
| Geo.IntersectsAny | tworzenie_warstw.py:49-54 | a feature is selected by INTERSECT when it intersects some feature of the other layer; its properties are stated by `Geo.NotIntersectingExact` |
| Geo.NotIntersecting | tworzenie_warstw.py:49-55 | the selection is never larger than the source layer |
| Geo.NotIntersectingExact | tworzenie_warstw.py:45-58 | the selection holds each current feature that intersects nothing in the previous layer, exactly as often as it occurs in the current layer, and nothing else; it is a sub-multiset of the current layer |
| Geo.Concat | tworzenie_warstw.py:86 | what Merge writes: the named layers' features, one layer after another; its properties are stated by `Geo.ConcatCount` |
| Geo.TotalCount | tworzenie_warstw.py:84-86 | the sum of the named layers' counts; its properties are stated by `Geo.ConcatCount` |
| Geo.ConcatCount | tworzenie_warstw.py:84-86 | the merged layer's count is the sum of the input counts, and its features are exactly the inputs' features |
| Geo.Existing | tworzenie_warstw.py:72-76 | the filtered list is no longer than the scanned one, and every name in it is a stored layer |
| Geo.ExistingMembers | tworzenie_warstw.py:72-76 | the filtered list holds exactly the scanned names that are stored layers |
| Geo.ExistingAppend | tworzenie_warstw.py:72-76 | filtering distributes over concatenation, so the scan keeps table order |
| PrzetwarzanieDanych.Fetch | przetwarzanie_danych.py:52-67 | pobierz_zip: a cached archive is returned as it is; otherwise one request is sent, and only a 200 answer whose body was fully written yields the path; a transport failure, a failed open and a broken stream yield None, and a broken stream leaves the file on disk; its properties are stated by `PrzetwarzanieDanych.FetchCacheHit`, `PrzetwarzanieDanych.FetchMiss` and `PrzetwarzanieDanych.FetchTwice` |
| PrzetwarzanieDanych.PobierzZip | przetwarzanie_danych.py:52-67 | the disk, the request log and the returned path are those of `PrzetwarzanieDanych.Fetch` |
| PrzetwarzanieDanych.FetchCacheHit | przetwarzanie_danych.py:55-56 | on a cache hit the cached path is returned, and nothing is sent or written |
| PrzetwarzanieDanych.FetchMiss | przetwarzanie_danych.py:53-67 | on a cache miss exactly one request is sent, to BASE_URL/<rok>/SHP/<woj>/<teryt>_SHP_<rok>.zip; the cache path TEMP_DIR\<teryt>_<rok>.zip is returned exactly for a 200 answer whose body was fully written; a non-200 status or a transport failure writes nothing and returns None |
| PrzetwarzanieDanych.FetchTwice | przetwarzanie_danych.py:55-65 | a second call after a successful download returns the same path and sends no further request; an archive left on disk, even a partial one, is never requested again |
| PrzetwarzanieDanych.Unpack | przetwarzanie_danych.py:69-77 | rozpakuj_zip: the folder is the zip path without ".zip"; it is extracted only when absent, and an unreadable archive yields None; its properties are stated by `PrzetwarzanieDanych.UnpackOnce` |
| PrzetwarzanieDanych.RozpakujZip | przetwarzanie_danych.py:69-77 | the disk and the returned folder are those of `PrzetwarzanieDanych.Unpack` |
| PrzetwarzanieDanych.UnpackOnce | przetwarzanie_danych.py:69-77 | an existing folder is returned with the disk unchanged and nothing extracted; otherwise the result is the zip path without ".zip", or None exactly when the archive is unreadable; only paths are added; a second call after success changes nothing |
| PrzetwarzanieDanych.CopySidecars | przetwarzanie_danych.py:103-108 | the copy loop as a function of the disk: for each extension in order, the target `dir\BUBD_TEMP<ext>` is added when the source `root\<stem><ext>` exists; its properties are stated by `PrzetwarzanieDanych.CopySidecarsAdds` and `PrzetwarzanieDanych.CopySidecarsGrows` |
| PrzetwarzanieDanych.CleanFiles | przetwarzanie_danych.py:103-108 | the copies whose source exists: the set the clean folder ends up holding; its properties are stated by `PrzetwarzanieDanych.PrepareCleanDir` |
| PrzetwarzanieDanych.HitRoot | przetwarzanie_danych.py:100 | `os.path.dirname` of the found path: the walk entry's directory; its properties are stated by `PrzetwarzanieDanych.PrepareCleanDir` |
| PrzetwarzanieDanych.HitStem | przetwarzanie_danych.py:99 | `splitext(basename(...))[0]` of the found path; its properties are stated by `PrzetwarzanieDanych.PrepareCleanDir` |
| PrzetwarzanieDanych.Prepare | przetwarzanie_danych.py:79-110 | przygotuj_czysty_shp: no match gives None and no change; otherwise the clean folder is emptied and recreated, the existing sidecars are copied, and the result is clean_dir\BUBD_TEMP.shp; its properties are stated by `PrzetwarzanieDanych.PrepareCleanDir` and `PrzetwarzanieDanych.PrepareFrame` |
| PrzetwarzanieDanych.Recreated | przetwarzanie_danych.py:93-95 | after rmtree and makedirs the clean folder exists |
| PrzetwarzanieDanych.FirstMatchAt | przetwarzanie_danych.py:82-87 | a matching position with no earlier match is the first match |
| PrzetwarzanieDanych.FindBubdShp | przetwarzanie_danych.py:81-87 | the nested search with its two breaks finds exactly the first match in walk order |
| PrzetwarzanieDanych.PrzygotujCzystyShp | przetwarzanie_danych.py:79-110 | the disk and the returned path are those of `PrzetwarzanieDanych.Prepare` |
| PrzetwarzanieDanych.RecreateDir | przetwarzanie_danych.py:94-95 | the clean folder is emptied when present and then created |
| PrzetwarzanieDanych.CopySidecarFiles | przetwarzanie_danych.py:103-108 | the copy loop copies each existing sidecar of the found shapefile to BUBD_TEMP<ext>, extensions in order |
| PrzetwarzanieDanych.PrepareCleanDir | przetwarzanie_danych.py:89-110 | without a match, nothing changes and None is returned; with one, afterwards: the clean folder holds exactly itself and BUBD_TEMP<ext> for every ext of .shp/.shx/.dbf/.prj/.cpg whose sibling `<root>\<name without .shp><ext>` existed; nothing outside the clean folder changed; the result is clean_dir\BUBD_TEMP.shp |
| PrzetwarzanieDanych.CleanCopy | przetwarzanie_danych.py:93-108 | emptying and recreating the folder and then copying leaves exactly the folder and the copies inside it, and exactly the old contents outside it |
| PrzetwarzanieDanych.CopySidecarsAdds | przetwarzanie_danych.py:103-108 | with all sources outside the clean folder, the copy loop adds exactly the targets whose source existed beforehand |
| PrzetwarzanieDanych.CopySidecarsGrows | przetwarzanie_danych.py:104-108 | the copy loop only adds paths |
| PrzetwarzanieDanych.Import | przetwarzanie_danych.py:112-121 | importuj: nothing happens when the layer exists; otherwise the export creates it, and a failed export is caught and leaves the store as it was; its properties are stated by `PrzetwarzanieDanych.ImportOnce` |
| PrzetwarzanieDanych.Importuj | przetwarzanie_danych.py:112-121 | the store is that of `PrzetwarzanieDanych.Import` |
| PrzetwarzanieDanych.ImportOnce | przetwarzanie_danych.py:112-121 | existing layers are kept as they were; only bubd_<rok>_<teryt> can appear, exactly when the layer was absent and the export succeeds; an existing layer means no change; a second import changes nothing; a failed export leaves the store as it was |
| PrzetwarzanieDanych.Unit | przetwarzanie_danych.py:131-145 | one (year, county) pair: fetch, unpack, prepare and import, where a None from a stage skips the rest of the pair; its properties are stated by `PrzetwarzanieDanych.UnitEffect` and `PrzetwarzanieDanych.UnitProgress` |
| PrzetwarzanieDanych.RunTeryty | przetwarzanie_danych.py:130-145 | the counties of one voivodeship, in list order; its properties are stated by `PrzetwarzanieDanych.RunTerytyProgress` and `PrzetwarzanieDanych.RunTerytyCached` |
| PrzetwarzanieDanych.RunMiasta | przetwarzanie_danych.py:129-145 | every voivodeship of MIASTA for one year, in table order; its properties are stated by `PrzetwarzanieDanych.RunMiastaProgress` and `PrzetwarzanieDanych.RunMiastaCached` |
| PrzetwarzanieDanych.RunYears | przetwarzanie_danych.py:128-145 | the years in the given order; its properties are stated by `PrzetwarzanieDanych.RunYearsProgress` and `PrzetwarzanieDanych.RunYearsCached` |
| PrzetwarzanieDanych.ProcessPair | przetwarzanie_danych.py:131-145 | one pair runs fetch, unpack, prepare and import, and a None from a stage skips the rest of the pair |
| PrzetwarzanieDanych.ProcessVoivodeship | przetwarzanie_danych.py:130-145 | the counties of one voivodeship are processed in list order |
| PrzetwarzanieDanych.ProcessYear | przetwarzanie_danych.py:129-145 | the voivodeships are processed in table order |
| PrzetwarzanieDanych.ProcessYears | przetwarzanie_danych.py:128-145 | the years are processed in the given order |
| PrzetwarzanieDanych.Uruchomienie | przetwarzanie_danych.py:128-145 | the main loop is the fold of the pairs over LATA and MIASTA |
| PrzetwarzanieDanych.UnitEffect | przetwarzanie_danych.py:131-145 | one pair removes paths only inside its own clean folder; it sends a request exactly on a cache miss; it changes the store at most by adding bubd_<rok>_<teryt>, read from clean_dir\BUBD_TEMP.shp, and only when that layer was absent |
| PrzetwarzanieDanych.PrepareFrame | przetwarzanie_danych.py:79-110 | the clean copy removes nothing outside its clean folder and returns that folder's BUBD_TEMP.shp |
| PrzetwarzanieDanych.Progress | przetwarzanie_danych.py:128-145 | what a later state keeps of an earlier one: every path outside the clean folders, every layer as it was, the request log as a prefix; its properties are stated by `PrzetwarzanieDanych.ProgressTrans` and the Run…Progress lemmas |
| PrzetwarzanieDanych.ProgressTrans | przetwarzanie_danych.py:128-145 | what a run keeps is kept across consecutive parts of the run |
| PrzetwarzanieDanych.UnitProgress | przetwarzanie_danych.py:131-145 | one pair keeps paths outside the clean folders and existing layers, and only appends to the request log |
| PrzetwarzanieDanych.RunTerytyProgress | przetwarzanie_danych.py:130-145 | a voivodeship keeps what came before and adds only its counties' layers |
| PrzetwarzanieDanych.RunMiastaProgress | przetwarzanie_danych.py:129-145 | a year keeps what came before and adds only that year's configured layers |
| PrzetwarzanieDanych.RunYearsProgress | przetwarzanie_danych.py:128-145 | the whole run keeps every stored layer, deletes no path outside the clean folders, only appends requests, and creates no layer other than bubd_<rok>_<teryt> of a configured (year, county) |
| PrzetwarzanieDanych.ZipPathOutsideClean | przetwarzanie_danych.py:93-94 | no clean folder contains a cached archive |
| PrzetwarzanieDanych.AllCachedKept | przetwarzanie_danych.py:55-56 | cached archives survive every later step of the run |
| PrzetwarzanieDanych.RunTerytyCached | przetwarzanie_danych.py:130-145 | with every county's archive cached, a voivodeship sends no request |
| PrzetwarzanieDanych.RunMiastaCached | przetwarzanie_danych.py:129-145 | with every archive of the year cached, the year sends no request |
| PrzetwarzanieDanych.RunYearsCached | przetwarzanie_danych.py:128-145 | a rerun over a disk that holds every configured archive sends no request at all |
| Nowy.Fetch | nowy.py:62-88 | pobierz_zip without error handling: a cache hit returns the path; a non-200 status returns None; a raising request, a failed open and a broken stream raise, the broken stream after creating the file; its properties are stated by `Nowy.FetchAgrees` and `Nowy.FetchCache` |
| Nowy.PobierzZip | nowy.py:62-88 | the disk, the requests, the result and whether it raised are those of `Nowy.Fetch` |
| Nowy.FetchAgrees | nowy.py:62-88 | it builds the same URL and cache path as przetwarzanie_danych.py and leaves the same disk, requests and result; it raises exactly on a cache miss whose request raised or whose 200 body could not be written; a raise never returns a path |
| Nowy.FetchCache | nowy.py:71-81 | a cache hit returns the path without a request and without raising; a miss sends exactly one request; a non-200 status returns None, writes nothing and does not raise |
| Nowy.Unpack | nowy.py:92-99 | rozpakuj_zip: extracts only when the folder is absent; an unreadable archive raises; its properties are stated by `Nowy.UnpackAgrees` |
| Nowy.RozpakujZip | nowy.py:92-99 | the returned folder is always the zip path without ".zip"; the disk and whether it raised are those of `Nowy.Unpack` |
| Nowy.UnpackAgrees | nowy.py:92-99 | an existing folder is left alone and nothing raises; otherwise it extracts as przetwarzanie_danych.py does, and raises exactly where that one returns None; without a raise the folder exists |
| Nowy.ZnajdzBubd | nowy.py:109-114 | the early-return search returns join(root, f) for the first match in walk order, or None |
| Nowy.FirstBubdFound | nowy.py:109-114 | None exactly when no file matches; otherwise a matching file joined to its directory, whose lowercased path ends with ".shp" |
| Nowy.LowerSuffix | nowy.py:112 | lowercasing works per character, so the matched suffix survives the join |
| Nowy.Import | nowy.py:123-131 | importuj_bubd: nothing happens when the layer exists; otherwise the export creates it, and a failed export raises; its properties are stated by `Nowy.ImportExactlyOne` |
| Nowy.ImportujBubd | nowy.py:123-131 | the store and whether it raised are those of `Nowy.Import` |
| Nowy.ImportExactlyOne | nowy.py:123-131 | a no-op when bubd_<rok>_<teryt> exists; otherwise exactly that one layer is created from the shapefile, with every other layer kept; a failed export raises and leaves the store as it was |
| Nowy.Unit | nowy.py:144-154 | one pair: download, unpack, locate, import the located file; a None from the download or the search skips the pair; an exception from any stage ends the run with the state it left; its properties are stated by `Nowy.UnitEffect` |
| Nowy.RunTeryty | nowy.py:143-154 | the counties of one voivodeship in list order, none after a crash; its properties are stated by `Nowy.CrashedStays` and `Nowy.RunTerytyGrows` |
| Nowy.RunMiasta | nowy.py:142-154 | the voivodeships in table order, none after a crash; its properties are stated by `Nowy.CrashedStays` and `Nowy.RunMiastaGrows` |
| Nowy.RunYears | nowy.py:140-154 | the years in the given order, none after a crash; its properties are stated by `Nowy.CrashedStays` and `Nowy.RunYearsGrows` |
| Nowy.ProcessPair | nowy.py:144-154 | one pair: download, unpack, locate and import; None from the download or the search skips the pair; a raise reports the crash |
| Nowy.ProcessVoivodeship | nowy.py:143-154 | counties in list order, stopping at the first crash |
| Nowy.ProcessYear | nowy.py:142-154 | voivodeships in table order, stopping at the first crash |
| Nowy.ProcessYears | nowy.py:140-154 | years in the given order, stopping at the first crash |
| Nowy.Uruchomienie | nowy.py:140-154 | the main loop over LATA and MIASTA, and whether an exception ended it |
| Nowy.UnitEffect | nowy.py:144-154 | one pair only adds paths and requests only on a cache miss; it imports the located original shapefile directly as bubd_<rok>_<teryt>, only when that layer was absent; without a located BUBD file the store is unchanged |
| Nowy.CrashedStays | nowy.py:140-154 | once an exception has ended the run, no later pair changes the disk, the requests or the store |
| Nowy.RunTerytyGrows | nowy.py:143-154 | a voivodeship, crashed or not, keeps paths and layers and adds only its counties' layers |
| Nowy.RunMiastaGrows | nowy.py:142-154 | a year, crashed or not, keeps paths and layers and adds only that year's configured layers |
| Nowy.RunYearsGrows | nowy.py:140-154 | the whole run, crashed or not, keeps every path and stored layer, only appends requests, and creates only configured bubd_<rok>_<teryt> layers |
| TworzenieWarstw.MergedName | tworzenie_warstw.py:85 | the merged snapshot name `bubd_miasta_<rok>`; its properties are stated by `TworzenieWarstw.NamesDistinct` |
| TworzenieWarstw.NewName | tworzenie_warstw.py:91 | the change layer name `bubd_miasta_new_<rok>`; its properties are stated by `TworzenieWarstw.NamesDistinct` |
| TworzenieWarstw.NamesDistinct | tworzenie_warstw.py:74-91 | bubd_<rok>_<teryt>, bubd_miasta_<rok> and bubd_miasta_new_<rok> never coincide, and the last two are injective in the year |
| TworzenieWarstw.TerytyNames | tworzenie_warstw.py:73-74 | one candidate name per county |
| TworzenieWarstw.RegionNames | tworzenie_warstw.py:72-74 | the scanned names `bubd_<rok>_<teryt>` of every configured county, in table order; its properties are stated by `TworzenieWarstw.RegionNamesMembers` |
| TworzenieWarstw.TerytyNamesMembers | tworzenie_warstw.py:73-74 | the scanned names of a voivodeship are exactly its counties' layer names |
| TworzenieWarstw.RegionNamesMembers | tworzenie_warstw.py:72-74 | the scanned names are exactly the configured layer names of the year |
| TworzenieWarstw.Candidates | tworzenie_warstw.py:71-76 | every candidate is a stored layer |
| TworzenieWarstw.CandidatesExact | tworzenie_warstw.py:71-76 | the candidates are exactly the existing configured bubd_<rok>_<teryt> layers |
| TworzenieWarstw.AppendStep | tworzenie_warstw.py:74-76 | scanning one more county appends its name exactly when the layer exists |
| TworzenieWarstw.CollectCandidates | tworzenie_warstw.py:71-76 | miasta_fc is the existing configured layers of the year, in table order, and the loop changes nothing |
| TworzenieWarstw.NewBuildings | tworzenie_warstw.py:35-58 | wybierz_nowe_budynki: without a previous snapshot nothing is written; otherwise the output receives the current features that intersect no previous feature; its properties are stated by `TworzenieWarstw.NewBuildingsLaw` |
| TworzenieWarstw.WybierzNoweBudynki | tworzenie_warstw.py:35-58 | the store is that of `TworzenieWarstw.NewBuildings` |
| TworzenieWarstw.NewBuildingsLaw | tworzenie_warstw.py:40-58 | without a previous snapshot nothing is written; with one, the output holds exactly the current features that intersect nothing previous, is a sub-multiset of the current snapshot with no larger count, and no other layer changes |
| TworzenieWarstw.Valid | tworzenie_warstw.py:65-95 | poprzednie_budynki, when set, names a stored layer; its properties are stated by `TworzenieWarstw.YearStep` and `TworzenieWarstw.YearStepLaw` |
| TworzenieWarstw.SnapshotName | tworzenie_warstw.py:84-88 | the year's snapshot: bubd_miasta_<rok> for several candidates, the single candidate otherwise; its properties are stated by `TworzenieWarstw.YearStepLaw` and `TworzenieWarstw.PrevNotMerged` |
| TworzenieWarstw.WithSnapshot | tworzenie_warstw.py:84-88 | the store after the snapshot is formed: a Merge for several candidates, no change for one; its properties are stated by `TworzenieWarstw.YearStepLaw` |
| TworzenieWarstw.CurrentFeatures | tworzenie_warstw.py:84-88 | the features of the year's snapshot: the merge of the candidates or the single candidate's features; its properties are stated by `TworzenieWarstw.YearStepLaw` and `TworzenieWarstw.SameRegionsSameYear` |
| TworzenieWarstw.YearStep | tworzenie_warstw.py:71-95 | the state after a year names a stored layer, or is None |
| TworzenieWarstw.DetectRun | tworzenie_warstw.py:67-95 | the state after any run names a stored layer, or is None |
| TworzenieWarstw.YearStepLaw | tworzenie_warstw.py:71-95 | no candidate: the state resets and nothing is written; otherwise the state names the year's snapshot, which is the single candidate (nothing new stored) or bubd_miasta_<rok> with the sum of the candidates' counts; bubd_miasta_new_<rok> is written against the previous snapshot when there was one (a snapshot of an earlier year, never this year's merge name), and is untouched when there was none; no other layer changes |
| TworzenieWarstw.CandidateIsRegion | tworzenie_warstw.py:74-76 | every candidate is a per-county layer, never a detector output |
| TworzenieWarstw.ProcessYear | tworzenie_warstw.py:68-95 | one iteration of the year loop against the store, returning the new poprzednie_budynki |
| TworzenieWarstw.ProcessYears | tworzenie_warstw.py:67-95 | the year loop, years in the given order |
| TworzenieWarstw.Analiza | tworzenie_warstw.py:65-95 | the analysis over LATA, starting from poprzednie_budynki = None |
| TworzenieWarstw.YearStepKeepsRegions | tworzenie_warstw.py:84-92 | a year never changes a per-county layer |
| TworzenieWarstw.ExistingSameOn | tworzenie_warstw.py:74-76 | the scan depends only on which scanned layers exist |
| TworzenieWarstw.ConcatSameOn | tworzenie_warstw.py:86 | the merge depends only on the merged layers |
| TworzenieWarstw.SameRegionsSameYear | tworzenie_warstw.py:71-88 | stores that agree on the per-county layers yield the same candidates and snapshot features, so earlier years' outputs do not affect later years' inputs |
| TworzenieWarstw.HasData | tworzenie_warstw.py:78 | a year has at least one existing configured layer; its properties are stated by `TworzenieWarstw.GapResets` and `TworzenieWarstw.ConsecutiveYears` |
| TworzenieWarstw.GapResets | tworzenie_warstw.py:78-95 | data in 2015 and 2016, none in 2017, data in 2018: bubd_miasta_new_2016 holds the 2016 features that intersect nothing from 2015, and the change layers of 2015, 2017 and 2018 exist exactly when they existed before the run |
| TworzenieWarstw.ConsecutiveYears | tworzenie_warstw.py:84-95 | two years in a row with data: the second writes its change layer against the first's snapshot, and no other year's change layer changes |
| TworzenieWarstw.GapYear | tworzenie_warstw.py:78-95 | a year without data followed by one with data: the state resets, so no change layer is written |
| TworzenieWarstw.OtherYearsKept | tworzenie_warstw.py:91-92 | a year writes no other year's change layer |
| TworzenieWarstw.PrevNotMerged | tworzenie_warstw.py:84-95 | the snapshot a year leaves is never the next year's merge output, so a merge never overwrites the previous snapshot |
| Wykres.CityTotal | wykres.py:42-47 | `total` after the year loop: the counts of one county's existing yearly layers, added in year order; its properties are stated by `Wykres.CityTotalIsSum` and `Wykres.CityTotalBound` |
| Wykres.EnterCities | wykres.py:41-48 | the dictionary after one voivodeship's cities are entered in order; a repeated name keeps the later total; its properties are stated by `Wykres.EnterCitiesEntries` |
| Wykres.Counts | wykres.py:40-48 | liczba_budynkow_miast after the voivodeships, in table order; its properties are stated by `Wykres.CountsKeys` and `Wykres.CountsValues` |
| Wykres.YearNames | wykres.py:43-44 | the layer names bubd_<rok>_<teryt> of one county over the years; its properties are stated by `Wykres.CityTotalIsSum` |
| Wykres.CityNames | wykres.py:40-41 | the names of every configured city; its properties are stated by `Wykres.CountsKeys` |
| Wykres.LiczbaBudynkowMiast | wykres.py:38-48 | the dictionary is the per-city aggregation over LATA; the loop has no modifies clause, so it changes nothing in the store |
| Wykres.CountYears | wykres.py:38-48 | the three nested loops compute the per-city aggregation over the given years |
| Wykres.CityTotalIsSum | wykres.py:42-47 | a city's total is the sum of the counts of exactly its existing yearly layers; absent layers contribute 0 |
| Wykres.CityTotalBound | wykres.py:43-47 | a total is at least the count of every contributing layer |
| Wykres.EnterCitiesEntries | wykres.py:41-48 | one voivodeship adds an entry for each of its cities, and each changed entry is the total of one of its cities of that name |
| Wykres.CountsKeys | wykres.py:40-48 | every configured city gets an entry, even with a total of 0, and nothing else does |
| Wykres.CountsValues | wykres.py:40-48 | each entry is the total of a configured city of that name |
| Wykres.CityNamesSnoc | wykres.py:40-41 | the configured names are those of the earlier voivodeships plus those of the last |

## Left out

- HTTP transport is not modelled: chunk sizes, the 60-second timeout and retries. A response is a given status plus how writing the body ended.
- ZIP decoding is abstract. An archive either unpacks a given set of entries or is unreadable. A partial extraction before a failure is not modelled.
- `os.walk` is a given sequence of (directory, file names). Its traversal order and the `dirs` list are not derived.
- `Stem` models `os.path.splitext(basename)[0]` only for a name without separators. `dirname` and `basename` of the found path are taken as the walk entry's root and file.
- Failures of `shutil.rmtree`, `os.makedirs` and `shutil.copy2` are not modelled. przetwarzanie_danych.py does not catch them, so they would end the run. The model's disk operations always succeed.
- What `ExportFeatures` reads is given per path and does not depend on the disk. An import from clean_dir\BUBD_TEMP.shp, or from the located path in nowy.py, therefore does not require that file to exist. One such case: a match named X_BUBD.SHP whose exact-case sibling X_BUBD.shp is absent, in which case no BUBD_TEMP.shp is copied. No stated property relies on the file being present.
- Path names are compared exactly. Windows' case-insensitive file system is not modelled.
- `lower()` is modelled as ASCII case-folding only.
- Geometry, coordinate systems and arcpy internals are not modelled. Intersection is a parameter, and a feature is an identity.
- `MakeFeatureLayer` and the temporary layer name `warstwa_tymczasowa` are not modelled separately. They are folded into `CopyNotIntersecting`.
- The `arcpy.env` settings are not modelled, except that outputs overwrite layers of the same name.
- `print` logging is not modelled.
- The plot of wykres.py (lines 51–70) and the creation of the output folder are not modelled.
- The concrete MIASTA tables are a parameter, so the tables of the four scripts need not be written out.
- Python's dictionaries cannot hold a voivodeship code twice. The model's tables are sequences and do not enforce this.
- In wykres.py, a city name repeated in the table keeps the later total. The model does the same.
- Files.Disk.MakeDirs: it does not model the parent directory or `exist_ok`. The only call follows an `rmtree` of the same folder, so the folder never exists at that point.
- PrzetwarzanieDanych.PrepareCleanDir: the exact contents of the clean folder are stated under two conditions:
  - on the disk, nothing lies below the clean folder unless the folder itself exists;
  - the source sidecars lie outside the clean folder.

  Its frame and result clauses hold without these conditions, via PrepareFrame.
- PrzetwarzanieDanych.RunTerytyCached: the no-request property is stated for digit county codes, which is what MIASTA holds.
- A run is one execution of a script over a given initial state. Running the four scripts against one another is modelled only through the shared naming and the per-county layers.
