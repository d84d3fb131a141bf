/** przetwarzanie_danych.py: for every year of LATA and every configured
    region, download the region's yearly archive unless it is cached, unpack
    it unless already unpacked, copy the buildings (BUBD) shapefile under a
    clean base name, and import it into the store unless the layer exists.
    Any failure of a stage skips only that (year, region) pair. */
module PrzetwarzanieDanych {

  import opened Text
  import opened Wrappers
  import opened Geo
  import opened Files
  import opened Bdot
  import opened Workstation

  // ------------------------------------------------------------------
  // pobierz_zip
  // ------------------------------------------------------------------

  /** pobierz_zip: a cached archive is returned as it is; otherwise one
      request is sent, and only a status-200 answer whose body was fully
      written yields the path. The bare `except` turns a transport failure,
      a failed open and a broken stream alike into None; a broken stream
      leaves the partly written file on disk. */
  function Fetch(disk: set<Path>, requests: seq<Url>, respond: Url -> Response,
                 rok: nat, woj: string, teryt: string): Fetched
  {
    var zip := ZipPath(teryt, rok);
    if zip in disk then Fetched(disk, requests, Some(zip))
    else
      var url := ArchiveUrl(rok, woj, teryt);
      var sent := requests + [url];
      match respond(url)
      case Raised => Fetched(disk, sent, None)
      case Answered(status, transfer) =>
        if status != 200 then Fetched(disk, sent, None)
        else match transfer
          case Completed => Fetched(disk + {zip}, sent, Some(zip))
          case OpenFailed => Fetched(disk, sent, None)
          case StreamBroken => Fetched(disk + {zip}, sent, None)
  }

  method PobierzZip(disk: Disk, net: Network, rok: nat, woj: string, teryt: string) returns (zipPath: Option<Path>)
    modifies disk, net
    ensures Fetched(disk.paths, net.requests, zipPath)
            == Fetch(old(disk.paths), old(net.requests), net.respond, rok, woj, teryt)
  {
    var url := ArchiveUrl(rok, woj, teryt);
    var zip := ZipPath(teryt, rok);
    var cached := disk.Exists(zip);
    if cached {
      return Some(zip);
    }
    var r := net.Get(url);
    match r
    case Raised =>
      zipPath := None;
    case Answered(status, transfer) =>
      if status != 200 {
        return None;
      }
      match transfer
      case OpenFailed =>
        zipPath := None;
      case Completed =>
        disk.Create(zip);
        zipPath := Some(zip);
      case StreamBroken =>
        disk.Create(zip);
        zipPath := None;
  }

  /** A cache hit returns the cached path and sends nothing. */
  lemma FetchCacheHit(disk: set<Path>, requests: seq<Url>, respond: Url -> Response, rok: nat, woj: string, teryt: string)
    requires ZipPath(teryt, rok) in disk
    ensures Fetch(disk, requests, respond, rok, woj, teryt) == Fetched(disk, requests, Some(ZipPath(teryt, rok)))
  {
  }

  /** A cache miss sends exactly one request, to the archive's URL; it yields
      the cache path exactly when the server answered 200 and the body was
      written; and the only file it can create is the cache file, which a
      non-200 status or a transport failure never creates. */
  lemma FetchMiss(disk: set<Path>, requests: seq<Url>, respond: Url -> Response, rok: nat, woj: string, teryt: string)
    requires ZipPath(teryt, rok) !in disk
    ensures var f := Fetch(disk, requests, respond, rok, woj, teryt);
      && f.requests == requests + [ArchiveUrl(rok, woj, teryt)]
      && (f.path.Some? <==> respond(ArchiveUrl(rok, woj, teryt)) == Answered(200, Completed))
      && (f.path.Some? ==> f.path.value == ZipPath(teryt, rok))
      && (f.disk == disk || f.disk == disk + {ZipPath(teryt, rok)})
      && (respond(ArchiveUrl(rok, woj, teryt)).Raised? ==> f.disk == disk && f.path.None?)
      && (respond(ArchiveUrl(rok, woj, teryt)) != Raised && respond(ArchiveUrl(rok, woj, teryt)).status != 200 ==>
            f.disk == disk && f.path.None?)
  {
  }

  /** Calling pobierz_zip a second time after a call that left the archive
      on disk returns the archive and sends no further request, so a
      successful download is requested exactly once. */
  lemma FetchTwice(disk: set<Path>, requests: seq<Url>, respond: Url -> Response, rok: nat, woj: string, teryt: string)
    ensures var f1 := Fetch(disk, requests, respond, rok, woj, teryt);
            var f2 := Fetch(f1.disk, f1.requests, respond, rok, woj, teryt);
      && (f1.path.Some? ==> f2 == Fetched(f1.disk, f1.requests, f1.path))
      && (ZipPath(teryt, rok) in f1.disk ==> f2.requests == f1.requests && f2.path == Some(ZipPath(teryt, rok)))
      && |f2.requests| <= |requests| + 2
      && (f1.path.Some? ==> |f2.requests| <= |requests| + 1)
  {
  }

  // ------------------------------------------------------------------
  // rozpakuj_zip
  // ------------------------------------------------------------------

  /** rozpakuj_zip: the folder is the archive path with ".zip" removed; it is
      extracted only when absent, and an unreadable archive yields None. */
  function Unpack(disk: set<Path>, unzip: Path -> Unzip, zipPath: Path): Staged
  {
    var folder := FolderOf(zipPath);
    if folder in disk then Staged(disk, Some(folder))
    else match unzip(zipPath)
      case BadZip => Staged(disk, None)
      case Unpacked(entries) => Staged(disk + Extracted(folder, entries), Some(folder))
  }

  method RozpakujZip(disk: Disk, unzip: Path -> Unzip, zipPath: Path) returns (folder: Option<Path>)
    modifies disk
    ensures Staged(disk.paths, folder) == Unpack(old(disk.paths), unzip, zipPath)
  {
    var f := FolderOf(zipPath);
    var present := disk.Exists(f);
    if !present {
      match unzip(zipPath)
      case BadZip =>
        return None;
      case Unpacked(entries) =>
        disk.Extract(f, entries);
    }
    folder := Some(f);
  }

  /** An existing folder is returned as it is, without extracting;
      otherwise unpacking returns the archive's folder or None, and only adds
      paths; once it has returned the folder, a second call changes nothing. */
  lemma UnpackOnce(disk: set<Path>, unzip: Path -> Unzip, zipPath: Path)
    ensures var u := Unpack(disk, unzip, zipPath);
      && (FolderOf(zipPath) in disk ==> u == Staged(disk, Some(FolderOf(zipPath))))
      && disk <= u.disk
      && (u.path.Some? ==> u.path.value == FolderOf(zipPath) && FolderOf(zipPath) in u.disk)
      && (u.path.None? <==> FolderOf(zipPath) !in disk && unzip(zipPath).BadZip?)
      && (u.path.None? ==> u.disk == disk)
      && (u.path.Some? ==> Unpack(u.disk, unzip, zipPath) == u)
  {
  }

  // ------------------------------------------------------------------
  // przygotuj_czysty_shp
  // ------------------------------------------------------------------

  /** The copies of the sidecar files in `exts`, in order: each target
      `dir/BUBD_TEMP<ext>` is created when its source `root/<stem><ext>`
      exists at the moment it is checked. */
  function CopySidecars(paths: set<Path>, root: Path, stem: string, dir: Path, exts: seq<string>): set<Path>
  {
    if exts == [] then paths
    else
      var before := CopySidecars(paths, root, stem, dir, exts[..|exts| - 1]);
      var ext := exts[|exts| - 1];
      if Join(root, stem + ext) in before then before + {Join(dir, CleanBase + ext)} else before
  }

  /** The disk after `rmtree` (when present) and `makedirs` of the clean folder. */
  function Recreated(disk: set<Path>, dir: Path): (r: set<Path>)
    ensures dir in r
  {
    (if dir in disk then WithoutTree(disk, dir) else disk) + {dir}
  }

  /** The root directory and the stem (`splitext(basename)[0]`) of the file at
      a walk position; `dirname` and `basename` of `join(root, f)` give back
      `root` and `f`. */
  function HitRoot(walk: seq<WalkEntry>, h: Hit): Path
    requires ValidHit(walk, h)
  {
    walk[h.entry].root
  }

  function HitStem(walk: seq<WalkEntry>, h: Hit): string
    requires ValidHit(walk, h)
  {
    Stem(walk[h.entry].files[h.file])
  }

  /** przygotuj_czysty_shp: find the first BUBD shapefile in walk order; if
      there is none, return None and touch nothing; otherwise empty and
      recreate TEMP_DIR/clean_<teryt>_<rok>, copy the shapefile's existing
      sidecars into it as BUBD_TEMP.<ext>, and return its BUBD_TEMP.shp. */
  function Prepare(disk: set<Path>, walk: seq<WalkEntry>, teryt: string, rok: nat): Staged
  {
    match FirstMatch(walk)
    case None => Staged(disk, None)
    case Some(h) =>
      var dir := CleanDir(teryt, rok);
      Staged(CopySidecars(Recreated(disk, dir), HitRoot(walk, h), HitStem(walk, h), dir, SidecarExts),
             Some(CleanShp(teryt, rok)))
  }

  /** No file at positions before `i` of the walk matches. */
  predicate NoMatchBefore(walk: seq<WalkEntry>, i: nat)
  {
    forall k, j :: 0 <= k < i && k < |walk| && 0 <= j < |walk[k].files| ==> !IsBubdShp(walk[k].files[j])
  }

  /** A matching position with no match before it is the first match. */
  lemma FirstMatchAt(walk: seq<WalkEntry>, h: Hit)
    requires ValidHit(walk, h) && IsBubdShp(walk[h.entry].files[h.file])
    requires forall i, j :: 0 <= i < |walk| && 0 <= j < |walk[i].files| && Earlier(i, j, h) ==> !IsBubdShp(walk[i].files[j])
    ensures FirstMatch(walk) == Some(h)
  {
    var g := FirstMatch(walk).value;
    assert !Earlier(g.entry, g.file, h);
    assert !Earlier(h.entry, h.file, g);
  }

  /** The search loop of przygotuj_czysty_shp: directories in walk order,
      files in listing order, stopping at the first match. */
  method FindBubdShp(walk: seq<WalkEntry>) returns (target: Option<Hit>)
    ensures target == FirstMatch(walk)
  {
    target := None;
    for i := 0 to |walk|
      invariant target.None? && NoMatchBefore(walk, i)
    {
      var files := walk[i].files;
      for j := 0 to |files|
        invariant target.None? ==> NoMatchBefore(walk, i) && forall j' :: 0 <= j' < j ==> !IsBubdShp(files[j'])
        invariant target.Some? ==> target == FirstMatch(walk)
      {
        if IsBubdShp(files[j]) {
          FirstMatchAt(walk, Hit(i, j));
          target := Some(Hit(i, j));
          break;
        }
      }
      if target.Some? {
        return;
      }
    }
  }

  method PrzygotujCzystyShp(disk: Disk, walk: seq<WalkEntry>, teryt: string, rok: nat) returns (shp: Option<Path>)
    modifies disk
    ensures Staged(disk.paths, shp) == Prepare(old(disk.paths), walk, teryt, rok)
  {
    var target := FindBubdShp(walk);
    if target.None? {
      return None;
    }
    var h := target.value;
    var dir := CleanDir(teryt, rok);
    RecreateDir(disk, dir);
    CopySidecarFiles(disk, HitRoot(walk, h), HitStem(walk, h), dir);
    shp := Some(CleanShp(teryt, rok));
  }

  /** `rmtree` of the clean folder when it exists, then `makedirs`. */
  method RecreateDir(disk: Disk, dir: Path)
    modifies disk
    ensures disk.paths == Recreated(old(disk.paths), dir)
  {
    var present := disk.Exists(dir);
    if present {
      disk.RemoveTree(dir);
    }
    disk.MakeDirs(dir);
  }

  /** The copy loop: each existing `root/<stem><ext>` is copied to
      `dir/BUBD_TEMP<ext>`, extensions in order. */
  method CopySidecarFiles(disk: Disk, root: Path, stem: string, dir: Path)
    modifies disk
    ensures disk.paths == CopySidecars(old(disk.paths), root, stem, dir, SidecarExts)
  {
    ghost var start := disk.paths;
    for k := 0 to |SidecarExts|
      invariant disk.paths == CopySidecars(start, root, stem, dir, SidecarExts[..k])
    {
      var ext := SidecarExts[k];
      assert SidecarExts[..k + 1][..k] == SidecarExts[..k];
      var source := Join(root, stem + ext);
      var found := disk.Exists(source);
      if found {
        disk.Copy(source, Join(dir, CleanBase + ext));
      }
    }
    assert SidecarExts[..|SidecarExts|] == SidecarExts;
  }

  /** The targets whose source exists on `disk`. */
  function CleanFiles(disk: set<Path>, root: Path, stem: string, dir: Path, exts: seq<string>): set<Path>
  {
    set e | e in exts && Join(root, stem + e) in disk :: Join(dir, CleanBase + e)
  }

  lemma JoinInTree(dir: Path, name: string)
    ensures InTree(Join(dir, name), dir)
  {
    assert Join(dir, name)[..|dir + Sep|] == dir + Sep;
  }

  /** When no source lies in the clean folder, the copies are exactly the
      targets whose source existed beforehand. */
  lemma {:induction false} CopySidecarsAdds(paths: set<Path>, root: Path, stem: string, dir: Path, exts: seq<string>)
    requires forall e :: e in exts ==> !InTree(Join(root, stem + e), dir)
    ensures CopySidecars(paths, root, stem, dir, exts) == paths + CleanFiles(paths, root, stem, dir, exts)
  {
    if exts != [] {
      var init, ext := exts[..|exts| - 1], exts[|exts| - 1];
      assert forall e :: e in init ==> e in exts;
      CopySidecarsAdds(paths, root, stem, dir, init);
      var before := CopySidecars(paths, root, stem, dir, init);
      var source := Join(root, stem + ext);
      assert source in before <==> source in paths by {
        forall e | e in init && Join(root, stem + e) in paths
          ensures Join(dir, CleanBase + e) != source
        {
          JoinInTree(dir, CleanBase + e);
        }
      }
      assert exts == init + [ext];
      assert CleanFiles(paths, root, stem, dir, exts)
             == CleanFiles(paths, root, stem, dir, init)
                + (if source in paths then {Join(dir, CleanBase + ext)} else {});
    }
  }

  /** No path lies below `dir` unless `dir` itself exists. */
  predicate TreeClosed(disk: set<Path>, dir: Path)
  {
    forall p :: p in disk && InTree(p, dir) ==> dir in disk
  }

  /** After przygotuj_czysty_shp found a BUBD file `f` in `root`, the clean
      folder holds exactly BUBD_TEMP<ext> for each of .shp, .shx, .dbf,
      .prj, .cpg whose sibling `root/<f without .shp><ext>` existed, the
      result is the clean folder's BUBD_TEMP.shp, and nothing outside the
      clean folder changed. Without a match nothing changes. */
  lemma PrepareCleanDir(disk: set<Path>, walk: seq<WalkEntry>, teryt: string, rok: nat)
    requires FirstMatch(walk).Some? ==>
      var h := FirstMatch(walk).value;
      && TreeClosed(disk, CleanDir(teryt, rok))
      && forall e :: e in SidecarExts ==> !InTree(Join(HitRoot(walk, h), HitStem(walk, h) + e), CleanDir(teryt, rok))
    ensures FirstMatch(walk).None? ==> Prepare(disk, walk, teryt, rok) == Staged(disk, None)
    ensures FirstMatch(walk).Some? ==>
      var h := FirstMatch(walk).value;
      var f := walk[h.entry].files[h.file];
      var dir := CleanDir(teryt, rok);
      var p := Prepare(disk, walk, teryt, rok);
      && p.path == Some(CleanShp(teryt, rok))
      && HitStem(walk, h) == f[..|f| - 4]
      && (forall q :: InTree(q, dir) ==>
            (q in p.disk <==> q == dir || q in CleanFiles(disk, HitRoot(walk, h), f[..|f| - 4], dir, SidecarExts)))
      && (forall q :: !InTree(q, dir) ==> (q in p.disk <==> q in disk))
  {
    if FirstMatch(walk).Some? {
      var h := FirstMatch(walk).value;
      StemOfBubdShp(walk[h.entry].files[h.file]);
      CleanCopy(disk, HitRoot(walk, h), HitStem(walk, h), CleanDir(teryt, rok), SidecarExts);
    }
  }

  /** Emptying and recreating `dir`, then copying the existing sidecars
      into it, leaves in `dir` exactly the folder and the copies, and
      outside it exactly what was there. */
  lemma CleanCopy(disk: set<Path>, root: Path, stem: string, dir: Path, exts: seq<string>)
    requires TreeClosed(disk, dir)
    requires forall e :: e in exts ==> !InTree(Join(root, stem + e), dir)
    ensures var p := CopySidecars(Recreated(disk, dir), root, stem, dir, exts);
      && (forall q :: InTree(q, dir) ==> (q in p <==> q == dir || q in CleanFiles(disk, root, stem, dir, exts)))
      && (forall q :: !InTree(q, dir) ==> (q in p <==> q in disk))
  {
    var cleared := Recreated(disk, dir);
    CopySidecarsAdds(cleared, root, stem, dir, exts);
    assert forall e :: e in exts ==> (Join(root, stem + e) in cleared <==> Join(root, stem + e) in disk);
    assert CleanFiles(cleared, root, stem, dir, exts) == CleanFiles(disk, root, stem, dir, exts);
    forall e | e in exts ensures InTree(Join(dir, CleanBase + e), dir) {
      JoinInTree(dir, CleanBase + e);
    }
    assert InTree(dir, dir);
  }

  // ------------------------------------------------------------------
  // importuj
  // ------------------------------------------------------------------

  /** importuj: nothing happens when bubd_<rok>_<teryt> exists; otherwise
      ExportFeatures creates it from the shapefile, and a failed export is
      caught and leaves the store as it was. */
  function Import(layers: Layers, read: Path -> Option<seq<Feature>>, shp: Path, rok: nat, teryt: string): Layers
  {
    var cel := LayerName(rok, teryt);
    if cel in layers then layers
    else match read(shp)
      case None => layers
      case Some(features) => layers[cel := features]
  }

  method Importuj(gdb: Geodatabase, read: Path -> Option<seq<Feature>>, shp: Path, rok: nat, teryt: string)
    modifies gdb
    ensures gdb.layers == Import(old(gdb.layers), read, shp, rok, teryt)
  {
    var cel := LayerName(rok, teryt);
    var present := gdb.Exists(cel);
    if present {
      return;
    }
    var ok := gdb.ExportFeatures(read(shp), cel);
  }

  /** Every existing layer is left as it was, and the only layer that can
      appear is bubd_<rok>_<teryt>; a second import of the same pair changes
      nothing, so two imports create at most one layer. */
  lemma ImportOnce(layers: Layers, read: Path -> Option<seq<Feature>>, shp: Path, rok: nat, teryt: string)
    ensures var l := Import(layers, read, shp, rok, teryt);
      && (forall n :: n in layers ==> n in l && l[n] == layers[n])
      && l.Keys <= layers.Keys + {LayerName(rok, teryt)}
      && (LayerName(rok, teryt) in layers ==> l == layers)
      && (LayerName(rok, teryt) !in layers ==> (LayerName(rok, teryt) in l <==> read(shp).Some?))
      && Import(l, read, shp, rok, teryt) == l
  {
  }

  // ------------------------------------------------------------------
  // the main loop
  // ------------------------------------------------------------------

  /** One (year, region) pair of the main loop: fetch, unpack, prepare and
      import, where a None from a stage skips the rest of the pair. */
  function Unit(s: State, respond: Url -> Response, w: World, rok: nat, woj: string, teryt: string): State
  {
    var f := Fetch(s.disk, s.requests, respond, rok, woj, teryt);
    if f.path.None? then State(f.disk, f.requests, s.layers)
    else
      var u := Unpack(f.disk, w.unzip, f.path.value);
      if u.path.None? then State(u.disk, f.requests, s.layers)
      else
        var p := Prepare(u.disk, w.walk(u.path.value), teryt, rok);
        if p.path.None? then State(p.disk, f.requests, s.layers)
        else State(p.disk, f.requests, Import(s.layers, w.read, p.path.value, rok, teryt))
  }

  /** The regions of one voivodeship, in list order. */
  function RunTeryty(s: State, respond: Url -> Response, w: World, rok: nat, woj: string, teryty: seq<string>): State
    decreases |teryty|
  {
    if teryty == [] then s
    else RunTeryty(Unit(s, respond, w, rok, woj, teryty[0]), respond, w, rok, woj, teryty[1..])
  }

  /** All voivodeships of MIASTA for one year, in table order. */
  function RunMiasta(s: State, respond: Url -> Response, w: World, rok: nat, miasta: Miasta): State
    decreases |miasta|
  {
    if miasta == [] then s
    else RunMiasta(RunTeryty(s, respond, w, rok, miasta[0].woj, miasta[0].teryty), respond, w, rok, miasta[1..])
  }

  /** The years in the given order. */
  function RunYears(s: State, respond: Url -> Response, w: World, miasta: Miasta, years: seq<nat>): State
    decreases |years|
  {
    if years == [] then s
    else RunYears(RunMiasta(s, respond, w, years[0], miasta), respond, w, miasta, years[1..])
  }

  /** The body of the main loop for one (year, region) pair. */
  method ProcessPair(disk: Disk, net: Network, gdb: Geodatabase, w: World, rok: nat, woj: string, teryt: string)
    modifies disk, net, gdb
    ensures Snapshot(disk, net, gdb) == Unit(old(Snapshot(disk, net, gdb)), net.respond, w, rok, woj, teryt)
  {
    var zipP := PobierzZip(disk, net, rok, woj, teryt);
    if zipP.None? {
      return;
    }
    var fData := RozpakujZip(disk, w.unzip, zipP.value);
    if fData.None? {
      return;
    }
    var czystyShp := PrzygotujCzystyShp(disk, w.walk(fData.value), teryt, rok);
    if czystyShp.Some? {
      Importuj(gdb, w.read, czystyShp.value, rok, teryt);
    }
  }

  /** The innermost loop: the regions of one voivodeship. */
  method ProcessVoivodeship(disk: Disk, net: Network, gdb: Geodatabase, w: World, rok: nat, woj: string, teryty: seq<string>)
    modifies disk, net, gdb
    ensures Snapshot(disk, net, gdb) == RunTeryty(old(Snapshot(disk, net, gdb)), net.respond, w, rok, woj, teryty)
  {
    ghost var goal := RunTeryty(Snapshot(disk, net, gdb), net.respond, w, rok, woj, teryty);
    for t := 0 to |teryty|
      invariant RunTeryty(Snapshot(disk, net, gdb), net.respond, w, rok, woj, teryty[t..]) == goal
    {
      assert teryty[t..][1..] == teryty[t + 1..];
      ProcessPair(disk, net, gdb, w, rok, woj, teryty[t]);
    }
  }

  /** The middle loop: every voivodeship of MIASTA for one year. */
  method ProcessYear(disk: Disk, net: Network, gdb: Geodatabase, w: World, rok: nat, miasta: Miasta)
    modifies disk, net, gdb
    ensures Snapshot(disk, net, gdb) == RunMiasta(old(Snapshot(disk, net, gdb)), net.respond, w, rok, miasta)
  {
    ghost var goal := RunMiasta(Snapshot(disk, net, gdb), net.respond, w, rok, miasta);
    for v := 0 to |miasta|
      invariant RunMiasta(Snapshot(disk, net, gdb), net.respond, w, rok, miasta[v..]) == goal
    {
      assert miasta[v..][1..] == miasta[v + 1..];
      ProcessVoivodeship(disk, net, gdb, w, rok, miasta[v].woj, miasta[v].teryty);
    }
  }

  /** The outer loop over a sequence of years. */
  method ProcessYears(disk: Disk, net: Network, gdb: Geodatabase, w: World, miasta: Miasta, years: seq<nat>)
    modifies disk, net, gdb
    ensures Snapshot(disk, net, gdb) == RunYears(old(Snapshot(disk, net, gdb)), net.respond, w, miasta, years)
  {
    ghost var goal := RunYears(Snapshot(disk, net, gdb), net.respond, w, miasta, years);
    for i := 0 to |years|
      invariant RunYears(Snapshot(disk, net, gdb), net.respond, w, miasta, years[i..]) == goal
    {
      assert years[i..][1..] == years[i + 1..];
      ProcessYear(disk, net, gdb, w, years[i], miasta);
    }
  }

  /** The script's main loop over LATA and MIASTA. */
  method Uruchomienie(disk: Disk, net: Network, gdb: Geodatabase, w: World, miasta: Miasta)
    modifies disk, net, gdb
    ensures Snapshot(disk, net, gdb) == RunYears(old(Snapshot(disk, net, gdb)), net.respond, w, miasta, Lata)
  {
    ProcessYears(disk, net, gdb, w, miasta, Lata);
  }

  // ------------------------------------------------------------------
  // properties of the main loop
  // ------------------------------------------------------------------

  /** What a later state keeps of an earlier one: every path outside the
      clean folders, every stored layer as it was, and the request log as a
      prefix. */
  ghost predicate OutsideClean(p: Path)
  {
    forall t, r :: !InTree(p, CleanDir(t, r))
  }

  ghost predicate Progress(a: State, b: State)
  {
    && (forall p :: p in a.disk && OutsideClean(p) ==> p in b.disk)
    && (forall n :: n in a.layers ==> n in b.layers && b.layers[n] == a.layers[n])
    && a.requests <= b.requests
  }

  lemma ProgressTrans(a: State, b: State, c: State)
    requires Progress(a, b) && Progress(b, c)
    ensures Progress(a, c)
  {
  }

  /** One pair changes the disk only inside its own clean folder (where it
      removes), sends a request only on a cache miss, and changes the store
      only by importing its clean copy as bubd_<rok>_<teryt>, which it does
      only when that layer was absent. */
  lemma UnitEffect(s: State, respond: Url -> Response, w: World, rok: nat, woj: string, teryt: string)
    ensures var u := Unit(s, respond, w, rok, woj, teryt);
      && (forall p :: p in s.disk && !InTree(p, CleanDir(teryt, rok)) ==> p in u.disk)
      && u.requests == (if ZipPath(teryt, rok) in s.disk then s.requests else s.requests + [ArchiveUrl(rok, woj, teryt)])
      && (u.layers == s.layers
          || (&& LayerName(rok, teryt) !in s.layers
              && w.read(CleanShp(teryt, rok)).Some?
              && u.layers == s.layers[LayerName(rok, teryt) := w.read(CleanShp(teryt, rok)).value]))
  {
    var f := Fetch(s.disk, s.requests, respond, rok, woj, teryt);
    assert f.requests == (if ZipPath(teryt, rok) in s.disk then s.requests else s.requests + [ArchiveUrl(rok, woj, teryt)]);
    assert s.disk <= f.disk;
    if f.path.Some? {
      var u := Unpack(f.disk, w.unzip, f.path.value);
      UnpackOnce(f.disk, w.unzip, f.path.value);
      if u.path.Some? {
        var p := Prepare(u.disk, w.walk(u.path.value), teryt, rok);
        PrepareFrame(u.disk, w.walk(u.path.value), teryt, rok);
        if p.path.Some? {
          ImportOnce(s.layers, w.read, p.path.value, rok, teryt);
        }
      }
    }
  }

  /** przygotuj_czysty_shp removes nothing outside its clean folder and
      returns the clean folder's BUBD_TEMP.shp when it returns a path. */
  lemma PrepareFrame(disk: set<Path>, walk: seq<WalkEntry>, teryt: string, rok: nat)
    ensures var p := Prepare(disk, walk, teryt, rok);
      && (forall q :: q in disk && !InTree(q, CleanDir(teryt, rok)) ==> q in p.disk)
      && (p.path.Some? ==> p.path.value == CleanShp(teryt, rok))
  {
    if FirstMatch(walk).Some? {
      var h := FirstMatch(walk).value;
      CopySidecarsGrows(Recreated(disk, CleanDir(teryt, rok)), HitRoot(walk, h), HitStem(walk, h),
                        CleanDir(teryt, rok), SidecarExts);
    }
  }

  /** The copies only add paths. */
  lemma {:induction false} CopySidecarsGrows(paths: set<Path>, root: Path, stem: string, dir: Path, exts: seq<string>)
    ensures paths <= CopySidecars(paths, root, stem, dir, exts)
  {
    if exts != [] {
      CopySidecarsGrows(paths, root, stem, dir, exts[..|exts| - 1]);
    }
  }

  lemma UnitProgress(s: State, respond: Url -> Response, w: World, rok: nat, woj: string, teryt: string)
    ensures Progress(s, Unit(s, respond, w, rok, woj, teryt))
  {
    UnitEffect(s, respond, w, rok, woj, teryt);
  }

  /** Running a voivodeship's regions keeps what came before and adds no
      layer but those regions' bubd_<rok>_<teryt>. */
  lemma {:induction false} RunTerytyProgress(s: State, respond: Url -> Response, w: World, rok: nat, woj: string, teryty: seq<string>)
    ensures var r := RunTeryty(s, respond, w, rok, woj, teryty);
      Progress(s, r) && r.layers.Keys <= s.layers.Keys + TerytyLayers(rok, teryty)
    decreases |teryty|
  {
    if teryty != [] {
      var u := Unit(s, respond, w, rok, woj, teryty[0]);
      UnitEffect(s, respond, w, rok, woj, teryty[0]);
      UnitProgress(s, respond, w, rok, woj, teryty[0]);
      RunTerytyProgress(u, respond, w, rok, woj, teryty[1..]);
      ProgressTrans(s, u, RunTeryty(u, respond, w, rok, woj, teryty[1..]));
      assert teryty[0] in teryty;
      assert forall t :: t in teryty[1..] ==> t in teryty;
    }
  }

  lemma {:induction false} RunMiastaProgress(s: State, respond: Url -> Response, w: World, rok: nat, miasta: Miasta)
    ensures var r := RunMiasta(s, respond, w, rok, miasta);
      Progress(s, r) && r.layers.Keys <= s.layers.Keys + MiastaLayers(rok, miasta)
    decreases |miasta|
  {
    if miasta != [] {
      var u := RunTeryty(s, respond, w, rok, miasta[0].woj, miasta[0].teryty);
      RunTerytyProgress(s, respond, w, rok, miasta[0].woj, miasta[0].teryty);
      RunMiastaProgress(u, respond, w, rok, miasta[1..]);
      ProgressTrans(s, u, RunMiasta(u, respond, w, rok, miasta[1..]));
      assert miasta[0] in miasta;
      assert forall v :: v in miasta[1..] ==> v in miasta;
    }
  }

  /** The whole run keeps every stored layer as it was, never deletes a path
      outside the clean folders, only appends to the request log, and creates
      no layer other than bubd_<rok>_<teryt> for a configured (year, region). */
  lemma {:induction false} RunYearsProgress(s: State, respond: Url -> Response, w: World, miasta: Miasta, years: seq<nat>)
    ensures var r := RunYears(s, respond, w, miasta, years);
      Progress(s, r) && r.layers.Keys <= s.layers.Keys + YearsLayers(years, miasta)
    decreases |years|
  {
    if years != [] {
      var u := RunMiasta(s, respond, w, years[0], miasta);
      RunMiastaProgress(s, respond, w, years[0], miasta);
      RunYearsProgress(u, respond, w, miasta, years[1..]);
      ProgressTrans(s, u, RunYears(u, respond, w, miasta, years[1..]));
      assert years[0] in years;
      assert forall r :: r in years[1..] ==> r in years;
    }
  }

  /** Zip paths of county codes lie outside every clean folder. */
  lemma ZipPathOutsideClean(teryt: string, rok: nat)
    requires ValidTeryt(teryt)
    ensures OutsideClean(ZipPath(teryt, rok))
  {
    forall t, r ensures !InTree(ZipPath(teryt, rok), CleanDir(t, r)) {
      ZipOutsideClean(teryt, rok, t, r);
    }
  }

  /** Every region of every voivodeship in `miasta` has a county code and
      its archive of `rok` on `disk`. */
  predicate AllCached(disk: set<Path>, rok: nat, miasta: Miasta)
  {
    forall v, t :: v in miasta && t in v.teryty ==> ValidTeryt(t) && ZipPath(t, rok) in disk
  }

  /** Cached archives of county codes survive any progress. */
  lemma AllCachedKept(a: State, b: State, rok: nat, miasta: Miasta)
    requires AllCached(a.disk, rok, miasta) && Progress(a, b)
    ensures AllCached(b.disk, rok, miasta)
  {
    forall v, t | v in miasta && t in v.teryty ensures ZipPath(t, rok) in b.disk {
      ZipPathOutsideClean(t, rok);
    }
  }

  lemma AllCachedSplit(disk: set<Path>, rok: nat, miasta: Miasta)
    requires miasta != [] && AllCached(disk, rok, miasta)
    ensures forall t :: t in miasta[0].teryty ==> ValidTeryt(t) && ZipPath(t, rok) in disk
    ensures AllCached(disk, rok, miasta[1..])
  {
    assert miasta[0] in miasta;
    assert forall v :: v in miasta[1..] ==> v in miasta;
  }

  /** With every region's archive of the year cached, a voivodeship sends no
      request. */
  lemma {:induction false} RunTerytyCached(s: State, respond: Url -> Response, w: World, rok: nat, woj: string, teryty: seq<string>)
    requires forall t :: t in teryty ==> ValidTeryt(t) && ZipPath(t, rok) in s.disk
    ensures RunTeryty(s, respond, w, rok, woj, teryty).requests == s.requests
    decreases |teryty|
  {
    if teryty != [] {
      var u := Unit(s, respond, w, rok, woj, teryty[0]);
      UnitEffect(s, respond, w, rok, woj, teryty[0]);
      forall t | t in teryty[1..] ensures ZipPath(t, rok) in u.disk {
        assert t in teryty;
        ZipOutsideClean(t, rok, teryty[0], rok);
      }
      RunTerytyCached(u, respond, w, rok, woj, teryty[1..]);
    }
  }

  lemma {:induction false} RunMiastaCached(s: State, respond: Url -> Response, w: World, rok: nat, miasta: Miasta)
    requires AllCached(s.disk, rok, miasta)
    ensures RunMiasta(s, respond, w, rok, miasta).requests == s.requests
    decreases |miasta|
  {
    if miasta != [] {
      var v0 := miasta[0];
      var u := RunTeryty(s, respond, w, rok, v0.woj, v0.teryty);
      AllCachedSplit(s.disk, rok, miasta);
      RunTerytyCached(s, respond, w, rok, v0.woj, v0.teryty);
      RunTerytyProgress(s, respond, w, rok, v0.woj, v0.teryty);
      AllCachedKept(s, u, rok, miasta[1..]);
      RunMiastaCached(u, respond, w, rok, miasta[1..]);
    }
  }

  /** A rerun over a disk that already holds the archive of every configured
      (year, region) sends no request at all. */
  lemma {:induction false} RunYearsCached(s: State, respond: Url -> Response, w: World, miasta: Miasta, years: seq<nat>)
    requires forall r :: r in years ==> AllCached(s.disk, r, miasta)
    ensures RunYears(s, respond, w, miasta, years).requests == s.requests
    decreases |years|
  {
    if years != [] {
      var u := RunMiasta(s, respond, w, years[0], miasta);
      assert years[0] in years;
      RunMiastaCached(s, respond, w, years[0], miasta);
      RunMiastaProgress(s, respond, w, years[0], miasta);
      forall r | r in years[1..] ensures AllCached(u.disk, r, miasta) {
        assert r in years;
        AllCachedKept(s, u, r, miasta);
      }
      RunYearsCached(u, respond, w, miasta, years[1..]);
    }
  }
}
