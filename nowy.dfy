/** nowy.py: the earlier acquisition script. It builds the same URLs, cache
    paths and layer names, but catches no exception: a transport failure,
    a failed write, an unreadable archive or a failed export ends the whole
    run. It imports the located shapefile directly, without a clean copy.
    Every stage below returns, beside its result, whether it raised. */
module Nowy {

  import opened Text
  import opened Wrappers
  import opened Geo
  import opened Files
  import opened Bdot
  import opened Workstation
  import PrzetwarzanieDanych

  // ------------------------------------------------------------------
  // pobierz_zip
  // ------------------------------------------------------------------

  /** pobierz_zip without error handling: a cache hit returns the path; a
      non-200 status returns None; a raising request, a failed open or a
      broken stream raise (the broken stream after creating the file). */
  function Fetch(disk: set<Path>, requests: seq<Url>, respond: Url -> Response,
                 rok: nat, woj: string, teryt: string): (Fetched, bool)
  {
    var zip := ZipPath(teryt, rok);
    if zip in disk then (Fetched(disk, requests, Some(zip)), false)
    else
      var url := ArchiveUrl(rok, woj, teryt);
      var sent := requests + [url];
      match respond(url)
      case Raised => (Fetched(disk, sent, None), true)
      case Answered(status, transfer) =>
        if status != 200 then (Fetched(disk, sent, None), false)
        else match transfer
          case Completed => (Fetched(disk + {zip}, sent, Some(zip)), false)
          case OpenFailed => (Fetched(disk, sent, None), true)
          case StreamBroken => (Fetched(disk + {zip}, sent, None), true)
  }

  method PobierzZip(disk: Disk, net: Network, rok: nat, woj: string, teryt: string)
    returns (zipPath: Option<Path>, raised: bool)
    modifies disk, net
    ensures (Fetched(disk.paths, net.requests, zipPath), raised)
            == Fetch(old(disk.paths), old(net.requests), net.respond, rok, woj, teryt)
  {
    var url := ArchiveUrl(rok, woj, teryt);
    var zip := ZipPath(teryt, rok);
    var cached := disk.Exists(zip);
    if cached {
      return Some(zip), false;
    }
    var r := net.Get(url);
    if r.Raised? {
      return None, true;
    }
    if r.status != 200 {
      return None, false;
    }
    match r.transfer
    case OpenFailed =>
      zipPath, raised := None, true;
    case Completed =>
      disk.Create(zip);
      zipPath, raised := Some(zip), false;
    case StreamBroken =>
      disk.Create(zip);
      zipPath, raised := None, true;
  }

  /** Where nothing raises, nowy.py's download does what the later script's
      does: the same URL, the same cache path, the same result. The two
      differ exactly on the failures the later script swallows. */
  lemma FetchAgrees(disk: set<Path>, requests: seq<Url>, respond: Url -> Response, rok: nat, woj: string, teryt: string)
    ensures var (f, raised) := Fetch(disk, requests, respond, rok, woj, teryt);
      && f == PrzetwarzanieDanych.Fetch(disk, requests, respond, rok, woj, teryt)
      && (raised <==> ZipPath(teryt, rok) !in disk
                      && (respond(ArchiveUrl(rok, woj, teryt)).Raised?
                          || (respond(ArchiveUrl(rok, woj, teryt)).status == 200
                              && respond(ArchiveUrl(rok, woj, teryt)).transfer != Completed)))
      && (raised ==> f.path.None?)
  {
  }

  /** A cache hit sends no request; a cache miss sends exactly one; a
      non-200 status returns None, writes nothing and does not raise. */
  lemma FetchCache(disk: set<Path>, requests: seq<Url>, respond: Url -> Response, rok: nat, woj: string, teryt: string)
    ensures var (f, raised) := Fetch(disk, requests, respond, rok, woj, teryt);
      && (ZipPath(teryt, rok) in disk ==> f.requests == requests && f.path == Some(ZipPath(teryt, rok)) && !raised)
      && (ZipPath(teryt, rok) !in disk ==> f.requests == requests + [ArchiveUrl(rok, woj, teryt)])
      && (ZipPath(teryt, rok) !in disk && respond(ArchiveUrl(rok, woj, teryt)) != Raised
          && respond(ArchiveUrl(rok, woj, teryt)).status != 200 ==>
            f.path.None? && f.disk == disk && !raised)
  {
  }

  // ------------------------------------------------------------------
  // rozpakuj_zip
  // ------------------------------------------------------------------

  /** rozpakuj_zip: extracts only when the folder is absent and always
      returns the folder; an unreadable archive raises. */
  function Unpack(disk: set<Path>, unzip: Path -> Unzip, zipPath: Path): (set<Path>, bool)
  {
    var folder := FolderOf(zipPath);
    if folder in disk then (disk, false)
    else match unzip(zipPath)
      case BadZip => (disk, true)
      case Unpacked(entries) => (disk + Extracted(folder, entries), false)
  }

  method RozpakujZip(disk: Disk, unzip: Path -> Unzip, zipPath: Path) returns (folder: Path, raised: bool)
    modifies disk
    ensures folder == FolderOf(zipPath)
    ensures (disk.paths, raised) == Unpack(old(disk.paths), unzip, zipPath)
  {
    folder := FolderOf(zipPath);
    var present := disk.Exists(folder);
    raised := false;
    if !present {
      match unzip(zipPath)
      case BadZip =>
        raised := true;
      case Unpacked(entries) =>
        disk.Extract(folder, entries);
    }
  }

  /** An existing folder is left alone and nothing raises; otherwise
      unpacking agrees with the later script's and raises exactly where that
      one returns None. */
  lemma UnpackAgrees(disk: set<Path>, unzip: Path -> Unzip, zipPath: Path)
    ensures var (d, raised) := Unpack(disk, unzip, zipPath);
      var u := PrzetwarzanieDanych.Unpack(disk, unzip, zipPath);
      && (FolderOf(zipPath) in disk ==> d == disk && !raised)
      && d == u.disk
      && (raised <==> u.path.None?)
      && (!raised ==> FolderOf(zipPath) in d)
  {
  }

  // ------------------------------------------------------------------
  // znajdz_bubd
  // ------------------------------------------------------------------

  /** znajdz_bubd: the path of the first file in walk order whose lowercased
      name ends with ".shp" and contains "bubd", or None. */
  method ZnajdzBubd(walk: seq<WalkEntry>) returns (r: Option<Path>)
    ensures r == FirstBubd(walk)
  {
    for i := 0 to |walk|
      invariant PrzetwarzanieDanych.NoMatchBefore(walk, i)
    {
      var root, files := walk[i].root, walk[i].files;
      for j := 0 to |files|
        invariant forall j' :: 0 <= j' < j ==> !IsBubdShp(files[j'])
      {
        if IsBubdShp(files[j]) {
          PrzetwarzanieDanych.FirstMatchAt(walk, Hit(i, j));
          return Some(Join(root, files[j]));
        }
      }
    }
    return None;
  }

  /** The located path is `join(root, f)` for the first matching file, and
      None exactly when no file matches; it lies in the walked directory
      and names a file with the matched suffix ".shp" (in any case). */
  lemma FirstBubdFound(walk: seq<WalkEntry>)
    ensures FirstBubd(walk).None? <==> forall i, j :: 0 <= i < |walk| && 0 <= j < |walk[i].files| ==> !IsBubdShp(walk[i].files[j])
    ensures FirstBubd(walk).Some? ==>
      exists i, j :: 0 <= i < |walk| && 0 <= j < |walk[i].files|
        && IsBubdShp(walk[i].files[j]) && FirstBubd(walk).value == Join(walk[i].root, walk[i].files[j])
        && EndsWith(Lower(FirstBubd(walk).value), ".shp")
  {
    if FirstMatch(walk).Some? {
      var h := FirstMatch(walk).value;
      var root, f := walk[h.entry].root, walk[h.entry].files[h.file];
      var p := Join(root, f);
      LowerSuffix(root + Sep, f);
      assert p == (root + Sep) + f;
    }
  }

  /** Lowercasing works character by character, so a suffix of the
      lowercased tail is a suffix of the lowercased whole. */
  lemma LowerSuffix(a: string, b: string)
    requires EndsWith(Lower(b), ".shp")
    ensures EndsWith(Lower(a + b), ".shp")
  {
    var l := Lower(a + b);
    assert |l| == |a| + |b|;
    forall i | 0 <= i < |b| ensures l[|a| + i] == Lower(b)[i] {
      assert (a + b)[|a| + i] == b[i];
    }
    assert l[|l| - 4..] == Lower(b)[|b| - 4..];
  }

  // ------------------------------------------------------------------
  // importuj_bubd
  // ------------------------------------------------------------------

  /** importuj_bubd: nothing happens when bubd_<rok>_<teryt> exists;
      otherwise the export creates it, and a failed export raises. */
  function Import(layers: Layers, read: Path -> Option<seq<Feature>>, shp: Path, rok: nat, teryt: string): (Layers, bool)
  {
    var nazwa := LayerName(rok, teryt);
    if nazwa in layers then (layers, false)
    else match read(shp)
      case None => (layers, true)
      case Some(features) => (layers[nazwa := features], false)
  }

  method ImportujBubd(gdb: Geodatabase, read: Path -> Option<seq<Feature>>, shp: Path, rok: nat, teryt: string)
    returns (raised: bool)
    modifies gdb
    ensures (gdb.layers, raised) == Import(old(gdb.layers), read, shp, rok, teryt)
  {
    var nazwa := LayerName(rok, teryt);
    var present := gdb.Exists(nazwa);
    if present {
      return false;
    }
    var ok := gdb.ExportFeatures(read(shp), nazwa);
    raised := !ok;
  }

  /** A no-op when the layer exists; otherwise exactly that one layer is
      created from the shapefile, or the export raises and the store is as
      it was. */
  lemma ImportExactlyOne(layers: Layers, read: Path -> Option<seq<Feature>>, shp: Path, rok: nat, teryt: string)
    ensures var (l, raised) := Import(layers, read, shp, rok, teryt);
      && (LayerName(rok, teryt) in layers ==> l == layers && !raised)
      && (LayerName(rok, teryt) !in layers && read(shp).Some? ==>
            !raised && l.Keys == layers.Keys + {LayerName(rok, teryt)} && l[LayerName(rok, teryt)] == read(shp).value
            && forall n :: n in layers ==> l[n] == layers[n])
      && (raised ==> l == layers && read(shp).None?)
  {
  }

  // ------------------------------------------------------------------
  // the main loop
  // ------------------------------------------------------------------

  /** The state of a run and whether an exception has ended it. */
  datatype Run = Run(state: State, crashed: bool)

  /** One (year, region) pair: download, unpack, locate, import the located
      file; None from the download or from the search skips the pair, and
      an exception from any stage ends the run with the state it left. */
  function Unit(s: State, respond: Url -> Response, w: World, rok: nat, woj: string, teryt: string): Run
  {
    var (f, r1) := Fetch(s.disk, s.requests, respond, rok, woj, teryt);
    if r1 then Run(State(f.disk, f.requests, s.layers), true)
    else if f.path.None? then Run(State(f.disk, f.requests, s.layers), false)
    else
      var folder := FolderOf(f.path.value);
      var (d, r2) := Unpack(f.disk, w.unzip, f.path.value);
      if r2 then Run(State(d, f.requests, s.layers), true)
      else match FirstBubd(w.walk(folder))
        case None => Run(State(d, f.requests, s.layers), false)
        case Some(bubd) =>
          var (l, r3) := Import(s.layers, w.read, bubd, rok, teryt);
          Run(State(d, f.requests, l), r3)
  }

  function RunTeryty(r: Run, respond: Url -> Response, w: World, rok: nat, woj: string, teryty: seq<string>): Run
    decreases |teryty|
  {
    if r.crashed || teryty == [] then r
    else RunTeryty(Unit(r.state, respond, w, rok, woj, teryty[0]), respond, w, rok, woj, teryty[1..])
  }

  function RunMiasta(r: Run, respond: Url -> Response, w: World, rok: nat, miasta: Miasta): Run
    decreases |miasta|
  {
    if r.crashed || miasta == [] then r
    else RunMiasta(RunTeryty(r, respond, w, rok, miasta[0].woj, miasta[0].teryty), respond, w, rok, miasta[1..])
  }

  function RunYears(r: Run, respond: Url -> Response, w: World, miasta: Miasta, years: seq<nat>): Run
    decreases |years|
  {
    if r.crashed || years == [] then r
    else RunYears(RunMiasta(r, respond, w, years[0], miasta), respond, w, miasta, years[1..])
  }

  method ProcessPair(disk: Disk, net: Network, gdb: Geodatabase, w: World, rok: nat, woj: string, teryt: string)
    returns (crashed: bool)
    modifies disk, net, gdb
    ensures Run(Snapshot(disk, net, gdb), crashed) == Unit(old(Snapshot(disk, net, gdb)), net.respond, w, rok, woj, teryt)
  {
    var zipPath, r1 := PobierzZip(disk, net, rok, woj, teryt);
    if r1 {
      return true;
    }
    if zipPath.None? {
      return false;
    }
    var folder, r2 := RozpakujZip(disk, w.unzip, zipPath.value);
    if r2 {
      return true;
    }
    var bubd := ZnajdzBubd(w.walk(folder));
    if bubd.Some? {
      crashed := ImportujBubd(gdb, w.read, bubd.value, rok, teryt);
    } else {
      crashed := false;
    }
  }

  method ProcessVoivodeship(disk: Disk, net: Network, gdb: Geodatabase, w: World, rok: nat, woj: string, teryty: seq<string>)
    returns (crashed: bool)
    modifies disk, net, gdb
    ensures Run(Snapshot(disk, net, gdb), crashed) == RunTeryty(Run(old(Snapshot(disk, net, gdb)), false), net.respond, w, rok, woj, teryty)
  {
    ghost var goal := RunTeryty(Run(Snapshot(disk, net, gdb), false), net.respond, w, rok, woj, teryty);
    for t := 0 to |teryty|
      invariant RunTeryty(Run(Snapshot(disk, net, gdb), false), net.respond, w, rok, woj, teryty[t..]) == goal
    {
      assert teryty[t..][1..] == teryty[t + 1..];
      crashed := ProcessPair(disk, net, gdb, w, rok, woj, teryty[t]);
      if crashed {
        return;
      }
    }
    crashed := false;
  }

  method ProcessYear(disk: Disk, net: Network, gdb: Geodatabase, w: World, rok: nat, miasta: Miasta)
    returns (crashed: bool)
    modifies disk, net, gdb
    ensures Run(Snapshot(disk, net, gdb), crashed) == RunMiasta(Run(old(Snapshot(disk, net, gdb)), false), net.respond, w, rok, miasta)
  {
    ghost var goal := RunMiasta(Run(Snapshot(disk, net, gdb), false), net.respond, w, rok, miasta);
    for v := 0 to |miasta|
      invariant RunMiasta(Run(Snapshot(disk, net, gdb), false), net.respond, w, rok, miasta[v..]) == goal
    {
      assert miasta[v..][1..] == miasta[v + 1..];
      crashed := ProcessVoivodeship(disk, net, gdb, w, rok, miasta[v].woj, miasta[v].teryty);
      if crashed {
        return;
      }
    }
    crashed := false;
  }

  method ProcessYears(disk: Disk, net: Network, gdb: Geodatabase, w: World, miasta: Miasta, years: seq<nat>)
    returns (crashed: bool)
    modifies disk, net, gdb
    ensures Run(Snapshot(disk, net, gdb), crashed) == RunYears(Run(old(Snapshot(disk, net, gdb)), false), net.respond, w, miasta, years)
  {
    ghost var goal := RunYears(Run(Snapshot(disk, net, gdb), false), net.respond, w, miasta, years);
    for i := 0 to |years|
      invariant RunYears(Run(Snapshot(disk, net, gdb), false), net.respond, w, miasta, years[i..]) == goal
    {
      assert years[i..][1..] == years[i + 1..];
      crashed := ProcessYear(disk, net, gdb, w, years[i], miasta);
      if crashed {
        return;
      }
    }
    crashed := false;
  }

  /** The script's main loop over LATA and MIASTA; `crashed` tells whether
      an exception ended it early. */
  method Uruchomienie(disk: Disk, net: Network, gdb: Geodatabase, w: World, miasta: Miasta) returns (crashed: bool)
    modifies disk, net, gdb
    ensures Run(Snapshot(disk, net, gdb), crashed) == RunYears(Run(old(Snapshot(disk, net, gdb)), false), net.respond, w, miasta, Lata)
  {
    crashed := ProcessYears(disk, net, gdb, w, miasta, Lata);
  }

  // ------------------------------------------------------------------
  // properties of the main loop
  // ------------------------------------------------------------------

  /** One pair only adds paths, sends a request only on a cache miss, and
      changes the store only by importing the located original shapefile
      as bubd_<rok>_<teryt>; without a located BUBD file the store is as it
      was. */
  lemma UnitEffect(s: State, respond: Url -> Response, w: World, rok: nat, woj: string, teryt: string)
    ensures var u := Unit(s, respond, w, rok, woj, teryt);
      var walk := w.walk(FolderOf(ZipPath(teryt, rok)));
      && s.disk <= u.state.disk
      && u.state.requests == (if ZipPath(teryt, rok) in s.disk then s.requests else s.requests + [ArchiveUrl(rok, woj, teryt)])
      && (FirstBubd(walk).None? ==> u.state.layers == s.layers)
      && (u.state.layers == s.layers
          || (&& LayerName(rok, teryt) !in s.layers
              && FirstBubd(walk).Some?
              && w.read(FirstBubd(walk).value).Some?
              && u.state.layers == s.layers[LayerName(rok, teryt) := w.read(FirstBubd(walk).value).value]))
  {
    var (f, r1) := Fetch(s.disk, s.requests, respond, rok, woj, teryt);
    FetchCache(s.disk, s.requests, respond, rok, woj, teryt);
    assert s.disk <= f.disk;
    if !r1 && f.path.Some? {
      assert f.path.value == ZipPath(teryt, rok);
      var (d, r2) := Unpack(f.disk, w.unzip, f.path.value);
      assert f.disk <= d;
      if !r2 {
        var walk := w.walk(FolderOf(ZipPath(teryt, rok)));
        if FirstBubd(walk).Some? {
          ImportExactlyOne(s.layers, w.read, FirstBubd(walk).value, rok, teryt);
        }
      }
    }
  }

  /** Once an exception has ended the run, no later pair changes anything:
      the disk, the requests and the store stay where the exception left
      them. */
  lemma {:induction false} CrashedStays(r: Run, respond: Url -> Response, w: World, miasta: Miasta, years: seq<nat>, rok: nat, woj: string, teryty: seq<string>)
    requires r.crashed
    ensures RunTeryty(r, respond, w, rok, woj, teryty) == r
    ensures RunMiasta(r, respond, w, rok, miasta) == r
    ensures RunYears(r, respond, w, miasta, years) == r
  {
  }

  /** The whole run, crashed or not, keeps every path and every stored
      layer, only appends requests, and creates no layer other than
      bubd_<rok>_<teryt> for a configured (year, region). */
  ghost predicate Grows(a: State, b: State)
  {
    && a.disk <= b.disk
    && (forall n :: n in a.layers ==> n in b.layers && b.layers[n] == a.layers[n])
    && a.requests <= b.requests
  }

  lemma {:induction false} RunTerytyGrows(r: Run, respond: Url -> Response, w: World, rok: nat, woj: string, teryty: seq<string>)
    ensures var e := RunTeryty(r, respond, w, rok, woj, teryty);
      Grows(r.state, e.state) && e.state.layers.Keys <= r.state.layers.Keys + TerytyLayers(rok, teryty)
    decreases |teryty|
  {
    if !r.crashed && teryty != [] {
      var u := Unit(r.state, respond, w, rok, woj, teryty[0]);
      UnitEffect(r.state, respond, w, rok, woj, teryty[0]);
      RunTerytyGrows(u, respond, w, rok, woj, teryty[1..]);
      assert teryty[0] in teryty;
      assert forall t :: t in teryty[1..] ==> t in teryty;
    }
  }

  lemma {:induction false} RunMiastaGrows(r: Run, respond: Url -> Response, w: World, rok: nat, miasta: Miasta)
    ensures var e := RunMiasta(r, respond, w, rok, miasta);
      Grows(r.state, e.state) && e.state.layers.Keys <= r.state.layers.Keys + MiastaLayers(rok, miasta)
    decreases |miasta|
  {
    if !r.crashed && miasta != [] {
      var u := RunTeryty(r, respond, w, rok, miasta[0].woj, miasta[0].teryty);
      RunTerytyGrows(r, respond, w, rok, miasta[0].woj, miasta[0].teryty);
      RunMiastaGrows(u, respond, w, rok, miasta[1..]);
      assert miasta[0] in miasta;
      assert forall v :: v in miasta[1..] ==> v in miasta;
    }
  }

  lemma {:induction false} RunYearsGrows(r: Run, respond: Url -> Response, w: World, miasta: Miasta, years: seq<nat>)
    ensures var e := RunYears(r, respond, w, miasta, years);
      Grows(r.state, e.state) && e.state.layers.Keys <= r.state.layers.Keys + YearsLayers(years, miasta)
    decreases |years|
  {
    if !r.crashed && years != [] {
      var u := RunMiasta(r, respond, w, years[0], miasta);
      RunMiastaGrows(r, respond, w, years[0], miasta);
      RunYearsGrows(u, respond, w, miasta, years[1..]);
      assert years[0] in years;
      assert forall y :: y in years[1..] ==> y in years;
    }
  }
}
