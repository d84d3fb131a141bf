/** The local disk, the network and the directory walk, as the acquisition
    scripts see them. The disk records which paths exist (file contents are
    not modelled); the network is a fixed answer per URL plus the log of the
    requests sent; an `os.walk` traversal is a given sequence of
    (directory, file names) entries in walk order. */
module Files {

  import opened Text
  import opened Wrappers

  type Url = string

  /** How writing a 200 response body to disk ends: every chunk written, the
      target file could not be opened, or the stream broke after the file was
      opened (leaving a partial file behind). */
  datatype Transfer = Completed | OpenFailed | StreamBroken

  /** The outcome of `requests.get(url, stream=True)`: it raised (timeout,
      connection or DNS failure), or the server answered with a status. */
  datatype Response = Raised | Answered(status: int, transfer: Transfer)

  /** The outcome of `zipfile.ZipFile(zip).extractall(folder)`: the relative
      paths the archive unpacks, or an archive that cannot be read. */
  datatype Unzip = Unpacked(entries: set<string>) | BadZip

  /** One `(root, dirs, files)` triple of `os.walk`; `dirs` plays no part. */
  datatype WalkEntry = WalkEntry(root: Path, files: seq<string>)

  /** The paths an extraction creates: the folder and every entry below it. */
  function Extracted(folder: Path, entries: set<string>): (r: set<Path>)
    ensures folder in r
  {
    {folder} + set e | e in entries :: Join(folder, e)
  }

  /** The disk after `shutil.rmtree(dir)`: `dir` and everything below it is gone. */
  function WithoutTree(paths: set<Path>, dir: Path): (r: set<Path>)
    ensures r <= paths
    ensures forall p :: p in r <==> p in paths && !InTree(p, dir)
  {
    set p | p in paths && !InTree(p, dir)
  }

  class Disk {
    var paths: set<Path>

    constructor (initial: set<Path>)
      ensures paths == initial
    {
      paths := initial;
    }

    /** os.path.exists(p). */
    method Exists(p: Path) returns (b: bool)
      ensures b <==> p in paths
    {
      b := p in paths;
    }

    /** open(p, "wb"): the file exists from then on, whatever is written. */
    method Create(p: Path)
      modifies this
      ensures paths == old(paths) + {p}
    {
      paths := paths + {p};
    }

    /** extractall(folder) of an archive that unpacks `entries`. */
    method Extract(folder: Path, entries: set<string>)
      modifies this
      ensures paths == old(paths) + Extracted(folder, entries)
    {
      paths := paths + Extracted(folder, entries);
    }

    /** shutil.rmtree(dir). */
    method RemoveTree(dir: Path)
      modifies this
      ensures paths == WithoutTree(old(paths), dir)
    {
      paths := WithoutTree(paths, dir);
    }

    /** os.makedirs(dir) below an existing parent. */
    method MakeDirs(dir: Path)
      modifies this
      ensures paths == old(paths) + {dir}
    {
      paths := paths + {dir};
    }

    /** shutil.copy2(source, target). */
    method Copy(source: Path, target: Path)
      requires source in paths
      modifies this
      ensures paths == old(paths) + {target}
    {
      paths := paths + {target};
    }
  }

  class Network {
    /** The server's answer to each URL. */
    const respond: Url -> Response
    /** Every request sent, in order. */
    var requests: seq<Url>

    constructor (respond: Url -> Response)
      ensures this.respond == respond && requests == []
    {
      this.respond := respond;
      requests := [];
    }

    /** requests.get(url, stream=True, ...). */
    method Get(url: Url) returns (r: Response)
      modifies this
      ensures requests == old(requests) + [url]
      ensures r == respond(url)
    {
      requests := requests + [url];
      r := respond(url);
    }
  }

  /** `f.lower().endswith(".shp") and "bubd" in f.lower()`: the buildings layer. */
  predicate IsBubdShp(name: string)
  {
    EndsWith(Lower(name), ".shp") && Contains(Lower(name), "bubd")
  }

  /** A matched name keeps "bubd" before its ".shp" suffix, so some character
      before the final dot is not a dot and `os.path.splitext` strips exactly
      the four-character suffix. */
  lemma StemOfBubdShp(name: string)
    requires IsBubdShp(name)
    ensures Stem(name) == name[..|name| - 4]
  {
    var n := |name|;
    ShpSuffixDots(name);
    var k := BubdBeforeSuffix(name);
    assert LastDot(name) == n - 4;
    assert name[k] != '.';
  }

  /** Lowercasing keeps dots where they are. */
  lemma ShpSuffixDots(name: string)
    requires EndsWith(Lower(name), ".shp")
    ensures |name| >= 4 && name[|name| - 4] == '.'
    ensures forall j :: |name| - 4 < j < |name| ==> name[j] != '.'
  {
    var low, n := Lower(name), |name|;
    assert low[n - 4..] == ".shp";
    assert low[n - 4] == '.' && low[n - 3] == 's' && low[n - 2] == 'h' && low[n - 1] == 'p';
  }

  /** The "bubd" of a matched name starts at a non-dot before the suffix. */
  lemma BubdBeforeSuffix(name: string) returns (k: nat)
    requires IsBubdShp(name)
    ensures k < |name| - 4 && name[k] != '.'
  {
    var low := Lower(name);
    var n := |name|;
    k := IndexOf(low, "bubd");
    var w := low[k..k + 4];
    assert w == "bubd";
    assert low[k] == w[0] && low[k + 1] == w[1] && low[k + 2] == w[2] && low[k + 3] == w[3];
    ShpSuffixDots(name);
    assert low[n - 4] == '.';
    assert low[n - 3] == 's' && low[n - 2] == 'h' && low[n - 1] == 'p';
    assert k + 4 <= n - 4;
  }

  /** A position in a walk: entry index, then file index within the entry. */
  datatype Hit = Hit(entry: nat, file: nat)

  /** The first matching file of one directory's listing. */
  function FirstIn(files: seq<string>): (r: Option<nat>)
    ensures r.None? <==> forall j :: 0 <= j < |files| ==> !IsBubdShp(files[j])
    ensures r.Some? ==> r.value < |files| && IsBubdShp(files[r.value])
    ensures r.Some? ==> forall j :: 0 <= j < r.value ==> !IsBubdShp(files[j])
  {
    if files == [] then None
    else if IsBubdShp(files[0]) then Some(0)
    else match FirstIn(files[1..])
      case None => None
      case Some(j) => Some(j + 1)
  }

  predicate ValidHit(walk: seq<WalkEntry>, h: Hit)
  {
    h.entry < |walk| && h.file < |walk[h.entry].files|
  }

  /** Position (i, j) comes before h in walk order. */
  predicate Earlier(i: nat, j: nat, h: Hit)
  {
    i < h.entry || (i == h.entry && j < h.file)
  }

  /** The first matching file in walk order: directories in the order of the
      walk, files in listing order within each. */
  function FirstMatch(walk: seq<WalkEntry>): (r: Option<Hit>)
    ensures r.None? <==> forall i, j :: 0 <= i < |walk| && 0 <= j < |walk[i].files| ==> !IsBubdShp(walk[i].files[j])
    ensures r.Some? ==> ValidHit(walk, r.value) && IsBubdShp(walk[r.value.entry].files[r.value.file])
    ensures r.Some? ==> forall i, j :: 0 <= i < |walk| && 0 <= j < |walk[i].files| && Earlier(i, j, r.value)
                          ==> !IsBubdShp(walk[i].files[j])
  {
    if walk == [] then None
    else match FirstIn(walk[0].files)
      case Some(j) => Some(Hit(0, j))
      case None =>
        match FirstMatch(walk[1..])
        case None => None
        case Some(h) => Some(Hit(h.entry + 1, h.file))
  }

  /** `os.path.join(root, f)` of the matched file. */
  function HitPath(walk: seq<WalkEntry>, h: Hit): Path
    requires ValidHit(walk, h)
  {
    Join(walk[h.entry].root, walk[h.entry].files[h.file])
  }

  /** The path of the first matching file, if any. */
  function FirstBubd(walk: seq<WalkEntry>): Option<Path>
  {
    match FirstMatch(walk)
    case None => None
    case Some(h) => Some(HitPath(walk, h))
  }
}
