/** What the acquisition scripts run against: the disk, the request log and
    the store as one value (for the specifications), and the collaborators
    whose behaviour is given rather than modelled. */
module Workstation {

  import opened Text
  import opened Wrappers
  import opened Geo
  import opened Files

  /** Disk paths, requests sent so far, and the store's layers. */
  datatype State = State(disk: set<Path>, requests: seq<Url>, layers: Layers)

  /** The collaborators besides the network: what each archive unpacks to,
      what `os.walk` yields for each folder, and what ExportFeatures reads
      from each shapefile path (None when the conversion raises). */
  datatype World = World(
    unzip: Path -> Unzip,
    walk: Path -> seq<WalkEntry>,
    read: Path -> Option<seq<Feature>>)

  /** The current state of the three mutable collaborators. */
  function Snapshot(disk: Disk, net: Network, gdb: Geodatabase): State
    reads disk, net, gdb
  {
    State(disk.paths, net.requests, gdb.layers)
  }

  /** What `pobierz_zip` leaves behind: the disk, the request log, and the
      archive path it returns (None stops the (year, region) pair). */
  datatype Fetched = Fetched(disk: set<Path>, requests: seq<Url>, path: Option<Path>)

  /** What a disk-only stage leaves behind: the disk and the path it returns. */
  datatype Staged = Staged(disk: set<Path>, path: Option<Path>)
}
