/** Configuration and naming shared by the BDOT10k scripts: the temporary
    directory, the archive server, the year range, the region table, and the
    deterministic names every stage derives from (year, region). */
module Bdot {

  import opened Text

  /** TEMP_DIR: where archives, extracted folders and clean copies live. */
  const TempDir: Path := "D:\\ProjektPPA_dane\\temp_bdot10k"

  /** BASE_URL of the archive server. */
  const BaseUrl: string := "https://opendata.geoportal.gov.pl/Archiwum/bdot10k"

  /** `range(lo, hi)`. */
  function Range(lo: nat, hi: nat): (r: seq<nat>)
    requires lo <= hi
    ensures |r| == hi - lo
    ensures forall i :: 0 <= i < |r| ==> r[i] == lo + i
    decreases hi - lo
  {
    if lo == hi then [] else [lo] + Range(lo + 1, hi)
  }

  /** LATA = range(2014, 2024): the years 2014 to 2023, ascending. */
  const Lata: seq<nat> := Range(2014, 2024)

  /** One entry of MIASTA: a voivodeship code and its county (TERYT) codes,
      in the order the table lists them. */
  datatype Voivodeship = Voivodeship(woj: string, teryty: seq<string>)

  /** MIASTA, in dictionary (insertion) order. The tables differ between the
      scripts, so every operation takes the table as a parameter. */
  type Miasta = seq<Voivodeship>

  /** The archive's address: BASE_URL/<rok>/SHP/<woj>/<teryt>_SHP_<rok>.zip. */
  function ArchiveUrl(rok: nat, woj: string, teryt: string): string
  {
    BaseUrl + "/" + NatToString(rok) + "/SHP/" + woj + "/" + teryt + "_SHP_" + NatToString(rok) + ".zip"
  }

  /** `<teryt>_<rok>`: the cache key of one archive. */
  function CacheKey(teryt: string, rok: nat): string
  {
    teryt + "_" + NatToString(rok)
  }

  /** TEMP_DIR/<teryt>_<rok>.zip: where the archive is cached. */
  function ZipPath(teryt: string, rok: nat): Path
  {
    Join(TempDir, CacheKey(teryt, rok) + ".zip")
  }

  /** `zip_path.replace(".zip", "")`: the extraction folder of an archive. */
  function FolderOf(zipPath: Path): Path
  {
    RemoveAll(zipPath, ".zip")
  }

  /** TEMP_DIR/clean_<teryt>_<rok>: the staging folder of the clean copy. */
  function CleanDir(teryt: string, rok: nat): Path
  {
    Join(TempDir, "clean_" + teryt + "_" + NatToString(rok))
  }

  /** The fixed base name the clean copy is given. */
  const CleanBase: string := "BUBD_TEMP"

  /** clean_dir/BUBD_TEMP.shp: the shapefile the clean copy is imported from. */
  function CleanShp(teryt: string, rok: nat): Path
  {
    Join(CleanDir(teryt, rok), CleanBase + ".shp")
  }

  /** The sidecar files of a shapefile that are copied, in copy order. */
  const SidecarExts: seq<string> := [".shp", ".shx", ".dbf", ".prj", ".cpg"]

  /** bubd_<rok>_<teryt>: the stored layer of one (year, region). */
  function LayerName(rok: nat, teryt: string): string
  {
    "bubd_" + NatToString(rok) + "_" + teryt
  }

  lemma NoDotAppend(a: string, b: string)
    requires NoDot(a) && NoDot(b)
    ensures NoDot(a + b)
  {
    forall i | 0 <= i < |a + b| ensures (a + b)[i] != '.' {
      if i < |a| { assert (a + b)[i] == a[i]; } else { assert (a + b)[i] == b[i - |a|]; }
    }
  }

  lemma NoDotDigits(n: nat)
    ensures NoDot(NatToString(n))
  {
  }

  /** For a region code without dots, the extraction folder of the cached
      archive is TEMP_DIR/<teryt>_<rok>: stripping ".zip" only drops the suffix. */
  lemma FolderOfZipPath(teryt: string, rok: nat)
    requires NoDot(teryt)
    ensures FolderOf(ZipPath(teryt, rok)) == Join(TempDir, CacheKey(teryt, rok))
  {
    var s := Join(TempDir, CacheKey(teryt, rok));
    assert NoDot(TempDir) by {
      forall i | 0 <= i < |TempDir| ensures TempDir[i] != '.' {
        assert TempDir[i] in "D:\\ProjektPPA_dane\\temp_bdot10k";
      }
    }
    NoDotDigits(rok);
    NoDotAppend(TempDir, Sep);
    NoDotAppend(TempDir + Sep, teryt);
    NoDotAppend(TempDir + Sep + teryt, "_");
    NoDotAppend(TempDir + Sep + teryt + "_", NatToString(rok));
    assert s == TempDir + Sep + teryt + "_" + NatToString(rok);
    assert ZipPath(teryt, rok) == s + ".zip";
    RemoveZipSuffix(s);
  }

  /** In bubd_<rok>_<teryt> the year's digits run from position 5 and the
      first underscore after them ends the year. */
  lemma LayerNameShape(rok: nat, teryt: string)
    ensures LayerName(rok, teryt)[5 + |NatToString(rok)|] == '_'
    ensures forall i :: 5 <= i < 5 + |NatToString(rok)| ==> IsDigit(LayerName(rok, teryt)[i])
  {
    var s := NatToString(rok);
    assert LayerName(rok, teryt) == "bubd_" + s + "_" + teryt;
  }

  /** Distinct (year, region) pairs get distinct layer names, so the
      create-if-absent imports of different pairs never meet. */
  lemma LayerNameInjective(rok1: nat, teryt1: string, rok2: nat, teryt2: string)
    requires LayerName(rok1, teryt1) == LayerName(rok2, teryt2)
    ensures rok1 == rok2 && teryt1 == teryt2
  {
    var s1, s2 := NatToString(rok1), NatToString(rok2);
    var n := LayerName(rok1, teryt1);
    assert n == "bubd_" + s1 + "_" + teryt1;
    assert n == "bubd_" + s2 + "_" + teryt2;
    LayerNameShape(rok1, teryt1);
    LayerNameShape(rok2, teryt2);
    assert |s1| == |s2|;
    assert s1 == n[5..5 + |s1|] == s2;
    NatToStringInjective(rok1, rok2);
    assert teryt1 == n[6 + |s1|..] == teryt2;
  }

  /** A TERYT county code: decimal digits only. */
  predicate ValidTeryt(teryt: string)
  {
    forall i :: 0 <= i < |teryt| ==> IsDigit(teryt[i])
  }

  /** The clean folders and the cached archives never meet: an archive of a
      county code lies outside every clean folder, so emptying one never
      deletes a cached archive. */
  lemma ZipOutsideClean(teryt: string, rok: nat, teryt2: string, rok2: nat)
    requires ValidTeryt(teryt)
    ensures !InTree(ZipPath(teryt, rok), CleanDir(teryt2, rok2))
  {
    var z, d := ZipPath(teryt, rok), CleanDir(teryt2, rok2);
    var k := |TempDir| + 1;
    assert z == TempDir + Sep + (teryt + "_" + NatToString(rok) + ".zip");
    assert d == TempDir + Sep + ("clean_" + teryt2 + "_" + NatToString(rok2));
    assert d[k] == 'c';
    assert z[k] != 'c' by {
      if |teryt| > 0 {
        assert z[k] == teryt[0];
      } else {
        assert z[k] == '_';
      }
    }
    assert (d + Sep)[k] == 'c';
  }

  /** In <teryt>_<rok> of a county code, the code's digits come first and
      the first underscore ends them. */
  lemma CacheKeyShape(teryt: string, rok: nat)
    requires ValidTeryt(teryt)
    ensures CacheKey(teryt, rok)[|teryt|] == '_'
    ensures forall i :: 0 <= i < |teryt| ==> IsDigit(CacheKey(teryt, rok)[i])
  {
    assert CacheKey(teryt, rok) == teryt + "_" + NatToString(rok);
  }

  /** For county codes, distinct (year, region) pairs have distinct cache
      files, so one pair never takes another's archive for its own. */
  lemma ZipPathInjective(teryt1: string, rok1: nat, teryt2: string, rok2: nat)
    requires ValidTeryt(teryt1) && ValidTeryt(teryt2)
    requires ZipPath(teryt1, rok1) == ZipPath(teryt2, rok2)
    ensures teryt1 == teryt2 && rok1 == rok2
  {
    var s1, s2 := NatToString(rok1), NatToString(rok2);
    var k1, k2 := CacheKey(teryt1, rok1), CacheKey(teryt2, rok2);
    assert ZipPath(teryt1, rok1) == TempDir + Sep + k1 + ".zip";
    assert ZipPath(teryt2, rok2) == TempDir + Sep + k2 + ".zip";
    assert k1 == k2 by {
      assert k1 == ZipPath(teryt1, rok1)[|TempDir + Sep|..|ZipPath(teryt1, rok1)| - 4];
      assert k2 == ZipPath(teryt2, rok2)[|TempDir + Sep|..|ZipPath(teryt2, rok2)| - 4];
    }
    CacheKeyShape(teryt1, rok1);
    CacheKeyShape(teryt2, rok2);
    assert |teryt1| == |teryt2|;
    assert teryt1 == k1[..|teryt1|] == teryt2;
    assert s1 == k1[|teryt1| + 1..] == s2;
    NatToStringInjective(rok1, rok2);
  }

  /** The layers bubd_<rok>_<teryt> of one voivodeship's regions. */
  function TerytyLayers(rok: nat, teryty: seq<string>): set<string>
  {
    set t | t in teryty :: LayerName(rok, t)
  }

  /** The layers of every configured region in one year. */
  function MiastaLayers(rok: nat, miasta: Miasta): set<string>
  {
    set v, t | v in miasta && t in v.teryty :: LayerName(rok, t)
  }

  /** The layers of every configured region in every given year. */
  function YearsLayers(years: seq<nat>, miasta: Miasta): set<string>
  {
    set r, v, t | r in years && v in miasta && t in v.teryty :: LayerName(r, t)
  }
}
