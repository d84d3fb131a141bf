/** tworzenie_warstw.py: the year-over-year change detector. For each year
    in ascending order it collects the existing bubd_<rok>_<teryt> layers;
    a year without any resets the previous snapshot; otherwise the year's
    snapshot is the single layer itself or the merge bubd_miasta_<rok> of
    all of them, and, when the previous processed year left a snapshot,
    bubd_miasta_new_<rok> receives the features of the current snapshot that
    intersect nothing in the previous one. The snapshot then becomes the
    previous one. */
module TworzenieWarstw {

  import opened Text
  import opened Wrappers
  import opened Geo
  import opened Bdot

  // ------------------------------------------------------------------
  // names
  // ------------------------------------------------------------------

  /** bubd_miasta_<rok>: the merged snapshot of one year. */
  function MergedName(rok: nat): string
  {
    "bubd_miasta_" + NatToString(rok)
  }

  /** bubd_miasta_new_<rok>: the buildings new in one year. */
  function NewName(rok: nat): string
  {
    "bubd_miasta_new_" + NatToString(rok)
  }

  /** The three families of names never meet, and the two written by the
      detector are injective in the year: a per-region layer is never
      overwritten, and neither is an earlier year's output. */
  lemma NamesDistinct(r1: nat, r2: nat, y: nat, t: string)
    ensures MergedName(r1) != NewName(r2)
    ensures LayerName(y, t) != MergedName(r1) && LayerName(y, t) != NewName(r1)
    ensures MergedName(r1) == MergedName(r2) ==> r1 == r2
    ensures NewName(r1) == NewName(r2) ==> r1 == r2
  {
    var s1, s2, sy := NatToString(r1), NatToString(r2), NatToString(y);
    assert MergedName(r1)[12] == s1[0];
    assert NewName(r2)[12] == 'n';
    assert LayerName(y, t)[5] == sy[0];
    assert MergedName(r1)[5] == 'm' && NewName(r1)[5] == 'm';
    if MergedName(r1) == MergedName(r2) {
      assert s1 == MergedName(r1)[12..] == MergedName(r2)[12..] == s2;
      NatToStringInjective(r1, r2);
    }
    if NewName(r1) == NewName(r2) {
      assert s1 == NewName(r1)[16..] == NewName(r2)[16..] == s2;
      NatToStringInjective(r1, r2);
    }
  }

  // ------------------------------------------------------------------
  // the candidate list
  // ------------------------------------------------------------------

  /** bubd_<rok>_<teryt> for a voivodeship's regions, in list order. */
  function TerytyNames(rok: nat, teryty: seq<string>): (r: seq<string>)
    ensures |r| == |teryty|
  {
    if teryty == [] then [] else TerytyNames(rok, teryty[..|teryty| - 1]) + [LayerName(rok, teryty[|teryty| - 1])]
  }

  /** bubd_<rok>_<teryt> for every configured region, in table order. */
  function RegionNames(rok: nat, miasta: Miasta): seq<string>
  {
    if miasta == [] then [] else RegionNames(rok, miasta[..|miasta| - 1]) + TerytyNames(rok, miasta[|miasta| - 1].teryty)
  }

  lemma {:induction false} TerytyNamesMembers(rok: nat, teryty: seq<string>)
    ensures forall n :: n in TerytyNames(rok, teryty) <==> n in TerytyLayers(rok, teryty)
  {
    if teryty != [] {
      var init, last := teryty[..|teryty| - 1], teryty[|teryty| - 1];
      TerytyNamesMembers(rok, init);
      assert teryty == init + [last];
    }
  }

  /** The configured names are exactly the per-region layers of the year. */
  lemma {:induction false} RegionNamesMembers(rok: nat, miasta: Miasta)
    ensures forall n :: n in RegionNames(rok, miasta) <==> n in MiastaLayers(rok, miasta)
  {
    if miasta != [] {
      var init, last := miasta[..|miasta| - 1], miasta[|miasta| - 1];
      RegionNamesMembers(rok, init);
      TerytyNamesMembers(rok, last.teryty);
      assert miasta == init + [last];
      forall n ensures n in MiastaLayers(rok, miasta) <==> n in MiastaLayers(rok, init) || n in TerytyLayers(rok, last.teryty) {
        if n in MiastaLayers(rok, miasta) {
          var v, t :| v in miasta && t in v.teryty && n == LayerName(rok, t);
          if v != last {
            assert v in init;
          }
        }
      }
    }
  }

  /** The candidate list of one year: the configured layers that exist. */
  function Candidates(layers: Layers, rok: nat, miasta: Miasta): (c: seq<string>)
    ensures AllIn(layers, c)
  {
    Existing(layers, RegionNames(rok, miasta))
  }

  /** The candidates are exactly the existing per-region layers of the year. */
  lemma CandidatesExact(layers: Layers, rok: nat, miasta: Miasta)
    ensures forall n :: n in Candidates(layers, rok, miasta) <==> n in MiastaLayers(rok, miasta) && n in layers
  {
    ExistingMembers(layers, RegionNames(rok, miasta));
    RegionNamesMembers(rok, miasta);
  }

  /** Extending the scanned regions by one appends its name when it exists. */
  lemma AppendStep(layers: Layers, before: seq<string>, rok: nat, teryty: seq<string>, t: nat)
    requires t < |teryty|
    ensures var n := LayerName(rok, teryty[t]);
      Existing(layers, before + TerytyNames(rok, teryty[..t + 1]))
      == Existing(layers, before + TerytyNames(rok, teryty[..t])) + (if n in layers then [n] else [])
  {
    var n := LayerName(rok, teryty[t]);
    assert teryty[..t + 1][..t] == teryty[..t];
    var x := before + TerytyNames(rok, teryty[..t + 1]);
    assert x == (before + TerytyNames(rok, teryty[..t])) + [n];
    assert x[..|x| - 1] == before + TerytyNames(rok, teryty[..t]);
  }

  /** The collection loop: `miasta_fc` is built by appending, in table
      order, every bubd_<rok>_<teryt> that exists. */
  method CollectCandidates(gdb: Geodatabase, rok: nat, miasta: Miasta) returns (miastaFc: seq<string>)
    ensures miastaFc == Candidates(gdb.layers, rok, miasta)
  {
    miastaFc := [];
    for v := 0 to |miasta|
      invariant miastaFc == Existing(gdb.layers, RegionNames(rok, miasta[..v]))
    {
      var teryty := miasta[v].teryty;
      ghost var before := RegionNames(rok, miasta[..v]);
      assert before + TerytyNames(rok, teryty[..0]) == before;
      for t := 0 to |teryty|
        invariant miastaFc == Existing(gdb.layers, before + TerytyNames(rok, teryty[..t]))
      {
        var fcName := LayerName(rok, teryty[t]);
        AppendStep(gdb.layers, before, rok, teryty, t);
        var present := gdb.Exists(fcName);
        if present {
          miastaFc := miastaFc + [fcName];
        }
      }
      assert teryty[..|teryty|] == teryty;
      assert miasta[..v + 1][..v] == miasta[..v];
    }
    assert miasta[..|miasta|] == miasta;
  }

  // ------------------------------------------------------------------
  // wybierz_nowe_budynki
  // ------------------------------------------------------------------

  /** wybierz_nowe_budynki: without a previous snapshot nothing is written;
      otherwise `wyjscie` receives the features of `aktualne` that
      intersect no feature of the previous snapshot. */
  function NewBuildings(layers: Layers, poprzednie: Option<string>, aktualne: string, wyjscie: string,
                        intersects: Intersection): Layers
    requires aktualne in layers && (poprzednie.Some? ==> poprzednie.value in layers)
  {
    if poprzednie.None? then layers
    else layers[wyjscie := NotIntersecting(layers[aktualne], layers[poprzednie.value], intersects)]
  }

  method WybierzNoweBudynki(gdb: Geodatabase, poprzednie: Option<string>, aktualne: string, wyjscie: string,
                            intersects: Intersection)
    requires aktualne in gdb.layers && (poprzednie.Some? ==> poprzednie.value in gdb.layers)
    modifies gdb
    ensures gdb.layers == NewBuildings(old(gdb.layers), poprzednie, aktualne, wyjscie, intersects)
  {
    if poprzednie.None? {
      return;
    }
    gdb.CopyNotIntersecting(aktualne, poprzednie.value, wyjscie, intersects);
  }

  /** With a previous snapshot, the output holds exactly the current
      features that intersect nothing in the previous snapshot, each as
      often as in the current one: a sub-multiset, so no larger; only the
      output layer changes. Without one, the store is unchanged. */
  lemma NewBuildingsLaw(layers: Layers, poprzednie: Option<string>, aktualne: string, wyjscie: string,
                        intersects: Intersection)
    requires aktualne in layers && (poprzednie.Some? ==> poprzednie.value in layers)
    ensures var l := NewBuildings(layers, poprzednie, aktualne, wyjscie, intersects);
      && (poprzednie.None? ==> l == layers)
      && (poprzednie.Some? ==>
            var out, cur, prev := l[wyjscie], layers[aktualne], layers[poprzednie.value];
            && (forall f :: f in out <==> f in cur && !IntersectsAny(f, prev, intersects))
            && multiset(out) <= multiset(cur)
            && |out| <= |cur|
            && l.Keys == layers.Keys + {wyjscie}
            && (forall n :: n in layers && n != wyjscie ==> l[n] == layers[n]))
  {
    if poprzednie.Some? {
      NotIntersectingExact(layers[aktualne], layers[poprzednie.value], intersects);
    }
  }

  // ------------------------------------------------------------------
  // the per-year state machine
  // ------------------------------------------------------------------

  /** The store and `poprzednie_budynki`, the previous snapshot's name. */
  datatype Detector = Detector(layers: Layers, prev: Option<string>)

  /** The previous snapshot, when there is one, is a layer of the store. */
  predicate Valid(d: Detector)
  {
    d.prev.Some? ==> d.prev.value in d.layers
  }

  /** The name of the year's snapshot, for a non-empty candidate list. */
  function SnapshotName(c: seq<string>, rok: nat): string
    requires c != []
  {
    if |c| > 1 then MergedName(rok) else c[0]
  }

  /** The store after the snapshot is formed: a Merge for several layers,
      nothing for a single one. */
  function WithSnapshot(layers: Layers, c: seq<string>, rok: nat): Layers
    requires c != [] && AllIn(layers, c)
  {
    if |c| > 1 then layers[MergedName(rok) := Concat(layers, c)] else layers
  }

  /** One iteration of the year loop. */
  function YearStep(d: Detector, rok: nat, miasta: Miasta, intersects: Intersection): (r: Detector)
    requires Valid(d)
    ensures Valid(r)
  {
    var c := Candidates(d.layers, rok, miasta);
    if c == [] then Detector(d.layers, None)
    else
      var l1 := WithSnapshot(d.layers, c, rok);
      var aktualne := SnapshotName(c, rok);
      Detector(NewBuildings(l1, d.prev, aktualne, NewName(rok), intersects), Some(aktualne))
  }

  /** The year loop, years in the given order. */
  function DetectRun(d: Detector, years: seq<nat>, miasta: Miasta, intersects: Intersection): (r: Detector)
    requires Valid(d)
    ensures Valid(r)
    decreases |years|
  {
    if years == [] then d else DetectRun(YearStep(d, years[0], miasta, intersects), years[1..], miasta, intersects)
  }

  /** The features of the year's snapshot. */
  function CurrentFeatures(layers: Layers, rok: nat, miasta: Miasta): seq<Feature>
    requires Candidates(layers, rok, miasta) != []
  {
    var c := Candidates(layers, rok, miasta);
    if |c| > 1 then Concat(layers, c) else layers[c[0]]
  }

  /** One year of the state machine:
      - no candidate: the state resets and nothing is written;
      - otherwise the state names the year's snapshot, which holds the
        merge of all candidates (its count the sum of theirs) under
        bubd_miasta_<rok>, or is the single candidate itself, with no
        snapshot layer written;
      - bubd_miasta_new_<rok> is written exactly when the previous year
        left a snapshot, with the current features intersecting nothing in
        it;
      - no other layer changes. */
  lemma YearStepLaw(d: Detector, rok: nat, miasta: Miasta, intersects: Intersection)
    requires Valid(d)
    ensures var c := Candidates(d.layers, rok, miasta);
      var r := YearStep(d, rok, miasta, intersects);
      && (c == [] ==> r == Detector(d.layers, None))
      && (c != [] ==>
            && r.prev == Some(SnapshotName(c, rok))
            && r.prev.value in r.layers
            && r.layers[r.prev.value] == CurrentFeatures(d.layers, rok, miasta)
            && (|c| == 1 ==> r.prev == Some(c[0]) && r.layers.Keys <= d.layers.Keys + {NewName(rok)})
            && (|c| > 1 ==>
                  r.prev == Some(MergedName(rok)) && |r.layers[MergedName(rok)]| == TotalCount(d.layers, c))
            && (d.prev.Some? && d.prev.value != MergedName(rok) ==>
                  && NewName(rok) in r.layers
                  && r.layers[NewName(rok)] == NotIntersecting(CurrentFeatures(d.layers, rok, miasta),
                                                               d.layers[d.prev.value], intersects)))
      && (d.prev.None? || c == [] ==> (NewName(rok) in r.layers <==> NewName(rok) in d.layers)
                                      && (NewName(rok) in d.layers ==> r.layers[NewName(rok)] == d.layers[NewName(rok)]))
      && (forall n :: n != MergedName(rok) && n != NewName(rok) ==>
            (n in r.layers <==> n in d.layers) && (n in d.layers ==> r.layers[n] == d.layers[n]))
  {
    var c := Candidates(d.layers, rok, miasta);
    NamesDistinct(rok, rok, 0, "");
    if c != [] {
      var l1 := WithSnapshot(d.layers, c, rok);
      var aktualne := SnapshotName(c, rok);
      if |c| > 1 {
        ConcatCount(d.layers, c);
      } else {
        CandidateIsRegion(d.layers, rok, miasta, c[0]);
      }
    }
  }

  /** Every candidate is a per-region layer, never a detector output. */
  lemma CandidateIsRegion(layers: Layers, rok: nat, miasta: Miasta, n: string)
    requires n in Candidates(layers, rok, miasta)
    ensures exists t :: n == LayerName(rok, t)
    ensures forall y :: n != MergedName(y) && n != NewName(y)
  {
    CandidatesExact(layers, rok, miasta);
    var v, t :| v in miasta && t in v.teryty && n == LayerName(rok, t);
    forall y ensures n != MergedName(y) && n != NewName(y) {
      NamesDistinct(y, y, rok, t);
    }
  }

  // ------------------------------------------------------------------
  // the imperative loop
  // ------------------------------------------------------------------

  /** One iteration of the year loop against the store. */
  method ProcessYear(gdb: Geodatabase, poprzednie: Option<string>, rok: nat, miasta: Miasta, intersects: Intersection)
    returns (aktualne: Option<string>)
    requires Valid(Detector(gdb.layers, poprzednie))
    modifies gdb
    ensures Detector(gdb.layers, aktualne) == YearStep(Detector(old(gdb.layers), poprzednie), rok, miasta, intersects)
  {
    var miastaFc := CollectCandidates(gdb, rok, miasta);
    if miastaFc == [] {
      return None;
    }
    var cur: string;
    if |miastaFc| > 1 {
      cur := MergedName(rok);
      gdb.Merge(miastaFc, cur);
    } else {
      cur := miastaFc[0];
    }
    WybierzNoweBudynki(gdb, poprzednie, cur, NewName(rok), intersects);
    aktualne := Some(cur);
  }

  method ProcessYears(gdb: Geodatabase, poprzednie: Option<string>, years: seq<nat>, miasta: Miasta, intersects: Intersection)
    returns (last: Option<string>)
    requires Valid(Detector(gdb.layers, poprzednie))
    modifies gdb
    ensures Detector(gdb.layers, last) == DetectRun(Detector(old(gdb.layers), poprzednie), years, miasta, intersects)
  {
    ghost var goal := DetectRun(Detector(gdb.layers, poprzednie), years, miasta, intersects);
    last := poprzednie;
    for i := 0 to |years|
      invariant Valid(Detector(gdb.layers, last))
      invariant DetectRun(Detector(gdb.layers, last), years[i..], miasta, intersects) == goal
    {
      assert years[i..][1..] == years[i + 1..];
      last := ProcessYear(gdb, last, years[i], miasta, intersects);
    }
  }

  /** The analysis over LATA, starting without a previous snapshot; the
      result is the final value of `poprzednie_budynki`. */
  method Analiza(gdb: Geodatabase, miasta: Miasta, intersects: Intersection) returns (poprzednie: Option<string>)
    modifies gdb
    ensures Detector(gdb.layers, poprzednie) == DetectRun(Detector(old(gdb.layers), None), Lata, miasta, intersects)
  {
    poprzednie := ProcessYears(gdb, None, Lata, miasta, intersects);
  }

  // ------------------------------------------------------------------
  // properties across years
  // ------------------------------------------------------------------

  /** Two stores agree on every per-region layer bubd_<rok>_<teryt>. */
  ghost predicate SameRegions(a: Layers, b: Layers)
  {
    forall y, t :: (LayerName(y, t) in a <==> LayerName(y, t) in b)
                   && (LayerName(y, t) in a ==> a[LayerName(y, t)] == b[LayerName(y, t)])
  }

  /** The detector writes only bubd_miasta_* layers, so the per-region
      layers it reads stay as they are. */
  lemma YearStepKeepsRegions(d: Detector, rok: nat, miasta: Miasta, intersects: Intersection)
    requires Valid(d)
    ensures SameRegions(d.layers, YearStep(d, rok, miasta, intersects).layers)
  {
    YearStepLaw(d, rok, miasta, intersects);
    forall y, t ensures LayerName(y, t) != MergedName(rok) && LayerName(y, t) != NewName(rok) {
      NamesDistinct(rok, rok, y, t);
    }
  }

  lemma {:induction false} ExistingSameOn(a: Layers, b: Layers, names: seq<string>)
    requires forall n :: n in names ==> (n in a <==> n in b)
    ensures Existing(a, names) == Existing(b, names)
  {
    if names != [] {
      ExistingSameOn(a, b, names[..|names| - 1]);
    }
  }

  lemma {:induction false} ConcatSameOn(a: Layers, b: Layers, names: seq<string>)
    requires AllIn(a, names) && AllIn(b, names)
    requires forall n :: n in names ==> a[n] == b[n]
    ensures Concat(a, names) == Concat(b, names)
  {
    if names != [] {
      ConcatSameOn(a, b, names[..|names| - 1]);
    }
  }

  /** Stores that agree on the per-region layers have the same candidates
      and the same snapshot features in every year. */
  lemma SameRegionsSameYear(a: Layers, b: Layers, rok: nat, miasta: Miasta)
    requires SameRegions(a, b)
    ensures Candidates(a, rok, miasta) == Candidates(b, rok, miasta)
    ensures Candidates(a, rok, miasta) != [] ==> CurrentFeatures(a, rok, miasta) == CurrentFeatures(b, rok, miasta)
  {
    RegionNamesMembers(rok, miasta);
    forall n | n in RegionNames(rok, miasta) ensures (n in a <==> n in b) {
      var v, t :| v in miasta && t in v.teryty && n == LayerName(rok, t);
    }
    ExistingSameOn(a, b, RegionNames(rok, miasta));
    var c := Candidates(a, rok, miasta);
    forall n | n in c ensures n in a && n in b && a[n] == b[n] {
      CandidateIsRegion(a, rok, miasta, n);
      var t :| n == LayerName(rok, t);
    }
    if |c| > 1 {
      ConcatSameOn(a, b, c);
    }
  }

  /** Whether a year has any existing per-region layer. */
  predicate HasData(layers: Layers, rok: nat, miasta: Miasta)
  {
    Candidates(layers, rok, miasta) != []
  }

  /** Data in 2015 and 2016, none in 2017, data in 2018: starting without a
      snapshot, the run writes bubd_miasta_new_2016 (the 2016 buildings
      that intersect nothing from 2015), and leaves bubd_miasta_new_2017
      and bubd_miasta_new_2018 as they were, because 2017 reset the state. */
  lemma GapResets(layers: Layers, miasta: Miasta, intersects: Intersection)
    requires HasData(layers, 2015, miasta) && HasData(layers, 2016, miasta)
    requires !HasData(layers, 2017, miasta) && HasData(layers, 2018, miasta)
    ensures var e := DetectRun(Detector(layers, None), [2015, 2016, 2017, 2018], miasta, intersects);
      && NewName(2016) in e.layers
      && e.layers[NewName(2016)] == NotIntersecting(CurrentFeatures(layers, 2016, miasta),
                                                    CurrentFeatures(layers, 2015, miasta), intersects)
      && (NewName(2017) in e.layers <==> NewName(2017) in layers)
      && (NewName(2018) in e.layers <==> NewName(2018) in layers)
      && (NewName(2015) in e.layers <==> NewName(2015) in layers)
  {
    var d0 := Detector(layers, None);
    var d2 := YearStep(YearStep(d0, 2015, miasta, intersects), 2016, miasta, intersects);
    assert DetectRun(d0, [2015, 2016, 2017, 2018], miasta, intersects)
           == YearStep(YearStep(d2, 2017, miasta, intersects), 2018, miasta, intersects) by {
      assert [2015, 2016, 2017, 2018][1..] == [2016, 2017, 2018];
      assert [2016, 2017, 2018][1..] == [2017, 2018];
      assert [2017, 2018][1..] == [2018];
      assert [2018][1..] == [];
    }
    ConsecutiveYears(d0, 2015, 2016, miasta, intersects);
    SameRegionsSameYear(layers, d2.layers, 2017, miasta);
    SameRegionsSameYear(layers, d2.layers, 2018, miasta);
    GapYear(d2, 2017, 2018, miasta, intersects);
  }

  /** Two processed years in a row, both with data: the second writes its
      new buildings against the first's snapshot, the per-region layers
      stay, and no other year's bubd_miasta_new_ layer changes (nor the
      first's, when the run starts without a snapshot). */
  lemma ConsecutiveYears(d: Detector, r1: nat, r2: nat, miasta: Miasta, intersects: Intersection)
    requires Valid(d) && r1 != r2
    requires HasData(d.layers, r1, miasta) && HasData(d.layers, r2, miasta)
    ensures var e := YearStep(YearStep(d, r1, miasta, intersects), r2, miasta, intersects);
      && SameRegions(d.layers, e.layers)
      && NewName(r2) in e.layers
      && e.layers[NewName(r2)] == NotIntersecting(CurrentFeatures(d.layers, r2, miasta),
                                                  CurrentFeatures(d.layers, r1, miasta), intersects)
      && (forall y :: y != r1 && y != r2 ==> (NewName(y) in e.layers <==> NewName(y) in d.layers))
      && (d.prev.None? ==> (NewName(r1) in e.layers <==> NewName(r1) in d.layers))
  {
    var d1 := YearStep(d, r1, miasta, intersects);
    YearStepLaw(d, r1, miasta, intersects);
    YearStepKeepsRegions(d, r1, miasta, intersects);
    OtherYearsKept(d, r1, miasta, intersects);
    SameRegionsSameYear(d.layers, d1.layers, r2, miasta);
    PrevNotMerged(d.layers, r1, r2, miasta);
    YearStepLaw(d1, r2, miasta, intersects);
    YearStepKeepsRegions(d1, r2, miasta, intersects);
    OtherYearsKept(d1, r2, miasta, intersects);
  }

  /** A year without data followed by one with data: the state resets, so
      neither year writes a bubd_miasta_new_ layer and every earlier one
      stays as it was. */
  lemma GapYear(d: Detector, r1: nat, r2: nat, miasta: Miasta, intersects: Intersection)
    requires Valid(d) && r1 != r2
    requires !HasData(d.layers, r1, miasta) && HasData(d.layers, r2, miasta)
    ensures var e := YearStep(YearStep(d, r1, miasta, intersects), r2, miasta, intersects);
      && e.prev.Some?
      && forall y :: (NewName(y) in e.layers <==> NewName(y) in d.layers)
                     && (NewName(y) in d.layers ==> e.layers[NewName(y)] == d.layers[NewName(y)])
  {
    var d1 := YearStep(d, r1, miasta, intersects);
    YearStepLaw(d, r1, miasta, intersects);
    YearStepLaw(d1, r2, miasta, intersects);
    OtherYearsKept(d1, r2, miasta, intersects);
  }

  /** A year writes no other year's bubd_miasta_new_ layer. */
  lemma OtherYearsKept(d: Detector, rok: nat, miasta: Miasta, intersects: Intersection)
    requires Valid(d)
    ensures var r := YearStep(d, rok, miasta, intersects);
      forall y :: y != rok ==> (NewName(y) in r.layers <==> NewName(y) in d.layers)
                               && (NewName(y) in d.layers ==> r.layers[NewName(y)] == d.layers[NewName(y)])
  {
    YearStepLaw(d, rok, miasta, intersects);
    forall y | y != rok ensures NewName(y) != MergedName(rok) && NewName(y) != NewName(rok) {
      NamesDistinct(rok, y, 0, "");
      NamesDistinct(y, rok, 0, "");
    }
  }

  /** The snapshot a year leaves is never the next year's merge name. */
  lemma PrevNotMerged(layers: Layers, rok: nat, next: nat, miasta: Miasta)
    requires rok != next && Candidates(layers, rok, miasta) != []
    ensures SnapshotName(Candidates(layers, rok, miasta), rok) != MergedName(next)
  {
    var c := Candidates(layers, rok, miasta);
    if |c| > 1 {
      NamesDistinct(rok, next, 0, "");
    } else {
      CandidateIsRegion(layers, rok, miasta, c[0]);
    }
  }
}
