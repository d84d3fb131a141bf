/** wykres.py, the aggregation only: for every configured city, the sum of
    the feature counts of its bubd_<rok>_<teryt> layers over the years,
    where a year without a layer adds nothing; the totals are kept per city
    name. The store is only read. */
module Wykres {

  import opened Geo
  import opened Bdot

  /** One entry of a voivodeship's inner table: county code and city name. */
  datatype City = City(teryt: string, nazwa: string)

  /** One entry of wykres.py's MIASTA: a voivodeship code and its cities,
      in table order. */
  datatype Voivodeship = Voivodeship(woj: string, miasta: seq<City>)

  type Config = seq<Voivodeship>

  /** `total` after the year loop: the counts of the existing layers of
      one county over `years`. */
  function CityTotal(layers: Layers, teryt: string, years: seq<nat>): nat
  {
    if years == [] then 0
    else
      var fcName := LayerName(years[|years| - 1], teryt);
      CityTotal(layers, teryt, years[..|years| - 1]) + (if fcName in layers then |layers[fcName]| else 0)
  }

  /** The dictionary after the cities of `cities` are entered in order on
      top of `m`; a repeated name keeps the later total. */
  function EnterCities(m: map<string, nat>, layers: Layers, cities: seq<City>, years: seq<nat>): map<string, nat>
  {
    if cities == [] then m
    else
      var last := cities[|cities| - 1];
      EnterCities(m, layers, cities[..|cities| - 1], years)[last.nazwa := CityTotal(layers, last.teryt, years)]
  }

  /** `liczba_budynkow_miast` after the voivodeships of `config`, in order. */
  function Counts(layers: Layers, config: Config, years: seq<nat>): map<string, nat>
  {
    if config == [] then map[]
    else EnterCities(Counts(layers, config[..|config| - 1], years), layers, config[|config| - 1].miasta, years)
  }

  /** The aggregation loop over LATA. It has no `modifies` clause: it cannot
      change the store. */
  method LiczbaBudynkowMiast(gdb: Geodatabase, config: Config) returns (liczba: map<string, nat>)
    ensures liczba == Counts(gdb.layers, config, Lata)
  {
    liczba := CountYears(gdb, config, Lata);
  }

  method CountYears(gdb: Geodatabase, config: Config, years: seq<nat>) returns (liczba: map<string, nat>)
    ensures liczba == Counts(gdb.layers, config, years)
  {
    liczba := map[];
    for v := 0 to |config|
      invariant liczba == Counts(gdb.layers, config[..v], years)
    {
      var cities := config[v].miasta;
      ghost var before := liczba;
      for k := 0 to |cities|
        invariant liczba == EnterCities(before, gdb.layers, cities[..k], years)
      {
        var teryt, nazwa := cities[k].teryt, cities[k].nazwa;
        var total := 0;
        for i := 0 to |years|
          invariant total == CityTotal(gdb.layers, teryt, years[..i])
        {
          assert years[..i + 1][..i] == years[..i];
          var fcName := LayerName(years[i], teryt);
          var present := gdb.Exists(fcName);
          if present {
            var count := gdb.GetCount(fcName);
            total := total + count;
          }
        }
        assert years[..|years|] == years;
        assert cities[..k + 1][..k] == cities[..k];
        liczba := liczba[nazwa := total];
      }
      assert cities[..|cities|] == cities;
      assert config[..v + 1][..v] == config[..v];
    }
    assert config[..|config|] == config;
  }

  /** The layer names bubd_<rok>_<teryt> of one county over `years`. */
  function YearNames(teryt: string, years: seq<nat>): seq<string>
  {
    if years == [] then [] else YearNames(teryt, years[..|years| - 1]) + [LayerName(years[|years| - 1], teryt)]
  }

  /** A city's total is the sum of the counts of exactly those of its
      yearly layers that exist: an absent layer contributes 0. */
  lemma {:induction false} CityTotalIsSum(layers: Layers, teryt: string, years: seq<nat>)
    ensures CityTotal(layers, teryt, years) == TotalCount(layers, Existing(layers, YearNames(teryt, years)))
  {
    if years != [] {
      var init, last := years[..|years| - 1], years[|years| - 1];
      CityTotalIsSum(layers, teryt, init);
      var names := YearNames(teryt, years);
      assert names[..|names| - 1] == YearNames(teryt, init);
      var e := Existing(layers, YearNames(teryt, init));
      var x := LayerName(last, teryt);
      assert names == YearNames(teryt, init) + [x];
      if x in layers {
        assert Existing(layers, names) == e + [x];
        assert (e + [x])[..|e|] == e;
        assert TotalCount(layers, e + [x]) == TotalCount(layers, e) + |layers[x]|;
      } else {
        assert Existing(layers, names) == e;
      }
    }
  }

  /** A total is at least the count of every layer that contributes to it. */
  lemma {:induction false} CityTotalBound(layers: Layers, teryt: string, years: seq<nat>, y: nat)
    requires y in years && LayerName(y, teryt) in layers
    ensures |layers[LayerName(y, teryt)]| <= CityTotal(layers, teryt, years)
  {
    var init, last := years[..|years| - 1], years[|years| - 1];
    if y != last {
      assert years == init + [last];
      assert y in init;
      CityTotalBound(layers, teryt, init, y);
    }
  }

  /** The names entered by one voivodeship, and each value among them is
      the total of a city of that name. */
  lemma {:induction false} EnterCitiesEntries(m: map<string, nat>, layers: Layers, cities: seq<City>, years: seq<nat>)
    ensures var r := EnterCities(m, layers, cities, years);
      && r.Keys == m.Keys + (set c | c in cities :: c.nazwa)
      && (forall n :: n in r && n !in m.Keys ==> exists c :: c in cities && c.nazwa == n && r[n] == CityTotal(layers, c.teryt, years))
      && (forall n :: n in r ==> (n in m && r[n] == m[n]) || exists c :: c in cities && c.nazwa == n && r[n] == CityTotal(layers, c.teryt, years))
  {
    if cities != [] {
      var init, last := cities[..|cities| - 1], cities[|cities| - 1];
      EnterCitiesEntries(m, layers, init, years);
      assert cities == init + [last];
      var r := EnterCities(m, layers, cities, years);
      forall n | n in r ensures (n in m && r[n] == m[n]) || exists c :: c in cities && c.nazwa == n && r[n] == CityTotal(layers, c.teryt, years) {
        if n != last.nazwa {
          var p := EnterCities(m, layers, init, years);
          if !(n in m && p[n] == m[n]) {
            var c :| c in init && c.nazwa == n && p[n] == CityTotal(layers, c.teryt, years);
            assert c in cities;
          }
        }
      }
      forall n | n in r && n !in m.Keys ensures exists c :: c in cities && c.nazwa == n && r[n] == CityTotal(layers, c.teryt, years) {
        if n != last.nazwa {
          var p := EnterCities(m, layers, init, years);
          var c :| c in init && c.nazwa == n && p[n] == CityTotal(layers, c.teryt, years);
          assert c in cities;
        }
      }
    }
  }

  /** The names of every configured city. */
  function CityNames(config: Config): set<string>
  {
    set v, c | v in config && c in v.miasta :: c.nazwa
  }

  /** Every configured city receives an entry, even with a total of 0, and
      nothing else does. */
  lemma {:induction false} CountsKeys(layers: Layers, config: Config, years: seq<nat>)
    ensures Counts(layers, config, years).Keys == CityNames(config)
  {
    if config != [] {
      var init, last := config[..|config| - 1], config[|config| - 1];
      CountsKeys(layers, init, years);
      EnterCitiesEntries(Counts(layers, init, years), layers, last.miasta, years);
      CityNamesSnoc(config);
    }
  }

  /** `total` is the total of some city of `config` named `n`. */
  ghost predicate TotalOfCity(layers: Layers, config: Config, years: seq<nat>, n: string, total: nat)
  {
    exists v, c :: v in config && c in v.miasta && c.nazwa == n && total == CityTotal(layers, c.teryt, years)
  }

  /** Each entry holds the total of a configured city of that name. */
  lemma {:induction false} CountsValues(layers: Layers, config: Config, years: seq<nat>)
    ensures forall n :: n in Counts(layers, config, years) ==> TotalOfCity(layers, config, years, n, Counts(layers, config, years)[n])
  {
    if config != [] {
      var init, last := config[..|config| - 1], config[|config| - 1];
      var p := Counts(layers, init, years);
      CountsValues(layers, init, years);
      EnterCitiesEntries(p, layers, last.miasta, years);
      var m := Counts(layers, config, years);
      assert last in config;
      forall n | n in m ensures TotalOfCity(layers, config, years, n, m[n]) {
        if n in p && m[n] == p[n] {
          assert TotalOfCity(layers, init, years, n, p[n]);
          var v, c :| v in init && c in v.miasta && c.nazwa == n && p[n] == CityTotal(layers, c.teryt, years);
          assert v in config;
        } else {
          var c :| c in last.miasta && c.nazwa == n && m[n] == CityTotal(layers, c.teryt, years);
        }
      }
    }
  }

  /** The names of the configured cities split as the names up to the last
      voivodeship and the names of its own cities. */
  lemma CityNamesSnoc(config: Config)
    requires config != []
    ensures CityNames(config) == CityNames(config[..|config| - 1]) + (set c | c in config[|config| - 1].miasta :: c.nazwa)
  {
    var init, last := config[..|config| - 1], config[|config| - 1];
    assert config == init + [last];
    forall n | n in CityNames(config)
      ensures n in CityNames(init) + (set c | c in last.miasta :: c.nazwa)
    {
      var v, c :| v in config && c in v.miasta && c.nazwa == n;
      if v != last {
        assert v in init;
      }
    }
  }
}
