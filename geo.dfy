/** The file geodatabase as the scripts use it: named feature classes
    (layers), each an ordered sequence of features, reached through the five
    store capabilities the scripts call (Exists, GetCount, ExportFeatures,
    Merge, and a layer selection by location copied out with CopyFeatures).
    Geometry is abstract: the spatial intersection test is a parameter. */
module Geo {

  import opened Wrappers

  /** A building footprint; its identity is all the pipeline relies on. */
  datatype Feature = Feature(id: nat)

  /** The store: layer name to its features. A layer's count is its length. */
  type Layers = map<string, seq<Feature>>

  /** The store's INTERSECT predicate between two geometries. */
  type Intersection = (Feature, Feature) -> bool

  predicate IntersectsAny(f: Feature, other: seq<Feature>, intersects: Intersection)
  {
    exists g :: g in other && intersects(f, g)
  }

  /** The features of `current` that intersect no feature of `previous`, in
      their order in `current`: SelectLayerByLocation with INTERSECT and
      INVERT as a NEW_SELECTION, followed by CopyFeatures. */
  function NotIntersecting(current: seq<Feature>, previous: seq<Feature>, intersects: Intersection): (r: seq<Feature>)
    ensures |r| <= |current|
  {
    if current == [] then []
    else
      var rest := NotIntersecting(current[1..], previous, intersects);
      if IntersectsAny(current[0], previous, intersects) then rest else [current[0]] + rest
  }

  /** The selection keeps exactly the non-intersecting features of `current`,
      each as often as it occurs there, and nothing else: it is a sub-multiset
      of `current`, and every feature it holds intersects nothing in `previous`. */
  lemma {:induction false} NotIntersectingExact(current: seq<Feature>, previous: seq<Feature>, intersects: Intersection)
    ensures forall f :: multiset(NotIntersecting(current, previous, intersects))[f]
                        == if IntersectsAny(f, previous, intersects) then 0 else multiset(current)[f]
    ensures multiset(NotIntersecting(current, previous, intersects)) <= multiset(current)
    ensures forall f :: f in NotIntersecting(current, previous, intersects)
                        <==> f in current && !IntersectsAny(f, previous, intersects)
  {
    var r := NotIntersecting(current, previous, intersects);
    if current != [] {
      var rest := NotIntersecting(current[1..], previous, intersects);
      NotIntersectingExact(current[1..], previous, intersects);
      assert current == [current[0]] + current[1..];
      assert multiset(current) == multiset{current[0]} + multiset(current[1..]);
      if IntersectsAny(current[0], previous, intersects) {
        assert r == rest;
      } else {
        assert multiset(r) == multiset{current[0]} + multiset(rest);
      }
    }
    forall f ensures f in r <==> f in current && !IntersectsAny(f, previous, intersects) {
      assert f in r <==> multiset(r)[f] > 0;
      assert f in current <==> multiset(current)[f] > 0;
    }
  }

  /** Every name in `names` is a layer of the store. */
  predicate AllIn(layers: Layers, names: seq<string>)
  {
    forall n :: n in names ==> n in layers
  }

  /** The features of the named layers, one layer after another: what Merge writes. */
  function Concat(layers: Layers, names: seq<string>): seq<Feature>
    requires AllIn(layers, names)
  {
    if names == [] then [] else Concat(layers, names[..|names| - 1]) + layers[names[|names| - 1]]
  }

  /** The sum of the named layers' counts. */
  function TotalCount(layers: Layers, names: seq<string>): nat
    requires AllIn(layers, names)
  {
    if names == [] then 0 else TotalCount(layers, names[..|names| - 1]) + |layers[names[|names| - 1]]|
  }

  /** Merging is additive: the merged layer's count is the sum of the input
      counts (no deduplication), and it holds exactly the inputs' features. */
  lemma {:induction false} ConcatCount(layers: Layers, names: seq<string>)
    requires AllIn(layers, names)
    ensures |Concat(layers, names)| == TotalCount(layers, names)
    ensures forall f :: f in Concat(layers, names) <==> exists n :: n in names && f in layers[n]
  {
    if names != [] {
      var init, last := names[..|names| - 1], names[|names| - 1];
      assert AllIn(layers, init) by {
        forall n | n in init ensures n in layers { assert n in names; }
      }
      ConcatCount(layers, init);
      forall f ensures f in Concat(layers, names) <==> exists n :: n in names && f in layers[n] {
        if f in Concat(layers, names) {
          if f in Concat(layers, init) {
            var n :| n in init && f in layers[n];
            assert n in names;
          } else {
            assert f in layers[last];
          }
        }
        if exists n :: n in names && f in layers[n] {
          var n :| n in names && f in layers[n];
          if n != last {
            var i :| 0 <= i < |names| && names[i] == n;
            assert i < |names| - 1;
            assert init[i] == n;
          }
        }
      }
    }
  }

  /** The names of `names` that exist in the store, in their original order. */
  function Existing(layers: Layers, names: seq<string>): (r: seq<string>)
    ensures |r| <= |names|
    ensures AllIn(layers, r)
  {
    if names == [] then []
    else
      var last := names[|names| - 1];
      Existing(layers, names[..|names| - 1]) + (if last in layers then [last] else [])
  }

  /** The existing names are exactly those of `names` that are layers. */
  lemma {:induction false} ExistingMembers(layers: Layers, names: seq<string>)
    ensures forall n :: n in Existing(layers, names) <==> n in names && n in layers
  {
    if names != [] {
      var init, last := names[..|names| - 1], names[|names| - 1];
      ExistingMembers(layers, init);
      assert names == init + [last];
    }
  }

  /** Filtering distributes over concatenation, so order is kept. */
  lemma {:induction false} ExistingAppend(layers: Layers, a: seq<string>, b: seq<string>)
    ensures Existing(layers, a + b) == Existing(layers, a) + Existing(layers, b)
    decreases |b|
  {
    if b == [] {
      assert a + b == a;
    } else {
      var init, last := b[..|b| - 1], b[|b| - 1];
      assert (a + b)[..|a + b| - 1] == a + init;
      ExistingAppend(layers, a, init);
    }
  }

  /** The persistent store, changed in place by the scripts. Every output
      overwrites a layer of the same name (arcpy.env.overwriteOutput). */
  class Geodatabase {
    var layers: Layers

    constructor (initial: Layers)
      ensures layers == initial
    {
      layers := initial;
    }

    /** arcpy.Exists(name). */
    method Exists(name: string) returns (b: bool)
      ensures b <==> name in layers
    {
      b := name in layers;
    }

    /** arcpy.management.GetCount(name). */
    method GetCount(name: string) returns (n: nat)
      requires name in layers
      ensures n == |layers[name]|
    {
      n := |layers[name]|;
    }

    /** arcpy.conversion.ExportFeatures(source, name): `read` is what reading
        the source yields, None when the conversion raises. */
    method ExportFeatures(read: Option<seq<Feature>>, name: string) returns (ok: bool)
      modifies this
      ensures ok <==> read.Some?
      ensures layers == if read.Some? then old(layers)[name := read.value] else old(layers)
    {
      ok := read.Some?;
      if ok {
        layers := layers[name := read.value];
      }
    }

    /** arcpy.management.Merge(inputs, output). */
    method Merge(inputs: seq<string>, output: string)
      requires AllIn(layers, inputs)
      modifies this
      ensures layers == old(layers)[output := Concat(old(layers), inputs)]
    {
      layers := layers[output := Concat(layers, inputs)];
    }

    /** MakeFeatureLayer(source), SelectLayerByLocation(INTERSECT, other,
        NEW_SELECTION, INVERT), CopyFeatures(selection, output). */
    method CopyNotIntersecting(source: string, other: string, output: string, intersects: Intersection)
      requires source in layers && other in layers
      modifies this
      ensures layers == old(layers)[output := NotIntersecting(old(layers)[source], old(layers)[other], intersects)]
    {
      layers := layers[output := NotIntersecting(layers[source], layers[other], intersects)];
    }
  }
}
