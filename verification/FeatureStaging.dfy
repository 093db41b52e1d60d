/** A vector tool's features: buffered in batches into a staging dataset, then handed over to the
    output dataset before the staging node is deleted with everything still attached to it. */
module FeatureStaging {
  import opened Wrappers

  type DatasetId = nat
  type Geometry = string
  type Properties = string

  const BATCH_SIZE := 500

  datatype Feature = Feature(dataset: DatasetId, geometry: Geometry, properties: Properties)

  /** The features of one dataset, in table order. */
  function FeaturesOf(table: seq<Feature>, d: DatasetId): seq<Feature> {
    if table == [] then []
    else FeaturesOf(table[..|table| - 1], d)
         + var last := table[|table| - 1]; if last.dataset == d then [last] else []
  }

  lemma {:induction false} FeaturesOfAppend(a: seq<Feature>, b: seq<Feature>, d: DatasetId)
    ensures FeaturesOf(a + b, d) == FeaturesOf(a, d) + FeaturesOf(b, d)
  {
    if b == [] {
      assert a + b == a;
    } else {
      assert (a + b)[..|a + b| - 1] == a + b[..|b| - 1];
      FeaturesOfAppend(a, b[..|b| - 1], d);
    }
  }

  /** Those are the features that belong to it, each once, in the order of the table. */
  lemma {:induction false} FeaturesInTableOrder(table: seq<Feature>, d: DatasetId) returns (at: seq<nat>)
    ensures |at| == |FeaturesOf(table, d)| && forall i, j :: 0 <= i < j < |at| ==> at[i] < at[j]
    ensures forall k :: 0 <= k < |at| ==> at[k] < |table| && FeaturesOf(table, d)[k] == table[at[k]]
    ensures forall i :: 0 <= i < |table| ==> (table[i].dataset == d <==> i in at)
  {
    if table == [] {
      at := [];
    } else {
      var k := |table| - 1;
      at := FeaturesInTableOrder(table[..k], d);
      if table[k].dataset == d {
        at := at + [k];
      }
    }
  }

  /** The image of each feature: its geometry buffered, its properties kept. */
  function Buffered(features: seq<Feature>, buffer: Geometry -> Geometry, target: DatasetId): seq<Feature> {
    seq(|features|, i requires 0 <= i < |features| =>
      Feature(target, buffer(features[i].geometry), features[i].properties))
  }

  lemma {:induction false} AllOfOne(features: seq<Feature>, d: DatasetId)
    requires forall i :: 0 <= i < |features| ==> features[i].dataset == d
    ensures FeaturesOf(features, d) == features
    ensures forall e :: e != d ==> FeaturesOf(features, e) == []
  {
    if features != [] {
      var init, last := features[..|features| - 1], features[|features| - 1];
      AllOfOne(init, d);
      assert features == init + [last];
    }
  }

  function Repointed(table: seq<Feature>, from: DatasetId, to: DatasetId): seq<Feature> {
    seq(|table|, i requires 0 <= i < |table| =>
      if table[i].dataset == from then table[i].(dataset := to) else table[i])
  }

  lemma RepointedAppend(features: seq<Feature>, last: Feature, from: DatasetId, to: DatasetId)
    ensures Repointed(features + [last], from, to) == Repointed(features, from, to) + Repointed([last], from, to)
  {
  }

  /** Re-pointing moves all of a dataset's features, in order, and touches no other dataset. */
  lemma {:induction false} RepointMoves(table: seq<Feature>, from: DatasetId, to: DatasetId)
    requires from != to && FeaturesOf(table, to) == []
    ensures FeaturesOf(Repointed(table, from, to), from) == []
    ensures FeaturesOf(Repointed(table, from, to), to) == Repointed(FeaturesOf(table, from), from, to)
    ensures forall e :: e != from && e != to ==>
              FeaturesOf(Repointed(table, from, to), e) == FeaturesOf(table, e)
  {
    if table != [] {
      var init, last := table[..|table| - 1], table[|table| - 1];
      RepointMoves(init, from, to);
      var moved := Repointed(table, from, to);
      assert moved[..|table| - 1] == Repointed(init, from, to);
      if last.dataset == from {
        RepointedAppend(FeaturesOf(init, from), last, from, to);
      }
    }
  }

  function Without(table: seq<Feature>, d: DatasetId): seq<Feature> {
    if table == [] then []
    else Without(table[..|table| - 1], d)
         + var last := table[|table| - 1]; if last.dataset == d then [] else [last]
  }

  lemma {:induction false} WithoutKeepsOthers(table: seq<Feature>, d: DatasetId)
    ensures FeaturesOf(Without(table, d), d) == []
    ensures forall e :: e != d ==> FeaturesOf(Without(table, d), e) == FeaturesOf(table, e)
    ensures |Without(table, d)| + |FeaturesOf(table, d)| == |table|
  {
    if table != [] {
      var init, last := table[..|table| - 1], table[|table| - 1];
      WithoutKeepsOthers(init, d);
      if last.dataset != d {
        assert (Without(init, d) + [last])[..|Without(init, d)|] == Without(init, d);
      } else {
        assert Without(table, d) == Without(init, d);
      }
    }
  }

  lemma {:induction false} NoneOf(table: seq<Feature>, d: DatasetId)
    requires forall i :: 0 <= i < |table| ==> table[i].dataset != d
    ensures FeaturesOf(table, d) == []
  {
    if table != [] {
      NoneOf(table[..|table| - 1], d);
    }
  }

  lemma {:induction false} WithoutMembers(table: seq<Feature>, d: DatasetId)
    ensures forall f :: f in Without(table, d) ==> f in table && f.dataset != d
  {
    if table != [] {
      WithoutMembers(table[..|table| - 1], d);
    }
  }

  lemma FlushedMore(table: seq<Feature>, images: seq<Feature>, flushed: nat, upTo: nat)
    requires flushed <= upTo <= |images|
    ensures table + images[..flushed] + images[flushed..upTo] == table + images[..upTo]
  {
  }

  lemma StagedOnly(table: seq<Feature>, images: seq<Feature>, staging: DatasetId)
    requires FeaturesOf(table, staging) == []
    requires forall i :: 0 <= i < |images| ==> images[i].dataset == staging
    ensures FeaturesOf(table + images, staging) == images
    ensures forall e :: e != staging ==> FeaturesOf(table + images, e) == FeaturesOf(table, e)
  {
    AllOfOne(images, staging);
    FeaturesOfAppend(table, images, staging);
    forall e | e != staging
      ensures FeaturesOf(table + images, e) == FeaturesOf(table, e)
    {
      FeaturesOfAppend(table, images, e);
    }
  }

  lemma ImagesMove(rows: seq<Feature>, buffer: Geometry -> Geometry, staging: DatasetId, output: DatasetId)
    ensures Repointed(Buffered(rows, buffer, staging), staging, output) == Buffered(rows, buffer, output)
  {
  }

  class Store {
    var features: seq<Feature>
    /** Existing datasets; a feature belongs to one of them. */
    var datasets: set<DatasetId>

    ghost predicate Valid()
      reads this
    {
      forall i :: 0 <= i < |features| ==> features[i].dataset in datasets
    }

    constructor ()
      ensures features == [] && datasets == {} && Valid()
    {
      features, datasets := [], {};
    }

    lemma FreshIsEmpty(d: DatasetId)
      requires Valid() && d !in datasets
      ensures FeaturesOf(features, d) == []
    {
      NoneOf(features, d);
    }

    method CreateDataset(d: DatasetId)
      requires Valid() && d !in datasets
      modifies this`datasets
      ensures Valid() && datasets == old(datasets) + {d}
    {
      datasets := datasets + {d};
    }

    method BulkCreate(batch: seq<Feature>)
      requires Valid() && forall i :: 0 <= i < |batch| ==> batch[i].dataset in datasets
      modifies this`features
      ensures Valid() && features == old(features) + batch
    {
      features := features + batch;
    }

    /** Deleting a dataset cascades to its features. */
    method DeleteDataset(d: DatasetId)
      requires Valid()
      modifies this
      ensures Valid() && datasets == old(datasets) - {d}
      ensures features == Without(old(features), d)
    {
      WithoutMembers(features, d);
      features := Without(features, d);
      datasets := datasets - {d};
    }

    /** The buffer tool: stages exactly one image of each input feature, in order, flushing a batch
        whenever it reaches 500. */
    method Buffer(input: DatasetId, staging: DatasetId, buffer: Geometry -> Geometry) returns (count: nat)
      requires Valid() && input in datasets && staging !in datasets
      modifies this
      ensures Valid() && datasets == old(datasets) + {staging}
      ensures features == old(features) + Buffered(FeaturesOf(old(features), input), buffer, staging)
      ensures count == |FeaturesOf(old(features), input)|
    {
      CreateDataset(staging);
      var rows := FeaturesOf(features, input);
      count := |rows|;
      ghost var images := Buffered(rows, buffer, staging);
      if count == 0 {
        assert features + images == features;
        return;
      }
      var batch: seq<Feature> := [];
      ghost var flushed: nat := 0;
      for i := 0 to |rows|
        invariant Valid() && datasets == old(datasets) + {staging}
        invariant flushed <= i && features == old(features) + images[..flushed] && batch == images[flushed..i]
        invariant |batch| < BATCH_SIZE
      {
        batch := batch + [Feature(staging, buffer(rows[i].geometry), rows[i].properties)];
        assert batch == images[flushed..i + 1];
        if |batch| >= BATCH_SIZE {
          BulkCreate(batch);
          FlushedMore(old(features), images, flushed, i + 1);
          flushed := i + 1;
          batch := [];
        }
      }
      if batch != [] {
        BulkCreate(batch);
        FlushedMore(old(features), images, flushed, |rows|);
      }
      assert images[..|rows|] == images;
    }

    /** The hand-off: every staged feature belongs to the output dataset when the staging dataset goes,
        so the cascade deletes none of them, and no other dataset's features change. Without a staging
        dataset, or with one that is gone, nothing moves. */
    method HandOff(pending: Option<DatasetId>, output: DatasetId)
      requires Valid() && output !in datasets && pending != Some(output)
      modifies this
      ensures Valid()
      ensures datasets == old(datasets) + {output} - if pending.Some? then {pending.value} else {}
      ensures FeaturesOf(features, output) ==
              if pending.Some? then Repointed(FeaturesOf(old(features), pending.value), pending.value, output) else []
      ensures forall e :: e != output && pending != Some(e) ==> FeaturesOf(features, e) == FeaturesOf(old(features), e)
      ensures |features| == |old(features)|
    {
      FreshIsEmpty(output);
      CreateDataset(output);
      if pending.Some? {
        var staging := pending.value;
        RepointMoves(features, staging, output);
        features := Repointed(features, staging, output);
        if staging in datasets {
          WithoutKeepsOthers(features, staging);
          DeleteDataset(staging);
        }
      }
    }

    /** The whole tool: the output dataset ends with one image of each input feature, in order. */
    method BufferWorkflow(input: DatasetId, staging: DatasetId, output: DatasetId, buffer: Geometry -> Geometry)
        returns (count: nat)
      requires Valid() && input in datasets && staging !in datasets && output !in datasets && staging != output
      modifies this
      ensures Valid() && datasets == old(datasets) + {output}
      ensures FeaturesOf(features, output) == Buffered(FeaturesOf(old(features), input), buffer, output)
      ensures var rows, images := FeaturesOf(old(features), input), FeaturesOf(features, output);
              |images| == |rows| && forall i :: 0 <= i < |rows| ==>
                images[i].geometry == buffer(rows[i].geometry) && images[i].properties == rows[i].properties
      ensures forall e :: e in old(datasets) ==> FeaturesOf(features, e) == FeaturesOf(old(features), e)
      ensures |features| == |old(features)| + count && count == |FeaturesOf(features, output)|
    {
      ghost var rows := FeaturesOf(features, input);
      ghost var images := Buffered(rows, buffer, staging);
      FreshIsEmpty(staging);
      count := Buffer(input, staging, buffer);
      StagedOnly(old(features), images, staging);
      HandOff(Some(staging), output);
      ImagesMove(rows, buffer, staging, output);
    }
  }
}
