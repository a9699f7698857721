/**
 * `flatten_model_data` of api/test/healthcheck_models.py: every
 * (repo, filename) pair of the model catalogue, family by family, model
 * by model, file by file.
 */
module HealthcheckModels {

  datatype File = File(filename: string)
  datatype Model = Model(repo: string, files: seq<File>)
  datatype Family = Family(models: seq<Model>)

  /** The innermost loop: one pair per file of `m`. */
  function FilePairs(m: Model): (r: seq<(string, string)>)
    ensures |r| == |m.files|
    ensures forall k :: 0 <= k < |r| ==> r[k] == (m.repo, m.files[k].filename)
  {
    seq(|m.files|, k requires 0 <= k < |m.files| => (m.repo, m.files[k].filename))
  }

  /** The middle loop: the pairs of each model in turn. */
  function ModelPairs(ms: seq<Model>): seq<(string, string)> {
    if ms == [] then [] else FilePairs(ms[0]) + ModelPairs(ms[1..])
  }

  /** `flatten_model_data(families)`, its yields collected in order. */
  function FlattenModelData(families: seq<Family>): seq<(string, string)> {
    if families == [] then [] else ModelPairs(families[0].models) + FlattenModelData(families[1..])
  }

  /** The number of files of all models of `ms`. */
  function ModelFiles(ms: seq<Model>): nat {
    if ms == [] then 0 else |ms[0].files| + ModelFiles(ms[1..])
  }

  /** The number of files of all models of all families. */
  function TotalFiles(families: seq<Family>): nat {
    if families == [] then 0 else ModelFiles(families[0].models) + TotalFiles(families[1..])
  }

  lemma {:induction false} ModelPairsCount(ms: seq<Model>)
    ensures |ModelPairs(ms)| == ModelFiles(ms)
  {
    if ms != [] {
      ModelPairsCount(ms[1..]);
    }
  }

  /** One pair per file, across all models of all families. */
  lemma {:induction false} FlattenCount(families: seq<Family>)
    ensures |FlattenModelData(families)| == TotalFiles(families)
  {
    if families != [] {
      ModelPairsCount(families[0].models);
      FlattenCount(families[1..]);
    }
  }

  lemma {:induction false} ModelPairsAppend(a: seq<Model>, b: seq<Model>)
    ensures ModelPairs(a + b) == ModelPairs(a) + ModelPairs(b)
  {
    if a == [] {
      assert a + b == b;
    } else {
      assert (a + b)[1..] == a[1..] + b;
      ModelPairsAppend(a[1..], b);
    }
  }

  /** Flattening a concatenation concatenates the flattenings. */
  lemma {:induction false} FlattenAppend(a: seq<Family>, b: seq<Family>)
    ensures FlattenModelData(a + b) == FlattenModelData(a) + FlattenModelData(b)
  {
    if a == [] {
      assert a + b == b;
    } else {
      assert (a + b)[1..] == a[1..] + b;
      FlattenAppend(a[1..], b);
    }
  }

  /** A family without models contributes nothing. */
  lemma EmptyFamily(a: seq<Family>, b: seq<Family>)
    ensures FlattenModelData(a + [Family([])] + b) == FlattenModelData(a + b)
  {
    FlattenAppend(a + [Family([])], b);
    FlattenAppend(a, [Family([])]);
    FlattenAppend(a, b);
    assert FlattenModelData([Family([])]) == [];
  }

  /** A model without files contributes nothing. */
  lemma EmptyModel(ms: seq<Model>, ns: seq<Model>, repo: string)
    ensures ModelPairs(ms + [Model(repo, [])] + ns) == ModelPairs(ms + ns)
  {
    ModelPairsAppend(ms + [Model(repo, [])], ns);
    ModelPairsAppend(ms, [Model(repo, [])]);
    ModelPairsAppend(ms, ns);
    assert ModelPairs([Model(repo, [])]) == [];
  }

  /** Where the pair of file `k` of model `j` of family `i` stands in the output. */
  function Position(families: seq<Family>, i: nat, j: nat, k: nat): nat
    requires i < |families|
    requires j <= |families[i].models|
  {
    |FlattenModelData(families[..i])| + |ModelPairs(families[i].models[..j])| + k
  }

  /**
   * The pair of file `k` of model `j` of family `i` is its model's repo and
   * its file's name, at its place in family, model, file order.
   */
  lemma FlattenAt(families: seq<Family>, i: nat, j: nat, k: nat)
    requires i < |families| && j < |families[i].models| && k < |families[i].models[j].files|
    ensures var m := families[i].models[j];
            Position(families, i, j, k) < |FlattenModelData(families)| &&
            FlattenModelData(families)[Position(families, i, j, k)] == (m.repo, m.files[k].filename)
  {
    var f := families[i];
    var ms := f.models;
    assert families == families[..i] + families[i..];
    FlattenAppend(families[..i], families[i..]);
    assert ms == ms[..j] + ms[j..];
    ModelPairsAppend(ms[..j], ms[j..]);
    assert FlattenModelData(families[i..]) == ModelPairs(ms) + FlattenModelData(families[i + 1..]);
    assert ModelPairs(ms[j..]) == FilePairs(ms[j]) + ModelPairs(ms[j + 1..]);
  }

  /** A later family, a later model of the same family, or a later file of the same model comes later. */
  lemma PositionOrder(families: seq<Family>, i: nat, j: nat, k: nat, i': nat, j': nat, k': nat)
    requires i < |families| && j < |families[i].models| && k < |families[i].models[j].files|
    requires i' < |families| && j' < |families[i'].models| && k' < |families[i'].models[j'].files|
    requires i < i' || (i == i' && j < j') || (i == i' && j == j' && k < k')
    ensures Position(families, i, j, k) < Position(families, i', j', k')
  {
    var ms := families[i].models;
    if i < i' {
      assert families[..i'] == families[..i] + families[i..i'];
      FlattenAppend(families[..i], families[i..i']);
      assert FlattenModelData(families[i..i']) == ModelPairs(ms) + FlattenModelData(families[i + 1..i']);
      assert ms == ms[..j] + ms[j..];
      ModelPairsAppend(ms[..j], ms[j..]);
      assert ModelPairs(ms[j..]) == FilePairs(ms[j]) + ModelPairs(ms[j + 1..]);
    } else if j < j' {
      assert ms[..j'] == ms[..j] + ms[j..j'];
      ModelPairsAppend(ms[..j], ms[j..j']);
      assert ModelPairs(ms[j..j']) == FilePairs(ms[j]) + ModelPairs(ms[j + 1..j']);
    }
  }

  /** Every output pair comes from some file of some model of some family. */
  lemma {:induction false} FlattenFrom(families: seq<Family>, p: (string, string))
    requires p in FlattenModelData(families)
    ensures exists i, j, k :: 0 <= i < |families| && 0 <= j < |families[i].models| &&
              0 <= k < |families[i].models[j].files| &&
              p == (families[i].models[j].repo, families[i].models[j].files[k].filename)
  {
    var rest := FlattenModelData(families[1..]);
    if p in ModelPairs(families[0].models) {
      var j, k := ModelPairsFrom(families[0].models, p);
      assert p == (families[0].models[j].repo, families[0].models[j].files[k].filename);
    } else {
      assert p in rest;
      FlattenFrom(families[1..], p);
      var i, j, k :| 0 <= i < |families[1..]| && 0 <= j < |families[1..][i].models| &&
              0 <= k < |families[1..][i].models[j].files| &&
              p == (families[1..][i].models[j].repo, families[1..][i].models[j].files[k].filename);
      assert families[1..][i] == families[i + 1];
    }
  }

  lemma {:induction false} ModelPairsFrom(ms: seq<Model>, p: (string, string)) returns (j: nat, k: nat)
    requires p in ModelPairs(ms)
    ensures j < |ms| && k < |ms[j].files| && p == (ms[j].repo, ms[j].files[k].filename)
  {
    if p in FilePairs(ms[0]) {
      var k0 :| 0 <= k0 < |FilePairs(ms[0])| && FilePairs(ms[0])[k0] == p;
      j, k := 0, k0;
    } else {
      var j', k' := ModelPairsFrom(ms[1..], p);
      j, k := j' + 1, k';
    }
  }
}
