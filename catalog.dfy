/**
 * The instrument catalog built when the models endpoint answers
 * (`fetchModels` in frontend/app.jsx): every stock of every model becomes one
 * selectable entry, and a stock that several models list belongs to the first
 * of them.
 */
module Catalog {
  import opened Wrappers

  /** One record of the models endpoint: a model and the stocks it serves. */
  datatype ModelInfo = ModelInfo(name: string, stocks: seq<string>)

  /** A selectable stock together with the model that serves it. */
  datatype Instrument = Instrument(name: string, modelName: string)

  predicate HasName(entries: seq<Instrument>, name: string) {
    exists k :: 0 <= k < |entries| && entries[k].name == name
  }

  predicate NamesUnique(entries: seq<Instrument>) {
    forall i, j :: 0 <= i < j < |entries| ==> entries[i].name != entries[j].name
  }

  /**
   * One step of the scan: afterwards the name is present; the existing
   * entries keep their place; a new entry, owned by this model, is appended
   * exactly when the name was absent.
   */
  function Insert(entries: seq<Instrument>, name: string, modelName: string): (r: seq<Instrument>)
    ensures HasName(r, name)
    ensures |entries| <= |r| && r[..|entries|] == entries
    ensures |r| == if HasName(entries, name) then |entries| else |entries| + 1
    ensures |r| > |entries| ==> r[|entries|] == Instrument(name, modelName)
  {
    if HasName(entries, name) then entries
    else
      var r := entries + [Instrument(name, modelName)];
      assert r[|entries|].name == name;
      r
  }

  /** The entries after scanning `stocks` of model `modelName`: the scan only appends. */
  function AddStocks(entries: seq<Instrument>, modelName: string, stocks: seq<string>): (r: seq<Instrument>)
    ensures |entries| <= |r| && r[..|entries|] == entries
    decreases |stocks|
  {
    if stocks == [] then entries
    else
      var prev := AddStocks(entries, modelName, stocks[..|stocks| - 1]);
      var r := Insert(prev, stocks[|stocks| - 1], modelName);
      assert r[..|entries|] == prev[..|prev|][..|entries|];
      r
  }

  /** The catalog after scanning all models in order; no two of its entries share a name. */
  function CatalogOf(models: seq<ModelInfo>): (r: seq<Instrument>)
    ensures NamesUnique(r)
    decreases |models|
  {
    if models == [] then []
    else
      var last := models[|models| - 1];
      var prev := CatalogOf(models[..|models| - 1]);
      AddStocksFacts(prev, last.name, last.stocks);
      AddStocks(prev, last.name, last.stocks)
  }

  /** Model `m` owns `name`: it lists the name and no earlier model does. */
  predicate IsOwner(models: seq<ModelInfo>, name: string, m: int) {
    0 <= m < |models| && name in models[m].stocks &&
    forall m' :: 0 <= m' < m ==> name !in models[m'].stocks
  }

  /** The lookup `fetchModels` makes before each push: the first entry with the given name, if any. */
  method FindByName(entries: seq<Instrument>, name: string) returns (found: Option<Instrument>)
    ensures found.None? <==> !HasName(entries, name)
    ensures found.Some? ==> exists k :: 0 <= k < |entries| && entries[k] == found.value &&
                                       entries[k].name == name &&
                                       forall j :: 0 <= j < k ==> entries[j].name != name
  {
    var k := 0;
    while k < |entries|
      invariant 0 <= k <= |entries|
      invariant forall j :: 0 <= j < k ==> entries[j].name != name
    {
      if entries[k].name == name {
        return Some(entries[k]);
      }
      k := k + 1;
    }
    return None;
  }

  /** The nested `forEach` loops of `fetchModels`, pushing onto a local array. */
  method BuildCatalog(models: seq<ModelInfo>) returns (stocks: seq<Instrument>)
    ensures stocks == CatalogOf(models)
  {
    stocks := [];
    for i := 0 to |models|
      invariant stocks == CatalogOf(models[..i])
    {
      var model := models[i];
      ghost var before := CatalogOf(models[..i]);
      for j := 0 to |model.stocks|
        invariant stocks == AddStocks(before, model.name, model.stocks[..j])
      {
        var stock := model.stocks[j];
        var existing := FindByName(stocks, stock);
        if existing.None? {
          stocks := stocks + [Instrument(stock, model.name)];
        }
        assert model.stocks[..j + 1][..j] == model.stocks[..j];
      }
      assert model.stocks[..|model.stocks|] == model.stocks;
      assert models[..i + 1][..i] == models[..i];
    }
    assert models[..|models|] == models;
  }

  /**
   * What a scan over one model's stocks adds: every listed stock is present
   * afterwards, every new entry is a listed stock owned by this model whose
   * name was not present before, and names stay unique.
   */
  lemma {:induction false} AddStocksFacts(entries: seq<Instrument>, modelName: string, stocks: seq<string>)
    requires NamesUnique(entries)
    ensures var r := AddStocks(entries, modelName, stocks);
            && NamesUnique(r)
            && |entries| <= |r| && r[..|entries|] == entries
            && (forall s :: s in stocks ==> HasName(r, s))
            && (forall k :: |entries| <= k < |r| ==>
                  r[k].modelName == modelName && r[k].name in stocks && !HasName(entries, r[k].name))
    decreases |stocks|
  {
    if stocks != [] {
      var init := stocks[..|stocks| - 1];
      var s := stocks[|stocks| - 1];
      AddStocksFacts(entries, modelName, init);
      var prev := AddStocks(entries, modelName, init);
      var r := AddStocks(entries, modelName, stocks);
      assert r == Insert(prev, s, modelName);
      forall t | t in stocks ensures HasName(r, t) {
        if t == s {
          if !HasName(prev, s) {
            assert r[|prev|].name == s;
          }
        } else {
          assert t in init;
          var k :| 0 <= k < |prev| && prev[k].name == t;
          assert r[k] == prev[k];
        }
      }
      forall k | |entries| <= k < |r|
        ensures r[k].modelName == modelName && r[k].name in stocks && !HasName(entries, r[k].name)
      {
        if k < |prev| {
          assert r[k] == prev[k];
          assert prev[k].name in init;
        } else {
          assert r[k] == Instrument(s, modelName);
        }
      }
    }
  }

  /** Every stock that some model lists is in the catalog; the empty model list gives the empty catalog. */
  lemma {:induction false} CatalogComplete(models: seq<ModelInfo>)
    ensures models == [] ==> CatalogOf(models) == []
    ensures forall m, s :: 0 <= m < |models| && s in models[m].stocks ==> HasName(CatalogOf(models), s)
    decreases |models|
  {
    if models != [] {
      var init := models[..|models| - 1];
      var last := models[|models| - 1];
      CatalogComplete(init);
      AddStocksFacts(CatalogOf(init), last.name, last.stocks);
      var prev := CatalogOf(init);
      var r := CatalogOf(models);
      forall m, s | 0 <= m < |models| && s in models[m].stocks ensures HasName(r, s) {
        if m < |models| - 1 {
          assert models[m] == init[m];
          assert s in init[m].stocks;
          assert HasName(prev, s);
          var k :| 0 <= k < |prev| && prev[k].name == s;
          assert r[k] == prev[k];
        }
      }
    }
  }

  /** Every catalog entry is owned by the first model, in input order, that lists its stock. */
  lemma {:induction false} CatalogFirstModelOwns(models: seq<ModelInfo>)
    ensures forall k :: 0 <= k < |CatalogOf(models)| ==>
              exists m :: IsOwner(models, CatalogOf(models)[k].name, m) &&
                          CatalogOf(models)[k].modelName == models[m].name
    decreases |models|
  {
    if models != [] {
      var init := models[..|models| - 1];
      var last := models[|models| - 1];
      CatalogFirstModelOwns(init);
      CatalogComplete(init);
      AddStocksFacts(CatalogOf(init), last.name, last.stocks);
      var prev := CatalogOf(init);
      var r := CatalogOf(models);
      forall k | 0 <= k < |r|
        ensures exists m :: IsOwner(models, r[k].name, m) && r[k].modelName == models[m].name
      {
        if k < |prev| {
          assert r[k] == prev[k];
          var m :| IsOwner(init, prev[k].name, m) && prev[k].modelName == init[m].name;
          assert models[m] == init[m];
          assert IsOwner(models, r[k].name, m) && r[k].modelName == models[m].name;
        } else {
          var m := |models| - 1;
          assert models[m] == last;
          assert r[k].modelName == last.name && r[k].name in last.stocks && !HasName(prev, r[k].name);
          forall m' | 0 <= m' < m ensures r[k].name !in models[m'].stocks {
            assert models[m'] == init[m'];
          }
          assert IsOwner(models, r[k].name, m) && r[k].modelName == models[m].name;
        }
      }
    } else {
      assert CatalogOf(models) == [];
    }
  }

  /** First-seen order: the catalog of a prefix of the models is a prefix of the full catalog. */
  lemma {:induction false} CatalogGrowsByAppending(models: seq<ModelInfo>, i: nat)
    requires i <= |models|
    ensures var r := CatalogOf(models);
            var p := CatalogOf(models[..i]);
            |p| <= |r| && r[..|p|] == p
    decreases |models|
  {
    if i < |models| {
      var init := models[..|models| - 1];
      var last := models[|models| - 1];
      assert init[..i] == models[..i];
      CatalogGrowsByAppending(init, i);
    } else {
      assert models[..i] == models;
    }
  }

  /** Within one model the scan follows the list: scanning a prefix of it gives a prefix of the result. */
  lemma {:induction false} AddStocksGrowsByAppending(entries: seq<Instrument>, modelName: string, stocks: seq<string>, j: nat)
    requires j <= |stocks|
    ensures var r := AddStocks(entries, modelName, stocks);
            var p := AddStocks(entries, modelName, stocks[..j]);
            |p| <= |r| && r[..|p|] == p
    decreases |stocks|
  {
    if j < |stocks| {
      var init := stocks[..|stocks| - 1];
      assert init[..j] == stocks[..j];
      AddStocksGrowsByAppending(entries, modelName, init, j);
    } else {
      assert stocks[..j] == stocks;
    }
  }

  /**
   * First-seen order across models and then within each model's list: the
   * entries gathered after any stock of any model form a prefix of the catalog.
   */
  lemma {:induction false} CatalogFirstSeenOrder(models: seq<ModelInfo>, i: nat, j: nat)
    requires i < |models| && j <= |models[i].stocks|
    ensures var r := CatalogOf(models);
            var p := AddStocks(CatalogOf(models[..i]), models[i].name, models[i].stocks[..j]);
            |p| <= |r| && r[..|p|] == p
  {
    var before := CatalogOf(models[..i]);
    var p := AddStocks(before, models[i].name, models[i].stocks[..j]);
    var q := AddStocks(before, models[i].name, models[i].stocks);
    AddStocksGrowsByAppending(before, models[i].name, models[i].stocks, j);
    assert models[..i + 1][..i] == models[..i];
    assert CatalogOf(models[..i + 1]) == q;
    CatalogGrowsByAppending(models, i + 1);
    var r := CatalogOf(models);
    assert r[..|p|] == r[..|q|][..|p|];
  }

  /** The two-model example: X and Y go to A, Z to B; B's Y is dropped. */
  lemma SharedStockGoesToFirstModel()
    ensures CatalogOf([ModelInfo("A", ["X", "Y"]), ModelInfo("B", ["Y", "Z"])]) ==
            [Instrument("X", "A"), Instrument("Y", "A"), Instrument("Z", "B")]
  {
    var a := ModelInfo("A", ["X", "Y"]);
    var b := ModelInfo("B", ["Y", "Z"]);
    assert [a, b][..1] == [a];
    assert [a][..0] == [];
    assert a.stocks[..1] == ["X"];
    assert ["X"][..0] == [];
    assert b.stocks[..1] == ["Y"];
    assert ["Y"][..0] == [];
    assert CatalogOf([a][..0]) == [];
    assert AddStocks([], "A", ["X"]) == [Instrument("X", "A")];
    var ca := [Instrument("X", "A"), Instrument("Y", "A")];
    assert ca[1].name == "Y";
    assert !HasName([Instrument("X", "A")], "Y");
    assert AddStocks([], "A", a.stocks) == ca;
    assert CatalogOf([a]) == ca;
    assert HasName(ca, "Y");
    assert AddStocks(ca, "B", ["Y"]) == ca;
    assert !HasName(ca, "Z");
  }
}
