/** What the supplier clean-up leaves behind. */
module CataloguePruneTheorems {
  import opened CataloguePrune

  // ---------- References between tables ----------

  predicate PointsInto(rows: map<nat, nat>, targets: set<nat>) {
    forall r :: r in rows ==> rows[r] in targets
  }

  predicate ModelsPointInto(models: map<nat, ModelRow>, suppliers: set<nat>) {
    forall m :: m in models ==> models[m].supplier in suppliers
  }

  /** Every reference to a supplier, a model or a channel leads to a live row. */
  predicate Closed(c: Catalogue) {
    && PointsInto(c.categories, c.suppliers.Keys)
    && ModelsPointInto(c.models, c.suppliers.Keys)
    && PointsInto(c.channels, c.suppliers.Keys)
    && PointsInto(c.pricings, c.models.Keys)
    && PointsInto(c.labels, c.models.Keys)
    && PointsInto(c.agentPricings, c.models.Keys)
    && PointsInto(c.discounts, c.models.Keys)
    && PointsInto(c.channelModels, c.channels.Keys)
    && PointsInto(c.channelTags, c.channels.Keys)
  }

  // Deleting the rows that refer to deleted rows keeps exactly the dangling references there were.
  lemma UnrelatedPointsIff(rows: map<nat, nat>, targets: set<nat>, gone: set<nat>)
    requires gone <= targets
    ensures PointsInto(Unrelated(rows, gone), targets - gone) <==> PointsInto(rows, targets)
  {
    var left := Unrelated(rows, gone);
    if PointsInto(left, targets - gone) {
      forall r | r in rows ensures rows[r] in targets {
        assert rows[r] in gone || r in left;
      }
    }
  }

  lemma ModelsPointIff(models: map<nat, ModelRow>, suppliers: set<nat>, stale: set<nat>)
    requires stale <= suppliers
    ensures ModelsPointInto(models - ModelsOf(models, stale), suppliers - stale) <==> ModelsPointInto(models, suppliers)
  {
    var left := models - ModelsOf(models, stale);
    if ModelsPointInto(left, suppliers - stale) {
      forall m | m in models ensures models[m].supplier in suppliers {
        assert models[m].supplier in stale || m in left;
      }
    }
  }

  lemma ChannelsAreUnrelated(channels: map<nat, nat>, stale: set<nat>)
    ensures channels - ChannelsOf(channels, stale) == Unrelated(channels, stale)
  {
  }

  lemma KeyDifference<V>(m: map<nat, V>, gone: set<nat>)
    ensures (m - gone).Keys == m.Keys - gone
  {
    forall k ensures k in (m - gone).Keys <==> k in m.Keys - gone {
    }
  }

  lemma SupplierReferencesIff(c: Catalogue)
    ensures
      var p := Pruned(c);
      && (PointsInto(p.categories, p.suppliers.Keys) <==> PointsInto(c.categories, c.suppliers.Keys))
      && (ModelsPointInto(p.models, p.suppliers.Keys) <==> ModelsPointInto(c.models, c.suppliers.Keys))
      && (PointsInto(p.channels, p.suppliers.Keys) <==> PointsInto(c.channels, c.suppliers.Keys))
  {
    var stale := StaleSuppliers(c.suppliers);
    KeyDifference(c.suppliers, stale);
    UnrelatedPointsIff(c.categories, c.suppliers.Keys, stale);
    ModelsPointIff(c.models, c.suppliers.Keys, stale);
    ChannelsAreUnrelated(c.channels, stale);
    UnrelatedPointsIff(c.channels, c.suppliers.Keys, stale);
  }

  lemma ModelReferencesIff(c: Catalogue)
    ensures
      var p := Pruned(c);
      && (PointsInto(p.pricings, p.models.Keys) <==> PointsInto(c.pricings, c.models.Keys))
      && (PointsInto(p.labels, p.models.Keys) <==> PointsInto(c.labels, c.models.Keys))
      && (PointsInto(p.agentPricings, p.models.Keys) <==> PointsInto(c.agentPricings, c.models.Keys))
      && (PointsInto(p.discounts, p.models.Keys) <==> PointsInto(c.discounts, c.models.Keys))
  {
    var gone := ModelsOf(c.models, StaleSuppliers(c.suppliers));
    KeyDifference(c.models, gone);
    UnrelatedPointsIff(c.pricings, c.models.Keys, gone);
    UnrelatedPointsIff(c.labels, c.models.Keys, gone);
    UnrelatedPointsIff(c.agentPricings, c.models.Keys, gone);
    UnrelatedPointsIff(c.discounts, c.models.Keys, gone);
  }

  lemma ChannelReferencesIff(c: Catalogue)
    ensures
      var p := Pruned(c);
      && (PointsInto(p.channelModels, p.channels.Keys) <==> PointsInto(c.channelModels, c.channels.Keys))
      && (PointsInto(p.channelTags, p.channels.Keys) <==> PointsInto(c.channelTags, c.channels.Keys))
  {
    var gone := ChannelsOf(c.channels, StaleSuppliers(c.suppliers));
    KeyDifference(c.channels, gone);
    UnrelatedPointsIff(c.channelModels, c.channels.Keys, gone);
    UnrelatedPointsIff(c.channelTags, c.channels.Keys, gone);
  }

  /**
    The clean-up leaves a closed reference graph exactly when it is given one: it never makes
    a reference dangle, and never mends one.
  */
  lemma ClosedIff(c: Catalogue)
    ensures Closed(Pruned(c)) <==> Closed(c)
  {
    SupplierReferencesIff(c);
    ModelReferencesIff(c);
    ChannelReferencesIff(c);
  }

  predicate ActiveSupplier(c: Catalogue, s: nat) {
    s in c.suppliers && c.suppliers[s] in ACTIVE_CODES
  }

  predicate ActiveModel(c: Catalogue, m: nat) {
    m in c.models && ActiveSupplier(c, c.models[m].supplier)
  }

  predicate ActiveChannel(c: Catalogue, h: nat) {
    h in c.channels && ActiveSupplier(c, c.channels[h])
  }

  // ---------- What is deleted ----------

  predicate StaleSupplier(c: Catalogue, s: nat) {
    s in c.suppliers && c.suppliers[s] !in ACTIVE_CODES
  }

  predicate StaleModel(c: Catalogue, m: nat) {
    m in c.models && StaleSupplier(c, c.models[m].supplier)
  }

  predicate StaleChannel(c: Catalogue, h: nat) {
    h in c.channels && StaleSupplier(c, c.channels[h])
  }

  /** Rows of any catalogue, dangling references and all: `kept` are those not hanging, at
      whatever remove, from a supplier without an active code. */
  predicate KeepsModelRows(c: Catalogue, rows: map<nat, nat>, kept: map<nat, nat>) {
    && (forall r :: r in kept ==> r in rows && kept[r] == rows[r] && !StaleModel(c, rows[r]))
    && (forall r :: r in rows && !StaleModel(c, rows[r]) ==> r in kept)
  }

  predicate KeepsChannelRows(c: Catalogue, rows: map<nat, nat>, kept: map<nat, nat>) {
    && (forall r :: r in kept ==> r in rows && kept[r] == rows[r] && !StaleChannel(c, rows[r]))
    && (forall r :: r in rows && !StaleChannel(c, rows[r]) ==> r in kept)
  }

  predicate KeepsSupplierRows(c: Catalogue, rows: map<nat, nat>, kept: map<nat, nat>) {
    && (forall r :: r in kept ==> r in rows && kept[r] == rows[r] && !StaleSupplier(c, rows[r]))
    && (forall r :: r in rows && !StaleSupplier(c, rows[r]) ==> r in kept)
  }

  predicate KeepsModels(c: Catalogue, kept: map<nat, ModelRow>) {
    && (forall m :: m in kept ==> m in c.models && kept[m] == c.models[m] && !StaleModel(c, m))
    && (forall m :: m in c.models && !StaleModel(c, m) ==> m in kept)
  }

  lemma UnrelatedModelRows(c: Catalogue, rows: map<nat, nat>)
    ensures KeepsModelRows(c, rows, Unrelated(rows, ModelsOf(c.models, StaleSuppliers(c.suppliers))))
  {
  }

  lemma UnrelatedChannelRows(c: Catalogue, rows: map<nat, nat>)
    ensures KeepsChannelRows(c, rows, Unrelated(rows, ChannelsOf(c.channels, StaleSuppliers(c.suppliers))))
  {
  }

  lemma UnrelatedSupplierRows(c: Catalogue, rows: map<nat, nat>)
    ensures KeepsSupplierRows(c, rows, Unrelated(rows, StaleSuppliers(c.suppliers)))
  {
  }

  predicate KeepsSuppliers(c: Catalogue, kept: map<nat, string>) {
    && (forall s :: s in kept ==> s in c.suppliers && kept[s] == c.suppliers[s] && !StaleSupplier(c, s))
    && (forall s :: s in c.suppliers && !StaleSupplier(c, s) ==> s in kept)
  }

  lemma UnstaleSuppliers(c: Catalogue)
    ensures KeepsSuppliers(c, c.suppliers - StaleSuppliers(c.suppliers))
  {
  }

  lemma UnstaleModels(c: Catalogue)
    ensures KeepsModels(c, c.models - ModelsOf(c.models, StaleSuppliers(c.suppliers)))
  {
  }

  /** The suppliers that stay, by name. */
  lemma SixCodesStay(c: Catalogue, s: nat)
    ensures s in Pruned(c).suppliers <==>
      && s in c.suppliers
      && (|| c.suppliers[s] == "aliyun_dashscope" || c.suppliers[s] == "volcengine"
          || c.suppliers[s] == "baidu_qianfan" || c.suppliers[s] == "tencent_hunyuan"
          || c.suppliers[s] == "wangsu_aigw" || c.suppliers[s] == "talkingdata")
  {
  }

  /** Whatever the catalogue, exactly those rows are kept, and kept unchanged. */
  lemma ExactlyStaleSuppliersGo(c: Catalogue)
    ensures KeepsSuppliers(c, Pruned(c).suppliers)
    ensures KeepsModels(c, Pruned(c).models)
    ensures KeepsSupplierRows(c, c.categories, Pruned(c).categories)
    ensures KeepsSupplierRows(c, c.channels, Pruned(c).channels)
  {
    UnstaleSuppliers(c);
    UnstaleModels(c);
    UnrelatedSupplierRows(c, c.categories);
    ChannelsAreUnrelated(c.channels, StaleSuppliers(c.suppliers));
    UnrelatedSupplierRows(c, c.channels);
  }

  lemma ExactlyStaleModelRowsGo(c: Catalogue)
    ensures KeepsModelRows(c, c.pricings, Pruned(c).pricings)
    ensures KeepsModelRows(c, c.labels, Pruned(c).labels)
    ensures KeepsModelRows(c, c.agentPricings, Pruned(c).agentPricings)
    ensures KeepsModelRows(c, c.discounts, Pruned(c).discounts)
  {
    UnrelatedModelRows(c, c.pricings);
    UnrelatedModelRows(c, c.labels);
    UnrelatedModelRows(c, c.agentPricings);
    UnrelatedModelRows(c, c.discounts);
  }

  lemma ExactlyStaleChannelRowsGo(c: Catalogue)
    ensures KeepsChannelRows(c, c.channelModels, Pruned(c).channelModels)
    ensures KeepsChannelRows(c, c.channelTags, Pruned(c).channelTags)
  {
    UnrelatedChannelRows(c, c.channelModels);
    UnrelatedChannelRows(c, c.channelTags);
  }

  function OfActiveSuppliers(c: Catalogue, rows: map<nat, nat>): map<nat, nat> {
    map r | r in rows && ActiveSupplier(c, rows[r]) :: rows[r]
  }

  function OfActiveModels(c: Catalogue, rows: map<nat, nat>): map<nat, nat> {
    map r | r in rows && ActiveModel(c, rows[r]) :: rows[r]
  }

  function OfActiveChannels(c: Catalogue, rows: map<nat, nat>): map<nat, nat> {
    map r | r in rows && ActiveChannel(c, rows[r]) :: rows[r]
  }

  /** What is left is, unchanged, what belongs to a supplier with an active code. */
  lemma SuppliersLeft(c: Catalogue)
    requires Closed(c)
    ensures Pruned(c).suppliers == map s | s in c.suppliers && ActiveSupplier(c, s) :: c.suppliers[s]
    ensures Pruned(c).categories == OfActiveSuppliers(c, c.categories)
    ensures Pruned(c).models == map m | m in c.models && ActiveModel(c, m) :: c.models[m]
    ensures Pruned(c).channels == OfActiveSuppliers(c, c.channels)
  {
    assert Pruned(c).categories == Unrelated(c.categories, StaleSuppliers(c.suppliers));
  }

  lemma ActiveModelRows(c: Catalogue, rows: map<nat, nat>)
    requires ModelsPointInto(c.models, c.suppliers.Keys) && PointsInto(rows, c.models.Keys)
    ensures Unrelated(rows, ModelsOf(c.models, StaleSuppliers(c.suppliers))) == OfActiveModels(c, rows)
  {
  }

  lemma ActiveChannelRows(c: Catalogue, rows: map<nat, nat>)
    requires PointsInto(c.channels, c.suppliers.Keys) && PointsInto(rows, c.channels.Keys)
    ensures Unrelated(rows, ChannelsOf(c.channels, StaleSuppliers(c.suppliers))) == OfActiveChannels(c, rows)
  {
  }

  lemma RowsLeft(c: Catalogue)
    requires Closed(c)
    ensures Pruned(c).pricings == OfActiveModels(c, c.pricings)
    ensures Pruned(c).labels == OfActiveModels(c, c.labels)
    ensures Pruned(c).agentPricings == OfActiveModels(c, c.agentPricings)
    ensures Pruned(c).discounts == OfActiveModels(c, c.discounts)
    ensures Pruned(c).channelModels == OfActiveChannels(c, c.channelModels)
    ensures Pruned(c).channelTags == OfActiveChannels(c, c.channelTags)
  {
    ActiveModelRows(c, c.pricings);
    ActiveModelRows(c, c.labels);
    ActiveModelRows(c, c.agentPricings);
    ActiveModelRows(c, c.discounts);
    ActiveChannelRows(c, c.channelModels);
    ActiveChannelRows(c, c.channelTags);
  }

  /** Every model's category is live. */
  predicate CategoriesLive(c: Catalogue) {
    forall m :: m in c.models ==> c.models[m].category in c.categories
  }

  /** The category of every model that is kept is live and belongs to a supplier that is kept. */
  predicate KeptModelsHaveKeptCategories(c: Catalogue) {
    forall m :: m in c.models && !StaleSupplier(c, c.models[m].supplier) ==> HasKeptCategory(c, m)
  }

  predicate HasKeptCategory(c: Catalogue, m: nat)
    requires m in c.models
  {
    var category := c.models[m].category;
    category in c.categories && !StaleSupplier(c, c.categories[category])
  }

  // No step looks at ai_models.category_id, so the answer lies in the categories' own suppliers.
  lemma CategoriesLiveIff(c: Catalogue)
    ensures CategoriesLive(Pruned(c)) <==> KeptModelsHaveKeptCategories(c)
  {
    var p, stale := Pruned(c), StaleSuppliers(c.suppliers);
    forall m ensures m in p.models <==> m in c.models && !StaleSupplier(c, c.models[m].supplier) {
      assert m in c.models ==> (StaleSupplier(c, c.models[m].supplier) <==> c.models[m].supplier in stale);
    }
    forall m | m in p.models ensures p.models[m].category in p.categories <==> HasKeptCategory(c, m) {
      assert p.categories == Unrelated(c.categories, stale);
    }
    if CategoriesLive(p) {
      forall m | m in c.models && !StaleSupplier(c, c.models[m].supplier) ensures HasKeptCategory(c, m) {
        assert m in p.models;
      }
    }
  }

  /** Every model's category is live and belongs to the model's own supplier. */
  predicate CategoriesAgree(c: Catalogue) {
    forall m :: m in c.models ==>
      c.models[m].category in c.categories && c.categories[c.models[m].category] == c.models[m].supplier
  }

  /** Agreement is enough, and lasts. */
  lemma CategoriesStillAgree(c: Catalogue)
    requires CategoriesAgree(c)
    ensures CategoriesAgree(Pruned(c)) && CategoriesLive(Pruned(c))
  {
    var p := Pruned(c);
    forall m | m in p.models
      ensures p.models[m].category in p.categories && p.categories[p.models[m].category] == p.models[m].supplier
    {
      assert m in c.models && c.models[m].supplier !in StaleSuppliers(c.suppliers);
    }
  }

  /** A closed catalogue with live categories in which a kept model is left without its category. */
  lemma ForeignCategoryIsLost() returns (c: Catalogue)
    ensures Closed(c) && CategoriesLive(c) && !CategoriesLive(Pruned(c))
  {
    c := Catalogue(map[1 := "wangsu_aigw", 2 := "sample"], map[7 := 2], map[3 := ModelRow(1, 7)],
                   map[], map[], map[], map[], map[], map[], map[], map[], map[]);
    CategoriesLiveIff(c);
    assert 3 in c.models && !HasKeptCategory(c, 3);
  }

  // ---------- Order-preserving filters ----------

  predicate Ascending(positions: seq<nat>) {
    forall i, j :: 0 <= i < j < |positions| ==> positions[i] < positions[j]
  }

  ghost predicate Lists(positions: seq<nat>, ids: seq<nat>, keep: set<nat>) {
    forall n: nat :: n in positions <==> n < |ids| && ids[n] in keep
  }

  predicate ReadsOff(result: seq<nat>, positions: seq<nat>, ids: seq<nat>) {
    && |result| == |positions|
    && forall i :: 0 <= i < |result| ==> positions[i] < |ids| && result[i] == ids[positions[i]]
  }

  /**
    What "an order-preserving filter" means, without saying how to compute it: the result reads
    off, in order, exactly the places whose id is kept.
  */
  ghost predicate IsFilterOf(result: seq<nat>, ids: seq<nat>, keep: set<nat>) {
    exists positions: seq<nat> ::
      Ascending(positions) && Lists(positions, ids, keep) && ReadsOff(result, positions, ids)
  }

  function Positions(ids: seq<nat>, keep: set<nat>): seq<nat> {
    if ids == [] then []
    else Positions(ids[..|ids| - 1], keep) + if ids[|ids| - 1] in keep then [|ids| - 1] else []
  }

  lemma {:induction false} PositionsList(ids: seq<nat>, keep: set<nat>)
    ensures Lists(Positions(ids, keep), ids, keep)
  {
    if ids != [] {
      var last := |ids| - 1;
      var shorter := Positions(ids[..last], keep);
      PositionsList(ids[..last], keep);
      forall n: nat ensures n in Positions(ids, keep) <==> n < |ids| && ids[n] in keep {
        assert n in shorter <==> n < last && ids[n] in keep;
        assert n in Positions(ids, keep) <==> n in shorter || (n == last && ids[last] in keep);
      }
    }
  }

  lemma {:induction false} PositionsAscend(ids: seq<nat>, keep: set<nat>)
    ensures Ascending(Positions(ids, keep))
  {
    if ids != [] {
      var shorter := Positions(ids[..|ids| - 1], keep);
      PositionsAscend(ids[..|ids| - 1], keep);
      PositionsList(ids[..|ids| - 1], keep);
      forall i, j | 0 <= i < j < |Positions(ids, keep)| ensures Positions(ids, keep)[i] < Positions(ids, keep)[j] {
        assert shorter[i] in shorter;
      }
    }
  }

  lemma {:induction false} FilterReadsOff(ids: seq<nat>, keep: set<nat>)
    ensures ReadsOff(Filter(ids, keep), Positions(ids, keep), ids)
  {
    if ids != [] {
      FilterReadsOff(ids[..|ids| - 1], keep);
    }
  }

  lemma FilterIsFilter(ids: seq<nat>, keep: set<nat>)
    ensures IsFilterOf(Filter(ids, keep), ids, keep)
  {
    PositionsAscend(ids, keep);
    PositionsList(ids, keep);
    FilterReadsOff(ids, keep);
  }

  lemma {:induction false} FilterKeeps(ids: seq<nat>, keep: set<nat>)
    ensures forall x :: x in Filter(ids, keep) <==> x in ids && x in keep
  {
    if ids != [] {
      FilterKeeps(ids[..|ids| - 1], keep);
      assert ids == ids[..|ids| - 1] + [ids[|ids| - 1]];
    }
  }

  lemma {:induction false} NothingToFilter(ids: seq<nat>, keep: set<nat>)
    requires forall x :: x in ids ==> x in keep
    ensures Filter(ids, keep) == ids
  {
    if ids != [] {
      assert ids[|ids| - 1] in ids;
      NothingToFilter(ids[..|ids| - 1], keep);
      assert ids == ids[..|ids| - 1] + [ids[|ids| - 1]];
    }
  }

  lemma FilterTwice(ids: seq<nat>, keep: set<nat>)
    ensures Filter(Filter(ids, keep), keep) == Filter(ids, keep)
  {
    FilterKeeps(ids, keep);
    NothingToFilter(Filter(ids, keep), keep);
  }

  // ---------- Groups and rules ----------

  predicate ListsOneOf(list: IdList, keep: set<nat>) {
    exists id :: id in list.ids && id in keep
  }

  /**
    A group survives exactly when it listed a channel that is still there, and what it lists
    then is the non-empty order-preserving filter of its channels.
  */
  lemma GroupSurvivesIff(c: Catalogue, g: nat)
    ensures g in Pruned(c).groups <==> g in c.groups && ListsOneOf(c.groups[g], Pruned(c).channels.Keys)
    ensures g in Pruned(c).groups ==>
      var ids := Pruned(c).groups[g].ids;
      ids != [] && IsFilterOf(ids, c.groups[g].ids, Pruned(c).channels.Keys)
  {
    if g in c.groups {
      var ids, live := c.groups[g].ids, Pruned(c).channels.Keys;
      FilterKeeps(ids, live);
      FilterIsFilter(ids, live);
      if ListsOneOf(c.groups[g], live) {
        var id :| id in ids && id in live;
        assert id in Filter(ids, live);
      } else if Filter(ids, live) != [] {
        assert Filter(ids, live)[0] in ids;
        assert false;
      }
    }
  }

  /**
    A backup rule survives exactly when its primary group does, and its backups are then the
    order-preserving filter of those it had: the list may become empty.
  */
  lemma RuleSurvivesIff(c: Catalogue, r: nat)
    ensures r in Pruned(c).rules <==> r in c.rules && c.rules[r].primary in Pruned(c).groups
    ensures r in Pruned(c).rules ==>
      && Pruned(c).rules[r].primary == c.rules[r].primary
      && IsFilterOf(Pruned(c).rules[r].backups.ids, c.rules[r].backups.ids, Pruned(c).groups.Keys)
  {
    if r in c.rules {
      FilterIsFilter(c.rules[r].backups.ids, Pruned(c).groups.Keys);
    }
  }

  /** No surviving group or rule lists anything that is not there, whatever was there before. */
  lemma GroupsAndRulesAreClosed(c: Catalogue)
    ensures forall g, id :: g in Pruned(c).groups && id in Pruned(c).groups[g].ids ==> id in Pruned(c).channels
    ensures forall r :: r in Pruned(c).rules ==> Pruned(c).rules[r].primary in Pruned(c).groups
    ensures forall r, id :: r in Pruned(c).rules && id in Pruned(c).rules[r].backups.ids ==> id in Pruned(c).groups
  {
    var p := Pruned(c);
    forall g, id | g in p.groups && id in p.groups[g].ids ensures id in p.channels {
      FilterKeeps(c.groups[g].ids, p.channels.Keys);
    }
    forall r, id | r in p.rules && id in p.rules[r].backups.ids ensures id in p.groups {
      FilterKeeps(c.rules[r].backups.ids, p.groups.Keys);
    }
  }

  // ---------- Running it again ----------

  lemma GroupsTwice(groups: map<nat, IdList>, active: set<nat>)
    ensures
      var once := GroupsAfter(groups, groups.Keys, active);
      GroupsAfter(once, once.Keys, active) == once
  {
    var once := GroupsAfter(groups, groups.Keys, active);
    forall g | g in once ensures PrunedList(once[g], active) == once[g] {
      FilterTwice(groups[g].ids, active);
    }
  }

  lemma RulesTwice(rules: map<nat, Rule>, active: set<nat>)
    ensures
      var once := RulesAfter(rules, rules.Keys, active);
      RulesAfter(once, once.Keys, active) == once
  {
    var once := RulesAfter(rules, rules.Keys, active);
    forall r | r in once ensures PrunedList(once[r].backups, active) == once[r].backups {
      FilterTwice(rules[r].backups.ids, active);
    }
  }

  /** A second run changes nothing, not even the stored text of a list. */
  lemma SecondRunChangesNothing(c: Catalogue)
    ensures Pruned(Pruned(c)) == Pruned(c)
  {
    var p := Pruned(c);
    assert StaleSuppliers(p.suppliers) == {};
    NothingStale(p);
    GroupsTwice(c.groups, p.channels.Keys);
    RulesTwice(c.rules, p.groups.Keys);
  }
}
