/**
  RunPruneUnusedSuppliersMigration and pruneChannelGroups of
  internal/database/migrate_prune_suppliers.go.

  A table is a map from row ids to the columns that matter; soft-deleted rows are not in it,
  as no query of the migration sees them.
*/
module CataloguePrune {

  const ACTIVE_CODES: set<string> :=
    {"aliyun_dashscope", "volcengine", "baidu_qianfan", "tencent_hunyuan", "wangsu_aigw", "talkingdata"}

  /**
    A JSON column holding a list of ids: what json.Unmarshal leaves in a []uint (nothing, for
    text it cannot parse) and whether the stored text is what json.Marshal writes for it.
  */
  datatype IdList = IdList(ids: seq<nat>, canonical: bool)

  datatype ModelRow = ModelRow(supplier: nat, category: nat)

  datatype Rule = Rule(primary: nat, backups: IdList)

  datatype Catalogue = Catalogue(
    suppliers: map<nat, string>,
    categories: map<nat, nat>,     // to supplier
    models: map<nat, ModelRow>,
    channels: map<nat, nat>,       // to supplier
    pricings: map<nat, nat>,       // to model
    labels: map<nat, nat>,         // to model
    agentPricings: map<nat, nat>,  // to model
    discounts: map<nat, nat>,      // to model
    channelModels: map<nat, nat>,  // to channel
    channelTags: map<nat, nat>,    // to channel
    groups: map<nat, IdList>,      // to channels
    rules: map<nat, Rule>)         // to groups

  function Filter(ids: seq<nat>, keep: set<nat>): seq<nat> {
    if ids == [] then []
    else Filter(ids[..|ids| - 1], keep) + if ids[|ids| - 1] in keep then [ids[|ids| - 1]] else []
  }

  // ---------- The migration on values ----------

  function StaleSuppliers(suppliers: map<nat, string>): set<nat> {
    set s | s in suppliers && suppliers[s] !in ACTIVE_CODES
  }

  function ModelsOf(models: map<nat, ModelRow>, suppliers: set<nat>): set<nat> {
    set m | m in models && models[m].supplier in suppliers
  }

  function ChannelsOf(channels: map<nat, nat>, suppliers: set<nat>): set<nat> {
    set h | h in channels && channels[h] in suppliers
  }

  /** The rows of a table that do not refer to a deleted row. */
  function Unrelated(rows: map<nat, nat>, gone: set<nat>): map<nat, nat> {
    map r | r in rows && rows[r] !in gone :: rows[r]
  }

  function PrunedList(list: IdList, keep: set<nat>): IdList {
    IdList(Filter(list.ids, keep), true)
  }

  /** The groups once those in `done` have been looked at. */
  function GroupsAfter(groups: map<nat, IdList>, done: set<nat>, active: set<nat>): map<nat, IdList> {
    map g | g in groups && (g in done ==> PrunedList(groups[g], active).ids != []) ::
      if g in done then PrunedList(groups[g], active) else groups[g]
  }

  function PrunedRule(rule: Rule, active: set<nat>): Rule {
    rule.(backups := PrunedList(rule.backups, active))
  }

  function RulesAfter(rules: map<nat, Rule>, done: set<nat>, active: set<nat>): map<nat, Rule> {
    map r | r in rules && (r in done ==> rules[r].primary in active) ::
      if r in done then PrunedRule(rules[r], active) else rules[r]
  }

  function WithoutSuppliers(c: Catalogue, stale: set<nat>): Catalogue {
    var models := ModelsOf(c.models, stale);
    var channels := ChannelsOf(c.channels, stale);
    c.(suppliers := c.suppliers - stale,
       categories := Unrelated(c.categories, stale),
       models := c.models - models,
       channels := c.channels - channels,
       pricings := Unrelated(c.pricings, models),
       labels := Unrelated(c.labels, models),
       agentPricings := Unrelated(c.agentPricings, models),
       discounts := Unrelated(c.discounts, models),
       channelModels := Unrelated(c.channelModels, channels),
       channelTags := Unrelated(c.channelTags, channels))
  }

  function WithPrunedGroups(c: Catalogue): Catalogue {
    var groups := GroupsAfter(c.groups, c.groups.Keys, c.channels.Keys);
    c.(groups := groups, rules := RulesAfter(c.rules, c.rules.Keys, groups.Keys))
  }

  function Pruned(c: Catalogue): Catalogue {
    WithPrunedGroups(WithoutSuppliers(c, StaleSuppliers(c.suppliers)))
  }

  lemma NothingUnrelated(rows: map<nat, nat>)
    ensures Unrelated(rows, {}) == rows
  {
  }

  // With nothing stale the deletions would not have changed anything, so skipping them is sound.
  lemma NothingStale(c: Catalogue)
    ensures WithoutSuppliers(c, {}) == c
  {
    assert ModelsOf(c.models, {}) == {} && ChannelsOf(c.channels, {}) == {};
    NothingUnrelated(c.categories);
    NothingUnrelated(c.pricings);
    NothingUnrelated(c.labels);
    NothingUnrelated(c.agentPricings);
    NothingUnrelated(c.discounts);
    NothingUnrelated(c.channelModels);
    NothingUnrelated(c.channelTags);
    assert c.suppliers - {} == c.suppliers;
    assert c.models - {} == c.models;
    assert c.channels - {} == c.channels;
  }

  // ---------- The migration on the database ----------

  class Database {
    var suppliers: map<nat, string>
    var categories: map<nat, nat>
    var models: map<nat, ModelRow>
    var channels: map<nat, nat>
    var pricings: map<nat, nat>
    var labels: map<nat, nat>
    var agentPricings: map<nat, nat>
    var discounts: map<nat, nat>
    var channelModels: map<nat, nat>
    var channelTags: map<nat, nat>
    var groups: map<nat, IdList>
    var rules: map<nat, Rule>

    function Contents(): Catalogue
      reads this
    {
      Catalogue(suppliers, categories, models, channels, pricings, labels, agentPricings, discounts,
                channelModels, channelTags, groups, rules)
    }

    method FilterIds(ids: seq<nat>, keep: set<nat>) returns (filtered: seq<nat>)
      ensures filtered == Filter(ids, keep)
    {
      filtered := [];
      for n := 0 to |ids|
        invariant filtered == Filter(ids[..n], keep)
      {
        assert ids[..n + 1][..n] == ids[..n];
        if ids[n] in keep {
          filtered := filtered + [ids[n]];
        }
      }
      assert ids[..|ids|] == ids;
    }

    method PruneGroup(group: nat, active: set<nat>) returns (survives: bool)
      requires group in groups
      modifies `groups
      ensures survives == (PrunedList(old(groups[group]), active).ids != [])
      ensures groups == if survives then old(groups)[group := PrunedList(old(groups[group]), active)]
                        else old(groups) - {group}
    {
      var filtered := FilterIds(groups[group].ids, active);
      if |filtered| == 0 {
        groups := groups - {group};
        return false;
      }
      if groups[group] != IdList(filtered, true) {
        groups := groups[group := IdList(filtered, true)];
      }
      assert groups == old(groups)[group := IdList(filtered, true)];
      survives := true;
    }

    method PruneGroups(active: set<nat>) returns (activeGroups: set<nat>)
      modifies `groups
      ensures groups == GroupsAfter(old(groups), old(groups).Keys, active)
      ensures activeGroups == groups.Keys
    {
      ghost var before := groups;
      var todo := groups.Keys;
      activeGroups := {};
      while todo != {}
        invariant todo <= before.Keys
        invariant groups == GroupsAfter(before, before.Keys - todo, active)
        invariant activeGroups == groups.Keys - todo
      {
        var g :| g in todo;
        var survives := PruneGroup(g, active);
        if survives {
          activeGroups := activeGroups + {g};
        }
        todo := todo - {g};
        assert groups == GroupsAfter(before, before.Keys - todo, active);
      }
      assert before.Keys - {} == before.Keys;
    }

    method PruneRule(rule: nat, activeGroups: set<nat>)
      requires rule in rules
      modifies `rules
      ensures rules == if old(rules[rule]).primary in activeGroups
                       then old(rules)[rule := PrunedRule(old(rules[rule]), activeGroups)]
                       else old(rules) - {rule}
    {
      if rules[rule].primary !in activeGroups {
        rules := rules - {rule};
        return;
      }
      var filtered := FilterIds(rules[rule].backups.ids, activeGroups);
      if rules[rule].backups != IdList(filtered, true) {
        rules := rules[rule := rules[rule].(backups := IdList(filtered, true))];
      }
      assert rules == old(rules)[rule := old(rules[rule]).(backups := IdList(filtered, true))];
    }

    method PruneRules(activeGroups: set<nat>)
      modifies `rules
      ensures rules == RulesAfter(old(rules), old(rules).Keys, activeGroups)
    {
      ghost var before := rules;
      var todo := rules.Keys;
      while todo != {}
        invariant todo <= before.Keys
        invariant rules == RulesAfter(before, before.Keys - todo, activeGroups)
      {
        var r :| r in todo;
        PruneRule(r, activeGroups);
        todo := todo - {r};
        assert rules == RulesAfter(before, before.Keys - todo, activeGroups);
      }
      assert before.Keys - {} == before.Keys;
    }

    method PruneChannelGroups()
      modifies `groups, `rules
      ensures Contents() == WithPrunedGroups(old(Contents()))
    {
      var activeGroups := PruneGroups(channels.Keys);
      PruneRules(activeGroups);
    }

    method DeleteModels(modelIDs: set<nat>)
      modifies `pricings, `labels, `agentPricings, `discounts, `models
      ensures pricings == Unrelated(old(pricings), modelIDs)
      ensures labels == Unrelated(old(labels), modelIDs)
      ensures agentPricings == Unrelated(old(agentPricings), modelIDs)
      ensures discounts == Unrelated(old(discounts), modelIDs)
      ensures models == old(models) - modelIDs
    {
      if |modelIDs| > 0 {
        pricings := Unrelated(pricings, modelIDs);
        labels := Unrelated(labels, modelIDs);
        agentPricings := Unrelated(agentPricings, modelIDs);
        discounts := Unrelated(discounts, modelIDs);
        models := models - modelIDs;
      } else {
        NothingUnrelated(pricings);
        NothingUnrelated(labels);
        NothingUnrelated(agentPricings);
        NothingUnrelated(discounts);
      }
    }

    method DeleteChannels(channelIDs: set<nat>)
      modifies `channelModels, `channelTags, `channels
      ensures channelModels == Unrelated(old(channelModels), channelIDs)
      ensures channelTags == Unrelated(old(channelTags), channelIDs)
      ensures channels == old(channels) - channelIDs
    {
      if |channelIDs| > 0 {
        channelModels := Unrelated(channelModels, channelIDs);
        channelTags := Unrelated(channelTags, channelIDs);
        channels := channels - channelIDs;
      } else {
        NothingUnrelated(channelModels);
        NothingUnrelated(channelTags);
      }
    }

    method DeleteSuppliers(supplierIDs: set<nat>)
      modifies this
      ensures Contents() == WithoutSuppliers(old(Contents()), supplierIDs)
    {
      var modelIDs := ModelsOf(models, supplierIDs);
      var channelIDs := ChannelsOf(channels, supplierIDs);
      DeleteModels(modelIDs);
      DeleteChannels(channelIDs);
      categories := Unrelated(categories, supplierIDs);
      suppliers := suppliers - supplierIDs;
    }

    method RunPruneUnusedSuppliers()
      modifies this
      ensures Contents() == Pruned(old(Contents()))
    {
      var supplierIDs := StaleSuppliers(suppliers);
      if |supplierIDs| == 0 {
        NothingStale(Contents());
      } else {
        DeleteSuppliers(supplierIDs);
      }
      PruneChannelGroups();
    }
  }
}
