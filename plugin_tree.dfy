/**
 * Walking a form's plugin tree: `get_nested_plugins` flattens the children of a
 * plugin in pre-order, putting the descendants of an alias in the alias's place,
 * and `get_plugin_tree` collects a plugin and all its descendants from the
 * plugin table, one level per query.
 *
 * Plugins are identified by their primary keys. The descendants of an alias
 * (`get_descendants().order_by('path')`) are given on the alias node, already
 * in path order.
 */
module PluginTree {
  import opened Wrappers

  /**
   * An ordinary plugin, or an alias. For an alias, `target` holds the ordered
   * descendants of the aliased plugin when the alias has one (`hasattr(plugin,
   * "plugin")`), and `own` the alias's own ordered descendants.
   */
  datatype PluginKind =
    | Ordinary
    | Alias(target: Option<seq<nat>>, own: seq<nat>)

  /** A plugin instance with its `child_plugin_instances` (a missing list is the empty one). */
  datatype Plugin = Plugin(pk: nat, kind: PluginKind, children: seq<Plugin>)

  /** The list an alias child is replaced by. */
  function AliasDescendants(kind: PluginKind): (r: seq<nat>)
    requires kind.Alias?
    ensures kind.target.Some? ==> r == kind.target.value
    ensures kind.target.None? ==> r == kind.own
  {
    if kind.target.Some? then kind.target.value else kind.own
  }

  /** `get_nested_plugins(p, include_self)`. */
  function Nested(p: Plugin, includeSelf: bool): seq<nat>
    decreases p, 2
  {
    (if includeSelf then [p.pk] else []) + Contributions(p, 0, |p.children|)
  }

  /** What the children `lo` .. `hi - 1` of `p` add to the list, in child order. */
  function Contributions(p: Plugin, lo: nat, hi: nat): seq<nat>
    requires lo <= hi <= |p.children|
    decreases p, 1, hi
  {
    if hi == lo then [] else Contributions(p, lo, hi - 1) + Contribution(p.children[hi - 1])
  }

  /** What one child adds: the alias's descendants, taken as they are, or the child's own nested list, itself first. */
  function Contribution(c: Plugin): seq<nat>
    decreases c, 3
  {
    match c.kind
    case Alias(_, _) => AliasDescendants(c.kind)
    case Ordinary => Nested(c, true)
  }

  /** `get_nested_plugins`, extending a found list while it walks the children. */
  method GetNestedPlugins(p: Plugin, includeSelf: bool) returns (found: seq<nat>)
    ensures found == Nested(p, includeSelf)
    decreases p
  {
    found := [];
    if includeSelf {
      found := found + [p.pk];
    }
    var prefix := found;
    for i := 0 to |p.children|
      invariant found == prefix + Contributions(p, 0, i)
    {
      var child := p.children[i];
      if child.kind.Alias? {
        found := found + AliasDescendants(child.kind);
      } else {
        var nested := GetNestedPlugins(child, true);
        found := found + nested;
      }
    }
  }

  /** With `include_self` the plugin itself comes first; a plugin without children yields only that. */
  lemma NestedSelfFirst(p: Plugin, includeSelf: bool)
    ensures includeSelf ==> Nested(p, includeSelf) == [p.pk] + Nested(p, false)
    ensures p.children == [] ==> Nested(p, includeSelf) == (if includeSelf then [p.pk] else [])
  {
  }

  lemma {:induction false} ContributionsSplit(p: Plugin, lo: nat, mid: nat, hi: nat)
    requires lo <= mid <= hi <= |p.children|
    ensures Contributions(p, lo, hi) == Contributions(p, lo, mid) + Contributions(p, mid, hi)
    decreases hi
  {
    if hi > mid {
      ContributionsSplit(p, lo, mid, hi - 1);
    }
  }

  /**
   * Each child's contribution sits at that child's position: everything the
   * earlier children add, then this child's, then the later children's. For an
   * alias child that is exactly its descendants, not the alias, not re-expanded.
   */
  lemma ChildInPlace(p: Plugin, k: nat)
    requires k < |p.children|
    ensures Nested(p, false)
              == Contributions(p, 0, k) + Contribution(p.children[k]) + Contributions(p, k + 1, |p.children|)
    ensures (p.children[k].kind.Alias?) ==> Contribution(p.children[k]) == AliasDescendants(p.children[k].kind)
    ensures (p.children[k].kind.Ordinary?) ==> Contribution(p.children[k]) == [p.children[k].pk] + Nested(p.children[k], false)
  {
    var n := |p.children|;
    ContributionsSplit(p, 0, k, n);
    ContributionsSplit(p, k, k + 1, n);
    assert Contributions(p, k, k + 1) == Contribution(p.children[k]);
  }

  lemma {:induction false} InContributions(p: Plugin, lo: nat, hi: nat, x: nat)
    requires lo <= hi <= |p.children|
    ensures x in Contributions(p, lo, hi) <==> exists i :: lo <= i < hi && x in Contribution(p.children[i])
    decreases hi
  {
    if hi > lo {
      InContributions(p, lo, hi - 1, x);
    }
  }

  /** A key is listed exactly when it is the plugin itself (with `include_self`) or comes from one of the children. */
  lemma NestedMembership(p: Plugin, includeSelf: bool, x: nat)
    ensures (x in Nested(p, includeSelf))
              <==> (includeSelf && x == p.pk) || exists i :: 0 <= i < |p.children| && x in Contribution(p.children[i])
  {
    InContributions(p, 0, |p.children|, x);
  }

  // ---------------------------------------------------------------------------
  // get_plugin_tree

  /** A row of the plugin table: its key and its parent's key. */
  datatype PluginRow = PluginRow(pk: nat, parent: Option<nat>)

  predicate ChildOf(row: PluginRow, level: seq<PluginRow>)
  {
    row.parent.Some? && exists j :: 0 <= j < |level| && level[j].pk == row.parent.value
  }

  /** `get_next_level`: the table rows whose parent is in the current level, in table order. */
  function NextLevel(table: seq<PluginRow>, level: seq<PluginRow>): (r: seq<PluginRow>)
    ensures forall row :: row in r <==> row in table && ChildOf(row, level)
    ensures |r| <= |table|
  {
    if table == [] then []
    else
      var rest := NextLevel(table[1..], level);
      assert forall row :: row in table <==> row == table[0] || row in table[1..];
      if ChildOf(table[0], level) then [table[0]] + rest else rest
  }

  /** The level `n` steps below `start`. */
  function LevelAt(table: seq<PluginRow>, start: seq<PluginRow>, n: nat): seq<PluginRow>
  {
    if n == 0 then start else NextLevel(table, LevelAt(table, start, n - 1))
  }

  /** The levels 0 .. n below `start`, one after the other. */
  function Listing(table: seq<PluginRow>, start: seq<PluginRow>, n: nat): seq<PluginRow>
  {
    if n == 0 then start else Listing(table, start, n - 1) + LevelAt(table, start, n)
  }

  /** Every table row whose parent is listed is listed too. */
  predicate ClosedUnderChildren(table: seq<PluginRow>, list: seq<PluginRow>)
  {
    forall row, parent :: row in table && parent in list && row.parent == Some(parent.pk) ==> row in list
  }

  /** A rank on keys that grows from every parent to its child: the table has no cycle. */
  ghost predicate Ranked(table: seq<PluginRow>, rank: nat -> nat)
  {
    forall i :: 0 <= i < |table| && table[i].parent.Some? ==> rank(table[i].parent.value) < rank(table[i].pk)
  }

  ghost function MaxRank(table: seq<PluginRow>, rank: nat -> nat): (m: nat)
    ensures forall i :: 0 <= i < |table| ==> rank(table[i].pk) <= m
  {
    if table == [] then 0
    else
      var m := MaxRank(table[1..], rank);
      assert forall i :: 1 <= i < |table| ==> table[i] == table[1..][i - 1];
      if rank(table[0].pk) > m then rank(table[0].pk) else m
  }

  /** Every row of the next level ranks above every row of the current one's lowest rank. */
  lemma NextLevelRanks(table: seq<PluginRow>, level: seq<PluginRow>, rank: nat -> nat, d: nat)
    requires Ranked(table, rank)
    requires forall j :: 0 <= j < |level| ==> rank(level[j].pk) >= d
    ensures forall row :: row in NextLevel(table, level) ==> rank(row.pk) >= d + 1 && row in table
  {
    forall row | row in NextLevel(table, level) ensures rank(row.pk) >= d + 1 && row in table {
      var i :| 0 <= i < |table| && table[i] == row;
      var j :| 0 <= j < |level| && level[j].pk == row.parent.value;
    }
  }

  /**
   * `get_plugin_tree` up to the call of `build_plugin_tree`: the root, with its
   * parent cleared, then each next level for as long as that level is not empty.
   * `levels` is how many levels below the root were added.
   */
  method GetPluginTree(table: seq<PluginRow>, root: PluginRow, ghost rank: nat -> nat)
    returns (pluginList: seq<PluginRow>, ghost levels: nat)
    requires Ranked(table, rank)
    ensures pluginList == Listing(table, [root.(parent := None)], levels)
    ensures LevelAt(table, [root.(parent := None)], levels + 1) == []
    ensures forall k :: 1 <= k <= levels ==> LevelAt(table, [root.(parent := None)], k) != []
    ensures |pluginList| >= 1 && pluginList[0] == root.(parent := None)
    ensures ClosedUnderChildren(table, pluginList)
  {
    var plugin := root.(parent := None);
    var start := [plugin];
    var currentLevel := [plugin];
    pluginList := [plugin];
    levels := 0;
    ghost var bound := MaxRank(table, rank);
    while NextLevel(table, currentLevel) != []
      invariant currentLevel == LevelAt(table, start, levels)
      invariant pluginList == Listing(table, start, levels)
      invariant forall k :: 1 <= k <= levels ==> LevelAt(table, start, k) != []
      invariant RanksAtLeast(currentLevel, rank, levels)
      invariant levels <= bound + 1
      decreases bound + 1 - levels
    {
      LevelStep(table, start, levels, rank);
      currentLevel := NextLevel(table, currentLevel);
      pluginList := pluginList + currentLevel;
      levels := levels + 1;
    }
    CompleteListing(table, start, levels);
    ListingHead(table, start, levels);
  }

  /** Every row of `level` has rank at least `d`. */
  ghost predicate RanksAtLeast(level: seq<PluginRow>, rank: nat -> nat, d: nat)
  {
    forall j :: 0 <= j < |level| ==> rank(level[j].pk) >= d
  }

  /**
   * One turn of the loop: a non-empty next level ranks one higher than the
   * current one, so it fits under the table's highest rank, and it extends the listing.
   */
  lemma LevelStep(table: seq<PluginRow>, start: seq<PluginRow>, n: nat, rank: nat -> nat)
    requires Ranked(table, rank)
    requires RanksAtLeast(LevelAt(table, start, n), rank, n)
    requires NextLevel(table, LevelAt(table, start, n)) != []
    ensures LevelAt(table, start, n + 1) == NextLevel(table, LevelAt(table, start, n))
    ensures RanksAtLeast(LevelAt(table, start, n + 1), rank, n + 1)
    ensures n + 1 <= MaxRank(table, rank)
    ensures Listing(table, start, n + 1) == Listing(table, start, n) + LevelAt(table, start, n + 1)
  {
    var next := NextLevel(table, LevelAt(table, start, n));
    NextLevelRanks(table, LevelAt(table, start, n), rank, n);
    assert next[0] in table;
    assert forall j :: 0 <= j < |next| ==> next[j] in next;
  }

  /** A listing whose next level is empty starts with the start level and is closed under children. */
  lemma CompleteListing(table: seq<PluginRow>, start: seq<PluginRow>, n: nat)
    requires LevelAt(table, start, n + 1) == []
    ensures ClosedUnderChildren(table, Listing(table, start, n))
  {
    forall row, parent | row in table && parent in Listing(table, start, n) && row.parent == Some(parent.pk)
      ensures row in Listing(table, start, n)
    {
      ListingClosedUnderChildren(table, start, n, row, parent);
    }
  }

  /** The listing begins with the first row it started from. */
  lemma {:induction false} ListingHead(table: seq<PluginRow>, start: seq<PluginRow>, n: nat)
    requires start != []
    ensures |Listing(table, start, n)| >= 1 && Listing(table, start, n)[0] == start[0]
  {
    if n > 0 {
      ListingHead(table, start, n - 1);
    }
  }

  lemma {:induction false} InListing(table: seq<PluginRow>, start: seq<PluginRow>, n: nat, row: PluginRow)
    ensures row in Listing(table, start, n) <==> exists k :: 0 <= k <= n && row in LevelAt(table, start, k)
  {
    if n > 0 {
      InListing(table, start, n - 1, row);
      assert Listing(table, start, n) == Listing(table, start, n - 1) + LevelAt(table, start, n);
      if exists k :: 0 <= k <= n && row in LevelAt(table, start, k) {
        var k :| 0 <= k <= n && row in LevelAt(table, start, k);
        if k == n {
          assert row in LevelAt(table, start, n);
        } else {
          assert exists k' :: 0 <= k' <= n - 1 && row in LevelAt(table, start, k');
          assert row in Listing(table, start, n - 1);
        }
      }
    } else {
      if row in Listing(table, start, n) {
        assert row in LevelAt(table, start, 0);
      }
    }
  }

  /**
   * Once the level after the last is empty, the listing holds every table row
   * whose parent it holds: it is the whole subtree below the root.
   */
  lemma ListingClosedUnderChildren(table: seq<PluginRow>, start: seq<PluginRow>, n: nat, row: PluginRow, parent: PluginRow)
    requires LevelAt(table, start, n + 1) == []
    requires row in table && parent in Listing(table, start, n) && row.parent == Some(parent.pk)
    ensures row in Listing(table, start, n)
  {
    InListing(table, start, n, parent);
    var k :| 0 <= k <= n && parent in LevelAt(table, start, k);
    var level := LevelAt(table, start, k);
    var j :| 0 <= j < |level| && level[j] == parent;
    assert ChildOf(row, level);
    assert row in LevelAt(table, start, k + 1);
    assert exists k' :: 0 <= k' <= n && row in LevelAt(table, start, k');
    InListing(table, start, n, row);
  }

  /** Every row listed after the root is a table row whose parent is listed in the level before it. */
  lemma ListingRowsAreChildren(table: seq<PluginRow>, start: seq<PluginRow>, k: nat, row: PluginRow)
    requires k >= 1 && row in LevelAt(table, start, k)
    ensures row in table && ChildOf(row, LevelAt(table, start, k - 1))
  {
  }
}
