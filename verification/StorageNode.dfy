/** The batch commands of a storage node: modifications are collected key by key against one snapshot
    and handed over only if every key succeeds, which makes each batch all-or-nothing. */
module StorageNode {
  import opened Bytes
  import opened Percolator

  /** The new records of one key. */
  datatype Modify = Modify(key: Key, cell: Cell)

  /** The cells after a list of modifications, later ones last. */
  function Applied(cells: Cells, mods: seq<Modify>): (r: Cells)
  {
    if mods == [] then cells
    else
      var m := mods[|mods| - 1];
      Applied(cells, mods[..|mods| - 1])[m.key := m.cell]
  }

  function KeysOf(keys: seq<Key>): set<Key> {
    set k | k in keys
  }

  /** Applying one more modification, for a loop that appends. */
  lemma AppliedAppend(cells: Cells, mods: seq<Modify>, m: Modify)
    ensures Applied(cells, mods + [m]) == Applied(cells, mods)[m.key := m.cell]
  {
    assert (mods + [m])[..|mods|] == mods;
  }

  /** Prewrite of a batch: an error on any key leaves no modification at all. */
  method PrewriteModifies(cfg: Config, cells: Cells, keys: seq<Key>) returns (r: Option<seq<Modify>>)
    requires KeysOf(keys) <= cells.Keys
    ensures r.Some? <==> forall k | k in keys :: AcceptsPrewrite(cfg, cells[k])
    ensures r.Some? ==> Applied(cells, r.value) == PrewriteAll(cells, KeysOf(keys))
  {
    var mods: seq<Modify> := [];
    for i := 0 to |keys|
      invariant forall j | 0 <= j < i :: AcceptsPrewrite(cfg, cells[keys[j]])
      invariant Applied(cells, mods) == PrewriteAll(cells, KeysOf(keys[..i]))
    {
      assert keys[i] in KeysOf(keys);
      var c := cells[keys[i]];
      if !AcceptsPrewrite(cfg, c) {
        return None;
      }
      if !c.locked {
        AppliedAppend(cells, mods, Modify(keys[i], PrewriteCell(c)));
        mods := mods + [Modify(keys[i], PrewriteCell(c))];
      }
      assert KeysOf(keys[..i + 1]) == KeysOf(keys[..i]) + {keys[i]};
    }
    assert keys[..|keys|] == keys;
    return Some(mods);
  }

  method CommitModifies(cells: Cells, keys: seq<Key>, ts: Timestamp) returns (r: Option<seq<Modify>>)
    requires KeysOf(keys) <= cells.Keys
    ensures r.Some? <==> forall k | k in keys :: cells[k].locked
    ensures r.Some? ==> Applied(cells, r.value) == CommitAll(cells, KeysOf(keys), ts)
  {
    var mods: seq<Modify> := [];
    for i := 0 to |keys|
      invariant forall j | 0 <= j < i :: cells[keys[j]].locked
      invariant Applied(cells, mods) == CommitAll(cells, KeysOf(keys[..i]), ts)
    {
      assert keys[i] in KeysOf(keys);
      var c := cells[keys[i]];
      if !c.locked {
        return None;
      }
      AppliedAppend(cells, mods, Modify(keys[i], CommitCell(c, ts)));
      mods := mods + [Modify(keys[i], CommitCell(c, ts))];
      assert KeysOf(keys[..i + 1]) == KeysOf(keys[..i]) + {keys[i]};
    }
    assert keys[..|keys|] == keys;
    return Some(mods);
  }

  method BatchRollbackModifies(cells: Cells, keys: seq<Key>) returns (r: Option<seq<Modify>>)
    requires KeysOf(keys) <= cells.Keys
    ensures r.Some? <==> forall k | k in keys :: cells[k].commitTS == 0
    ensures r.Some? ==> Applied(cells, r.value) == RollbackAll(cells, KeysOf(keys))
  {
    var mods: seq<Modify> := [];
    for i := 0 to |keys|
      invariant forall j | 0 <= j < i :: cells[keys[j]].commitTS == 0
      invariant Applied(cells, mods) == RollbackAll(cells, KeysOf(keys[..i]))
    {
      assert keys[i] in KeysOf(keys);
      var c := cells[keys[i]];
      if c.commitTS != 0 {
        return None;
      }
      if !c.rolledBack {
        AppliedAppend(cells, mods, Modify(keys[i], RollbackCell(c)));
        mods := mods + [Modify(keys[i], RollbackCell(c))];
      }
      assert KeysOf(keys[..i + 1]) == KeysOf(keys[..i]) + {keys[i]};
    }
    assert keys[..|keys|] == keys;
    return Some(mods);
  }
}
