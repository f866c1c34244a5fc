/** The notification cache file (`load_cache` / `save_cache`): a list of ids on
    disk, a set in memory. */
module NotifyCache {

  import opened Wrappers
  import opened Offenses

  /** Contents of the cache file: `None` when the file does not exist. */
  type CacheFile = Option<seq<Id>>

  /** `load_cache`: a missing file gives the empty set, an existing one the set
      of the ids it lists (duplicates collapse). */
  function Load(file: CacheFile): (cache: set<Id>)
    ensures file.None? ==> cache == {}
    ensures file.Some? ==> forall x :: x in cache <==> x in file.value
  {
    match file
    case None => {}
    case Some(ids) => set x | x in ids
  }

  /** `save_cache`: writes the set out as a list, in whatever order the set is
      iterated, each id once; loading the list gives the set back. */
  method Save(cache: set<Id>) returns (ids: seq<Id>)
    ensures |ids| == |cache|
    ensures forall k, l :: 0 <= k < l < |ids| ==> ids[k] != ids[l]
    ensures Load(Some(ids)) == cache
  {
    ids := [];
    var rest := cache;
    while rest != {}
      invariant rest <= cache
      invariant forall y :: y in ids <==> y in cache && y !in rest
      invariant |ids| + |rest| == |cache|
      invariant forall k, l :: 0 <= k < l < |ids| ==> ids[k] != ids[l]
      decreases rest
    {
      NonEmptyHasMember(rest);
      var x :| x in rest;
      ids := ids + [x];
      rest := rest - {x};
    }
    assert forall x :: x in Load(Some(ids)) <==> x in cache;
  }

  lemma NonEmptyHasMember(s: set<Id>)
    requires s != {}
    ensures exists x :: x in s
  {
    if forall x :: x !in s {
      assert false;
    }
  }
}
