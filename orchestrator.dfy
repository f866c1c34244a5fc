/** One run of the script (its `__main__` block): load the cache, fetch the open
    offenses, post every offense whose id is not cached yet and cache its id,
    save the cache. */
module Orchestrator {

  import opened Wrappers
  import opened Offenses
  import opened Formatter
  import NotifyCache

  /** The set of ids carried by a list of offenses. */
  function IdSet(os: seq<Offense>): (ids: set<Id>)
    ensures forall i :: 0 <= i < |os| ==> os[i].id in ids
  {
    set i | 0 <= i < |os| :: os[i].id
  }

  lemma IdSetAppend(a: seq<Offense>, b: seq<Offense>)
    ensures IdSet(a + b) == IdSet(a) + IdSet(b)
  {
    var s := a + b;
    forall x | x in IdSet(s) ensures x in IdSet(a) + IdSet(b) {
      var i :| 0 <= i < |s| && s[i].id == x;
      if i < |a| { assert s[i] == a[i]; } else { assert s[i] == b[i - |a|]; }
    }
    forall x | x in IdSet(a) + IdSet(b) ensures x in IdSet(s) {
      if x in IdSet(a) {
        var i :| 0 <= i < |a| && a[i].id == x;
        assert s[i] == a[i];
      } else {
        var i :| 0 <= i < |b| && b[i].id == x;
        assert s[|a| + i] == b[i];
      }
    }
  }

  lemma IdSetSnoc(os: seq<Offense>, o: Offense)
    ensures IdSet(os + [o]) == IdSet(os) + {o.id}
  {
    IdSetAppend(os, [o]);
    forall x | x in IdSet([o]) ensures x == o.id {
      var i :| 0 <= i < 1 && [o][i].id == x;
    }
    assert [o][0].id == o.id;
  }

  /** What the fetch gives the run: the offense list, or nothing when the request
      failed (`get_siem_offenses` returns an empty list then). */
  function Fetched(response: Option<seq<Offense>>): (os: seq<Offense>)
    ensures response.None? ==> os == []
    ensures response.Some? ==> os == response.value
  {
    response.GetOr([])
  }

  /** The offenses a run posts, in fetch order: each offense whose id is neither in
      the cache the run started with nor carried by an earlier offense of the list. */
  function Pending(cache0: set<Id>, os: seq<Offense>): (p: seq<Offense>)
    ensures |p| <= |os|
    decreases |os|
  {
    if os == [] then []
    else
      var prefix := os[..|os| - 1];
      var last := os[|os| - 1];
      Pending(cache0, prefix) + (if last.id in cache0 + IdSet(prefix) then [] else [last])
  }

  /** Record of one `post_telegram_issue` call: the id, the text sent, and whether
      delivery succeeded (which the run ignores). */
  datatype Post = Post(id: Id, message: string, delivered: bool)

  /** Formats `o` with `format` and hands the text to the sink; `sink` stands for
      the Telegram request and answers whether it succeeded. */
  function Attempt(format: Offense -> string, sink: string -> bool, o: Offense): Post {
    Post(o.id, format(o), sink(format(o)))
  }

  /** The ids a log of posts names. */
  function PostedIds(log: seq<Post>): set<Id> {
    set k | 0 <= k < |log| :: log[k].id
  }

  function Attempts(format: Offense -> string, sink: string -> bool, os: seq<Offense>): seq<Post> {
    seq(|os|, k requires 0 <= k < |os| => Attempt(format, sink, os[k]))
  }

  lemma PendingSnoc(cache0: set<Id>, os: seq<Offense>, o: Offense)
    ensures Pending(cache0, os + [o]) ==
      Pending(cache0, os) + (if o.id in cache0 + IdSet(os) then [] else [o])
  {
    assert (os + [o])[..|os|] == os;
  }

  lemma AttemptsSnoc(format: Offense -> string, sink: string -> bool, os: seq<Offense>, o: Offense)
    ensures Attempts(format, sink, os + [o]) == Attempts(format, sink, os) + [Attempt(format, sink, o)]
  {
  }

  /** An offense i is posted by a run exactly when it is the first of the list
      to carry its id and that id was not cached before the run. */
  predicate FirstNew(cache0: set<Id>, os: seq<Offense>, i: int)
    requires 0 <= i < |os|
  {
    os[i].id !in cache0 && forall j :: 0 <= j < i ==> os[j].id != os[i].id
  }

  // ---------------------------------------------------------------------------
  // The run loop

  /** The loop of the `__main__` block. Starting from the loaded cache, it walks the
      fetched offenses in order; an offense whose id is not in the cache is
      formatted (`format`, which a run binds to `Formatter.Message`) and posted,
      and its id is added whatever the post returned. */
  method RunLoop(cache0: set<Id>, offenses: seq<Offense>, format: Offense -> string, sink: string -> bool)
    returns (cache: set<Id>, log: seq<Post>)
    ensures cache == cache0 + IdSet(offenses)
    ensures log == Attempts(format, sink, Pending(cache0, offenses))
    ensures forall k :: 0 <= k < |log| ==> log[k].id !in cache0
    ensures forall k, l :: 0 <= k < l < |log| ==> log[k].id != log[l].id
    ensures PostedIds(log) == IdSet(offenses) - cache0
  {
    cache := cache0;
    log := [];
    var i := 0;
    while i < |offenses|
      invariant 0 <= i <= |offenses|
      invariant cache == cache0 + IdSet(offenses[..i])
      invariant log == Attempts(format, sink, Pending(cache0, offenses[..i]))
    {
      var offense := offenses[i];
      LoopStep(cache0, offenses, i, format, sink);
      if offense.id !in cache {
        var text := format(offense);
        var delivered := sink(text);
        log := log + [Post(offense.id, text, delivered)];
        cache := cache + {offense.id};
      }
      i := i + 1;
    }
    assert offenses[..i] == offenses;
    assert log == Attempts(format, sink, Pending(cache0, offenses));
    AttemptsDedup(format, sink, cache0, offenses);
  }

  /** One iteration of the loop: the cache gains the offense's id, and the log
      gains a post exactly when that id was neither cached nor seen earlier. */
  lemma LoopStep(cache0: set<Id>, os: seq<Offense>, i: nat, format: Offense -> string, sink: string -> bool)
    requires i < |os|
    ensures IdSet(os[..i + 1]) == IdSet(os[..i]) + {os[i].id}
    ensures Attempts(format, sink, Pending(cache0, os[..i + 1])) ==
      Attempts(format, sink, Pending(cache0, os[..i])) +
      (if os[i].id in cache0 + IdSet(os[..i]) then [] else [Attempt(format, sink, os[i])])
  {
    assert os[..i + 1] == os[..i] + [os[i]];
    IdSetSnoc(os[..i], os[i]);
    PendingSnoc(cache0, os[..i], os[i]);
    AttemptsSnoc(format, sink, Pending(cache0, os[..i]), os[i]);
  }

  /** The dedup guarantees, read off the posts of a run. */
  lemma AttemptsDedup(format: Offense -> string, sink: string -> bool, cache0: set<Id>, offenses: seq<Offense>)
    ensures var log := Attempts(format, sink, Pending(cache0, offenses));
      (forall k :: 0 <= k < |log| ==> log[k].id !in cache0) &&
      (forall k, l :: 0 <= k < l < |log| ==> log[k].id != log[l].id) &&
      PostedIds(log) == IdSet(offenses) - cache0
  {
    var p := Pending(cache0, offenses);
    var log := Attempts(format, sink, p);
    PendingFresh(cache0, offenses);
    PendingDistinct(cache0, offenses);
    PendingIds(cache0, offenses);
    assert PostedIds(log) == IdSet(p) by {
      forall x | x in IdSet(p) ensures x in PostedIds(log) {
        var k :| 0 <= k < |p| && p[k].id == x;
        assert log[k].id == x;
      }
    }
  }

  // ---------------------------------------------------------------------------
  // Properties of Pending

  /** No posted offense carries an id cached before the run, and every posted
      offense is one of the fetched ones. */
  lemma {:induction false} PendingFresh(cache0: set<Id>, os: seq<Offense>)
    ensures forall k :: 0 <= k < |Pending(cache0, os)| ==>
      Pending(cache0, os)[k].id !in cache0 && Pending(cache0, os)[k] in os
    decreases |os|
  {
    if os != [] {
      var prefix := os[..|os| - 1];
      PendingFresh(cache0, prefix);
      forall k | 0 <= k < |Pending(cache0, prefix)| ensures Pending(cache0, prefix)[k] in os {
        var i :| 0 <= i < |prefix| && prefix[i] == Pending(cache0, prefix)[k];
        assert os[i] == prefix[i];
      }
    }
  }

  /** A run posts each id at most once, even when the fetch returns it repeatedly. */
  lemma {:induction false} PendingDistinct(cache0: set<Id>, os: seq<Offense>)
    ensures forall k, l :: 0 <= k < l < |Pending(cache0, os)| ==>
      Pending(cache0, os)[k].id != Pending(cache0, os)[l].id
    decreases |os|
  {
    if os != [] {
      var prefix := os[..|os| - 1];
      PendingDistinct(cache0, prefix);
      PendingIds(cache0, prefix);
      var pp := Pending(cache0, prefix);
      forall k | 0 <= k < |pp| ensures pp[k].id in IdSet(prefix) {
        assert pp[k].id in IdSet(pp);
      }
    }
  }

  /** The ids a run posts are exactly the fetched ids that were not cached. */
  lemma {:induction false} PendingIds(cache0: set<Id>, os: seq<Offense>)
    ensures IdSet(Pending(cache0, os)) == IdSet(os) - cache0
    decreases |os|
  {
    if os != [] {
      var prefix := os[..|os| - 1];
      var last := os[|os| - 1];
      assert os == prefix + [last];
      PendingIds(cache0, prefix);
      IdSetSnoc(prefix, last);
      var pp := Pending(cache0, prefix);
      if last.id in cache0 + IdSet(prefix) {
        assert Pending(cache0, os) == pp;
      } else {
        assert Pending(cache0, os) == pp + [last];
        IdSetSnoc(pp, last);
      }
    }
  }

  /** The posts of a run are, in order, the offenses that are first to carry a
      not yet cached id: `ix` lists their positions in the fetched list. */
  lemma {:induction false} PendingSelects(cache0: set<Id>, os: seq<Offense>) returns (ix: seq<nat>)
    ensures |ix| == |Pending(cache0, os)|
    ensures forall k :: 0 <= k < |ix| ==> ix[k] < |os| && Pending(cache0, os)[k] == os[ix[k]]
    ensures forall k, l :: 0 <= k < l < |ix| ==> ix[k] < ix[l]
    ensures forall k :: 0 <= k < |ix| ==> FirstNew(cache0, os, ix[k])
    ensures forall i :: 0 <= i < |os| && FirstNew(cache0, os, i) ==> i in ix
    decreases |os|
  {
    if os == [] {
      ix := [];
    } else {
      var n := |os| - 1;
      var prefix := os[..n];
      var last := os[n];
      assert os == prefix + [last];
      PendingSnoc(cache0, prefix, last);
      var ix0 := PendingSelects(cache0, prefix);
      var pp := Pending(cache0, prefix);
      forall i | 0 <= i < n
        ensures FirstNew(cache0, prefix, i) == FirstNew(cache0, os, i)
      {
        FirstNewPrefix(cache0, os, i);
      }
      if last.id in cache0 + IdSet(prefix) {
        ix := ix0;
        assert Pending(cache0, os) == pp;
        if last.id !in cache0 {
          var j :| 0 <= j < n && prefix[j].id == last.id;
          assert os[j].id == os[n].id;
        }
        assert !FirstNew(cache0, os, n);
      } else {
        ix := ix0 + [n];
        assert Pending(cache0, os) == pp + [last];
        forall j | 0 <= j < n ensures os[j].id != last.id {
          assert prefix[j].id in IdSet(prefix);
        }
        assert FirstNew(cache0, os, n);
      }
    }
  }

  lemma FirstNewPrefix(cache0: set<Id>, os: seq<Offense>, i: int)
    requires 0 <= i < |os| - 1
    ensures FirstNew(cache0, os[..|os| - 1], i) == FirstNew(cache0, os, i)
  {
    var prefix := os[..|os| - 1];
    assert forall j :: 0 <= j <= i ==> prefix[j] == os[j];
  }

  /** A run posts nothing exactly when every fetched id is already cached; in
      particular a second run over the same list, or a run whose fetch failed,
      posts nothing. */
  lemma {:induction false} PendingEmpty(cache0: set<Id>, os: seq<Offense>)
    ensures Pending(cache0, os) == [] <==> IdSet(os) <= cache0
  {
    var p := Pending(cache0, os);
    PendingIds(cache0, os);
    if p == [] {
      assert IdSet(p) == {};
      forall x | x in IdSet(os) ensures x in cache0 {
        assert x !in IdSet(os) - cache0;
      }
    } else {
      assert p[0].id in IdSet(p);
    }
  }

  /** Running over `os1 + os2` posts what a run over `os1` posts, then what a run
      over `os2` posts starting from the cache the first left behind. */
  lemma {:induction false} PendingAppend(cache0: set<Id>, os1: seq<Offense>, os2: seq<Offense>)
    ensures Pending(cache0, os1 + os2) == Pending(cache0, os1) + Pending(cache0 + IdSet(os1), os2)
    decreases |os2|
  {
    if os2 == [] {
      assert os1 + os2 == os1;
    } else {
      var prefix2 := os2[..|os2| - 1];
      var last := os2[|os2| - 1];
      assert os2 == prefix2 + [last];
      assert os1 + os2 == (os1 + prefix2) + [last];
      PendingSnoc(cache0, os1 + prefix2, last);
      PendingSnoc(cache0 + IdSet(os1), prefix2, last);
      PendingAppend(cache0, os1, prefix2);
      IdSetAppend(os1, prefix2);
    }
  }

  /** Idempotence: after a run over `os`, whose cache is `cache0 + IdSet(os)`
      (`RunLoop`), a second run over `os` posts nothing, and a second run over a
      list that repeats `os` and adds `more` posts only what `more` brings. The
      second run's cache, again by `RunLoop`, adds only ids it already holds
      when the list is `os`. */
  lemma Rerun(cache0: set<Id>, os: seq<Offense>, more: seq<Offense>)
    ensures Pending(cache0 + IdSet(os), os + more) == Pending(cache0 + IdSet(os), more)
    ensures Pending(cache0 + IdSet(os), os) == []
  {
    var cache1 := cache0 + IdSet(os);
    PendingEmpty(cache1, os);
    PendingAppend(cache1, os, more);
  }

  // ---------------------------------------------------------------------------
  // A whole run

  /** The `__main__` block: load the cache file, take the fetched offenses (none
      if the fetch failed), run the loop, and save the cache, always. */
  method Run(file: NotifyCache.CacheFile, response: Option<seq<Offense>>,
             siemUrl: string, showTime: int -> string, sink: string -> bool)
    returns (saved: seq<Id>, log: seq<Post>)
    ensures NotifyCache.Load(Some(saved)) == NotifyCache.Load(file) + IdSet(Fetched(response))
    ensures log == Attempts(o => Message(siemUrl, showTime, o), sink, Pending(NotifyCache.Load(file), Fetched(response)))
    ensures response.None? ==> log == [] && NotifyCache.Load(Some(saved)) == NotifyCache.Load(file)
  {
    var cache := NotifyCache.Load(file);
    var offenses := Fetched(response);
    cache, log := RunLoop(cache, offenses, o => Message(siemUrl, showTime, o), sink);
    saved := NotifyCache.Save(cache);
  }
}
