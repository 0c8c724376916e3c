/**
 * What the backend's operations amount to together: reading back what was written,
 * deleting twice, listings that depend only on which blobs exist and not on the order
 * the service enumerates them in, and a worked listing of a small tree.
 */
module Properties {
  import opened Wrappers
  import opened Errors
  import opened Keys
  import opened Remote
  import opened Permits
  import opened Config
  import opened Azure

  /** With no injected fault, a Get after a successful Put returns the entry just written. */
  lemma GetAfterPut(s: Store, key: string, value: seq<byte>)
    requires WellFormed(s) && s.containerExists
    ensures PutOutcome(ContainerCallFailure(None, s)) == None
    ensures GetOutcome(key, DownloadResult(None, Uploaded(s, key, value), key)) == Success(Some(Entry(key, value)))
  {
  }

  /** A Put changes what Get reports for its own key only. */
  lemma PutKeepsOthers(s: Store, key: string, value: seq<byte>, other: string)
    requires WellFormed(s) && other != key
    ensures DownloadResult(None, Uploaded(s, key, value), other) == DownloadResult(None, s, other)
  {
  }

  /**
   * With no injected fault, Delete succeeds whether or not the key exists, a Get after
   * it finds nothing, and deleting again succeeds too.
   */
  lemma DeleteIdempotent(s: Store, key: string)
    requires WellFormed(s) && s.containerExists
    ensures DeleteOutcome(key, DeleteFailure(None, s, key)) == None
    ensures var after := if DeleteFailure(None, s, key).None? then Removed(s, key) else s;
            GetOutcome(key, DownloadResult(None, after, key)) == Success(None) &&
            DeleteOutcome(key, DeleteFailure(None, after, key)) == None
  {
  }

  /** A blob written under the prefix shows up in the listing, as its leaf or its directory. */
  lemma ListAfterPut(s: Store, key: string, value: seq<byte>, prefix: string)
    requires WellFormed(s) && HasPrefix(key, prefix)
    ensures ListEntry(prefix, key) in ListKeys(prefix, Matching(Uploaded(s, key, value).names, prefix))
  {
    var names := Uploaded(s, key, value).names;
    MatchingMembers(names, prefix);
    assert key in Matching(names, prefix);
  }

  /** A deleted blob that was a leaf directly under the prefix is no longer listed. */
  lemma ListAfterDelete(s: Store, key: string, prefix: string)
    requires WellFormed(s) && HasPrefix(key, prefix) && IsLeaf(TrimPrefix(key, prefix))
    ensures ListEntry(prefix, key) !in ListKeys(prefix, Matching(Removed(s, key).names, prefix))
  {
    var names := Matching(Removed(s, key).names, prefix);
    MatchingMembers(Removed(s, key).names, prefix);
    forall n | n in names && ListEntry(prefix, n) == ListEntry(prefix, key)
      ensures false
    {
      LeafEntryInjective(prefix, key, n);
    }
  }

  /**
   * The listing does not depend on the enumeration order: two orders of the same
   * distinct names give the same keys.
   */
  lemma ListOrderIndependent(prefix: string, a: seq<string>, b: seq<string>)
    requires Distinct(a) && Distinct(b)
    requires forall n :: n in a <==> n in b
    ensures ListKeys(prefix, Matching(a, prefix)) == ListKeys(prefix, Matching(b, prefix))
  {
    var ma, mb := Matching(a, prefix), Matching(b, prefix);
    MatchingMembers(a, prefix);
    MatchingMembers(b, prefix);
    ListKeysStrict(prefix, ma);
    ListKeysStrict(prefix, mb);
    assert forall x :: x in Entries(prefix, ma) <==> x in Entries(prefix, mb) by {
      forall x ensures x in Entries(prefix, ma) ==> x in Entries(prefix, mb) {
        if x in Entries(prefix, ma) {
          var n :| n in ma && ListEntry(prefix, n) == x;
          assert n in mb;
        }
      }
      forall x ensures x in Entries(prefix, mb) ==> x in Entries(prefix, ma) {
        if x in Entries(prefix, mb) {
          var n :| n in mb && ListEntry(prefix, n) == x;
          assert n in ma;
        }
      }
    }
    StrictlySortedUnique(ListKeys(prefix, ma), ListKeys(prefix, mb));
  }

  /** Two stores holding the same blob names list the same keys under every prefix. */
  lemma ListDependsOnBlobsOnly(s: Store, t: Store, prefix: string)
    requires WellFormed(s) && WellFormed(t) && s.blobs.Keys == t.blobs.Keys
    ensures ListKeys(prefix, Matching(s.names, prefix)) == ListKeys(prefix, Matching(t.names, prefix))
  {
    assert forall n :: n in s.names <==> n in t.names by {
      forall n ensures n in s.names <==> n in t.names {
        assert n in s.names <==> n in s.blobs.Keys;
        assert n in t.names <==> n in t.blobs.Keys;
      }
    }
    ListOrderIndependent(prefix, s.names, t.names);
  }

  /**
   * A store with blobs `a`, `b/c`, `b/d` and `e/f/g`: the top level, whose listing is
   * every name, lists `a`, `b/` and `e/`, and under `b/` the leaves `c` and `d`.
   */
  lemma ListTree()
    ensures Matching(["a", "b/c", "b/d", "e/f/g"], "") == ["a", "b/c", "b/d", "e/f/g"]
    ensures ListKeys("", ["a", "b/c", "b/d", "e/f/g"]) == ["a", "b/", "e/"]
    ensures Matching(["a", "b/c", "b/d", "e/f/g"], "b/") == ["b/c", "b/d"]
    ensures ListKeys("b/", ["b/c", "b/d"]) == ["c", "d"]
  {
    MatchingEmptyPrefix(["a", "b/c", "b/d", "e/f/g"]);
    TreeTop();
    TreeMatching();
    TreeSub();
  }

  lemma TreeTop()
    ensures ListKeys("", ["a", "b/c", "b/d", "e/f/g"]) == ["a", "b/", "e/"]
  {
    TopDistinct();
    EmptyPrefix(["a", "b/c", "b/d", "e/f/g"]);
    TopEntryList();
    TopKeys();
    TopOrder();
    ListFrom("", ["a", "b/c", "b/d", "e/f/g"], ["a", "b/", "b/", "e/"], ["a", "b/", "e/"]);
  }

  /** Listing with the empty prefix enumerates every name, in the store's order. */
  lemma {:induction false} MatchingEmptyPrefix(names: seq<string>)
    ensures Matching(names, "") == names
  {
    if names != [] {
      assert names[0][..0] == "";
      MatchingEmptyPrefix(names[1..]);
    }
  }

  /** Every name is under the empty prefix. */
  lemma EmptyPrefix(names: seq<string>)
    ensures forall n :: n in names ==> HasPrefix(n, "")
  {
    forall n | n in names ensures HasPrefix(n, "") {
      assert n[..0] == "";
    }
  }

  lemma TopEntryList()
    ensures forall i :: 0 <= i < 4 ==> ListEntry("", ["a", "b/c", "b/d", "e/f/g"][i]) == ["a", "b/", "b/", "e/"][i]
  {
    var top, entries := ["a", "b/c", "b/d", "e/f/g"], ["a", "b/", "b/", "e/"];
    TopEntries();
    forall i | 0 <= i < 4 ensures ListEntry("", top[i]) == entries[i] {
      if i == 0 {
        assert top[0] == "a" && entries[0] == "a";
      } else if i == 1 {
        assert top[1] == "b/c" && entries[1] == "b/";
      } else if i == 2 {
        assert top[2] == "b/d" && entries[2] == "b/";
      } else {
        assert top[3] == "e/f/g" && entries[3] == "e/";
      }
    }
  }

  lemma TopKeys()
    ensures forall x :: x in ["a", "b/", "e/"] <==> x in ["a", "b/", "b/", "e/"]
  {
  }

  lemma TopEntries()
    ensures ListEntry("", "a") == "a" && ListEntry("", "b/c") == "b/"
    ensures ListEntry("", "b/d") == "b/" && ListEntry("", "e/f/g") == "e/"
  {
    assert TrimPrefix("a", "") == "a";
    DirAtSecond("b/c");
    DirAtSecond("b/d");
    DirAtSecond("e/f/g");
  }

  lemma TopOrder()
    ensures StrictlySorted(["a", "b/", "e/"])
  {
    assert Less("a", "b/") && Less("a", "e/") && Less("b/", "e/");
  }

  /** A top-level name whose second character is the first delimiter lists as its first two characters. */
  lemma DirAtSecond(s: string)
    requires |s| >= 2 && s[0] != Delimiter && s[1] == Delimiter
    ensures ListEntry("", s) == [s[0], Delimiter]
  {
    assert s[..2] == [s[0], Delimiter];
    assert TrimPrefix(s, "") == s;
    assert IndexOfDelimiter(s[1..]) == 0;
  }

  lemma TopDistinct()
    ensures Distinct(["a", "b/c", "b/d", "e/f/g"])
  {
    assert "b/c"[2] != "b/d"[2];
    assert "b/c"[0] != "e/f/g"[0] && "b/d"[0] != "e/f/g"[0];
  }

  lemma TreeMatching()
    ensures Matching(["a", "b/c", "b/d", "e/f/g"], "b/") == ["b/c", "b/d"]
  {
    var top := ["a", "b/c", "b/d", "e/f/g"];
    assert top[1..] == ["b/c", "b/d", "e/f/g"];
    assert top[1..][1..] == ["b/d", "e/f/g"];
    assert top[1..][1..][1..] == ["e/f/g"];
    assert "b/c"[..2] == "b/" && "b/d"[..2] == "b/";
    assert "e/f/g"[..2][0] != "b/"[0];
  }

  lemma TreeSub()
    ensures ListKeys("b/", ["b/c", "b/d"]) == ["c", "d"]
  {
    assert "b/c"[..2] == "b/" && "b/d"[..2] == "b/";
    assert ListEntry("b/", "b/c") == "c";
    assert ListEntry("b/", "b/d") == "d";
    assert "b/c"[2] != "b/d"[2];
    ListFrom("b/", ["b/c", "b/d"], ["c", "d"], ["c", "d"]);
  }

  /**
   * A listing of distinct names under the prefix, whose entries are `entries` one by
   * one, is the strictly ascending sequence of those entries.
   */
  lemma ListFrom(prefix: string, names: seq<string>, entries: seq<string>, keys: seq<string>)
    requires Distinct(names) && forall n :: n in names ==> HasPrefix(n, prefix)
    requires |entries| == |names| && forall i :: 0 <= i < |names| ==> ListEntry(prefix, names[i]) == entries[i]
    requires StrictlySorted(keys) && forall x :: x in keys <==> x in entries
    ensures ListKeys(prefix, names) == keys
  {
    ListKeysStrict(prefix, names);
    forall x ensures x in Entries(prefix, names) <==> x in entries {
      if x in entries {
        var i :| 0 <= i < |entries| && entries[i] == x;
        assert names[i] in names;
      }
    }
    StrictlySortedUnique(ListKeys(prefix, names), keys);
  }

  /**
   * A client writing and reading back one key on a backend whose container exists and
   * whose remote calls do not fail.
   */
  method PutThenGet(b: AzureBackend, key: string, value: seq<byte>) returns (r: Result<Option<Entry>, BackendError>)
    requires b.Valid() && b.container.store.containerExists && Healthy(b.container.faults)
    requires |value| < MaxBlobSize
    modifies b.container, b.pool
    ensures r == Success(Some(Entry(key, value)))
  {
    var err := b.Put(key, value);
    assert Healthy(b.container.faults) by {
      assert forall i :: 0 <= i < |b.container.faults| ==> b.container.faults[i] == old(b.container.faults)[i + 1];
    }
    r := b.Get(key);
  }

  /** A client deleting one key twice: both deletes succeed, and a Get afterwards finds nothing. */
  method DeleteTwice(b: AzureBackend, key: string) returns (first: Option<BackendError>, second: Option<BackendError>, got: Result<Option<Entry>, BackendError>)
    requires b.Valid() && b.container.store.containerExists && Healthy(b.container.faults)
    modifies b.container, b.pool
    ensures first == None && second == None && got == Success(None)
  {
    first := b.Delete(key);
    assert Healthy(b.container.faults) by {
      assert forall i :: 0 <= i < |b.container.faults| ==> b.container.faults[i] == old(b.container.faults)[i + 1];
    }
    ghost var mid := b.container.faults;
    second := b.Delete(key);
    assert Healthy(b.container.faults) by {
      assert forall i :: 0 <= i < |b.container.faults| ==> b.container.faults[i] == mid[i + 1];
    }
    got := b.Get(key);
  }
  /**
   * Construction provisions a missing container: with the settings present, no
   * max_parallel and no injected fault, New probes, creates the container, and builds
   * a backend over it.
   */
  method NewCreatesContainer(conf: map<string, string>, env: map<string, string>, remote: Container)
      returns (r: Result<AzureBackend, BackendError>)
    requires remote.Valid() && !remote.store.containerExists && Healthy(remote.faults)
    requires ResolveSettings(env, conf).Success? && KeyMaxParallel !in conf
    modifies remote
    ensures r.Success? && r.value.container == remote && r.value.pool.capacity == 0
    ensures remote.store.containerExists && remote.log == old(remote.log) + [ProbeCall, CreateCall(false)]
  {
    assert Head(Rest(remote.faults)) == None by {
      if |remote.faults| > 1 {
        assert Rest(remote.faults)[0] == remote.faults[1];
      }
    }
    r := AzureBackend.New(conf, env, remote);
  }

  /**
   * Construction parses max_parallel only once the container is settled: an
   * unparsable value fails New after its probe has gone out.
   */
  method NewRejectsWordParallel(conf: map<string, string>, env: map<string, string>, remote: Container)
      returns (r: Result<AzureBackend, BackendError>)
    requires remote.Valid() && remote.store.containerExists && Healthy(remote.faults)
    requires ResolveSettings(env, conf).Success? && KeyMaxParallel in conf && conf[KeyMaxParallel] == "abc"
    modifies remote
    ensures r.Failure? && r.error == MaxParallelInvalid("abc")
    ensures remote.log == old(remote.log) + [ProbeCall]
  {
    MaxParallelRejectsWords(conf);
    r := AzureBackend.New(conf, env, remote);
  }
}
