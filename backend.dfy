/**
 * The blob-storage backend: Put, Get, Delete and List over a remote container, each
 * holding one permit of the pool around its remote calls, and the construction that
 * resolves the configuration and provisions the container.
 */
module Azure {
  import opened Wrappers
  import opened Errors
  import opened Keys
  import opened Config
  import opened Remote
  import opened Permits

  /** Values of this many bytes or more are refused by Put (4 MiB). */
  const MaxBlobSize: nat := 1024 * 1024 * 4
  /** The page size every listing request asks for. */
  const MaxListResults: nat := 5000

  datatype Entry = Entry(key: string, value: seq<byte>)

  /** What Get returns for the outcome of its download. */
  function GetOutcome(key: string, d: Result<seq<byte>, ErrorKind>): (r: Result<Option<Entry>, BackendError>)
    ensures r.Success? && r.value.Some? ==> r.value.value.key == key && d == Success(r.value.value.value)
    ensures d.Success? ==> r.Success? && r.value.Some?
    ensures r == Success(None) <==> d == Failure(BlobNotFound)
    ensures d.Failure? && d.error != BlobNotFound ==> r.Failure? && Cause(r.error) == Some(d.error)
    ensures d.Failure? && IsStorageError(d.error) && d.error != BlobNotFound ==> r == Failure(DownloadFailed(key, d.error))
    ensures d.Failure? && !IsStorageError(d.error) ==> r == Failure(Remote(d.error))
  {
    match d
    case Success(data) => Success(Some(Entry(key, data)))
    case Failure(k) =>
      match DownloadError(key, k)
      case None => Success(None)
      case Some(e) => Failure(e)
  }

  /** What Delete returns for the failure, if any, of its remote delete. */
  function DeleteOutcome(key: string, failure: Option<ErrorKind>): (r: Option<BackendError>)
    ensures r.None? <==> failure.None? || failure == Some(BlobNotFound)
    ensures r.Some? ==> Cause(r.value) == failure
    ensures failure.Some? && IsStorageError(failure.value) && failure.value != BlobNotFound ==> r == Some(DeleteFailed(key, failure.value))
    ensures failure.Some? && !IsStorageError(failure.value) ==> r == Some(Remote(failure.value))
  {
    match failure
    case None => None
    case Some(k) => DeleteError(key, k)
  }

  /** Put returns the upload's failure unchanged. */
  function PutOutcome(failure: Option<ErrorKind>): (r: Option<BackendError>)
    ensures r.None? <==> failure.None?
    ensures r.Some? ==> r.value.Remote? && Cause(r.value) == failure
  {
    match failure
    case None => None
    case Some(k) => Some(Remote(k))
  }

  /**
   * How many page requests List sends for `m` matching names: one per page of
   * `MaxListResults` names, and a single one when nothing matches.
   */
  function PageCount(m: nat): (r: nat)
    ensures r >= 1
    ensures m == 0 ==> r == 1
    ensures m > 0 ==> (r - 1) * MaxListResults < m <= r * MaxListResults
  {
    if m == 0 then 1 else (m + MaxListResults - 1) / MaxListResults
  }

  /** The marker of List's `i`-th page request: the start marker, then the offset where each later page begins. */
  function MarkerAt(i: nat): Marker {
    if i == 0 then Initial else Next(i * MaxListResults)
  }

  /** The listing measure: how far the marker is from the end of a listing of `n` names. */
  function Remaining(marker: Marker, n: nat): nat {
    match marker
    case Initial => n + 1
    case Next(p) => if p < n then n - p else 0
    case Done => 0
  }

  /**
   * List's inner loop over one page: each blob name adds its leaf key, or its directory
   * key when that is not there yet. When the page is the slice of the listing after
   * `pos` and `keys` is what the names before it gave, the result is what the names up
   * to the end of the page give.
   */
  method AddSegment(prefix: string, keys: seq<string>, items: seq<string>, ghost listing: seq<string>, ghost pos: nat)
    returns (r: seq<string>)
    requires pos + |items| <= |listing| && forall j :: 0 <= j < |items| ==> items[j] == listing[pos + j]
    requires keys == CollectTo(prefix, listing, pos)
    ensures r == CollectTo(prefix, listing, pos + |items|)
  {
    r := keys;
    var j := 0;
    ghost var at := pos;
    while j < |items|
      invariant 0 <= j <= |items| && at == pos + j
      invariant r == CollectTo(prefix, listing, at)
    {
      assert items[j] == listing[at];
      r := AddName(prefix, r, items[j], listing, at);
      assert r == CollectTo(prefix, listing, at + 1);
      j, at := j + 1, at + 1;
    }
    assert at == pos + |items|;
  }

  /** The body of List's inner loop for one blob name: its leaf key, or its directory key when missing. */
  method AddName(prefix: string, keys: seq<string>, name: string, ghost listing: seq<string>, ghost k: nat) returns (r: seq<string>)
    requires k < |listing| && name == listing[k] && keys == CollectTo(prefix, listing, k)
    ensures r == CollectTo(prefix, listing, k + 1)
  {
    CollectToNext(prefix, listing, k);
    var key := TrimPrefix(name, prefix);
    var i := IndexOfDelimiter(key);
    if i == -1 {
      assert ListEntry(prefix, name) == key && IsLeaf(key);
      r := keys + [key];
    } else {
      assert ListEntry(prefix, name) == key[..i + 1] && key[..i + 1][i] == Delimiter;
      r := AppendIfMissing(keys, key[..i + 1]);
    }
  }

  class AzureBackend {
    /** The container name, used as context in construction errors. */
    const name: string
    const container: Container
    const pool: PermitPool

    ghost predicate Valid()
      reads this, container, pool
    {
      container.Valid() && pool.Valid()
    }

    constructor (name: string, container: Container, pool: PermitPool)
      ensures this.name == name && this.container == container && this.pool == pool
    {
      this.name := name;
      this.container := container;
      this.pool := pool;
    }

    /**
     * Builds a backend bound to `remote`: resolves the settings (no remote call when
     * one is missing), probes the container, creates it with no public access when the
     * probe says it is missing, and only then parses `max_parallel`.
     */
    static method New(conf: map<string, string>, env: map<string, string>, remote: Container)
      returns (r: Result<AzureBackend, BackendError>)
      requires remote.Valid()
      modifies remote
      ensures remote.Valid()
      ensures ResolveSettings(env, conf).Failure? ==>
                r == Failure(ResolveSettings(env, conf).error) && unchanged(remote)
      ensures ResolveSettings(env, conf).Success? ==>
                var name := ResolveSettings(env, conf).value.container;
                var probe := ContainerCallFailure(old(remote.Pending()), old(remote.store));
                match ProbeDecision(name, probe)
                case Abort(e) =>
                  r == Failure(e) && remote.store == old(remote.store) &&
                  remote.log == old(remote.log) + [ProbeCall] && remote.faults == Rest(old(remote.faults))
                case CreateContainer =>
                  var created := CreateFailure(Head(Rest(old(remote.faults))), old(remote.store));
                  remote.log == old(remote.log) + [ProbeCall, CreateCall(false)] &&
                  remote.faults == Rest(Rest(old(remote.faults))) &&
                  (created.Some? ==> r == Failure(ContainerCreateFailed(name, created.value)) &&
                                     remote.store == old(remote.store)) &&
                  (created.None? ==> remote.store == old(remote.store).(containerExists := true) &&
                                     (r.Failure? <==> MaxParallel(conf).Failure?) &&
                                     (r.Failure? ==> r.error == MaxParallel(conf).error))
                case Proceed =>
                  remote.store == old(remote.store) && remote.log == old(remote.log) + [ProbeCall] &&
                  remote.faults == Rest(old(remote.faults)) &&
                  (r.Failure? <==> MaxParallel(conf).Failure?) &&
                  (r.Failure? ==> r.error == MaxParallel(conf).error)
      ensures r.Success? ==>
                fresh(r.value) && fresh(r.value.pool) && r.value.container == remote && r.value.Valid() &&
                r.value.name == ResolveSettings(env, conf).value.container &&
                r.value.pool.capacity == MaxParallel(conf).value && r.value.pool.inFlight == 0
    {
      var settings := ResolveSettings(env, conf);
      if settings.Failure? {
        return Failure(settings.error);
      }
      var name := settings.value.container;
      var probe := remote.GetProperties();
      match ProbeDecision(name, probe) {
        case Abort(e) =>
          return Failure(e);
        case CreateContainer =>
          var created := remote.Create(false);
          if created.Some? {
            return Failure(ContainerCreateFailed(name, created.value));
          }
        case Proceed =>
      }
      var maxParallel := MaxParallel(conf);
      if maxParallel.Failure? {
        return Failure(maxParallel.error);
      }
      var permits := new PermitPool(maxParallel.value);
      var backend := new AzureBackend(name, remote, permits);
      return Success(backend);
    }

    /** Stores `value` under `key`, refusing values of MaxBlobSize bytes or more up front. */
    method Put(key: string, value: seq<byte>) returns (err: Option<BackendError>)
      requires Valid()
      modifies container, pool
      ensures Valid()
      ensures |value| >= MaxBlobSize ==> err == Some(ValueTooLarge) && unchanged(container, pool)
      ensures |value| < MaxBlobSize ==>
                OneCycle(pool) &&
                container.log == old(container.log) + [UploadCall(key)] &&
                container.faults == Rest(old(container.faults)) &&
                var failure := ContainerCallFailure(old(container.Pending()), old(container.store));
                err == PutOutcome(failure) &&
                container.store == if failure.None? then Uploaded(old(container.store), key, value) else old(container.store)
    {
      if |value| >= MaxBlobSize {
        return Some(ValueTooLarge);
      }
      pool.Acquire();
      var failure := container.Upload(key, value);
      err := PutOutcome(failure);
      pool.Release();
    }

    /** Fetches the entry stored under `key`, or None when there is no such blob. */
    method Get(key: string) returns (r: Result<Option<Entry>, BackendError>)
      requires Valid()
      modifies container, pool
      ensures Valid() && OneCycle(pool)
      ensures container.store == old(container.store)
      ensures container.log == old(container.log) + [DownloadCall(key)]
      ensures container.faults == Rest(old(container.faults))
      ensures r == GetOutcome(key, DownloadResult(old(container.Pending()), old(container.store), key))
    {
      pool.Acquire();
      var res := container.Download(key);
      if res.Failure? {
        var e := DownloadError(key, res.error);
        pool.Release();
        if e.None? {
          return Success(None);
        }
        return Failure(e.value);
      }
      r := Success(Some(Entry(key, res.value)));
      pool.Release();
    }

    /** Deletes the blob under `key`; a blob that is already gone counts as deleted. */
    method Delete(key: string) returns (err: Option<BackendError>)
      requires Valid()
      modifies container, pool
      ensures Valid() && OneCycle(pool)
      ensures container.log == old(container.log) + [DeleteCall(key)]
      ensures container.faults == Rest(old(container.faults))
      ensures var failure := DeleteFailure(old(container.Pending()), old(container.store), key);
              err == DeleteOutcome(key, failure) &&
              container.store == if failure.None? then Removed(old(container.store), key) else old(container.store)
    {
      pool.Acquire();
      var failure := container.Delete(key);
      err := None;
      if failure.Some? {
        err := DeleteError(key, failure.value);
      }
      pool.Release();
    }

    /**
     * Lists the keys one level below `prefix`: pages through the flat listing, turns
     * each blob name into a leaf or directory key, and sorts the keys at the end. A
     * failed page discards what was gathered.
     */
    method List(prefix: string) returns (r: Result<seq<string>, BackendError>)
      requires Valid()
      modifies container, pool
      ensures Valid() && OneCycle(pool)
      ensures container.store == old(container.store)
      ensures r.Success? ==> r.value == ListKeys(prefix, Matching(old(container.store).names, prefix))
      ensures old(container.store.containerExists) && Healthy(old(container.faults)) ==> r.Success?
      ensures |container.log| > |old(container.log)| && ListRequestsSince(container.log, old(container.log), prefix)
      ensures var n := |container.log| - |old(container.log)|;
              var pages := PageCount(|Matching(old(container.store).names, prefix)|);
              n <= pages && (r.Success? ==> n == pages)
      ensures var n := |container.log| - |old(container.log)|;
              container.faults == Drop(old(container.faults), n) &&
              ListCallsSucceed(old(container.faults), old(container.store), n - 1) &&
              var last := ContainerCallFailure(FaultAt(old(container.faults), n - 1), old(container.store));
              (r.Success? <==> last.None?) && (r.Failure? ==> r.error == Remote(last.value))
    {
      pool.Acquire();
      var gathered := Paginate(prefix);
      if gathered.Failure? {
        pool.Release();
        return Failure(Remote(gathered.error));
      }
      var keys := SortKeys(gathered.value);
      pool.Release();
      return Success(keys);
    }

    /**
     * List's pagination loop: requests pages from the start marker until the marker is
     * done, folding every page into the keys gathered so far.
     */
    method Paginate(prefix: string) returns (r: Result<seq<string>, ErrorKind>)
      requires container.Valid()
      modifies container
      ensures container.Valid() && container.store == old(container.store)
      ensures r.Success? ==> r.value == Collect(prefix, Matching(old(container.store).names, prefix))
      ensures old(container.store.containerExists) && Healthy(old(container.faults)) ==> r.Success?
      ensures |container.log| > |old(container.log)| && ListRequestsSince(container.log, old(container.log), prefix)
      ensures var n := |container.log| - |old(container.log)|;
              var pages := PageCount(|Matching(old(container.store).names, prefix)|);
              n <= pages && (r.Success? ==> n == pages)
      ensures var n := |container.log| - |old(container.log)|;
              container.faults == Drop(old(container.faults), n) &&
              ListCallsSucceed(old(container.faults), old(container.store), n - 1) &&
              var last := ContainerCallFailure(FaultAt(old(container.faults), n - 1), old(container.store));
              (r.Success? <==> last.None?) && (r.Failure? ==> r.error == last.value)
    {
      ghost var all := Matching(container.store.names, prefix);
      ghost var log0 := container.log;
      ghost var faults0 := container.faults;
      var keys: seq<string> := [];
      var marker := Initial;
      ghost var pos: nat := 0;
      ghost var calls: nat := 0;
      while marker != Done
        invariant container.Valid() && container.store == old(container.store)
        invariant Progress(prefix, all, keys, marker, pos)
        invariant ListRequestsSince(container.log, log0, prefix) && |container.log| == |log0| + calls
        invariant marker != Done ==> marker == MarkerAt(calls) && pos == calls * MaxListResults && calls < PageCount(|all|)
        invariant marker == Done ==> calls == PageCount(|all|)
        invariant container.faults == Drop(faults0, calls) && ListCallsSucceed(faults0, container.store, calls)
        decreases Remaining(marker, |all|)
      {
        ghost var log1 := container.log;
        var step;
        step, pos := NextPage(prefix, keys, marker, all, pos);
        ListRequestsExtend(log1, log0, prefix, marker, calls);
        if step.Failure? {
          assert |container.log| - |log0| == calls + 1;
          if old(container.store.containerExists) && Healthy(faults0) {
            HealthyListSucceeds(faults0, container.store, calls);
          }
          return Failure(step.error);
        }
        ListCallsExtend(faults0, container.store, calls);
        if step.value.1 == Done {
          PageCountLast(calls, |all|);
        } else {
          PageCountMore(calls, |all|);
          MarkerAtNext(calls);
        }
        keys, marker, calls := step.value.0, step.value.1, calls + 1;
      }
      CollectToSlice(prefix, all, pos);
      assert all[..pos] == all;
      assert |container.log| - |log0| == calls;
      return Success(keys);
    }

    /**
     * One round of List's pagination: requests the page after `marker` and folds its
     * names into `keys`, returning the new keys and the marker the service gave that page.
     */
    method NextPage(prefix: string, keys: seq<string>, marker: Marker, ghost all: seq<string>, ghost pos: nat)
        returns (r: Result<(seq<string>, Marker), ErrorKind>, ghost pos': nat)
      requires container.Valid() && all == Matching(container.store.names, prefix)
      requires marker != Done && Progress(prefix, all, keys, marker, pos)
      modifies container
      ensures container.Valid() && container.store == old(container.store)
      ensures container.log == old(container.log) + [ListCall(prefix, marker, MaxListResults)]
      ensures container.faults == Rest(old(container.faults))
      ensures old(container.store.containerExists) && Healthy(old(container.faults)) ==> r.Success?
      ensures r.Failure? <==> ContainerCallFailure(old(container.Pending()), old(container.store)).Some?
      ensures r.Failure? ==> r.error == ContainerCallFailure(old(container.Pending()), old(container.store)).value
      ensures r.Success? ==> r.value.1 == Page(old(container.store), prefix, marker, MaxListResults).next
      ensures r.Success? ==> Progress(prefix, all, r.value.0, r.value.1, pos') &&
                             Remaining(r.value.1, |all|) < Remaining(marker, |all|)
      ensures r.Success? ==> pos' <= pos + MaxListResults && (r.value.1 != Done ==> pos' == pos + MaxListResults)
    {
      pos' := pos;
      var reply := container.ListBlobsFlatSegment(prefix, marker, MaxListResults);
      if reply.Failure? {
        return Failure(reply.error), pos';
      }
      var keys';
      keys', pos' := FoldPage(prefix, keys, reply.value, container.store, marker, all, pos);
      r := Success((keys', reply.value.next));
    }
  }

  /**
   * Folds the names of one page into `keys`. When the page is the one the store returns
   * after `marker`, the pagination moves on to the page's marker, strictly closer to the end,
   * and a page that is not the last one holds exactly `MaxListResults` names.
   */
  method FoldPage(prefix: string, keys: seq<string>, page: Segment, ghost s: Store, marker: Marker, ghost all: seq<string>, ghost pos: nat)
      returns (keys': seq<string>, ghost pos': nat)
    requires page == Page(s, prefix, marker, MaxListResults) && all == Matching(s.names, prefix)
    requires marker != Done && Progress(prefix, all, keys, marker, pos)
    ensures Progress(prefix, all, keys', page.next, pos') && Remaining(page.next, |all|) < Remaining(marker, |all|)
    ensures pos' <= pos + MaxListResults && (page.next != Done ==> pos' == pos + MaxListResults)
  {
    PageSlice(s, prefix, marker, MaxListResults);
    assert Offset(marker, |all|) == pos;
    pos' := pos + |page.names|;
    assert pos' <= |all| && pos' <= pos + MaxListResults;
    assert page.next == Done <==> pos' == |all|;
    assert page.next != Done ==> page.next == Next(pos') && pos' == pos + MaxListResults;
    keys' := AddSegment(prefix, keys, page.names, all, pos);
    assert keys' == CollectTo(prefix, all, pos');
  }

  /** Without injected faults, every listing request of an existing container succeeds. */
  lemma HealthyListSucceeds(faults: seq<Option<ErrorKind>>, s: Store, i: nat)
    requires s.containerExists && Healthy(faults)
    ensures ContainerCallFailure(FaultAt(faults, i), s).None?
  {
  }

  /** One more listing request that succeeds extends the run of successful requests. */
  lemma ListCallsExtend(faults: seq<Option<ErrorKind>>, s: Store, n: nat)
    requires ListCallsSucceed(faults, s, n) && ContainerCallFailure(FaultAt(faults, n), s).None?
    ensures ListCallsSucceed(faults, s, n + 1)
  {
  }

  /**
   * Where List's pagination stands: `keys` folds the first `pos` matching names, and
   * the marker points at the next one (or is done once all are folded).
   */
  ghost predicate Progress(prefix: string, all: seq<string>, keys: seq<string>, marker: Marker, pos: nat) {
    pos <= |all| &&
    (marker == Initial ==> pos == 0) &&
    (marker.Next? ==> marker.offset == pos && pos < |all|) &&
    (marker == Done ==> pos == |all|) &&
    keys == CollectTo(prefix, all, pos)
  }

  /** The request after the `calls` requests so far, at its marker, extends the run of page requests. */
  lemma ListRequestsExtend(log1: seq<Call>, log0: seq<Call>, prefix: string, marker: Marker, calls: nat)
    requires ListRequestsSince(log1, log0, prefix) && |log1| == |log0| + calls && marker == MarkerAt(calls)
    ensures ListRequestsSince(log1 + [ListCall(prefix, marker, MaxListResults)], log0, prefix)
  {
    var log := log1 + [ListCall(prefix, marker, MaxListResults)];
    assert log[..|log0|] == log1[..|log0|];
  }

  /**
   * Every request in `log` after `log0` is a listing request for `prefix` with the fixed
   * page size, the first from the start marker and each later one from the next page.
   */
  ghost predicate ListRequestsSince(log: seq<Call>, log0: seq<Call>, prefix: string) {
    |log| >= |log0| && log[..|log0|] == log0 &&
    forall i :: |log0| <= i < |log| ==>
      log[i].ListCall? && log[i].prefix == prefix && log[i].maxResults == MaxListResults && log[i].marker == MarkerAt(i - |log0|)
  }

  /** The last page request: the names left after `calls` full pages fit in one more page. */
  lemma PageCountLast(calls: nat, m: nat)
    requires (m == 0 && calls == 0) || calls * MaxListResults < m <= calls * MaxListResults + MaxListResults
    ensures PageCount(m) == calls + 1
  {
  }

  /** More names than `calls + 1` full pages hold need a further request. */
  lemma PageCountMore(calls: nat, m: nat)
    requires calls * MaxListResults + MaxListResults < m
    ensures calls + 1 < PageCount(m)
  {
  }

  /** The marker after `calls` full pages. */
  lemma MarkerAtNext(calls: nat)
    ensures MarkerAt(calls + 1) == Next(calls * MaxListResults + MaxListResults)
  {
  }
}
