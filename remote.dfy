/**
 * The remote blob container the backend talks to, as an abstract store: whether the
 * container exists, the blobs it holds, and the order in which a flat listing
 * enumerates their names. Which calls fail is decided by a script of injected faults
 * (one entry consumed per call); without an injected fault a call fails only when the
 * container or the blob is missing. The calls made are recorded in a ghost log.
 */
module Remote {
  import opened Wrappers
  import opened Errors
  import opened Keys

  newtype byte = x: int | 0 <= x < 256

  /** The listing continuation token: the start, an offset into the listing, or done. */
  datatype Marker = Initial | Next(offset: nat) | Done

  /** One page of a flat listing: blob names and the marker for the next page. */
  datatype Segment = Segment(names: seq<string>, next: Marker)

  /** A request sent to the remote service. */
  datatype Call =
    | ProbeCall
    | CreateCall(publicAccess: bool)
    | UploadCall(key: string)
    | DownloadCall(key: string)
    | DeleteCall(key: string)
    | ListCall(prefix: string, marker: Marker, maxResults: nat)

  datatype Store = Store(containerExists: bool, blobs: map<string, seq<byte>>, names: seq<string>)

  /** The listing order enumerates every blob exactly once. */
  ghost predicate WellFormed(s: Store) {
    Distinct(s.names) && (forall n :: n in s.names <==> n in s.blobs)
  }

  function Remove(names: seq<string>, key: string): (r: seq<string>)
    ensures forall n :: n in r <==> n in names && n != key
    ensures Distinct(names) ==> Distinct(r)
  {
    if names == [] then []
    else
      var rest := Remove(names[1..], key);
      assert forall n :: n in names <==> n == names[0] || n in names[1..];
      assert Distinct(names) ==> names[0] !in names[1..] && Distinct(names[1..]) by {
        if Distinct(names) {
          forall i, j | 0 <= i < j < |names[1..]| ensures names[1..][i] != names[1..][j] {
            assert names[1..][i] == names[i + 1] && names[1..][j] == names[j + 1];
          }
        }
      }
      if names[0] == key then rest
      else
        assert forall i | 0 < i < |[names[0]] + rest| :: ([names[0]] + rest)[i] in rest;
        [names[0]] + rest
  }

  /** The names a listing with `prefix` returns, in listing order. */
  function Matching(names: seq<string>, prefix: string): seq<string> {
    if names == [] then []
    else if HasPrefix(names[0], prefix) then [names[0]] + Matching(names[1..], prefix)
    else Matching(names[1..], prefix)
  }

  /** A listing with `prefix` holds exactly the names with that prefix, each once when the names are distinct. */
  lemma {:induction false} MatchingMembers(names: seq<string>, prefix: string)
    ensures forall n :: n in Matching(names, prefix) <==> n in names && HasPrefix(n, prefix)
    ensures Distinct(names) ==> Distinct(Matching(names, prefix))
  {
    if names != [] {
      MatchingMembers(names[1..], prefix);
      var rest := Matching(names[1..], prefix);
      assert forall n :: n in names <==> n == names[0] || n in names[1..];
      assert Distinct(names) ==> names[0] !in names[1..] && Distinct(names[1..]) by {
        if Distinct(names) {
          forall i, j | 0 <= i < j < |names[1..]| ensures names[1..][i] != names[1..][j] {
            assert names[1..][i] == names[i + 1] && names[1..][j] == names[j + 1];
          }
        }
      }
      assert forall i | 0 < i < |[names[0]] + rest| :: ([names[0]] + rest)[i] in rest;
    }
  }

  /** The store after an upload: the blob is created or fully replaced. */
  function Uploaded(s: Store, key: string, value: seq<byte>): (r: Store)
    requires WellFormed(s)
    ensures WellFormed(r)
    ensures r.containerExists == s.containerExists && r.blobs == s.blobs[key := value]
  {
    var names := if key in s.blobs then s.names else s.names + [key];
    assert key !in s.blobs ==> Distinct(names) by {
      if key !in s.blobs {
        forall i, j | 0 <= i < j < |names| ensures names[i] != names[j] {
          if j == |s.names| { assert names[i] in s.names; }
        }
      }
    }
    Store(s.containerExists, s.blobs[key := value], names)
  }

  /** The store after a delete: the blob is gone. */
  function Removed(s: Store, key: string): (r: Store)
    requires WellFormed(s)
    ensures WellFormed(r)
    ensures r.containerExists == s.containerExists && r.blobs == s.blobs - {key}
  {
    Store(s.containerExists, s.blobs - {key}, Remove(s.names, key))
  }

  /**
   * How a call on the container that needs nothing but the container fails (the
   * properties probe, an upload, a listing request): an injected fault, or a missing
   * container.
   */
  function ContainerCallFailure(fault: Option<ErrorKind>, s: Store): Option<ErrorKind> {
    if fault.Some? then fault
    else if !s.containerExists then Some(ContainerNotFound)
    else None
  }

  function DownloadResult(fault: Option<ErrorKind>, s: Store, key: string): Result<seq<byte>, ErrorKind> {
    if fault.Some? then Failure(fault.value)
    else if !s.containerExists then Failure(ContainerNotFound)
    else if key !in s.blobs then Failure(BlobNotFound)
    else Success(s.blobs[key])
  }

  function DeleteFailure(fault: Option<ErrorKind>, s: Store, key: string): Option<ErrorKind> {
    if fault.Some? then fault
    else if !s.containerExists then Some(ContainerNotFound)
    else if key !in s.blobs then Some(BlobNotFound)
    else None
  }

  /** Creating a container that already exists fails with a service code (ContainerAlreadyExists). */
  function CreateFailure(fault: Option<ErrorKind>, s: Store): Option<ErrorKind> {
    if fault.Some? then fault
    else if s.containerExists then Some(OtherStorage)
    else None
  }

  /** Where a marker points into a listing of `n` names. */
  function Offset(marker: Marker, n: nat): (k: nat)
    ensures k <= n
  {
    match marker
    case Initial => 0
    case Next(p) => if p < n then p else n
    case Done => n
  }

  /** The page a listing returns: at most `maxResults` matching names from the marker on. */
  function Page(s: Store, prefix: string, marker: Marker, maxResults: nat): Segment
    requires maxResults > 0
  {
    var all := Matching(s.names, prefix);
    var from := Offset(marker, |all|);
    var to := if from + maxResults < |all| then from + maxResults else |all|;
    Segment(all[from..to], if to == |all| then Done else Next(to))
  }

  /**
   * A page is the next slice of the listing: it starts where the marker points, holds
   * at most `maxResults` names, and its marker is done exactly when it reaches the end.
   */
  lemma PageSlice(s: Store, prefix: string, marker: Marker, maxResults: nat)
    requires maxResults > 0
    ensures var r := Page(s, prefix, marker, maxResults);
            var all := Matching(s.names, prefix);
            var from := Offset(marker, |all|);
            from + |r.names| <= |all| && (forall j :: 0 <= j < |r.names| ==> r.names[j] == all[from + j]) &&
            (r.next == Done <==> from + |r.names| == |all|) &&
            |r.names| <= maxResults &&
            (r.next != Done ==> r.next == Next(from + |r.names|) && |r.names| == maxResults)
  {
  }

  function ListResult(fault: Option<ErrorKind>, s: Store, prefix: string, marker: Marker, maxResults: nat): Result<Segment, ErrorKind>
    requires maxResults > 0
  {
    match ContainerCallFailure(fault, s)
    case Some(e) => Failure(e)
    case None => Success(Page(s, prefix, marker, maxResults))
  }

  /** The fault the next call receives under this script. */
  function Head(faults: seq<Option<ErrorKind>>): Option<ErrorKind> {
    if faults == [] then None else faults[0]
  }

  /** The fault script after one call has consumed its entry. */
  function Rest(faults: seq<Option<ErrorKind>>): seq<Option<ErrorKind>> {
    if faults == [] then [] else faults[1..]
  }

  /** The fault script after `n` calls have consumed their entries. */
  function Drop(faults: seq<Option<ErrorKind>>, n: nat): (r: seq<Option<ErrorKind>>)
    ensures n <= |faults| ==> r == faults[n..]
    ensures n >= |faults| ==> r == []
  {
    if n == 0 then faults else Rest(Drop(faults, n - 1))
  }

  /** The fault the call numbered `i` (from 0) receives under this script. */
  function FaultAt(faults: seq<Option<ErrorKind>>, i: nat): (r: Option<ErrorKind>)
    ensures r == if i < |faults| then faults[i] else None
  {
    Head(Drop(faults, i))
  }

  /** The first `n` listing requests under this script and store all succeed. */
  ghost predicate ListCallsSucceed(faults: seq<Option<ErrorKind>>, s: Store, n: nat) {
    forall i: nat :: i < n ==> ContainerCallFailure(FaultAt(faults, i), s).None?
  }

  /** No call consumed from this script has an injected fault. */
  predicate Healthy(faults: seq<Option<ErrorKind>>) {
    forall i :: 0 <= i < |faults| ==> faults[i].None?
  }

  class Container {
    var store: Store
    var faults: seq<Option<ErrorKind>>
    ghost var log: seq<Call>

    ghost predicate Valid()
      reads this
    {
      WellFormed(store)
    }

    /** The fault the next call receives. */
    function Pending(): Option<ErrorKind>
      reads this
    {
      Head(faults)
    }

    constructor (initial: Store, script: seq<Option<ErrorKind>>)
      requires WellFormed(initial)
      ensures Valid() && store == initial && faults == script && log == []
    {
      store := initial;
      faults := script;
      log := [];
    }

    method TakeFault() returns (f: Option<ErrorKind>)
      modifies this
      ensures f == old(Pending()) && faults == Rest(old(faults))
      ensures store == old(store) && log == old(log)
    {
      f := if faults == [] then None else faults[0];
      faults := Rest(faults);
    }

    method GetProperties() returns (err: Option<ErrorKind>)
      requires Valid()
      modifies this
      ensures Valid() && store == old(store) && faults == Rest(old(faults))
      ensures log == old(log) + [ProbeCall]
      ensures err == ContainerCallFailure(old(Pending()), old(store))
    {
      var f := TakeFault();
      log := log + [ProbeCall];
      err := ContainerCallFailure(f, store);
    }

    method Create(publicAccess: bool) returns (err: Option<ErrorKind>)
      requires Valid()
      modifies this
      ensures Valid() && faults == Rest(old(faults))
      ensures log == old(log) + [CreateCall(publicAccess)]
      ensures err == CreateFailure(old(Pending()), old(store))
      ensures store == if err.None? then old(store).(containerExists := true) else old(store)
    {
      var f := TakeFault();
      log := log + [CreateCall(publicAccess)];
      err := CreateFailure(f, store);
      if err.None? {
        store := store.(containerExists := true);
      }
    }

    method Upload(key: string, value: seq<byte>) returns (err: Option<ErrorKind>)
      requires Valid()
      modifies this
      ensures Valid() && faults == Rest(old(faults))
      ensures log == old(log) + [UploadCall(key)]
      ensures err == ContainerCallFailure(old(Pending()), old(store))
      ensures store == if err.None? then Uploaded(old(store), key, value) else old(store)
    {
      var f := TakeFault();
      log := log + [UploadCall(key)];
      err := ContainerCallFailure(f, store);
      if err.None? {
        store := Uploaded(store, key, value);
      }
    }

    method Download(key: string) returns (r: Result<seq<byte>, ErrorKind>)
      requires Valid()
      modifies this
      ensures Valid() && store == old(store) && faults == Rest(old(faults))
      ensures log == old(log) + [DownloadCall(key)]
      ensures r == DownloadResult(old(Pending()), old(store), key)
    {
      var f := TakeFault();
      log := log + [DownloadCall(key)];
      r := DownloadResult(f, store, key);
    }

    method Delete(key: string) returns (err: Option<ErrorKind>)
      requires Valid()
      modifies this
      ensures Valid() && faults == Rest(old(faults))
      ensures log == old(log) + [DeleteCall(key)]
      ensures err == DeleteFailure(old(Pending()), old(store), key)
      ensures store == if err.None? then Removed(old(store), key) else old(store)
    {
      var f := TakeFault();
      log := log + [DeleteCall(key)];
      err := DeleteFailure(f, store, key);
      if err.None? {
        store := Removed(store, key);
      }
    }

    method ListBlobsFlatSegment(prefix: string, marker: Marker, maxResults: nat) returns (r: Result<Segment, ErrorKind>)
      requires Valid() && maxResults > 0
      modifies this
      ensures Valid() && store == old(store) && faults == Rest(old(faults))
      ensures log == old(log) + [ListCall(prefix, marker, maxResults)]
      ensures r == ListResult(old(Pending()), old(store), prefix, marker, maxResults)
    {
      var f := TakeFault();
      log := log + [ListCall(prefix, marker, maxResults)];
      r := ListResult(f, store, prefix, marker, maxResults);
    }
  }
}
