# Azure blob storage backend — a Dafny model

This project models the Azure blob storage backend of Vault's physical storage layer
(`physical/azure/azure.go`). The backend keeps every entry as one blob in a single
container, and it offers four operations plus a constructor:

- **Put** refuses values of 4 MiB or more before any remote call. Otherwise it uploads the value as a block blob.
- **Get** downloads a blob. A missing blob is an absent entry, not an error.
- **Delete** removes a blob. A blob that is already gone counts as deleted.
- **List** pages through a flat listing of the blob names under a prefix, 5000 names per page.
  Each name becomes a leaf key, or the directory key up to its first `/`.
  Directory keys are deduplicated, and the keys are sorted at the end.
- **Construction** resolves the settings, with the environment taking precedence over the configuration map.
  It then probes the container and creates it (no public access) when the probe says it is missing.
  Last, it parses `max_parallel`, which sizes the permit pool.

Every operation holds one permit of the pool around its remote calls.

The remote service is modelled as a class `Remote.Container` with these parts:

- **An abstract store.** It records whether the container exists, a map from blob name to bytes, and the order in which a flat listing enumerates the names.
- **A script of injected faults.** Each remote call consumes one entry. An entry `Some(k)` makes that call fail with `k`.
- **A ghost log of the calls made.**

Without an injected fault, a call can still fail, but only in three ways. A missing container gives ContainerNotFound. A missing blob gives BlobNotFound. Creating a container that already exists gives a storage error with another service code.

There are four kinds of remote failure, the `Errors.ErrorKind` values:

- `BlobNotFound`
- `ContainerNotFound`
- `OtherStorage`, a storage error with any other service code
- `NonStorage`, a failure that is not a storage error at all

These kinds are what the backend's `errors.As(err, &azblob.StorageError)` / `ServiceCode()` switches tell apart.

Files and modules:

- `wrappers.dfy` defines `Option` and `Result`.
- `errors.dfy` defines the failure kinds, the backend's errors, and how Get, Delete and construction translate remote failures.
- `keys.dfy` defines List's key synthesis, the byte-wise string order, and the sort.
- `numbers.dfy` models Go's `strconv.Atoi` for a 64-bit `int`.
- `config.dfy` resolves the settings and `max_parallel`.
- `permits.dfy` defines the permit pool as a counter class.
- `remote.dfy` defines the simulated container.
- `backend.dfy` defines the `AzureBackend` class with `New`, `Put`, `Get`, `Delete` and `List`.
- `properties.dfy` holds properties that relate several operations, and client methods that use a backend.

Four behaviours of the code that the model keeps as written:

- **Probe failures without a service code.** The code switches on the service code only when the probe's error is a storage error. Any other probe failure (transport, timeout) falls through, and construction goes on. `Errors.ProbeDecision` returns `Proceed` for `NonStorage`.
- **When `max_parallel` is parsed.** The code parses it after the probe, and after the creation when there is one. So `max_parallel = "abc"` fails construction only after the probe has gone out. `Properties.NewRejectsWordParallel` shows the probe in the log.
- **The creation race.** The code does not tolerate a concurrent creator. An "already exists" answer to the creation is a construction failure, so the model returns `ContainerCreateFailed`.
- **Error context.** Put and List return the remote error unchanged (`Remote(k)`). Get and Delete do the same for non-storage failures. Context is added only to storage errors in Get and Delete and in the probe and create steps.

## Model

| member | source | states |
|---|---|---|
| Errors.DownloadError | physical/azure/azure.go:183-194 | a failed download is no error exactly when the blob is not found; any other storage error is wrapped with the key, a non-storage failure is returned as is, and the cause is kept |
| Errors.DeleteError | physical/azure/azure.go:217-230 | a failed delete is no error exactly when the blob is not found; any other storage error is wrapped with the key, a non-storage failure is returned as is, and the cause is kept |
| Errors.ProbeDecision | physical/azure/azure.go:119-133 | the container is created exactly when the probe says ContainerNotFound; construction goes on exactly when the probe succeeded or failed without a service code; every other storage error aborts with the container name and the cause |
| Keys.TrimPrefix | physical/azure/azure.go:252 | with the prefix present, prefix followed by the result is the name; otherwise the name is unchanged |
| Keys.IndexOfDelimiter | physical/azure/azure.go:253 | -1 exactly when there is no `/`; otherwise the index of a `/` with none before it |
| Keys.ListEntry | physical/azure/azure.go:252-259 | the key a blob name lists as: the stripped name when it has no `/`, otherwise a directory key (one `/`, at its end) that begins the stripped name; always a leaf or a directory |
| Keys.AppendIfMissing | physical/azure/azure.go:258 | the keys so far stay in place as a prefix; the key is added at the end exactly when it is missing, so the length grows by one exactly then; the members afterwards are the old ones and the key |
| Keys.Step | physical/azure/azure.go:252-259 | one name of a page: the keys so far stay in place; one key is added exactly when the name's list entry is a leaf or a directory not yet present, and that key is the entry itself, so a leaf already present is appended again; the members afterwards are the old keys and the entry |
| Keys.Collect | physical/azure/azure.go:251-260 | folding the names of a listing in order gathers at most one key per name |
| Keys.CollectNext | physical/azure/azure.go:251-260 | folding one more name of the listing is one more step |
| Keys.CollectToNext | physical/azure/azure.go:251-260 | folding the first k+1 names by position is one more step after the first k |
| Keys.CollectToSlice | physical/azure/azure.go:242-260 | folding the first k names by position equals folding the slice of the first k names |
| Keys.CollectMembers | physical/azure/azure.go:241-263 | the gathered keys are exactly the list entries of the names seen, in both directions |
| Keys.CollectDirsOnce | physical/azure/azure.go:258 | no directory key is gathered twice |
| Keys.LeafEntryInjective | physical/azure/azure.go:252-255 | two names under the prefix with the same leaf entry are the same name |
| Keys.AppendDistinct | physical/azure/azure.go:258 | appending a missing key keeps the keys distinct |
| Keys.CollectDistinct | physical/azure/azure.go:251-260 | distinct names under the prefix give distinct keys |
| Keys.LessIrreflexive | physical/azure/azure.go:265 | the string order is irreflexive |
| Keys.LessTransitive | physical/azure/azure.go:265 | the string order is transitive |
| Keys.LessTotal | physical/azure/azure.go:265 | any two different strings are ordered one way or the other |
| Keys.NotLessTransitive | physical/azure/azure.go:265 | "not less than" is transitive |
| Keys.LessAsymmetric | physical/azure/azure.go:265 | the string order is asymmetric |
| Keys.Insert | physical/azure/azure.go:265 | insertion adds exactly one occurrence of the element |
| Keys.SortKeys | physical/azure/azure.go:265 | sorting is a permutation, with the same multiset of keys |
| Keys.InsertSorted | physical/azure/azure.go:265 | insertion into a sorted sequence keeps it sorted |
| Keys.SortKeysSorted | physical/azure/azure.go:265 | the sorted keys are in ascending order |
| Keys.DistinctPermutation | physical/azure/azure.go:265 | a permutation of distinct keys is distinct |
| Keys.SortedDistinctIsStrict | physical/azure/azure.go:265 | sorted and distinct means strictly ascending |
| Keys.StrictlySortedUnique | physical/azure/azure.go:265 | two strictly ascending sequences with the same elements are equal: the sorted listing is determined by its set of keys |
| Keys.ListKeys | physical/azure/azure.go:241-266 | what a successful listing returns: in ascending order, and holding exactly the list entries of the names, in both directions |
| Keys.ListKeysShape | physical/azure/azure.go:251-265 | each key of the listing is a leaf or a directory, and a repeated key is always a leaf |
| Keys.ListKeysStrict | physical/azure/azure.go:251-265 | distinct blob names under the prefix give a strictly ascending listing with no duplicates |
| Numbers.Atoi | physical/azure/azure.go:138 | a parse succeeds exactly on an optional sign followed by a non-empty run of decimal digits whose signed value fits in 64 bits, and then gives that value |
| Numbers.Digits | physical/azure/azure.go:138 | the decimal spelling is non-empty digits whose value is the number |
| Numbers.AtoiFormatInt | physical/azure/azure.go:138 | every 64-bit integer parses back from its decimal spelling |
| Numbers.AtoiRejectsOverflow | physical/azure/azure.go:138-141 | a value beyond 64 bits is refused even when spelled in digits |
| Numbers.AtoiRejectsWords | physical/azure/azure.go:138-141 | "abc", "" and "-" are refused |
| Numbers.AtoiAcceptsSignsAndZeros | physical/azure/azure.go:138 | "+8" parses to 8, "007" to 7 and "-12" to -12 |
| Config.Layered | physical/azure/azure.go:46-81 | a setting is empty exactly when neither source gives it; a non-empty environment value wins, otherwise the configuration map's value (empty when absent) is used |
| Config.Required | physical/azure/azure.go:46-68 | a required setting succeeds exactly when the environment or the configuration gives it a non-empty value; the environment wins; otherwise the error names the setting |
| Config.ResolveSettings | physical/azure/azure.go:46-81 | resolution succeeds exactly when container, account name and account key are all given; the first missing one in that order is the error; each of the three, and the endpoint URL, is its layered value (environment first, then the configuration map); the environment name is its layered value, or AzurePublicCloud when that is empty |
| Config.MaxParallel | physical/azure/azure.go:135-145 | no `max_parallel` gives capacity 0; a present value succeeds exactly when it parses as an integer, and gives that integer; otherwise the error carries the text |
| Config.MaxParallelOfNumber | physical/azure/azure.go:135-145 | a `max_parallel` spelled as a 64-bit integer gives exactly that capacity |
| Config.MaxParallelRejectsWords | physical/azure/azure.go:138-141 | `max_parallel = "abc"` and an empty `max_parallel` fail |
| Permits.PermitPool.constructor | physical/azure/azure.go:150 | a new pool has the configured capacity and no permit held |
| Permits.PermitPool.Acquire | physical/azure/azure.go:163 | acquiring holds one more permit and keeps every acquired permit accounted for |
| Permits.PermitPool.Release | physical/azure/azure.go:164 | only a held permit can be returned; releasing holds one fewer |
| Remote.MatchingMembers | physical/azure/azure.go:243-246 | the prefix listing holds exactly the blob names with the prefix, each once |
| Remote.Uploaded | physical/azure/azure.go:166-169 | an upload creates or fully replaces the blob under the key and keeps the store well formed |
| Remote.Removed | physical/azure/azure.go:216-217 | a delete removes the key and keeps the store well formed |
| Remote.PageSlice | physical/azure/azure.go:242-249 | a page is the next slice of the listing from where the marker points, holding at most the page size; its marker is done exactly when it reaches the end, and otherwise points just past a full page |
| Remote.Container.GetProperties | physical/azure/azure.go:119 | the probe consumes one fault entry, logs itself, changes nothing, and fails on an injected fault or a missing container |
| Remote.Container.Create | physical/azure/azure.go:125 | creation logs itself with its public-access flag, and creates the container unless it fails |
| Remote.Container.Upload | physical/azure/azure.go:166-169 | the upload logs itself and stores the value unless it fails |
| Remote.Container.Download | physical/azure/azure.go:181-182 | the download logs itself, changes nothing, and returns the stored bytes or the failure |
| Remote.Container.Delete | physical/azure/azure.go:216-217 | the delete logs itself and removes the blob unless it fails |
| Remote.Container.ListBlobsFlatSegment | physical/azure/azure.go:243-246 | a page request logs itself with its prefix, marker and page size, changes nothing, and returns the page or the failure |
| Azure.GetOutcome | physical/azure/azure.go:182-206 | a download's bytes become the entry for the key; not found is an absent entry and no error; other failures become the translated error |
| Azure.DeleteOutcome | physical/azure/azure.go:217-230 | a delete reports no error exactly when it succeeded or the blob was not found; any other service code is wrapped with the key, and a failure without a service code is returned unchanged |
| Azure.PutOutcome | physical/azure/azure.go:167-171 | Put reports an error exactly when the upload failed, and as that remote failure |
| Azure.AddName | physical/azure/azure.go:252-259 | the inner loop's body for the name at position k of the listing turns the keys of the first k names into the keys of the first k+1 |
| Azure.AddSegment | physical/azure/azure.go:251-260 | folding a page that continues the listing extends the fold over the listing by the page |
| Azure.FoldPage | physical/azure/azure.go:251-262 | folding the page the store returns after a marker keeps the pagination state consistent and moves the marker strictly closer to the end; a page that is not the last one advances the position by exactly the page size |
| Azure.PageCount | physical/azure/azure.go:241-263 | the number of page requests for m matching names: one when nothing matches, otherwise the least count of 5000-name pages that holds all m |
| Azure.AzureBackend.New | physical/azure/azure.go:45-153 | a missing setting fails with no remote call; the probe decides between going on, aborting and creating the container; a failed creation fails with the store unchanged; `max_parallel` is parsed last; each branch states the calls logged and the fault entries consumed; on success a fresh backend is bound to the container with a pool of the configured capacity |
| Azure.AzureBackend.Put | physical/azure/azure.go:156-172 | a value of 4 MiB or more is refused with nothing touched; otherwise one permit cycle and one upload, whose failure is returned and whose success replaces the blob |
| Azure.AzureBackend.Get | physical/azure/azure.go:175-207 | one permit cycle and one download; the result is the download's outcome translated, and the store is unchanged |
| Azure.AzureBackend.Delete | physical/azure/azure.go:210-231 | one permit cycle and one delete; its failure is translated and a success removes the blob |
| Azure.AzureBackend.List | physical/azure/azure.go:235-267 | one permit cycle; it sends only page requests for the prefix, at least one, consuming one fault entry each; the first request carries the start marker and request i the marker of offset 5000·i; at most `PageCount` requests go out, and exactly that many on success; every request but the last found the container and no injected fault; it succeeds exactly when the last request did too, and then returns the sorted fold of the names under the prefix; otherwise it returns that request's failure unchanged and nothing partial |
| Azure.AzureBackend.Paginate | physical/azure/azure.go:241-263 | paging sends n page requests and consumes n fault entries; the first request carries the start marker and each later one the marker the previous page returned (offset 5000·i); n is at most `PageCount` of the matching names, and equal to it on success; the first n-1 succeed; the loop succeeds exactly when the n-th does, gathering the fold of every name under the prefix in listing order, and otherwise returns the n-th request's failure |
| Azure.AzureBackend.NextPage | physical/azure/azure.go:243-262 | one page request consumes one fault entry; it fails exactly when the fault or a missing container fails the request, with that error; otherwise the returned marker is the page's own next marker, the page is folded into the keys, the marker moves forward, and it moves by exactly one page unless the listing is done |
| Azure.ListRequestsExtend | physical/azure/azure.go:243-246 | one more page request, at the marker of its position in the run, keeps the log a run of page requests for the prefix from the start marker on |
| Properties.GetAfterPut | physical/azure/azure.go:166-206 | with no fault, a Get after a successful Put returns the entry just written |
| Properties.PutKeepsOthers | physical/azure/azure.go:166-169 | a Put leaves what Get reports for every other key unchanged |
| Properties.DeleteIdempotent | physical/azure/azure.go:216-230 | with no fault, Delete succeeds whether the blob exists or not, then a Get finds nothing and a second Delete succeeds |
| Properties.ListAfterPut | physical/azure/azure.go:235-267 | a blob written under the prefix is listed, as its leaf or its directory |
| Properties.ListAfterDelete | physical/azure/azure.go:235-267 | a deleted leaf directly under the prefix is no longer listed |
| Properties.ListOrderIndependent | physical/azure/azure.go:242-265 | two enumeration orders of the same distinct names give the same listing |
| Properties.ListDependsOnBlobsOnly | physical/azure/azure.go:242-265 | two stores with the same blob names list the same keys under every prefix |
| Properties.ListFrom | physical/azure/azure.go:251-265 | the listing of distinct names is the strictly ascending sequence of their entries |
| Properties.ListTree | physical/azure/azure.go:242-265 | blobs `a`, `b/c`, `b/d`, `e/f/g`: the empty prefix lists every name, which gives `a`, `b/`, `e/`; under `b/` the listing is `b/c`, `b/d`, which gives `c`, `d` |
| Properties.MatchingEmptyPrefix | physical/azure/azure.go:242-246 | a listing with the empty prefix returns every blob name, in the store's order |
| Properties.PutThenGet | physical/azure/azure.go:156-207 | on a backend whose container exists and whose calls do not fail, reading back a written key gives the entry written |
| Properties.DeleteTwice | physical/azure/azure.go:210-231 | deleting a key twice succeeds both times, and a Get then finds nothing |
| Properties.NewCreatesContainer | physical/azure/azure.go:119-153 | with no fault and a missing container, construction probes, creates the container with no public access, and succeeds |
| Properties.NewRejectsWordParallel | physical/azure/azure.go:135-141 | `max_parallel = "abc"` fails construction, after the probe has gone out |

## Left out

- The Azure SDK calls are not modelled. Pipeline, credentials, URL building and the HTTP transport are replaced by the simulated container, and the container's behaviour is an assumption of the model.
- Azure.AzureBackend.New: four failure paths of construction are left out, because the SDK code they depend on is not modelled. `New` goes on where the code returns an error in each of them:
  - an endpoint URL that `azure.EnvironmentFromURL` does not know (lines 86-92);
  - an environment name that `azure.EnvironmentFromName` does not know (lines 93-99);
  - a credential that `azblob.NewSharedKeyCredential` refuses, such as an account key that is not valid base64 (lines 102-105);
  - a blob URL that `url.Parse` refuses (lines 107-111).
- The resolved environment name and endpoint URL are kept in `Settings`; the client they would build is replaced by the simulated container.
- The five-second timeout on the probe becomes a `NonStorage` failure the fault script can inject. There are no clocks in the model.
- Azure.AzureBackend.Get: a read of the downloaded body that fails midway (Go returns the partial entry together with the error) is not modelled, because the download is atomic in the simulated container.
- Metrics (`metrics.MeasureSince`) and debug logging are left out. They do not change results.
- Permits.PermitPool: blocking when the pool is exhausted, concurrent callers, and the admission bound under concurrent load are left out, because the model is sequential. `physical.NewPermitPool` is not part of this model, so its defaulting of non-positive sizes is not modelled either; the pool only records the configured capacity.
- Concurrency in general is left out: two backends racing to create a container, and overlapping Put/Get/List.
- Page markers: Azure's `NextMarker` is an opaque string. The model's marker is the offset of the next page in the listing (`Next(offset)`), plus `Initial` for the empty start marker and `Done` for the empty marker the last page returns. So the request markers `MarkerAt(i)` are offsets of 5000·i. The model cannot tell apart two service markers that point to the same place.
- Remote.Matching enumerates names in the store's own order (insertion order), where Azure enumerates lexicographically. `Properties.ListOrderIndependent` shows that List's result does not depend on that order.
- Blob snapshots (`DeleteSnapshotsOptionInclude`), block sizes, access conditions and metadata are not modelled. They do not change the keys and values the backend reports.
- `audit/format_json.go` and `wrapped_metrics.go` are not part of this model; they are not part of the backend.
