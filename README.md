# S3 uploader model

A Dafny model of the upload engine in `pkg/s3/uploader.go`, which uploads one
file of a time-series-database block directory to an object-storage bucket
under a tenant-scoped key. The model covers:

- key building (`tenant + "/" + key`) and size routing in `UploadFileToS3`;
- the single-shot `upload` (one PutObject);
- `multipartUpload`, which covers:
  - opening the session;
  - the split loop that cuts the buffer into parts of at most `maxPartSize`, numbered from 1;
  - the per-part tasks that upload a part and abort the session when it fails;
  - the `partErr` check;
  - sorting the collected parts by part number;
  - the completion;
- `uploadPart` and its retry loop.

The object-storage service is an oracle (`S3Api.Service`). It fixes the
answer of every backend operation:
- `uploadPart` answers per part number and attempt;
- `abortMultipartUpload` answers per failing part, since every failing part task sends its own abort.

Every operation returns its error result and the trace of requests it sent,
in order. Contracts state which requests happen, with which arguments, and
which error comes back.

The part tasks run concurrently in the code. The model runs them one after
another in the order of a `schedule`, which may be any permutation of the
part indices (`Fanout.IsSchedule`). Each property of the multipart path is
proved for every schedule.

Modules:
- `S3Api`: requests, responses, the service oracle and request counting.
- `Parts`: the constants `maxPartSize` and `multipartSize`, and the split loop as the recursion `SplitFrom`, with its properties.
- `Fanout`: schedules, and what a sequence of tasks gathers.
- `PartOrder`: the `sort.Slice` comparator, a sort with its contract, and uniqueness of a sorted order.
- `Uploader`: the operations of `uploader.go` and the properties of the multipart path.

### Behaviour of the code as written

The model follows the control flow and the values computed by
`pkg/s3/uploader.go`, with the differences listed under "## Left out". It
keeps these behaviours, which a reader might not expect:

- **Tenants are not isolated by construction.** The object key is `tenant + "/" + key` (line 47), and the tenant is taken as given. Two tenants can share an object key, for example `"a"` with key `"b/x"` and `"a/b"` with key `"x"`. Tenant isolation holds only for tenants without '/' (`Uploader.TenantOfObjectKey`, `Uploader.ObjectKeyInjective`), and the code never checks that.
- **One attempt per part.** The retry loop runs while `tryNum <= 3` (line 169), but it returns the error as soon as `tryNum == maxRetries` (line 172), and `maxRetries = 1` (line 21). A failing part therefore gets exactly one attempt; attempts 2 and 3 are never made. `Uploader.UploadPartRetrying` is proved for any `maxRetries`, and `Uploader.UploadPart` fixes it at 1.
- **The abort's response replaces the part's error.** Inside a task, `err := h.abortMultipartUpload(resp)` (line 109) declares a new `err`, and lines 112 and 115 store that abort response in `partErr`, so the part's own error is never stored. When that task's write is the last write to `partErr`, then after the abort:
  - a failed abort leaves `partErr` set to the abort's error, which is returned with no completion request sent (`Uploader.FailedAbortIsReturned`);
  - a successful abort leaves `partErr` nil, and the orchestrator goes on to send the completion request for the session it has just aborted (`Uploader.SuccessfulAbortClearsPartErr`, with `Uploader.SessionTrace`).
- **One abort per failing part.** Each failing task sends its own AbortMultipartUpload (line 109), so N failed parts send N aborts (the abort count in `Uploader.SessionTrace`).
- **`partErr` is not guarded by the mutex.** `mu` is held only around the append to `completedParts` (lines 119-121), and the writes to `partErr` (lines 112 and 115) happen without it. Every failing task overwrites `partErr`, including with nil. The model takes the last failing task in schedule order as the last writer (`Uploader.PartErr`).

## Model

| member | source | states |
|---|---|---|
| Parts.SplitFrom | pkg/s3/uploader.go:94-126 | the loop from a given point produces no part exactly when nothing remains, and never more parts than bytes remaining (each part holds at least one byte) |
| Parts.Split | pkg/s3/uploader.go:94-126 | a file has no parts exactly when it is empty, at most one part per byte, and its first part is number 1 at offset 0 |
| Parts.SinglePartUnlessMultipart | pkg/s3/uploader.go:19-23 | a file of at most multipartSize bytes would be at most one part |
| Parts.SplitNumbers | pkg/s3/uploader.go:83-126 | the parts the split loop starts are numbered from `partNumber` upwards without gaps, so 1..N for a whole file |
| Parts.SplitOffsets | pkg/s3/uploader.go:94-126 | the part lengths add up to what remained (the file size for a whole file), and each part starts at the sum of the lengths before it |
| Parts.SplitLengths | pkg/s3/uploader.go:97-101 | each length is min(remaining, maxPartSize); every part but the last is full; the last holds between 1 and maxPartSize bytes |
| Parts.SplitBounds | pkg/s3/uploader.go:94-106 | every slice `(*buffer)[curr:curr+partLength]` is non-empty and lies inside the file |
| Parts.SplitDisjoint | pkg/s3/uploader.go:94-126 | no two parts overlap: each ends at or before the next one starts |
| Parts.SplitCount | pkg/s3/uploader.go:94-126 | the loop makes ceil(size / maxPartSize) parts |
| Parts.SplitPayload | pkg/s3/uploader.go:94-126 | the part bodies, concatenated in part order, are exactly the bytes that remained |
| Parts.WholeFilePayload | pkg/s3/uploader.go:94-126 | for a whole file and any part size, maxPartSize included, the part bodies in part order give back the buffer |
| Parts.MultipartHasSeveralParts | pkg/s3/uploader.go:19-23 | since maxPartSize equals multipartSize, a file routed to multipart is cut into at least two parts |
| Parts.SplitOf250MiB | pkg/s3/uploader.go:94-126 | 250 MiB is cut into (1, 0, 100 MiB), (2, 100 MiB, 100 MiB), (3, 200 MiB, 50 MiB) |
| Fanout.ScheduleBounds | pkg/s3/uploader.go:94-126 | a schedule of the N started tasks has N entries, each naming a started task |
| Fanout.GatherPermutation | pkg/s3/uploader.go:103-122 | running the same tasks in another order gathers the same results, only in another order |
| PartOrder.PartNumberLess | pkg/s3/uploader.go:133-135 | the comparator orders only parts with different numbers, never in both directions, and two parts it orders in neither direction have the same number |
| PartOrder.InsertByPartNumber | pkg/s3/uploader.go:133-135 | inserting a part into a sorted sequence keeps it sorted by the comparator and adds exactly that part |
| PartOrder.SortByPartNumber | pkg/s3/uploader.go:133-135 | `sort.Slice` with the PartNumber comparator returns a permutation of its input sorted by part number |
| PartOrder.SortedPermutationIsUnique | pkg/s3/uploader.go:133-135 | a sorted permutation of a strictly ascending sequence of parts is that sequence |
| Uploader.ObjectKey | pkg/s3/uploader.go:47 | the key is the tenant, a '/', then the key, and each piece can be read back from it |
| Uploader.TenantOfObjectKey | pkg/s3/uploader.go:47 | the tenant (without '/') is the segment of the key before its first '/' |
| Uploader.ObjectKeyInjective | pkg/s3/uploader.go:47 | two tenants without '/' never share an object key, and one tenant's keys differ whenever the relative keys differ |
| Uploader.UsesMultipart | pkg/s3/uploader.go:49 | routing by `size > multipartSize` sends a file to multipart exactly when the split loop would cut it into two or more parts |
| Uploader.UploadFileToS3 | pkg/s3/uploader.go:31-54 | a file of at most multipartSize bytes sends one PutObject of the whole buffer under tenant + "/" + key, returns its error and opens no session; a larger one opens a session under the same key and sends no PutObject; if the opening fails, its error alone is returned; otherwise the trace and error are exactly those of `multipartUpload` (`SessionCalls`, `SessionErr`), with at least two parts uploaded |
| Uploader.Upload | pkg/s3/uploader.go:56-67 | one PutObject with the bucket, the object key and the whole buffer; the service's error is returned unchanged |
| Uploader.UploadPartRetrying | pkg/s3/uploader.go:158-187 | for any maxRetries: 1 to 3 identical UploadPart requests, all but the last failing; success exactly when the last attempt succeeds, with the requested part number and the ETag; an error only on attempt maxRetries, returned unwrapped; (nil, nil) only after 3 attempts when maxRetries is outside 1..3 |
| Uploader.UploadPart | pkg/s3/uploader.go:158-187 | with maxRetries = 1: exactly one UploadPart request; it fails exactly when that attempt fails, with that error unwrapped; otherwise the requested part number and the service's ETag; never (nil, nil) |
| Uploader.MultipartUpload | pkg/s3/uploader.go:69-144 | the first request opens the session under the object key; if that fails, its error is returned and nothing else is sent; otherwise the rest of the trace and the error are those of the open session (`SessionCalls`, `SessionErr`), whatever order the part tasks run in |
| Uploader.SessionCalls | pkg/s3/uploader.go:128-143 | the requests after the session opens begin with the tasks' requests, and end with the completion carrying the uploaded parts in part order whenever partErr is not set |
| Uploader.SessionErr | pkg/s3/uploader.go:128-143 | the multipart path succeeds exactly when partErr is not set and the completion succeeds; a set partErr is what is returned |
| Uploader.RunSession | pkg/s3/uploader.go:83-143 | after the session opens: the requests are the tasks' requests then, unless partErr is set, one completion with the uploaded parts in part order; the error is partErr if set, else the completion's |
| Uploader.StartPartTasks | pkg/s3/uploader.go:83-126 | the split loop starts exactly the tasks of `Split(size, maxPartSize)` and terminates |
| Uploader.CompletedBy | pkg/s3/uploader.go:119-121 | a task appends at most one part, carrying its own part number |
| Uploader.FailedBy | pkg/s3/uploader.go:106-116 | every started task either appends its part or records its failure, never both, and the failure names its part |
| Uploader.CallsBy | pkg/s3/uploader.go:106-116 | a started task sends its UploadPart of its own slice first, and one more request (the abort) exactly when it fails |
| Uploader.PartErr | pkg/s3/uploader.go:109-116 | partErr stays nil when no task fails, and when set it is the response of the abort of a failed part (the `err :=` at line 109 hides the part's own error) |
| Uploader.RunPartTasks | pkg/s3/uploader.go:103-122 | after the tasks run in schedule order, completedParts, partErr and the requests are those the schedule determines: each task sends its UploadPart of its own slice, and a failing one sends an abort and stores the abort's response in partErr |
| Uploader.TaskStep | pkg/s3/uploader.go:106-121 | one more task appends its part on success, or on failure sets partErr to its abort's response, and adds its UploadPart (and abort) to the requests |
| Uploader.FinishMultipartUpload | pkg/s3/uploader.go:128-143 | a set partErr is returned and nothing is sent; otherwise one completion for this session carrying a sorted permutation of the collected parts, and the completion's error returned unchanged |
| Uploader.TaskCallCounts | pkg/s3/uploader.go:103-122 | the tasks send one UploadPart each, one abort per failed part, and no other request |
| Uploader.MultipartTraceCounts | pkg/s3/uploader.go:78-143 | a multipart trace holds one CreateMultipartUpload, one UploadPart per part, one abort per failed part, no PutObject, and one completion per completion in its tail |
| Uploader.SessionTrace | pkg/s3/uploader.go:78-143 | the whole trace of a multipart upload whose session opened holds one CreateMultipartUpload, one UploadPart per part, one abort per failed part and no PutObject; the completion is sent once, last, with strictly ascending part numbers, exactly when partErr is not set, and never when it is; partErr is never set when no part failed |
| Uploader.FailureCountIndependentOfSchedule | pkg/s3/uploader.go:107-116 | for the same service answers, every schedule sees the same failed parts, so N failed parts always mean N aborts |
| Uploader.CollectedPrefixAscending | pkg/s3/uploader.go:119-121 | the parts collected by the first k tasks in part order ascend strictly and are numbered at most k |
| Uploader.UploadedPartsAscending | pkg/s3/uploader.go:119-121 | the uploaded parts, in part order, ascend strictly by part number |
| Uploader.CompletionPartsIndependentOfSchedule | pkg/s3/uploader.go:133-137 | whatever order the tasks appended their parts in, the sorted parts sent to completion are the uploaded parts in part order |
| Uploader.PrefixFailures | pkg/s3/uploader.go:103-122 | the first k tasks in part order record a failure exactly when one of their parts fails, and each contributes either a part or a failure |
| Uploader.PrefixParts | pkg/s3/uploader.go:119-121 | when none of the first k tasks fails, task j contributes part j with its number and ETag |
| Uploader.AllPartsUploaded | pkg/s3/uploader.go:103-122 | when no part fails, completion gets one part per task, with the task's number and ETag, in part order |
| Uploader.FailedAbortIsReturned | pkg/s3/uploader.go:109-131 | as written: when every abort fails and some part fails, partErr ends set to the abort error of a failed part, whatever the schedule; multipartUpload returns it and sends nothing after the tasks' requests, so no completion |
| Uploader.SuccessfulAbortClearsPartErr | pkg/s3/uploader.go:109-116 | as written: when every abort succeeds, partErr ends nil although parts failed, and fewer parts were uploaded than the file has; with `SessionTrace`, the completion request is then sent listing fewer parts than the file has |

## Left out

- Opening, stat-ing and reading the file (`os.Open`, `Stat`, `Read`): the model takes the buffer as input, and the file size is its length. A short read, and the `Stat` error that the code ignores, are not modelled.
- `http.DetectContentType`, the ACL and content-disposition headers, `log` and `fmt` printing: library heuristics and logging with no effect on control flow.
- Goroutines, `sync.WaitGroup` and `sync.Mutex`. The tasks run one after another in the order of an arbitrary schedule. The unsynchronised writes to `partErr` are a data race in the code. The model takes the last write in schedule order; torn or lost writes are not captured.
- The AWS SDK, sessions, credentials and `NewS3Helper`: foreign network code, stood in for by the oracle `S3Api.Service`. The oracle gives one fixed answer per operation. Completing a session that has already been aborted therefore gets the same answer as any completion; the service's real behaviour in that case is not modelled. Likewise, an UploadPart sent after another task's abort gets the same answer as any other; a real service's rejection of parts of an aborted upload, which can make the set of failed parts depend on the order of the tasks, is not modelled.
- Bucket and key fields of the UploadPart, AbortMultipartUpload and CompleteMultipartUpload requests: they are copied from the session's response, so the model keeps only the upload id.
- `int64` sizes and the `int` part number: the model uses unbounded naturals. Overflow cannot occur for buffers that fit in memory. The service's limit of 10000 parts is a property of the service, not of this code.
- PartOrder.SortByPartNumber: `sort.Slice` is modelled by an insertion sort over a sequence value with the same contract (sorted by the comparator, a permutation of the input). The in-place update of the Go slice is not modelled.
- `cmd/uploader/main.go` (flag parsing, per-file fan-out, the `data/` prefix strip) and `pkg/util/files.go` (directory traversal): outside the upload engine, and pure I/O.
