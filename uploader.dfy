/** pkg/s3/uploader.go: the upload of one file. UploadFileToS3 builds the
    tenant-scoped object key and routes the file to a single PutObject or to
    a multipart upload; multipartUpload opens a session, cuts the buffer
    into parts, runs one task per part, and completes the session with the
    collected parts sorted by part number; uploadPart sends one part with a
    bounded retry loop.

    The service is the oracle S3Api.Service. Every operation returns its
    result and the requests it sent, in order. The concurrent part tasks run
    one after another in the order of a schedule (Fanout). */
module Uploader {
  import opened S3Api
  import opened Parts
  import opened Fanout
  import opened PartOrder

  /** maxRetries: the attempt on which uploadPart stops and reports the error. */
  const MaxRetries: nat := 1

  /** The bound of uploadPart's loop, `tryNum <= 3`. */
  const AttemptLimit: nat := 3

  /** S3Helper: the service client, the bucket and the tenant. */
  datatype S3Helper = S3Helper(service: Service, bucket: string, tenant: string)

  // ---------------------------------------------------------------------------
  // Key building and routing

  /** bucketKey := h.tenant + "/" + key: the tenant, a slash, then the key,
      each of which can be read back from the result. */
  function ObjectKey(tenant: string, key: string): (objectKey: string)
    ensures |objectKey| == |tenant| + 1 + |key|
    ensures objectKey[..|tenant|] == tenant
    ensures objectKey[|tenant|] == '/'
    ensures objectKey[|tenant| + 1..] == key
  {
    tenant + "/" + key
  }

  /** The tenant segment of an object key: everything before its first '/'. */
  function TenantOf(objectKey: string): string {
    if objectKey == [] || objectKey[0] == '/' then [] else [objectKey[0]] + TenantOf(objectKey[1..])
  }

  /** A tenant without '/' is recovered from every key built for it. */
  lemma {:induction false} TenantOfObjectKey(tenant: string, key: string)
    requires '/' !in tenant
    ensures TenantOf(ObjectKey(tenant, key)) == tenant
    decreases |tenant|
  {
    if tenant != [] {
      assert ObjectKey(tenant, key)[1..] == ObjectKey(tenant[1..], key);
      TenantOfObjectKey(tenant[1..], key);
    }
  }

  /** Tenant isolation: two tenants without '/' never share an object key,
      and one tenant's keys differ whenever the relative keys differ. */
  lemma ObjectKeyInjective(tenant1: string, key1: string, tenant2: string, key2: string)
    requires '/' !in tenant1 && '/' !in tenant2
    requires ObjectKey(tenant1, key1) == ObjectKey(tenant2, key2)
    ensures tenant1 == tenant2 && key1 == key2
  {
    TenantOfObjectKey(tenant1, key1);
    TenantOfObjectKey(tenant2, key2);
  }

  /** The routing test `size > multipartSize`. Since maxPartSize equals
      multipartSize, it sends a file to multipart upload exactly when the
      split loop would cut it into more than one part. */
  predicate UsesMultipart(size: nat): (multipart: bool)
    ensures multipart <==> |Split(size, MaxPartSize)| >= 2
  {
    if size > MultipartSize then MultipartHasSeveralParts(size); true
    else SinglePartUnlessMultipart(size); false
  }

  // ---------------------------------------------------------------------------
  // Single-shot upload

  /** upload: one PutObject of the whole buffer under the object key; the
      service's error is returned as it is. */
  method Upload(h: S3Helper, objectKey: string, buffer: seq<Byte>) returns (err: Option<Error>, calls: seq<Request>)
    ensures calls == [PutObjectInput(h.bucket, objectKey, buffer)]
    ensures err == h.service.putObject
  {
    calls := [PutObjectInput(h.bucket, objectKey, buffer)];
    err := h.service.putObject;
  }

  // ---------------------------------------------------------------------------
  // Part upload with retries

  /** What uploadPart returns: a completed part, an error, or (nil, nil)
      when its loop runs out without returning. */
  datatype PartOutcome = Uploaded(part: CompletedPart) | Failed(error: Error) | NoPart

  /** uploadPart's loop for any setting of the package constant maxRetries.
      Attempt tryNum sends the same UploadPart request and gets the service's
      answer for (partNumber, tryNum). The loop stops at the first success,
      or at a failure on attempt maxRetries, or after attempt 3. */
  method UploadPartRetrying(s: Service, uploadId: string, body: seq<Byte>, partNumber: nat, maxRetries: nat)
    returns (outcome: PartOutcome, calls: seq<Request>)
    ensures 1 <= |calls| <= AttemptLimit
    ensures forall c :: c in calls ==> c == UploadPartInput(uploadId, partNumber, body)
    ensures forall t :: 1 <= t < |calls| ==> s.uploadPart(partNumber, t).Failure?
    ensures outcome.Uploaded? <==> s.uploadPart(partNumber, |calls|).Success?
    ensures outcome.Uploaded? ==> outcome.part == CompletedPart(partNumber, s.uploadPart(partNumber, |calls|).value)
    ensures outcome.Failed? ==>
              && |calls| == maxRetries
              && s.uploadPart(partNumber, maxRetries).Failure?
              && outcome.error == s.uploadPart(partNumber, maxRetries).error
    ensures outcome.NoPart? ==> |calls| == AttemptLimit && !(1 <= maxRetries <= AttemptLimit)
    ensures 1 <= maxRetries <= AttemptLimit ==> |calls| <= maxRetries && !outcome.NoPart?
  {
    var tryNum := 1;
    calls := [];
    while tryNum <= AttemptLimit
      invariant 1 <= tryNum <= AttemptLimit + 1
      invariant |calls| == tryNum - 1
      invariant forall c :: c in calls ==> c == UploadPartInput(uploadId, partNumber, body)
      invariant forall t :: 1 <= t < tryNum ==> s.uploadPart(partNumber, t).Failure?
      invariant 1 <= maxRetries <= AttemptLimit ==> tryNum <= maxRetries
    {
      var response := s.uploadPart(partNumber, tryNum);
      calls := calls + [UploadPartInput(uploadId, partNumber, body)];
      if response.Failure? {
        if tryNum == maxRetries {
          // an awserr.Error and any other error are both returned unwrapped
          return Failed(response.error), calls;
        }
        tryNum := tryNum + 1;
      } else {
        return Uploaded(CompletedPart(partNumber, response.value)), calls;
      }
    }
    return NoPart, calls;
  }

  /** The one attempt uploadPart makes for a part fails. */
  predicate PartFails(s: Service, partNumber: nat) {
    s.uploadPart(partNumber, 1).Failure?
  }

  /** uploadPart as the package has it, with maxRetries = 1: exactly one
      UploadPart request; on failure its error, unwrapped; on success the
      requested part number with the service's ETag. The trailing
      `return nil, nil` is never reached. */
  method UploadPart(s: Service, uploadId: string, body: seq<Byte>, partNumber: nat)
    returns (outcome: PartOutcome, calls: seq<Request>)
    ensures calls == [UploadPartInput(uploadId, partNumber, body)]
    ensures outcome.Failed? <==> PartFails(s, partNumber)
    ensures outcome.Failed? ==> outcome.error == s.uploadPart(partNumber, 1).error
    ensures !outcome.Failed? ==> outcome == Uploaded(CompletedPart(partNumber, s.uploadPart(partNumber, 1).value))
  {
    outcome, calls := UploadPartRetrying(s, uploadId, body, partNumber, MaxRetries);
    assert calls[0] in calls;
  }

  // ---------------------------------------------------------------------------
  // What the part tasks do, as functions of the schedule

  /** What the task for tasks[i] appends to completedParts. */
  function CompletedBy(s: Service, tasks: seq<Part>, i: nat): (completed: seq<CompletedPart>)
    ensures |completed| <= 1
    ensures completed != [] ==> i < |tasks| && completed[0].partNumber == tasks[i].number
  {
    if i < |tasks| && !PartFails(s, tasks[i].number)
    then [CompletedPart(tasks[i].number, s.uploadPart(tasks[i].number, 1).value)]
    else []
  }

  /** The part number of the task for tasks[i], if that task fails. */
  function FailedBy(s: Service, tasks: seq<Part>, i: nat): (failed: seq<nat>)
    ensures |failed| + |CompletedBy(s, tasks, i)| == if i < |tasks| then 1 else 0
    ensures failed != [] ==> failed == [tasks[i].number]
  {
    if i < |tasks| && PartFails(s, tasks[i].number) then [tasks[i].number] else []
  }

  /** The requests the task for tasks[i] sends: its UploadPart, then an
      AbortMultipartUpload if that failed. */
  function CallsBy(s: Service, uploadId: string, buffer: seq<Byte>, tasks: seq<Part>, i: nat): (calls: seq<Request>)
    ensures i < |tasks| ==>
              && |calls| == 1 + |FailedBy(s, tasks, i)|
              && calls[0] == UploadPartInput(uploadId, tasks[i].number, Body(buffer, tasks[i]))
    ensures i >= |tasks| ==> calls == []
  {
    if i < |tasks| then
      [UploadPartInput(uploadId, tasks[i].number, Body(buffer, tasks[i]))]
      + (if PartFails(s, tasks[i].number) then [AbortMultipartUploadInput(uploadId)] else [])
    else []
  }

  /** completedParts after the tasks in `order` have run. */
  function Collected(s: Service, tasks: seq<Part>, order: seq<nat>): seq<CompletedPart> {
    Gather(order, i => CompletedBy(s, tasks, i))
  }

  /** The numbers of the failed parts, in the order their tasks ran. */
  function Failures(s: Service, tasks: seq<Part>, order: seq<nat>): seq<nat> {
    Gather(order, i => FailedBy(s, tasks, i))
  }

  /** The requests the tasks in `order` send, in the order they run. */
  function TaskCalls(s: Service, uploadId: string, buffer: seq<Byte>, tasks: seq<Part>, order: seq<nat>): seq<Request> {
    Gather(order, i => CallsBy(s, uploadId, buffer, tasks, i))
  }

  /** partErr after the tasks in `order` have run. A failing task stores the
      response of its own abort in partErr (the `err :=` in the task shadows
      the part's error), so partErr is the abort response of the last failed
      part to run: nil when that abort succeeded. */
  function PartErr(s: Service, tasks: seq<Part>, order: seq<nat>): (partErr: Option<Error>)
    ensures Failures(s, tasks, order) == [] ==> partErr.None?
    ensures partErr.Some? ==>
              exists n :: n in Failures(s, tasks, order) && partErr == s.abortMultipartUpload(n)
  {
    var failures := Failures(s, tasks, order);
    if failures == [] then None
    else
      var last := failures[|failures| - 1];
      assert last in failures;
      s.abortMultipartUpload(last)
  }

  /** The parts that upload, in part order. */
  function UploadedParts(s: Service, tasks: seq<Part>): seq<CompletedPart> {
    Collected(s, tasks, Range(|tasks|))
  }

  /** The numbers of the parts that fail, in part order. */
  function FailedParts(s: Service, tasks: seq<Part>): seq<nat> {
    Failures(s, tasks, Range(|tasks|))
  }

  // ---------------------------------------------------------------------------
  // Multipart upload

  /** multipartUpload, with the part tasks run in the order `schedule`:
      the CreateMultipartUpload request, then nothing more if it failed (its
      error is returned), otherwise the requests and the error of the open
      session. SessionTrace states what that trace holds. */
  method MultipartUpload(h: S3Helper, objectKey: string, buffer: seq<Byte>, schedule: seq<nat>)
    returns (err: Option<Error>, calls: seq<Request>)
    requires IsSchedule(schedule, |Split(|buffer|, MaxPartSize)|)
    ensures calls == [CreateMultipartUploadInput(h.bucket, objectKey)]
                     + (if h.service.createMultipartUpload.Failure? then []
                        else SessionCalls(h.service, h.service.createMultipartUpload.value, buffer,
                                          Split(|buffer|, MaxPartSize), schedule))
    ensures err == if h.service.createMultipartUpload.Failure? then Some(h.service.createMultipartUpload.error)
                   else SessionErr(h.service, Split(|buffer|, MaxPartSize), schedule)
  {
    var create := CreateMultipartUploadInput(h.bucket, objectKey);
    calls := [create];
    if h.service.createMultipartUpload.Failure? {
      return Some(h.service.createMultipartUpload.error), calls;
    }
    var uploadId := h.service.createMultipartUpload.value;
    var sessionCalls;
    err, sessionCalls := RunSession(h.service, uploadId, buffer, schedule);
    calls := calls + sessionCalls;
  }

  /** What multipartUpload sends once the session is open: the requests of
      the part tasks, then the completion with the uploaded parts in part
      order, unless partErr is set. */
  function SessionCalls(s: Service, uploadId: string, buffer: seq<Byte>, tasks: seq<Part>, order: seq<nat>): (calls: seq<Request>)
    ensures |calls| >= |TaskCalls(s, uploadId, buffer, tasks, order)|
    ensures calls[..|TaskCalls(s, uploadId, buffer, tasks, order)|] == TaskCalls(s, uploadId, buffer, tasks, order)
    ensures PartErr(s, tasks, order).None? ==>
              |calls| > 0 && calls[|calls| - 1] == CompleteMultipartUploadInput(uploadId, UploadedParts(s, tasks))
  {
    TaskCalls(s, uploadId, buffer, tasks, order)
    + (if PartErr(s, tasks, order).None?
       then [CompleteMultipartUploadInput(uploadId, UploadedParts(s, tasks))]
       else [])
  }

  /** The error multipartUpload returns once the session is open: partErr if
      it is set, otherwise the completion's error. */
  function SessionErr(s: Service, tasks: seq<Part>, order: seq<nat>): (err: Option<Error>)
    ensures err.None? <==> PartErr(s, tasks, order).None? && s.completeMultipartUpload.None?
    ensures PartErr(s, tasks, order).Some? ==> err == PartErr(s, tasks, order)
  {
    if PartErr(s, tasks, order).Some? then PartErr(s, tasks, order) else s.completeMultipartUpload
  }

  /** multipartUpload after CreateMultipartUpload succeeded: split the file,
      run the part tasks in the order `schedule`, then finish the session. */
  method RunSession(s: Service, uploadId: string, buffer: seq<Byte>, schedule: seq<nat>)
    returns (err: Option<Error>, calls: seq<Request>)
    requires IsSchedule(schedule, |Split(|buffer|, MaxPartSize)|)
    ensures calls == SessionCalls(s, uploadId, buffer, Split(|buffer|, MaxPartSize), schedule)
    ensures err == SessionErr(s, Split(|buffer|, MaxPartSize), schedule)
  {
    var tasks := StartPartTasks(|buffer|);
    SplitBounds(0, |buffer|, 1, MaxPartSize);
    SplitNumbers(0, |buffer|, 1, MaxPartSize);
    ScheduleBounds(schedule, |tasks|);
    var completedParts, partErr, taskCalls := RunPartTasks(s, uploadId, buffer, tasks, schedule);
    var tail;
    err, tail := FinishMultipartUpload(s, uploadId, completedParts, partErr);
    if partErr.None? {
      CompletionPartsIndependentOfSchedule(s, tasks, schedule, tail[0].parts);
      assert tail == [CompleteMultipartUploadInput(uploadId, UploadedParts(s, tasks))];
    }
    calls := taskCalls + tail;
  }

  /** The completion path of multipartUpload, after every task has finished:
      a partErr is returned as it is and nothing more is sent; otherwise the
      collected parts are sorted by part number and sent in one
      CompleteMultipartUpload, whose error is returned unchanged. */
  method FinishMultipartUpload(s: Service, uploadId: string, completedParts: seq<CompletedPart>, partErr: Option<Error>)
    returns (err: Option<Error>, calls: seq<Request>)
    ensures partErr.Some? ==> err == partErr && calls == []
    ensures partErr.None? ==>
              && err == s.completeMultipartUpload
              && |calls| == 1
              && calls[0].CompleteMultipartUploadInput?
              && calls[0].uploadId == uploadId
              && SortedByPartNumber(calls[0].parts)
              && multiset(calls[0].parts) == multiset(completedParts)
  {
    if partErr.Some? {
      return partErr, [];
    }
    var sorted := SortByPartNumber(completedParts);
    calls := [CompleteMultipartUploadInput(uploadId, sorted)];
    err := s.completeMultipartUpload;
  }

  /** The split loop of multipartUpload: from offset 0 and part number 1 it
      cuts parts of min(remaining, maxPartSize) bytes until nothing remains.
      Each iteration starts the task for one part; here it records the task's
      arguments (part number, offset, length). */
  method StartPartTasks(size: nat) returns (tasks: seq<Part>)
    ensures tasks == Split(size, MaxPartSize)
  {
    tasks := [];
    var curr: nat, remaining: nat, partNumber: nat := 0, size, 1;
    while remaining != 0
      invariant curr + remaining == size
      invariant partNumber == |tasks| + 1
      invariant tasks + SplitFrom(curr, remaining, partNumber, MaxPartSize) == Split(size, MaxPartSize)
      decreases remaining
    {
      var partLength := if remaining < MaxPartSize then remaining else MaxPartSize;
      tasks := tasks + [Part(partNumber, curr, partLength)];
      remaining := remaining - partLength;
      partNumber := partNumber + 1;
      curr := curr + partLength;
    }
  }

  /** The part tasks of multipartUpload run in the order `schedule`. Each
      uploads the slice of the buffer its part covers; on failure it aborts
      the session and stores the abort's response in partErr, on success it
      appends its completed part. */
  method RunPartTasks(s: Service, uploadId: string, buffer: seq<Byte>, tasks: seq<Part>, schedule: seq<nat>)
    returns (completedParts: seq<CompletedPart>, partErr: Option<Error>, calls: seq<Request>)
    requires Within(tasks, 0, |buffer|)
    requires forall k :: 0 <= k < |schedule| ==> schedule[k] < |tasks|
    ensures completedParts == Collected(s, tasks, schedule)
    ensures partErr == PartErr(s, tasks, schedule)
    ensures calls == TaskCalls(s, uploadId, buffer, tasks, schedule)
  {
    completedParts, partErr, calls := [], None, [];
    var k := 0;
    while k < |schedule|
      invariant 0 <= k <= |schedule|
      invariant completedParts == Collected(s, tasks, schedule[..k])
      invariant partErr == PartErr(s, tasks, schedule[..k])
      invariant calls == TaskCalls(s, uploadId, buffer, tasks, schedule[..k])
    {
      var i := schedule[k];
      var t := tasks[i];
      var outcome, partCalls := UploadPart(s, uploadId, buffer[t.offset .. t.offset + t.length], t.number);
      TaskStep(s, uploadId, buffer, tasks, schedule[..k], i);
      assert schedule[..k + 1] == schedule[..k] + [i];
      calls := calls + partCalls;
      if outcome.Failed? {
        calls := calls + [AbortMultipartUploadInput(uploadId)];
        // the task's `err :=` shadows the part's error: whether the abort
        // fails or succeeds, partErr receives the abort's response
        partErr := s.abortMultipartUpload(t.number);
      } else {
        completedParts := completedParts + [outcome.part];
      }
      k := k + 1;
    }
    assert schedule[..k] == schedule;
  }

  /** Running one more task, tasks[i], extends what the tasks collected,
      failed and sent by what that one task contributes. */
  lemma TaskStep(s: Service, uploadId: string, buffer: seq<Byte>, tasks: seq<Part>, order: seq<nat>, i: nat)
    requires i < |tasks|
    requires tasks[i].offset + tasks[i].length <= |buffer|
    ensures Collected(s, tasks, order + [i])
         == Collected(s, tasks, order)
            + (if PartFails(s, tasks[i].number) then []
               else [CompletedPart(tasks[i].number, s.uploadPart(tasks[i].number, 1).value)])
    ensures PartErr(s, tasks, order + [i])
         == if PartFails(s, tasks[i].number) then s.abortMultipartUpload(tasks[i].number) else PartErr(s, tasks, order)
    ensures TaskCalls(s, uploadId, buffer, tasks, order + [i])
         == TaskCalls(s, uploadId, buffer, tasks, order)
            + [UploadPartInput(uploadId, tasks[i].number, buffer[tasks[i].offset .. tasks[i].offset + tasks[i].length])]
            + (if PartFails(s, tasks[i].number) then [AbortMultipartUploadInput(uploadId)] else [])
  {
  }

  // ---------------------------------------------------------------------------
  // Upload of one file

  /** UploadFileToS3 on a file whose contents are `buffer`: the object key is
      tenant + "/" + key on both paths; a file of at most multipartSize bytes
      is sent by one PutObject and opens no session; a larger one goes to
      multipartUpload, which cuts it into at least two parts. */
  method UploadFileToS3(h: S3Helper, key: string, buffer: seq<Byte>, schedule: seq<nat>)
    returns (err: Option<Error>, calls: seq<Request>)
    requires UsesMultipart(|buffer|) ==> IsSchedule(schedule, |Split(|buffer|, MaxPartSize)|)
    ensures !UsesMultipart(|buffer|) ==>
              && calls == [PutObjectInput(h.bucket, ObjectKey(h.tenant, key), buffer)]
              && err == h.service.putObject
    ensures UsesMultipart(|buffer|) ==>
              && |calls| >= 1
              && calls[0] == CreateMultipartUploadInput(h.bucket, ObjectKey(h.tenant, key))
              && Count(calls, Put) == 0
    ensures UsesMultipart(|buffer|) && h.service.createMultipartUpload.Failure? ==>
              err == Some(h.service.createMultipartUpload.error) && |calls| == 1
    ensures UsesMultipart(|buffer|) && h.service.createMultipartUpload.Success? ==>
              && calls == [CreateMultipartUploadInput(h.bucket, ObjectKey(h.tenant, key))]
                          + SessionCalls(h.service, h.service.createMultipartUpload.value, buffer,
                                         Split(|buffer|, MaxPartSize), schedule)
              && err == SessionErr(h.service, Split(|buffer|, MaxPartSize), schedule)
              && Count(calls, PartUpload) >= 2
  {
    var bucketKey := ObjectKey(h.tenant, key);
    if UsesMultipart(|buffer|) {
      MultipartHasSeveralParts(|buffer|);
      err, calls := MultipartUpload(h, bucketKey, buffer, schedule);
      if h.service.createMultipartUpload.Success? {
        SplitNumbers(0, |buffer|, 1, MaxPartSize);
        SessionTrace(h.service, h.service.createMultipartUpload.value, buffer, Split(|buffer|, MaxPartSize), schedule, calls[0]);
      } else {
        assert calls == [calls[0]] && [calls[0]][..0] == [];
      }
      return;
    }
    err, calls := Upload(h, bucketKey, buffer);
  }

  // ---------------------------------------------------------------------------
  // Properties of the part tasks

  /** Every task sends one UploadPart; the failed ones, and only they, send
      one AbortMultipartUpload; no task sends anything else. */
  lemma {:induction false} TaskCallCounts(s: Service, uploadId: string, buffer: seq<Byte>, tasks: seq<Part>, order: seq<nat>)
    requires forall k :: 0 <= k < |order| ==> order[k] < |tasks|
    ensures Count(TaskCalls(s, uploadId, buffer, tasks, order), PartUpload) == |order|
    ensures Count(TaskCalls(s, uploadId, buffer, tasks, order), Abort) == |Failures(s, tasks, order)|
    ensures Count(TaskCalls(s, uploadId, buffer, tasks, order), Complete) == 0
    ensures Count(TaskCalls(s, uploadId, buffer, tasks, order), Create) == 0
    ensures Count(TaskCalls(s, uploadId, buffer, tasks, order), Put) == 0
    decreases |order|
  {
    if order != [] {
      var init := order[..|order| - 1];
      var i := order[|order| - 1];
      TaskCallCounts(s, uploadId, buffer, tasks, init);
      forall op: Operation
        ensures Count(TaskCalls(s, uploadId, buffer, tasks, order), op)
             == Count(TaskCalls(s, uploadId, buffer, tasks, init), op) + Count(CallsBy(s, uploadId, buffer, tasks, i), op)
      {
        CountAppend(TaskCalls(s, uploadId, buffer, tasks, init), CallsBy(s, uploadId, buffer, tasks, i), op);
      }
      var upload := [UploadPartInput(uploadId, tasks[i].number, Body(buffer, tasks[i]))];
      if PartFails(s, tasks[i].number) {
        forall op: Operation
          ensures Count(CallsBy(s, uploadId, buffer, tasks, i), op)
               == (if op == PartUpload || op == Abort then 1 else 0)
        {
          CountAppend(upload, [AbortMultipartUploadInput(uploadId)], op);
          assert [AbortMultipartUploadInput(uploadId)][..0] == [];
          assert upload[..0] == [];
        }
      } else {
        assert CallsBy(s, uploadId, buffer, tasks, i) == upload;
        assert upload[..0] == [];
      }
    }
  }

  /** The requests of a whole multipart upload whose session opened: one
      CreateMultipartUpload, one UploadPart per part, one abort per failed
      part, no PutObject; a completion, sent last and with strictly
      ascending part numbers, exactly when partErr is not set, which is
      always the case when no part failed. */
  lemma SessionTrace(s: Service, uploadId: string, buffer: seq<Byte>, tasks: seq<Part>, order: seq<nat>, create: Request)
    requires NumberedFrom(tasks, 1)
    requires IsSchedule(order, |tasks|)
    requires create.Op() == Create
    ensures Count([create] + SessionCalls(s, uploadId, buffer, tasks, order), Create) == 1
    ensures Count([create] + SessionCalls(s, uploadId, buffer, tasks, order), Put) == 0
    ensures Count([create] + SessionCalls(s, uploadId, buffer, tasks, order), PartUpload) == |tasks|
    ensures Count([create] + SessionCalls(s, uploadId, buffer, tasks, order), Abort) == |FailedParts(s, tasks)|
    ensures PartErr(s, tasks, order).Some? ==> Count([create] + SessionCalls(s, uploadId, buffer, tasks, order), Complete) == 0
    ensures PartErr(s, tasks, order).None? ==>
              && Count([create] + SessionCalls(s, uploadId, buffer, tasks, order), Complete) == 1
              && SessionCalls(s, uploadId, buffer, tasks, order)[|SessionCalls(s, uploadId, buffer, tasks, order)| - 1]
                 == CompleteMultipartUploadInput(uploadId, UploadedParts(s, tasks))
              && StrictlyAscending(UploadedParts(s, tasks))
    ensures FailedParts(s, tasks) == [] ==> PartErr(s, tasks, order).None?
  {
    var session := SessionCalls(s, uploadId, buffer, tasks, order);
    var taskCalls := TaskCalls(s, uploadId, buffer, tasks, order);
    var tail := if PartErr(s, tasks, order).None? then [CompleteMultipartUploadInput(uploadId, UploadedParts(s, tasks))] else [];
    assert [create] + session == [create] + taskCalls + tail by {
      assert session == taskCalls + tail;
    }
    assert tail != [] ==> tail[0] in tail;
    MultipartTraceCounts(s, uploadId, buffer, tasks, order, create, tail);
    FailureCountIndependentOfSchedule(s, tasks, order);
    UploadedPartsAscending(s, tasks);
  }

  /** The counts of a multipart trace: the CreateMultipartUpload, the tasks'
      requests in the order `order`, and a tail of at most one completion. */
  lemma MultipartTraceCounts(s: Service, uploadId: string, buffer: seq<Byte>, tasks: seq<Part>, order: seq<nat>,
                             create: Request, tail: seq<Request>)
    requires IsSchedule(order, |tasks|)
    requires create.Op() == Create
    requires |tail| <= 1 && forall c :: c in tail ==> c.Op() == Complete
    ensures Count([create] + TaskCalls(s, uploadId, buffer, tasks, order) + tail, Create) == 1
    ensures Count([create] + TaskCalls(s, uploadId, buffer, tasks, order) + tail, Put) == 0
    ensures Count([create] + TaskCalls(s, uploadId, buffer, tasks, order) + tail, PartUpload) == |tasks|
    ensures Count([create] + TaskCalls(s, uploadId, buffer, tasks, order) + tail, Abort) == |FailedParts(s, tasks)|
    ensures Count([create] + TaskCalls(s, uploadId, buffer, tasks, order) + tail, Complete) == |tail|
  {
    var taskCalls := TaskCalls(s, uploadId, buffer, tasks, order);
    ScheduleBounds(order, |tasks|);
    TaskCallCounts(s, uploadId, buffer, tasks, order);
    FailureCountIndependentOfSchedule(s, tasks, order);
    CountAroundMiddle(create, taskCalls, tail, Create);
    CountAroundMiddle(create, taskCalls, tail, Put);
    CountAroundMiddle(create, taskCalls, tail, PartUpload);
    CountAroundMiddle(create, taskCalls, tail, Abort);
    CountAroundMiddle(create, taskCalls, tail, Complete);
  }

  /** For the same service answers, a permutation of the tasks sees the same
      failed parts as the tasks in part order, so N failed parts always mean
      N aborts. */
  lemma FailureCountIndependentOfSchedule(s: Service, tasks: seq<Part>, order: seq<nat>)
    requires IsSchedule(order, |tasks|)
    ensures multiset(Failures(s, tasks, order)) == multiset(FailedParts(s, tasks))
    ensures |Failures(s, tasks, order)| == |FailedParts(s, tasks)|
    ensures Failures(s, tasks, order) == [] <==> FailedParts(s, tasks) == []
  {
    GatherPermutation(order, Range(|tasks|), i => FailedBy(s, tasks, i));
    assert |multiset(Failures(s, tasks, order))| == |Failures(s, tasks, order)|;
    assert |multiset(FailedParts(s, tasks))| == |FailedParts(s, tasks)|;
  }

  /** The parts collected by the first k tasks in part order ascend strictly
      and have numbers 1 .. k at most. */
  lemma {:induction false} CollectedPrefixAscending(s: Service, tasks: seq<Part>, k: nat)
    requires NumberedFrom(tasks, 1)
    requires k <= |tasks|
    ensures StrictlyAscending(Collected(s, tasks, Range(k)))
    ensures forall j :: 0 <= j < |Collected(s, tasks, Range(k))| ==> Collected(s, tasks, Range(k))[j].partNumber <= k
  {
    if k > 0 {
      assert Range(k)[..k - 1] == Range(k - 1);
      CollectedPrefixAscending(s, tasks, k - 1);
    }
  }

  /** The uploaded parts in part order ascend strictly by part number. */
  lemma UploadedPartsAscending(s: Service, tasks: seq<Part>)
    requires NumberedFrom(tasks, 1)
    ensures StrictlyAscending(UploadedParts(s, tasks))
  {
    CollectedPrefixAscending(s, tasks, |tasks|);
  }

  /** Whatever the order in which the tasks appended their parts, sorting by
      part number gives the uploaded parts in part order. */
  lemma CompletionPartsIndependentOfSchedule(s: Service, tasks: seq<Part>, order: seq<nat>, sorted: seq<CompletedPart>)
    requires NumberedFrom(tasks, 1)
    requires IsSchedule(order, |tasks|)
    requires SortedByPartNumber(sorted)
    requires multiset(sorted) == multiset(Collected(s, tasks, order))
    ensures sorted == UploadedParts(s, tasks)
  {
    GatherPermutation(order, Range(|tasks|), i => CompletedBy(s, tasks, i));
    UploadedPartsAscending(s, tasks);
    SortedPermutationIsUnique(sorted, UploadedParts(s, tasks));
  }

  /** The first k tasks in part order record a failure exactly when one of
      their parts fails, and each contributes either a part or a failure. */
  lemma {:induction false} PrefixFailures(s: Service, tasks: seq<Part>, k: nat)
    requires k <= |tasks|
    ensures Failures(s, tasks, Range(k)) == [] <==> forall j :: 0 <= j < k ==> !PartFails(s, tasks[j].number)
    ensures |Collected(s, tasks, Range(k))| + |Failures(s, tasks, Range(k))| == k
  {
    if k > 0 {
      assert Range(k)[..k - 1] == Range(k - 1);
      PrefixFailures(s, tasks, k - 1);
    }
  }

  /** When none of the first k tasks in part order fails, task j contributes
      part j, numbered as the task and carrying its ETag. */
  lemma {:induction false} PrefixParts(s: Service, tasks: seq<Part>, k: nat)
    requires k <= |tasks|
    requires forall j :: 0 <= j < k ==> !PartFails(s, tasks[j].number)
    ensures |Collected(s, tasks, Range(k))| == k
    ensures forall j :: 0 <= j < k ==>
              !PartFails(s, tasks[j].number) &&
              Collected(s, tasks, Range(k))[j] == CompletedPart(tasks[j].number, s.uploadPart(tasks[j].number, 1).value)
  {
    if k > 0 {
      assert Range(k)[..k - 1] == Range(k - 1);
      PrefixParts(s, tasks, k - 1);
      var before, now := Collected(s, tasks, Range(k - 1)), Collected(s, tasks, Range(k));
      assert now == before + CompletedBy(s, tasks, k - 1);
      assert forall j :: 0 <= j < k - 1 ==> now[j] == before[j];
    }
  }

  /** A multipart upload with no failed part: completion gets one part per
      task, with the task's number and its ETag, in part order. */
  lemma AllPartsUploaded(s: Service, tasks: seq<Part>)
    requires forall j :: 0 <= j < |tasks| ==> !PartFails(s, tasks[j].number)
    ensures FailedParts(s, tasks) == []
    ensures |UploadedParts(s, tasks)| == |tasks|
    ensures forall j :: 0 <= j < |tasks| ==>
              !PartFails(s, tasks[j].number) &&
              UploadedParts(s, tasks)[j] == CompletedPart(tasks[j].number, s.uploadPart(tasks[j].number, 1).value)
  {
    PrefixFailures(s, tasks, |tasks|);
    PrefixParts(s, tasks, |tasks|);
  }

  /** The code as written: when every abort succeeds, partErr ends as nil even
      though parts failed, so (by SessionTrace) the completion request is
      sent, listing fewer parts than the file has. */
  lemma SuccessfulAbortClearsPartErr(s: Service, tasks: seq<Part>, order: seq<nat>)
    requires IsSchedule(order, |tasks|)
    requires FailedParts(s, tasks) != []
    requires forall n: nat :: s.abortMultipartUpload(n).None?
    ensures PartErr(s, tasks, order).None?
    ensures |UploadedParts(s, tasks)| < |tasks|
  {
    FailureCountIndependentOfSchedule(s, tasks, order);
    PrefixFailures(s, tasks, |tasks|);
  }

  /** The code as written, when aborts fail: partErr ends as the error of the
      abort of some failed part, whatever the schedule, so multipartUpload
      returns that error and sends no completion request. */
  lemma FailedAbortIsReturned(s: Service, uploadId: string, buffer: seq<Byte>, tasks: seq<Part>, order: seq<nat>)
    requires IsSchedule(order, |tasks|)
    requires FailedParts(s, tasks) != []
    requires forall n: nat :: s.abortMultipartUpload(n).Some?
    ensures PartErr(s, tasks, order).Some?
    ensures SessionErr(s, tasks, order) == PartErr(s, tasks, order)
    ensures exists n :: n in FailedParts(s, tasks) && SessionErr(s, tasks, order) == s.abortMultipartUpload(n)
    ensures SessionCalls(s, uploadId, buffer, tasks, order) == TaskCalls(s, uploadId, buffer, tasks, order)
  {
    FailureCountIndependentOfSchedule(s, tasks, order);
    var failures := Failures(s, tasks, order);
    var n := failures[|failures| - 1];
    assert n in failures;
    assert n in multiset(FailedParts(s, tasks));
  }
}
