/** The object-storage service as the uploader sees it: the requests it sends,
    the values that come back, and an oracle standing for the responses.
    The service itself is never modelled; every operation of the uploader
    returns the requests it made, in order, so that contracts can say which
    calls happen. */
module S3Api {

  newtype Byte = b: int | 0 <= b < 256

  datatype Option<T> = None | Some(value: T)

  /** A backend error value (an awserr.Error or any other Go error). The model
      only ever passes it on; it never inspects or wraps it. */
  datatype Error = Error(code: string, message: string)

  datatype Result<T> = Success(value: T) | Failure(error: Error)

  /** s3.CompletedPart: the number of an uploaded part and the ETag the service
      returned for it. */
  datatype CompletedPart = CompletedPart(partNumber: nat, etag: string)

  /** The five service operations the uploader uses. */
  datatype Operation = Put | Create | PartUpload | Abort | Complete

  /** One request sent to the service, with the fields the uploader sets that
      matter here (bucket, key, upload id, part number, body, part list). */
  datatype Request =
    | PutObjectInput(bucket: string, key: string, body: seq<Byte>)
    | CreateMultipartUploadInput(bucket: string, key: string)
    | UploadPartInput(uploadId: string, partNumber: nat, body: seq<Byte>)
    | AbortMultipartUploadInput(uploadId: string)
    | CompleteMultipartUploadInput(uploadId: string, parts: seq<CompletedPart>)
  {
    function Op(): Operation {
      match this
      case PutObjectInput(_, _, _) => Put
      case CreateMultipartUploadInput(_, _) => Create
      case UploadPartInput(_, _, _) => PartUpload
      case AbortMultipartUploadInput(_) => Abort
      case CompleteMultipartUploadInput(_, _) => Complete
    }
  }

  /** The responses of the service during the upload of one file.
      uploadPart answers per (part number, attempt number); the abort answers
      per part whose task sends it, since every failing part task sends its
      own AbortMultipartUpload. */
  datatype Service = Service(
    putObject: Option<Error>,
    createMultipartUpload: Result<string>,
    uploadPart: (nat, nat) -> Result<string>,
    abortMultipartUpload: nat -> Option<Error>,
    completeMultipartUpload: Option<Error>)

  /** How many requests of kind `op` the trace holds. */
  function Count(calls: seq<Request>, op: Operation): (n: nat)
    ensures n <= |calls|
  {
    if calls == [] then 0
    else Count(calls[..|calls| - 1], op) + (if calls[|calls| - 1].Op() == op then 1 else 0)
  }

  lemma {:induction false} CountAppend(a: seq<Request>, b: seq<Request>, op: Operation)
    ensures Count(a + b, op) == Count(a, op) + Count(b, op)
    decreases |b|
  {
    if b == [] {
      assert a + b == a;
    } else {
      var last := |b| - 1;
      assert (a + b)[..|a + b| - 1] == a + b[..last];
      CountAppend(a, b[..last], op);
    }
  }

  /** A request, then a middle piece, then at most one completion: the
      request counts for its own kind and the completion for Complete. */
  lemma CountAroundMiddle(first: Request, middle: seq<Request>, tail: seq<Request>, op: Operation)
    requires |tail| <= 1 && forall c :: c in tail ==> c.Op() == Complete
    ensures Count([first] + middle + tail, op)
         == (if first.Op() == op then 1 else 0) + Count(middle, op) + (if op == Complete then |tail| else 0)
  {
    CountAppend([first], middle, op);
    CountAppend([first] + middle, tail, op);
    assert [first][..0] == [];
    if tail != [] {
      assert tail[..0] == [];
      assert tail[0] in tail;
    }
  }
}
