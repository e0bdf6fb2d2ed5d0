/** `put_object_s3` and `copy_object_s3` of s3tethys/main.py: the single-part
    or multipart choice of an upload, and the bounded retry loop both helpers
    wrap around their S3 call. The S3 call itself is abstracted as the outcome
    of each successive attempt. */
module Upload {
  import opened Values
  import Utils
  import opened Connection

  // ---------------------------------------------------------------------------
  // The retry loop

  /** What one attempt of the wrapped S3 call does. */
  datatype Attempt<+R> =
    | Returned(value: R)       // the call returned
    | ConnectionClosed         // it raised botocore's ConnectionClosedError
    | OtherError(name: string) // it raised any other exception

  /** An exception that leaves a helper. */
  datatype Fault =
    | ConnectionClosedError    // the retry budget ran out on connection-closed errors
    | Raised(name: string)     // an exception the loop does not catch
    | UnboundLocalError        // `return resp` with `resp` never assigned

  /** How the loop ends. */
  datatype RetryEnd<+R> = Succeeded(value: R) | Failed(fault: Fault) | NotAttempted

  /** The end of a run of the loop, with how many attempts and sleeps it made. */
  datatype RetryRun<+R> = RetryRun(end: RetryEnd<R>, attempts: nat, sleeps: nat)

  /** The loop started with `counter` retries left and `k` attempts already made. */
  function Retry<R>(counter: int, attempt: nat -> Attempt<R>, k: nat): RetryRun<R>
    decreases counter
  {
    if counter <= 0 then RetryRun(NotAttempted, k, k)
    else match attempt(k)
      case Returned(v) => RetryRun(Succeeded(v), k + 1, k)
      case OtherError(e) => RetryRun(Failed(Raised(e)), k + 1, k)
      case ConnectionClosed =>
        if counter - 1 == 0 then RetryRun(Failed(ConnectionClosedError), k + 1, k)
        else Retry(counter - 1, attempt, k + 1)
  }

  /** The shape of a run that makes at least one attempt. */
  lemma {:induction false} RetryShape<R>(counter: int, attempt: nat -> Attempt<R>, k: nat)
    requires counter >= 1
    ensures var run := Retry(counter, attempt, k);
      && k < run.attempts <= k + counter
      && run.sleeps == run.attempts - 1
      && (forall j :: k <= j < run.attempts - 1 ==> attempt(j) == ConnectionClosed)
      && !run.end.NotAttempted?
      && (run.end.Succeeded? ==> attempt(run.attempts - 1) == Returned(run.end.value))
      && (run.end == Failed(ConnectionClosedError) <==>
            run.attempts == k + counter && attempt(run.attempts - 1) == ConnectionClosed)
      && (run.end.Failed? && run.end.fault.Raised? ==>
            attempt(run.attempts - 1) == OtherError(run.end.fault.name))
      && (run.end.Failed? ==> run.end.fault.Raised? || run.end.fault == ConnectionClosedError)
    decreases counter
  {
    if attempt(k) == ConnectionClosed && counter > 1 {
      RetryShape(counter - 1, attempt, k + 1);
    }
  }

  /** Bounds on a whole run: at most `retries` attempts, none when `retries <= 0`,
      and a sleep only between two attempts. */
  lemma RetryBounds<R>(retries: int, attempt: nat -> Attempt<R>)
    ensures var run := Retry(retries, attempt, 0);
      && (run.attempts == 0 <==> retries <= 0)
      && (run.end.NotAttempted? <==> retries <= 0)
      && (retries > 0 ==> run.attempts <= retries && run.sleeps == run.attempts - 1)
      && (retries <= 0 ==> run.sleeps == 0)
  {
    if retries > 0 {
      RetryShape(retries, attempt, 0);
    }
  }

  /** The loop stops at the first attempt that does not raise ConnectionClosedError
      and returns what that attempt returned. */
  lemma RetrySucceedsAtFirstSuccess<R>(retries: int, attempt: nat -> Attempt<R>, i: nat, v: R)
    requires i < retries
    requires forall j :: 0 <= j < i ==> attempt(j) == ConnectionClosed
    requires attempt(i) == Returned(v)
    ensures Retry(retries, attempt, 0) == RetryRun(Succeeded(v), i + 1, i)
  {
    RetryShape(retries, attempt, 0);
  }

  /** ConnectionClosedError escapes exactly when every one of the `retries`
      attempts raised it. */
  lemma RetryExhausted<R>(retries: int, attempt: nat -> Attempt<R>)
    ensures Retry(retries, attempt, 0).end == Failed(ConnectionClosedError) <==>
      retries > 0 && forall j :: 0 <= j < retries ==> attempt(j) == ConnectionClosed
  {
    if retries > 0 {
      var run := Retry(retries, attempt, 0);
      RetryShape(retries, attempt, 0);
      if forall j :: 0 <= j < retries ==> attempt(j) == ConnectionClosed {
        assert attempt(run.attempts - 1) == ConnectionClosed;
      }
    }
  }

  /** The loop shared by `put_object_s3` and `copy_object_s3`: `attempt(k)` is
      what the wrapped call does the k-th time it is made. */
  method RunWithRetries<R>(retries: int, attempt: nat -> Attempt<R>) returns (run: RetryRun<R>)
    ensures run == Retry(retries, attempt, 0)
  {
    var counter := retries;
    var k: nat := 0;
    var sleeps: nat := 0;
    while counter > 0
      invariant k == retries - counter && sleeps == k
      invariant k > 0 ==> counter > 0
      invariant counter > 0 ==> Retry(retries, attempt, 0) == Retry(counter, attempt, k)
    {
      match attempt(k) {
        case Returned(v) =>
          return RetryRun(Succeeded(v), k + 1, sleeps);
        case OtherError(e) =>
          return RetryRun(Failed(Raised(e)), k + 1, sleeps);
        case ConnectionClosed =>
          counter := counter - 1;
          if counter == 0 {
            return RetryRun(Failed(ConnectionClosedError), k + 1, sleeps);
          }
          sleeps := sleeps + 1;  // sleep(3)
          k := k + 1;
      }
    }
    run := RetryRun(NotAttempted, k, sleeps);
  }

  // ---------------------------------------------------------------------------
  // put_object_s3

  /** Objects larger than this are uploaded in parts. */
  const MultipartThreshold: int := 5 * 1024 * 1024

  const PutObjectCall: string := "S3.Client.put_object"
  const CreateMultipartUploadCall: string := "S3.Client.create_multipart_upload"

  /** The optional attributes sent with the upload. */
  datatype Extras = Extras(metadata: Option<map<string, string>>, contentType: Option<string>)

  /** The transport parameters of the upload. */
  datatype UploadPlan = UploadPlan(url: string, multipart: bool, clientKwargs: map<string, Extras>)

  function PlanUpload(bucket: string, objKey: string, size: int,
                      metadata: Arg<map<string, string>>, contentType: Arg<string>): (p: UploadPlan)
    ensures p.url == S3Url(bucket, objKey)
    ensures p.multipart <==> size > MultipartThreshold
    ensures p.clientKwargs.Keys == {if p.multipart then CreateMultipartUploadCall else PutObjectCall}
    ensures forall call :: call in p.clientKwargs ==>
      && (p.clientKwargs[call].metadata.Some? <==> metadata.Given?)
      && (metadata.Given? ==> p.clientKwargs[call].metadata.value == metadata.value)
      && (p.clientKwargs[call].contentType.Some? <==> contentType.Given?)
      && (contentType.Given? ==> p.clientKwargs[call].contentType.value == contentType.value)
  {
    var extras := Extras(if metadata.Given? then Some(metadata.value) else None,
                         if contentType.Given? then Some(contentType.value) else None);
    if size > MultipartThreshold then UploadPlan(S3Url(bucket, objKey), true, map[CreateMultipartUploadCall := extras])
    else UploadPlan(S3Url(bucket, objKey), false, map[PutObjectCall := extras])
  }

  /** Exactly 5 MiB is still a single-part put; one byte more is multipart, and
      every larger size is too. */
  lemma MultipartBoundary(bucket: string, objKey: string, size: int, bigger: int,
                          metadata: Arg<map<string, string>>, contentType: Arg<string>)
    requires size <= bigger
    ensures !PlanUpload(bucket, objKey, 5 * 1024 * 1024, metadata, contentType).multipart
    ensures PlanUpload(bucket, objKey, 5 * 1024 * 1024 + 1, metadata, contentType).multipart
    ensures PlanUpload(bucket, objKey, size, metadata, contentType).multipart ==>
      PlanUpload(bucket, objKey, bigger, metadata, contentType).multipart
  {
  }

  /** `put_object_s3`: measures the file object, plans the upload and writes it
      with retries. `attempt(k)` is what the k-th write does. Returns None
      (here `Ok(())`) unless an exception escapes. */
  method PutObjectS3(s3: Client, bucket: string, objKey: string, fileObj: Utils.SeekableFile,
                     metadata: Arg<map<string, string>> := Absent, contentType: Arg<string> := Absent,
                     retries: int := 3,
                     attempt: nat -> Attempt<()>)
    returns (plan: UploadPlan, outcome: Result<(), Fault>, attempts: nat, sleeps: nat)
    modifies fileObj
    ensures fileObj.pos == old(fileObj.pos)
    ensures plan == PlanUpload(bucket, objKey, |fileObj.data|, metadata, contentType)
    ensures var run := Retry(retries, attempt, 0);
      && attempts == run.attempts && sleeps == run.sleeps
      && (outcome.Ok? <==> !run.end.Failed?)
      && (outcome.Err? ==> run.end == Failed(outcome.error))
  {
    var size := Utils.DetermineFileObjSize(fileObj);
    plan := PlanUpload(bucket, objKey, size, metadata, contentType);
    var run := RunWithRetries(retries, attempt);
    attempts, sleeps := run.attempts, run.sleeps;
    match run.end {
      case Failed(f) => outcome := Err(f);
      case _ => outcome := Ok(());
    }
  }

  // ---------------------------------------------------------------------------
  // copy_object_s3

  /** The arguments of the server-side `copy_object` call. */
  datatype CopyRequest = CopyRequest(bucket: string, key: string, sourceBucket: string,
                                     sourceKey: string, metadataDirective: string)

  /** `copy_object_s3`: the response of the first successful copy. With
      `retries <= 0` the loop never runs and the final `return resp` fails. */
  method CopyObjectS3<R>(s3: Client, sourceBucket: string, destBucket: string, sourceKey: string,
                         destKey: string, retries: int := 3, attempt: nat -> Attempt<R>)
    returns (request: CopyRequest, outcome: Result<R, Fault>, attempts: nat)
    ensures request == CopyRequest(destBucket, destKey, sourceBucket, sourceKey, "COPY")
    ensures attempts <= if retries > 0 then retries else 0
    ensures outcome == Err(UnboundLocalError) <==> retries <= 0
    ensures outcome.Ok? <==> exists i :: 0 <= i < retries && attempt(i).Returned?
                                   && forall j :: 0 <= j < i ==> attempt(j) == ConnectionClosed
    ensures outcome.Ok? ==> attempts >= 1 && attempt(attempts - 1) == Returned(outcome.value)
    ensures var run := Retry(retries, attempt, 0);
      attempts == run.attempts && (run.end.Failed? ==> outcome == Err(run.end.fault))
  {
    request := CopyRequest(destBucket, destKey, sourceBucket, sourceKey, "COPY");
    var run := RunWithRetries(retries, attempt);
    RetryBounds(retries, attempt);
    attempts := run.attempts;
    match run.end {
      case Succeeded(resp) => outcome := Ok(resp);
      case Failed(f) => outcome := Err(f);
      case NotAttempted => outcome := Err(UnboundLocalError);
    }
    if retries > 0 {
      RetryShape(retries, attempt, 0);
      if exists i :: 0 <= i < retries && attempt(i).Returned?
                     && forall j :: 0 <= j < i ==> attempt(j) == ConnectionClosed {
        var i :| 0 <= i < retries && attempt(i).Returned?
                 && forall j :: 0 <= j < i ==> attempt(j) == ConnectionClosed;
        RetrySucceedsAtFirstSuccess(retries, attempt, i, attempt(i).value);
      }
    }
  }
}
