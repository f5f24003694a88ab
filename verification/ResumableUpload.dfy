/** `ResumableUploadHandler`: its fields, its send loop with progress callbacks and its retry loop,
    proved to do what `UploadProtocol` says. */
module ResumableUpload {
  import opened Common
  import opened UploadProtocol
  import opened ProgressCalls

  class ResumableUploadHandler {
    var serverHasBytes: int
    var trackerUri: Option<string>
    var uploadStartPoint: Option<int>
    var numRetries: Option<int>

    /** A tracker URI is present when one was read from the tracker file. */
    constructor (trackerUri: Option<string>, numRetries: Option<int>)
      ensures State() == Handler(0, trackerUri, None) && this.numRetries == numRetries
    {
      serverHasBytes := 0;
      this.trackerUri := trackerUri;
      uploadStartPoint := None;
      this.numRetries := numRetries;
    }

    ghost function State(): Handler
      reads `serverHasBytes, `trackerUri, `uploadStartPoint
    {
      Handler(serverHasBytes, trackerUri, uploadStartPoint)
    }

    /** `_start_new_resumable_upload`. */
    method StartNewResumableUpload(job: Job, reply: PostReply) returns (failure: Option<Failure>, sent: seq<Event>)
      modifies `serverHasBytes, `trackerUri
      ensures (State(), failure, sent) == StartNew(old(State()), job, reply)
    {
      serverHasBytes := 0;
      if job.hasContentLength {
        return Some(Abort), [];
      }
      sent := [Post(reply)];
      if reply.PostLost? {
        return Some(Retryable), sent;
      }
      if reply.status != 201 {
        return Some(WaitBeforeRetry), sent;
      }
      match reply.location
      case NoLocation => failure := Some(WaitBeforeRetry);
      case InvalidLocation => failure := Some(InvalidUri);
      case NewLocation(uri, saved) =>
        trackerUri := Some(uri);
        serverHasBytes := 0;
        failure := if saved then None else Some(Abort);
    }

    /** The send loop of `_upload_file_bytes`: buffer by buffer, with a progress callback, if there is
        one, after every `interval` buffers; the connection may break after `limit` buffers. */
    static method SendBuffers(rest: Bytes, total: nat, report: bool, interval: int, limit: Option<nat>)
      returns (sent: Bytes, calls: seq<int>)
      requires -1 <= interval
      ensures sent <= rest && (limit.None? ==> sent == rest)
      ensures |sent| == BytesIn(BuffersOut(|rest|, limit), |rest|)
      ensures calls == if report then Reported(total, |rest|, BuffersOut(|rest|, limit), interval) else []
    {
      var i, k := 0, 0;  // k counts the buffers sent
      sent, calls := [], if report then [total] else [];
      while |sent| < |rest| && limit != Some(k)
        invariant |sent| == BytesIn(k, |rest|) && k <= BuffersOut(|rest|, limit) && sent == rest[..|sent|]
        invariant calls == if report then Reported(total, |rest|, k, interval) else []
        invariant report && interval > 0 ==> i == k % interval
        invariant interval == 0 ==> i == k
        decreases |rest| - |sent|
      {
        OneMoreFits(k, |rest|);
        var n := if |rest| - |sent| < BUFFER_SIZE then |rest| - |sent| else BUFFER_SIZE;
        sent := sent + rest[|sent|..|sent| + n];
        if interval > 0 {
          OneMoreBuffer(k, interval);
        }
        i, k := i + 1, k + 1;
        if report && (i == interval || interval == -1) {
          calls := calls + [total + |sent|];
          i := 0;
        }
      }
      assert k == BuffersOut(|rest|, limit);
    }

    /** `_upload_file_bytes`: one PUT of the file from byte `total` on. */
    static method UploadFileBytes(job: Job, total: nat, numCb: Option<int>, put: PutReply)
      returns (outcome: Result<Option<string>, Failure>, sent: Bytes, calls: seq<int>)
      ensures outcome == PutOutcome(job, total, put)
      ensures sent <= Rest(job.file, total) && (!put.SendLost? ==> sent == Rest(job.file, total))
      ensures calls == if numCb.Some? then PutReports(|job.file|, total, |Rest(job.file, total)|, numCb.value, put)
                       else []
    {
      var interval := if numCb.Some? then CallbackInterval(|job.file|, numCb.value) else 0;
      var limit := if put.SendLost? then Some(put.buffers) else None;
      sent, calls := SendBuffers(Rest(job.file, total), total, numCb.Some?, interval, limit);
      if put.SendLost? {
        return Err(Retryable), sent, calls;
      }
      if numCb.Some? {
        calls := calls + [total + |sent|];
      }
      if total + |sent| != |job.file| {
        return Err(Abort), sent, calls;
      }
      match put
      case AnswerLost => outcome := Err(Retryable);
      case PutStatus(status, etag) =>
        outcome := if status == 200 then Ok(etag) else if status == 503 then Err(WaitBeforeRetry) else Err(Abort);
    }

    static lemma OneMoreFits(k: nat, n: nat)
      requires BytesIn(k, n) < n
      ensures k + 1 <= Buffers(n)
      ensures var left := n - BytesIn(k, n);
              BytesIn(k + 1, n) == BytesIn(k, n) + if left < BUFFER_SIZE then left else BUFFER_SIZE
    {
    }

    /** What the PUT of an attempt, its last event if there is one, puts on the connection: its whole body, or a
        beginning of it when the connection breaks. */
    static ghost predicate PutSends(log: seq<Event>, body: Bytes) {
      if log == [] || !log[|log| - 1].Put? then body == []
      else
        var put := log[|log| - 1];
        body <= put.body && (!put.putReply.SendLost? ==> body == put.body)
    }

    /** `_attempt_resumable_upload`. */
    method AttemptResumableUpload(job: Job, net: Network, numCb: Option<int>)
      returns (outcome: Result<Option<string>, Failure>, sent: seq<Event>, body: Bytes, calls: seq<int>)
      modifies `serverHasBytes, `trackerUri, `uploadStartPoint
      ensures Attempted(State(), outcome, sent) == Attempt(old(State()), job, net)
      ensures PutSends(sent, body) && calls == LogReports(sent, |job.file|, numCb)
    {
      var span := SERVER_HAS_NOTHING;
      sent := [];
      var restart := true;
      if trackerUri.Some? {
        sent := [Query(net.query)];
        match QueryServerState(net.query, |job.file|)
        case Ok(s) =>
          span, restart := s, false;
          serverHasBytes := span.start;
        case Err(StartOver) =>
        case Err(e) =>
          return Err(e), sent, [], [];
      }
      if restart {
        var failure, post := StartNewResumableUpload(job, net.post);
        sent := sent + post;
        if failure.Some? {
          return Err(failure.value), sent, [], [];
        }
      }
      outcome, sent, body, calls := TransferFrom(job, net, numCb, span, sent);
    }

    /** The part of an attempt after the server's span is known. */
    method TransferFrom(job: Job, net: Network, numCb: Option<int>, span: Span, log: seq<Event>)
      returns (outcome: Result<Option<string>, Failure>, sent: seq<Event>, body: Bytes, calls: seq<int>)
      requires -1 <= span.end && (log != [] ==> !log[|log| - 1].Put?)
      modifies `uploadStartPoint
      ensures Attempted(State(), outcome, sent) == Transfer(old(State()), job, net, span, log)
      ensures PutSends(sent, body) && calls == LogReports(sent, |job.file|, numCb)
    {
      if uploadStartPoint.None? {
        uploadStartPoint := Some(span.end);
      }
      if span.end == |job.file| {
        return Ok(None), log, [], [];
      }
      var total := span.end + 1;
      sent := log + [Put(total, Rest(job.file, total), net.delivered, net.put)];
      outcome, body, calls := UploadFileBytes(job, total, numCb, net.put);
    }

    /** `send_file`: its retry loop, on the network given by `script`; `Again` means that the script
        ended while the call was still retrying. */
    method SendFile(file: Bytes, md5: string, hasContentLength: bool, configured: int, numCb: Option<int>,
                    script: seq<Network>)
      returns (verdict: Verdict, sleeps: seq<nat>, ghost marks: seq<Mark>, sent: seq<Event>, calls: seq<int>)
      modifies this
      ensures numRetries == Some(if old(numRetries).Some? then old(numRetries).value else configured)
      ensures Sending(State(), verdict, sleeps, marks, sent)
              == Send(old(State()), Job(file, md5, hasContentLength, numRetries.value), script, 0)
      ensures |calls| == SendCalls(old(State()), Job(file, md5, hasContentLength, numRetries.value), numCb, script)
    {
      if numRetries.None? {
        numRetries := Some(configured);
      }
      verdict, sleeps, marks, sent, calls := Retry(Job(file, md5, hasContentLength, numRetries.value), numCb, script);
    }

    /** The retry loop itself. */
    method Retry(job: Job, numCb: Option<int>, script: seq<Network>)
      returns (verdict: Verdict, sleeps: seq<nat>, ghost marks: seq<Mark>, sent: seq<Event>, calls: seq<int>)
      modifies `serverHasBytes, `trackerUri, `uploadStartPoint
      ensures Sending(State(), verdict, sleeps, marks, sent) == Send(old(State()), job, script, 0)
      ensures |calls| == SendCalls(old(State()), job, numCb, script)
    {
      ghost var whole := Send(State(), job, script, 0);
      var progressless, i := 0, 0;
      sleeps, marks, sent, calls := [], [], [], [];
      ghost var each := CallsOf(|job.file|, numCb);
      ghost var allCalls := SendTotal(State(), job, each, script, 0);
      while i < |script|
        invariant i <= |script|
        invariant whole == After(Sending(State(), Again, sleeps, marks, sent),
                                 Send(State(), job, script[i..], progressless))
        invariant allCalls == |calls| + SendTotal(State(), job, each, script[i..], progressless)
      {
        var before := serverHasBytes;
        ghost var h := State();
        ghost var rest := script[i..];
        assert rest[0] == script[i] && rest[1..] == script[i + 1..];
        AfterRound(Sending(h, Again, sleeps, marks, sent), h, job, rest, progressless);
        TotalOnward(h, job, each, rest, progressless);
        var outcome, events, _, reported := AttemptResumableUpload(job, script[i], numCb);
        sent, calls := sent + events, calls + reported;
        verdict := Judge(job, outcome);
        if !verdict.Again? {
          return;
        }
        marks := marks + [Mark(before, serverHasBytes)];
        progressless := if serverHasBytes > before then 0 else progressless + 1;
        if progressless > job.numRetries {
          verdict := Raised(Abort);
          return;
        }
        sleeps := sleeps + [Pow2(progressless)];
        i := i + 1;
        assert script[i..] == rest[1..];
      }
      verdict := Again;
    }

    /** The first part of a call followed by the rest of it. */
    static ghost function After(first: Sending, rest: Sending): Sending {
      Sending(rest.handler, rest.verdict, first.sleeps + rest.sleeps, first.marks + rest.marks, first.log + rest.log)
    }

    /** A call that has done `first` so far, with its next attempt made. */
    static lemma AfterRound(first: Sending, h: Handler, job: Job, script: seq<Network>, progressless: nat)
      requires script != []
      ensures var a := Attempt(h, job, script[0]);
              var count := CountAfter(h, a.handler, progressless);
              var v, mark := Judge(job, a.outcome), Mark(h.serverHasBytes, a.handler.serverHasBytes);
              var whole := After(first, Send(h, job, script, progressless));
              if !v.Again? then
                whole == Sending(a.handler, v, first.sleeps, first.marks, first.log + a.log)
              else if count > job.numRetries then
                whole == Sending(a.handler, Raised(Abort), first.sleeps, first.marks + [mark], first.log + a.log)
              else
                whole == After(Sending(a.handler, Again, first.sleeps + [Pow2(count)], first.marks + [mark],
                                       first.log + a.log),
                               Send(a.handler, job, script[1..], count))
    {
      var a, count := Attempt(h, job, script[0]), CountAfter(h, Attempt(h, job, script[0]).handler, progressless);
      var mark := Mark(h.serverHasBytes, a.handler.serverHasBytes);
      SendOnward(h, job, script, progressless);
      if GoesOn(h, job, script, progressless) {
        AfterTwice(first, Pow2(count), mark, a.log, Onward(h, job, script, progressless));
      }
    }

    static lemma AfterTwice(first: Sending, sleep: nat, mark: Mark, events: seq<Event>, rest: Sending)
      ensures var onward := rest.(sleeps := [sleep] + rest.sleeps, marks := [mark] + rest.marks,
                                  log := events + rest.log);
              var longer := first.(sleeps := first.sleeps + [sleep], marks := first.marks + [mark],
                                   log := first.log + events);
              After(first, onward) == After(longer, rest)
    {
    }
  }
}
