/** The resumable-upload client as a function of what the network answers, attempt by attempt,
    and what an honest server makes of it. */
module UploadProtocol {
  import opened Common

  type Bytes = seq<bv8>

  const BUFFER_SIZE: nat := 8192

  // ---- What the network answers ------------------------------------------------------

  /** The Range header of a 308 answer to a state query. */
  datatype RangeHeader = NoRange | RangeBytes(first: nat, last: nat) | UnreadableRange

  datatype QueryReply = QueryLost | QueryStatus(status: int, range: RangeHeader)

  /** The Location header of a 201 answer; `saved` tells whether the tracker file could be written. */
  datatype Location = NoLocation | InvalidLocation | NewLocation(uri: string, saved: bool)

  datatype PostReply = PostLost | PostStatus(status: int, location: Location)

  /** A PUT breaks off after some buffers, its answer is lost, or it is answered. */
  datatype PutReply = SendLost(buffers: nat) | AnswerLost | PutStatus(status: int, etag: Option<string>)

  /** Everything one attempt may meet, and how many body bytes of its PUT reach the server. */
  datatype Network = Network(query: QueryReply, post: PostReply, put: PutReply, delivered: nat)

  // ---- The client --------------------------------------------------------------------

  datatype Failure =
    | Retryable            // one of RETRYABLE_EXCEPTIONS
    | StartOver | WaitBeforeRetry | Abort  // the dispositions of ResumableUploadException
    | InvalidUri           // InvalidUriError
    | NoEtag               // AttributeError: None has no strip

  datatype Handler = Handler(serverHasBytes: int, trackerUri: Option<string>, uploadStartPoint: Option<int>)

  /** What is fixed for one call of `send_file`. */
  datatype Job = Job(file: Bytes, md5: string, hasContentLength: bool, numRetries: int)

  datatype Event =
    | Query(queryReply: QueryReply)
    | Post(postReply: PostReply)
    | Put(start: int, body: Bytes, delivered: nat, putReply: PutReply)

  datatype Span = Span(start: int, end: int)  // inclusive

  const SERVER_HAS_NOTHING := Span(0, -1)

  /** `_query_server_state`. */
  function QueryServerState(reply: QueryReply, fileLength: nat): Result<Span, Failure> {
    match reply
    case QueryLost => Err(Retryable)
    case QueryStatus(status, range) =>
      if status == 200 then Ok(Span(0, fileLength))
      else if status != 308 then Err(StartOver)
      else
        match range
        case NoRange => Ok(SERVER_HAS_NOTHING)
        case RangeBytes(first, last) => Ok(Span(first, last))
        case UnreadableRange => Err(StartOver)
  }

  /** `_start_new_resumable_upload`: the handler after it, the failure if any, the POST if sent. */
  function StartNew(h: Handler, job: Job, reply: PostReply): (Handler, Option<Failure>, seq<Event>) {
    var h0 := h.(serverHasBytes := 0);
    if job.hasContentLength then (h0, Some(Abort), [])
    else
      var sent := [Post(reply)];
      match reply
      case PostLost => (h0, Some(Retryable), sent)
      case PostStatus(status, location) =>
        if status != 201 then (h0, Some(WaitBeforeRetry), sent)
        else
          match location
          case NoLocation => (h0, Some(WaitBeforeRetry), sent)
          case InvalidLocation => (h0, Some(InvalidUri), sent)
          case NewLocation(uri, saved) =>
            (h0.(trackerUri := Some(uri)), if saved then None else Some(Abort), sent)
  }

  /** How `_upload_file_bytes` ends when it started at byte `total`. */
  function PutOutcome(job: Job, total: int, reply: PutReply): Result<Option<string>, Failure> {
    if reply.SendLost? then Err(Retryable)
    else if total > |job.file| then Err(Abort)
    else
      match reply
      case AnswerLost => Err(Retryable)
      case PutStatus(status, etag) =>
        if status == 200 then Ok(etag) else if status == 503 then Err(WaitBeforeRetry) else Err(Abort)
  }

  datatype Attempted = Attempted(handler: Handler, outcome: Result<Option<string>, Failure>, log: seq<Event>)

  /** The body of a PUT that starts at `total`: the rest of the file. */
  function Rest(file: Bytes, total: int): Bytes
    requires 0 <= total
  {
    if total <= |file| then file[total..] else []
  }

  /** The part of an attempt after the server's span is known. */
  function Transfer(h: Handler, job: Job, net: Network, span: Span, log: seq<Event>): Attempted
    requires -1 <= span.end
  {
    var h1 := if h.uploadStartPoint.None? then h.(uploadStartPoint := Some(span.end)) else h;
    if span.end == |job.file| then Attempted(h1, Ok(None), log)
    else
      var total := span.end + 1;
      Attempted(h1, PutOutcome(job, total, net.put), log + [Put(total, Rest(job.file, total), net.delivered, net.put)])
  }

  /** `_attempt_resumable_upload`. */
  function Attempt(h: Handler, job: Job, net: Network): Attempted {
    if h.trackerUri.Some? then
      var query := [Query(net.query)];
      match QueryServerState(net.query, |job.file|)
      case Ok(span) => Transfer(h.(serverHasBytes := span.start), job, net, span, query)
      case Err(StartOver) => Restart(h, job, net, query)
      case Err(e) => Attempted(h, Err(e), query)
    else Restart(h, job, net, [])
  }

  function Restart(h: Handler, job: Job, net: Network, log: seq<Event>): Attempted {
    var (h1, failure, sent) := StartNew(h, job, net.post);
    if failure.Some? then Attempted(h1, Err(failure.value), log + sent)
    else Transfer(h1, job, net, SERVER_HAS_NOTHING, log + sent)
  }

  predicate IsQuote(c: char) {
    c == '"' || c == '\''
  }

  /** `etag.strip('"\'')`. */
  function StripQuotes(s: string): string {
    Trim(s, IsQuote)
  }

  /** What `send_file` does with the result of an attempt: stop, or go round again. */
  datatype Verdict = Completed | Raised(failure: Failure) | Again

  function Judge(job: Job, outcome: Result<Option<string>, Failure>): Verdict {
    match outcome
    case Ok(None) => Raised(NoEtag)
    case Ok(Some(etag)) => if StripQuotes(etag) == job.md5 then Completed else Raised(Abort)
    case Err(e) => if e.Retryable? || e.WaitBeforeRetry? || e.StartOver? then Again else Raised(e)
  }

  function Pow2(n: nat): (p: nat)
    ensures p >= 1
  {
    if n == 0 then 1 else 2 * Pow2(n - 1)
  }

  /** `server_has_bytes` before and after a failed attempt. */
  datatype Mark = Mark(before: int, after: int) {
    predicate Grew() {
      after > before
    }
  }

  /** The count after a failed attempt. */
  function CountAfter(h: Handler, next: Handler, progressless: nat): nat {
    if Mark(h.serverHasBytes, next.serverHasBytes).Grew() then 0 else progressless + 1
  }

  /** A call of `send_file`: its end (`Again` when the network script ran out first), its sleeps,
      one mark for each attempt that failed and could be retried, and everything sent. */
  datatype Sending = Sending(handler: Handler, verdict: Verdict, sleeps: seq<nat>, marks: seq<Mark>, log: seq<Event>)

  /** `send_file` with `progressless` already on the count. */
  function Send(h: Handler, job: Job, script: seq<Network>, progressless: nat): Sending
    decreases |script|
  {
    if script == [] then Sending(h, Again, [], [], [])
    else
      var a := Attempt(h, job, script[0]);
      var v := Judge(job, a.outcome);
      if !v.Again? then Sending(a.handler, v, [], [], a.log)
      else
        var mark := Mark(h.serverHasBytes, a.handler.serverHasBytes);
        var count := CountAfter(h, a.handler, progressless);
        if count > job.numRetries then Sending(a.handler, Raised(Abort), [], [mark], a.log)
        else
          var rest := Send(a.handler, job, script[1..], count);
          Sending(rest.handler, rest.verdict, [Pow2(count)] + rest.sleeps, [mark] + rest.marks, a.log + rest.log)
  }

  /** The call goes on after its first attempt. */
  predicate GoesOn(h: Handler, job: Job, script: seq<Network>, progressless: nat)
    requires script != []
  {
    var a := Attempt(h, job, script[0]);
    Judge(job, a.outcome).Again? && CountAfter(h, a.handler, progressless) <= job.numRetries
  }

  /** What is left of a call after its first attempt. */
  function Onward(h: Handler, job: Job, script: seq<Network>, progressless: nat): Sending
    requires script != []
  {
    var a := Attempt(h, job, script[0]);
    Send(a.handler, job, script[1..], CountAfter(h, a.handler, progressless))
  }

  lemma SendOnward(h: Handler, job: Job, script: seq<Network>, progressless: nat)
    requires script != []
    ensures Attempt(h, job, script[0]).outcome != Err(NoEtag)
    ensures var s, a := Send(h, job, script, progressless), Attempt(h, job, script[0]);
            var rest := Onward(h, job, script, progressless);
            if GoesOn(h, job, script, progressless) then
              && s.handler == rest.handler && s.verdict == rest.verdict && s.log == a.log + rest.log
              && s.marks == [Mark(h.serverHasBytes, a.handler.serverHasBytes)] + rest.marks
              && s.sleeps == [Pow2(CountAfter(h, a.handler, progressless))] + rest.sleeps
            else
              && s.handler == a.handler && s.log == a.log && s.sleeps == []
              && s.marks == (if Judge(job, a.outcome).Again? then
                               [Mark(h.serverHasBytes, a.handler.serverHasBytes)]
                             else [])
              && (s.verdict == Judge(job, a.outcome) || s.verdict == Raised(Abort))
  {
  }

  // ---- The retry bound ---------------------------------------------------------------

  /** Marks `i..j` of a call: attempts in a row without growth. */
  predicate Stretch(marks: seq<Mark>, i: nat, j: nat) {
    i <= j <= |marks| && forall k :: i <= k < j ==> !marks[k].Grew()
  }

  function AtLeastOne(n: int): nat {
    if n < 0 then 1 else n + 1
  }

  lemma StretchTail(mark: Mark, rest: seq<Mark>, i: nat, j: nat)
    requires Stretch([mark] + rest, i, j) && j > 0
    ensures Stretch(rest, if i == 0 then 0 else i - 1, j - 1)
    ensures i == 0 ==> !mark.Grew()
  {
    var marks := [mark] + rest;
    assert marks[0] == mark;
    assert forall k :: 0 <= k < |rest| ==> rest[k] == marks[k + 1];
  }

  /** The longest stretch a call can still begin with, and the longest it can contain. */
  lemma {:induction false} StretchesAreShort(
      h: Handler, job: Job, script: seq<Network>, progressless: nat, i: nat, j: nat)
    requires Stretch(Send(h, job, script, progressless).marks, i, j)
    ensures j - i <= AtLeastOne(job.numRetries)
    ensures i == 0 && progressless <= job.numRetries ==> j <= job.numRetries + 1 - progressless
    decreases |script|
  {
    if script == [] {
    } else {
      SendOnward(h, job, script, progressless);
      if GoesOn(h, job, script, progressless) && j > 0 {
        var a, rest := Attempt(h, job, script[0]), Onward(h, job, script, progressless);
        StretchTail(Mark(h.serverHasBytes, a.handler.serverHasBytes), rest.marks, i, j);
        StretchesAreShort(a.handler, job, script[1..], CountAfter(h, a.handler, progressless),
                          if i == 0 then 0 else i - 1, j - 1);
      }
    }
  }

  /** Every range the server reports begins at byte 0. */
  predicate StartsAtZero(script: seq<Network>) {
    forall net <- script :: net.query.QueryStatus? && net.query.range.RangeBytes? ==> net.query.range.first == 0
  }

  function Sum(s: seq<nat>): nat {
    if s == [] then 0 else s[0] + Sum(s[1..])
  }

  /** When every reported range starts at 0, the whole call makes at most `num_retries + 1` attempts
      that fail and sleeps at most `2^(num_retries+1) - 2` seconds. */
  lemma {:induction false} ZeroRangesBoundTheCall(h: Handler, job: Job, script: seq<Network>, progressless: nat)
    requires StartsAtZero(script) && h.serverHasBytes >= 0 && progressless <= AtLeastOne(job.numRetries) - 1
    ensures var s := Send(h, job, script, progressless);
            && |s.marks| <= AtLeastOne(job.numRetries) - progressless
            && Sum(s.sleeps) + Pow2(progressless + 1) <= Pow2(AtLeastOne(job.numRetries))
    decreases |script|
  {
    PowGrows(progressless + 1, AtLeastOne(job.numRetries));
    if script == [] {
    } else {
      NoGrowth(h, job, script);
      SendOnward(h, job, script, progressless);
      if GoesOn(h, job, script, progressless) {
        var s, rest := Send(h, job, script, progressless), Onward(h, job, script, progressless);
        ZeroRangesBoundTheCall(Attempt(h, job, script[0]).handler, job, script[1..], progressless + 1);
        assert s.sleeps[1..] == rest.sleeps;
      }
    }
  }

  lemma NoGrowth(h: Handler, job: Job, script: seq<Network>)
    requires script != [] && StartsAtZero(script) && h.serverHasBytes >= 0
    ensures 0 <= Attempt(h, job, script[0]).handler.serverHasBytes <= h.serverHasBytes
    ensures StartsAtZero(script[1..])
  {
    assert script[0] in script;
  }

  lemma {:induction false} PowGrows(m: nat, n: nat)
    requires m <= n
    ensures Pow2(m) <= Pow2(n)
    decreases n
  {
    if m == n {
    } else {
      PowGrows(m, n - 1);
    }
  }

  // ---- An honest server --------------------------------------------------------------

  /** The bytes the tracked upload session holds after an event. */
  function Serve(held: Bytes, e: Event): Bytes {
    match e
    case Query(_) => held
    case Post(reply) => if reply.PostStatus? && reply.status == 201 && reply.location.NewLocation? then [] else held
    case Put(start, body, delivered, _) =>
      if 0 <= start <= |held| && delivered <= |body| then held[..start] + body[..delivered] else held
  }

  /** The server reports exactly the bytes it holds, and says 200 only when it has them all. */
  predicate HonestEvent(held: Bytes, fileLength: nat, e: Event) {
    match e
    case Query(QueryStatus(status, range)) =>
      && (status == 200 ==> |held| == fileLength)
      && (status == 308 ==>
            range == UnreadableRange || range == if held == [] then NoRange else RangeBytes(0, |held| - 1))
    case Put(_, body, delivered, reply) =>
      && delivered <= |body|
      && (reply.SendLost? ==> delivered <= reply.buffers * BUFFER_SIZE)
      && (reply.PutStatus? && reply.status == 200 ==> |Serve(held, e)| == fileLength)
    case _ => true
  }

  ghost predicate Honest(held: Bytes, fileLength: nat, log: seq<Event>)
    decreases |log|
  {
    log == [] || (HonestEvent(held, fileLength, log[0]) && Honest(Serve(held, log[0]), fileLength, log[1..]))
  }

  ghost function Served(held: Bytes, log: seq<Event>): Bytes
    decreases |log|
  {
    if log == [] then held else Served(Serve(held, log[0]), log[1..])
  }

  predicate Answered200(e: Event) {
    || (e.Query? && e.queryReply.QueryStatus? && e.queryReply.status == 200)
    || (e.Put? && e.putReply.PutStatus? && e.putReply.status == 200)
  }

  /** What is promised of one event: a PUT carries exactly the bytes the server is missing, the server
      is left with a prefix of the file, and a 200 means that it has the file. */
  predicate RightEvent(held: Bytes, file: Bytes, e: Event) {
    && (e.Put? ==> held <= file && e.start == |held| && e.body == file[|held|..])
    && Serve(held, e) <= file
    && (Answered200(e) ==> Serve(held, e) == file)
  }

  ghost predicate RightLog(held: Bytes, file: Bytes, log: seq<Event>)
    decreases |log|
  {
    log == [] || (RightEvent(held, file, log[0]) && RightLog(Serve(held, log[0]), file, log[1..]))
  }

  lemma {:induction false} LogConcat(held: Bytes, file: Bytes, a: seq<Event>, b: seq<Event>)
    ensures Served(held, a + b) == Served(Served(held, a), b)
    ensures Honest(held, |file|, a + b) <==> Honest(held, |file|, a) && Honest(Served(held, a), |file|, b)
    ensures RightLog(held, file, a + b) <==> RightLog(held, file, a) && RightLog(Served(held, a), file, b)
    decreases |a|
  {
    if a == [] {
      assert a + b == b;
    } else {
      assert (a + b)[1..] == a[1..] + b;
      LogConcat(Serve(held, a[0]), file, a[1..], b);
    }
  }

  lemma LogOne(held: Bytes, file: Bytes, e: Event)
    ensures Served(held, [e]) == Serve(held, e)
    ensures Honest(held, |file|, [e]) <==> HonestEvent(held, |file|, e)
    ensures RightLog(held, file, [e]) <==> RightEvent(held, file, e)
  {
  }

  /** Before an attempt: with a tracked session the server holds a prefix of the file, without one it
      holds nothing. */
  predicate Resumable(h: Handler, held: Bytes, file: Bytes) {
    held <= file && (h.trackerUri.None? ==> held == [])
  }

  lemma SuffixServed(held: Bytes, file: Bytes, delivered: nat, reply: PutReply)
    requires held <= file && |held| + delivered <= |file|
    ensures Serve(held, Put(|held|, file[|held|..], delivered, reply)) == file[..|held| + delivered]
  {
  }

  lemma PutIsRight(held: Bytes, file: Bytes, delivered: nat, reply: PutReply)
    requires held <= file && HonestEvent(held, |file|, Put(|held|, file[|held|..], delivered, reply))
    ensures RightEvent(held, file, Put(|held|, file[|held|..], delivered, reply))
  {
  }

  lemma TransferIsRight(h: Handler, job: Job, net: Network, span: Span, held: Bytes)
    requires held <= job.file && span.end == |held| - 1
    requires Honest(held, |job.file|, Transfer(h, job, net, span, []).log)
    ensures var a := Transfer(h, job, net, span, []);
            && RightLog(held, job.file, a.log)
            && Served(held, a.log) <= job.file
            && (a.outcome.Ok? ==> Served(held, a.log) == job.file)
  {
    var a := Transfer(h, job, net, span, []);
    var put := Put(|held|, Rest(job.file, |held|), net.delivered, net.put);
    assert a.log == [put] by {
      assert [] + [put] == [put];
    }
    assert a.outcome == PutOutcome(job, |held|, net.put);
    LogOne(held, job.file, put);
    PutIsRight(held, job.file, net.delivered, net.put);
  }

  lemma AttemptIsRight(h: Handler, job: Job, net: Network, held: Bytes)
    requires Resumable(h, held, job.file) && Honest(held, |job.file|, Attempt(h, job, net).log)
    ensures var a := Attempt(h, job, net);
            && RightLog(held, job.file, a.log)
            && Resumable(a.handler, Served(held, a.log), job.file)
            && (a.outcome.Ok? ==> Served(held, a.log) == job.file)
  {
    var a := Attempt(h, job, net);
    if h.trackerUri.Some? {
      var query := Query(net.query);
      LogOne(held, job.file, query);
      match QueryServerState(net.query, |job.file|) {
        case Ok(span) =>
          var h1 := h.(serverHasBytes := span.start);
          TransferLog(h1, job, net, span, [query]);
          var rest := Transfer(h1, job, net, span, []).log;
          LogConcat(held, job.file, [query], rest);
          if span.end != |job.file| {
            TransferIsRight(h1, job, net, span, held);
          } else {
            assert rest == [];
          }
        case Err(StartOver) =>
          RestartLog(h, job, net, [query]);
          LogConcat(held, job.file, [query], Restart(h, job, net, []).log);
          RestartIsRight(h, job, net, held);
        case Err(_) =>
      }
    } else {
      RestartIsRight(h, job, net, held);
    }
  }

  lemma TransferLog(h: Handler, job: Job, net: Network, span: Span, log: seq<Event>)
    requires -1 <= span.end
    ensures var a, b := Transfer(h, job, net, span, log), Transfer(h, job, net, span, []);
            a.log == log + b.log && a.handler == b.handler && a.outcome == b.outcome
  {
  }

  lemma RestartLog(h: Handler, job: Job, net: Network, log: seq<Event>)
    ensures var a, b := Restart(h, job, net, log), Restart(h, job, net, []);
            a.log == log + b.log && a.handler == b.handler && a.outcome == b.outcome
  {
  }

  lemma RestartIsRight(h: Handler, job: Job, net: Network, held: Bytes)
    requires Resumable(h, held, job.file) && Honest(held, |job.file|, Restart(h, job, net, []).log)
    ensures var a := Restart(h, job, net, []);
            && RightLog(held, job.file, a.log)
            && Resumable(a.handler, Served(held, a.log), job.file)
            && (a.outcome.Ok? ==> Served(held, a.log) == job.file)
  {
    var (h1, failure, sent) := StartNew(h, job, net.post);
    StartIsRight(h, job, net.post, held);
    assert [] + sent == sent;
    if failure.None? {
      TransferLog(h1, job, net, SERVER_HAS_NOTHING, sent);
      LogConcat(held, job.file, sent, Transfer(h1, job, net, SERVER_HAS_NOTHING, []).log);
      TransferIsRight(h1, job, net, SERVER_HAS_NOTHING, []);
    }
  }

  lemma StartIsRight(h: Handler, job: Job, reply: PostReply, held: Bytes)
    requires Resumable(h, held, job.file)
    ensures var (h1, failure, sent) := StartNew(h, job, reply);
            && RightLog(held, job.file, sent)
            && Resumable(h1, Served(held, sent), job.file)
            && (failure.None? ==> h1.trackerUri.Some? && Served(held, sent) == [])
  {
    var (h1, failure, sent) := StartNew(h, job, reply);
    if sent != [] {
      LogOne(held, job.file, sent[0]);
      assert sent == [sent[0]];
    }
  }

  /** What is promised of a whole call. */
  ghost predicate RightCall(s: Sending, file: Bytes, held: Bytes) {
    && RightLog(held, file, s.log)
    && Resumable(s.handler, Served(held, s.log), file)
    && (s.verdict.Completed? || s.verdict == Raised(NoEtag) ==> Served(held, s.log) == file)
  }

  lemma LastIsRight(s: Sending, a: Attempted, job: Job, held: Bytes)
    requires s.handler == a.handler && s.log == a.log
    requires s.verdict == Judge(job, a.outcome) || s.verdict == Raised(Abort)
    requires RightLog(held, job.file, a.log) && Resumable(a.handler, Served(held, a.log), job.file)
    requires a.outcome != Err(NoEtag) && (a.outcome.Ok? ==> Served(held, a.log) == job.file)
    ensures RightCall(s, job.file, held)
  {
  }

  lemma OnwardIsRight(s: Sending, first: seq<Event>, rest: Sending, file: Bytes, held: Bytes)
    requires s.handler == rest.handler && s.verdict == rest.verdict && s.log == first + rest.log
    requires RightLog(held, file, first) && RightCall(rest, file, Served(held, first))
    ensures RightCall(s, file, held)
  {
    LogConcat(held, file, first, rest.log);
  }

  /** Over any sequence of drops, resumes and restarts against an honest server and with an unchanged
      file: the server always holds a prefix of the file, every PUT carries exactly the missing
      suffix, a 200 means that the server has the file, and the call completes (or trips over the
      missing etag of an upload found complete) only then. */
  lemma {:induction false} UploadIsRight(h: Handler, job: Job, script: seq<Network>, progressless: nat, held: Bytes)
    requires Resumable(h, held, job.file) && Honest(held, |job.file|, Send(h, job, script, progressless).log)
    ensures RightCall(Send(h, job, script, progressless), job.file, held)
    decreases |script|
  {
    if script == [] {
    } else {
      var s, a := Send(h, job, script, progressless), Attempt(h, job, script[0]);
      SendOnward(h, job, script, progressless);
      if GoesOn(h, job, script, progressless) {
        var rest := Onward(h, job, script, progressless);
        LogConcat(held, job.file, a.log, rest.log);
        AttemptIsRight(h, job, script[0], held);
        UploadIsRight(a.handler, job, script[1..], CountAfter(h, a.handler, progressless), Served(held, a.log));
        OnwardIsRight(s, a.log, rest, job.file, held);
      } else {
        AttemptIsRight(h, job, script[0], held);
        LastIsRight(s, a, job, held);
      }
    }
  }
}
