/** How often the progress callback of an upload is called: in one PUT, and in a whole call of `send_file`. */
module ProgressCalls {
  import opened Common
  import opened UploadProtocol
  import opened Arithmetic

  // ---- One PUT -------------------------------------------------------------------------

  /** `cb_count`: how many buffers go between two callbacks; -1 is every buffer, 0 none. */
  function CallbackInterval(fileLength: nat, numCb: int): (c: int)
    ensures -1 <= c
  {
    if numCb > 2 then fileLength / BUFFER_SIZE / (numCb - 2) else if numCb < 0 then -1 else 0
  }

  /** The buffers `n` bytes take. */
  function Buffers(n: nat): nat {
    (n + BUFFER_SIZE - 1) / BUFFER_SIZE
  }

  /** The bytes of the first `k` buffers out of `n` bytes. */
  function BytesIn(k: nat, n: nat): nat {
    if k * BUFFER_SIZE <= n then k * BUFFER_SIZE else n
  }

  /** A progress report: it begins at `first`, never decreases, and does not pass `last`. */
  predicate Reports(calls: seq<int>, first: int, last: int) {
    && calls != [] && calls[0] == first && calls[|calls| - 1] <= last
    && forall i, j :: 0 <= i < j < |calls| ==> calls[i] <= calls[j]
  }

  /** The callbacks made inside the send loop for `buffers` buffers. */
  function LoopCalls(buffers: nat, interval: int): nat
    requires -1 <= interval
  {
    if interval == -1 then buffers else if interval == 0 then 0 else buffers / interval
  }

  /** All callbacks of an unbroken PUT from byte `total`. */
  function CallCount(fileLength: nat, total: nat, numCb: int): nat
    requires total <= fileLength
  {
    2 + LoopCalls(Buffers(fileLength - total), CallbackInterval(fileLength, numCb))
  }

  /** The buffers of `n` bytes that go out when the connection may break after `limit` of them. */
  function BuffersOut(n: nat, limit: Option<nat>): nat {
    if limit.Some? && limit.value < Buffers(n) then limit.value else Buffers(n)
  }

  /** The callbacks of a PUT of `n` bytes: one before, those of the loop, and one after it unless it breaks. */
  function PutCalls(fileLength: nat, n: nat, numCb: int, put: PutReply): nat {
    var interval := CallbackInterval(fileLength, numCb);
    if put.SendLost? then 1 + LoopCalls(BuffersOut(n, Some(put.buffers)), interval)
    else 2 + LoopCalls(Buffers(n), interval)
  }

  /** Counting one more buffer: a callback exactly when a whole interval has gone by. */
  lemma OneMoreBuffer(k: nat, c: int)
    requires 0 < c
    ensures if k % c == c - 1 then (k + 1) / c == k / c + 1 && (k + 1) % c == 0
            else (k + 1) / c == k / c && (k + 1) % c == k % c + 1
  {
    DivMod(k, c);
    if k % c == c - 1 {
      assert c * (k / c + 1) == c * (k / c) + c;
      QuotientIs(k + 1, c, k / c + 1, 0);
    } else {
      QuotientIs(k + 1, c, k / c, k % c + 1);
    }
  }

  lemma PartialCount(k: nat, n: nat, interval: int)
    requires k <= n && -1 <= interval
    ensures LoopCalls(k, interval) <= LoopCalls(n, interval)
  {
    if interval > 0 {
      DivMod(n, interval);
      assert n < interval * (n / interval + 1) by {
        assert interval * (n / interval + 1) == interval * (n / interval) + interval;
      }
      QuotientAtMost(k, interval, n / interval);
    }
  }

  /** The buffers from one report to the next. */
  function Every(interval: int): nat {
    if interval > 0 then interval else 1
  }

  /** Each report after the first tells one interval more than the one before, up to `n` bytes from `total` on. */
  predicate ReportsEvery(calls: seq<int>, total: int, n: nat, interval: int) {
    forall j :: 1 <= j < |calls| ==>
      var next := calls[j - 1] + Every(interval) * BUFFER_SIZE;
      calls[j] == if next <= total + n then next else total + n
  }

  /** A report is due after the `k`-th buffer. */
  predicate IsDue(k: nat, interval: int) {
    interval == -1 || (interval > 0 && k % interval == 0)
  }

  /** The reports made for the first `k` buffers of `n` bytes from `total` on. */
  function Reported(total: int, n: nat, k: nat, interval: int): seq<int> {
    if k == 0 then [total]
    else Reported(total, n, k - 1, interval) + if IsDue(k, interval) then [total + BytesIn(k, n)] else []
  }

  /** The buffers since the last report. */
  function SinceLast(k: nat, interval: int): (i: nat)
    ensures i <= k
  {
    if interval > 0 then ModAtMost(k, interval); k % interval else if interval == 0 then k else 0
  }

  lemma ModAtMost(k: nat, c: int)
    requires 0 < c
    ensures 0 <= k % c <= k
  {
    DivMod(k, c);
    if k < c {
      QuotientIs(k, c, 0, k);
    }
  }

  lemma DueOrNot(k: nat, interval: int)
    requires -1 <= interval && k > 0
    ensures LoopCalls(k, interval) == LoopCalls(k - 1, interval) + if IsDue(k, interval) then 1 else 0
    ensures IsDue(k, interval) ==> SinceLast(k, interval) == 0 && SinceLast(k - 1, interval) + 1 == Every(interval)
    ensures !IsDue(k, interval) ==> SinceLast(k, interval) == SinceLast(k - 1, interval) + 1
  {
    if interval > 0 {
      OneMoreBuffer(k - 1, interval);
    }
  }

  predicate ReportedSoFar(calls: seq<int>, total: int, n: nat, k: nat, interval: int)
    requires -1 <= interval
  {
    && Reports(calls, total, total + BytesIn(k, n))
    && ReportsEvery(calls, total, n, interval)
    && |calls| == 1 + LoopCalls(k, interval)
    && (interval == 0 || calls[|calls| - 1] == total + BytesIn(k - SinceLast(k, interval), n))
  }

  /** The reports begin at the offset, tell one interval after the other, and are as many as counted. */
  lemma {:induction false} ReportedIsSoFar(total: int, n: nat, k: nat, interval: int)
    requires -1 <= interval
    ensures ReportedSoFar(Reported(total, n, k, interval), total, n, k, interval)
  {
    if k == 0 {
      ReportedFirst(total, n, interval);
    } else {
      ReportedIsSoFar(total, n, k - 1, interval);
      ReportedNext(Reported(total, n, k - 1, interval), total, n, k, interval);
    }
  }

  lemma ReportedFirst(total: int, n: nat, interval: int)
    requires -1 <= interval
    ensures ReportedSoFar([total], total, n, 0, interval)
  {
    if interval > 0 {
      QuotientIs(0, interval, 0, 0);
    }
  }

  lemma ReportedNext(before: seq<int>, total: int, n: nat, k: nat, interval: int)
    requires -1 <= interval && k > 0 && ReportedSoFar(before, total, n, k - 1, interval)
    ensures ReportedSoFar(before + if IsDue(k, interval) then [total + BytesIn(k, n)] else [], total, n, k, interval)
  {
    DueOrNot(k, interval);
    if IsDue(k, interval) {
      OneMoreReport(before, total, n, k, SinceLast(k - 1, interval), interval);
    } else {
      assert before + [] == before;
    }
  }

  lemma OneMoreReport(calls: seq<int>, total: int, n: nat, k: nat, i: nat, interval: int)
    requires i < k && i + 1 == Every(interval) && calls != []
    requires ReportsEvery(calls, total, n, interval) && Reports(calls, total, total + BytesIn(k - 1, n))
    requires calls[|calls| - 1] == total + BytesIn(k - 1 - i, n)
    ensures ReportsEvery(calls + [total + BytesIn(k, n)], total, n, interval)
    ensures Reports(calls + [total + BytesIn(k, n)], total, total + BytesIn(k, n))
  {
  }

  /** The reports of a PUT of `n` bytes from `total` on: those of the buffers that go out, and one after it unless
      it breaks. */
  function PutReports(fileLength: nat, total: int, n: nat, numCb: int, put: PutReply): seq<int> {
    var interval := CallbackInterval(fileLength, numCb);
    if put.SendLost? then Reported(total, n, BuffersOut(n, Some(put.buffers)), interval)
    else Reported(total, n, Buffers(n), interval) + [total + n]
  }

  /** The progress that a PUT reports begins at its offset, never decreases, advances by whole intervals, does not
      pass what was sent, and unless the PUT breaks ends with all of it. */
  lemma PutReportsProgress(fileLength: nat, total: int, n: nat, numCb: int, put: PutReply)
    ensures var calls := PutReports(fileLength, total, n, numCb, put);
            var sent := if put.SendLost? then BytesIn(BuffersOut(n, Some(put.buffers)), n) else n;
            && |calls| == PutCalls(fileLength, n, numCb, put)
            && Reports(calls, total, total + sent)
            && (!put.SendLost? ==> calls[|calls| - 1] == total + n)
            && ReportsEvery(if put.SendLost? then calls else calls[..|calls| - 1], total, n,
                            CallbackInterval(fileLength, numCb))
  {
    var interval := CallbackInterval(fileLength, numCb);
    var k := BuffersOut(n, if put.SendLost? then Some(put.buffers) else None);
    var calls := Reported(total, n, k, interval);
    ReportedIsSoFar(total, n, k, interval);
    AllBuffers(n);
    assert (calls + [total + n])[..|calls|] == calls;
  }

  lemma AllBuffers(n: nat)
    ensures BytesIn(Buffers(n), n) == n
  {
  }

  predicate SomeRemainder(fileLength: nat) {
    fileLength % BUFFER_SIZE > 0
  }

  function OneIf(b: bool): nat {
    if b then 1 else 0
  }

  lemma BuffersOf(n: nat)
    ensures Buffers(n) == n / BUFFER_SIZE + OneIf(SomeRemainder(n))
  {
  }

  /** The number of callbacks is at most `2 * num_cb - 2`. */
  lemma CallCountBound(fileLength: nat, total: nat, numCb: int)
    requires total <= fileLength && numCb > 2
    ensures CallCount(fileLength, total, numCb) <= 2 * numCb - 2
  {
    var d, q := numCb - 2, fileLength / BUFFER_SIZE;
    var c, n := q / d, Buffers(fileLength - total);
    BuffersOf(fileLength - total);
    assert n <= q + 1;
    if c > 0 {
      DivMod(q, d);
      assert q + 1 <= d * c + d;
      assert d * c + d <= 2 * (c * d) by {
        MulMono(d, 1, c);
      }
      assert n < c * (2 * d + 1) by {
        assert c * (2 * d + 1) == 2 * (c * d) + c;
      }
      QuotientAtMost(n, c, 2 * d);
    }
  }

  /** That bound is met for every `num_cb > 2`, so even one PUT can make more than `num_cb`. */
  lemma CallCountBoundIsMet(numCb: int) returns (fileLength: nat)
    requires numCb > 2
    ensures CallCount(fileLength, 0, numCb) == 2 * numCb - 2
  {
    var d := numCb - 2;
    fileLength := (2 * d - 1) * BUFFER_SIZE + 1;
    assert fileLength / BUFFER_SIZE == 2 * d - 1;
    QuotientIs(2 * d - 1, d, 1, d - 1);
    assert Buffers(fileLength) == 2 * d;
  }

  /** One unbroken PUT makes at most `num_cb` callbacks exactly for a `num_cb` of 2, and for a greater one
      when the file has less than one buffer per interval or what is sent has too few for one interval more. */
  lemma PutWithinIff(fileLength: nat, total: nat, numCb: int)
    requires total <= fileLength && numCb >= 0
    ensures var d, q := numCb - 2, fileLength / BUFFER_SIZE;
            CallCount(fileLength, total, numCb) <= numCb
            <==> if numCb <= 2 then numCb == 2 else q < d || Buffers(fileLength - total) < (q / d) * (d + 1)
  {
    var d, q := numCb - 2, fileLength / BUFFER_SIZE;
    if numCb > 2 {
      DivMod(q, d);
      if q < d {
        QuotientIs(q, d, 0, q);
      } else {
        assert q / d > 0 by {
          QuotientAtMost(q, d, 0);
        }
        QuotientAtMost(Buffers(fileLength - total), q / d, d);
      }
    }
  }

  /** For a whole file that is: the buffers left over from equal intervals, a partial one included, are fewer
      than an interval. */
  lemma WholeFilePutWithinIff(fileLength: nat, numCb: int)
    requires numCb > 2
    ensures var d, q := numCb - 2, fileLength / BUFFER_SIZE;
            CallCount(fileLength, 0, numCb) <= numCb
            <==> q < d || q % d + OneIf(SomeRemainder(fileLength)) < q / d
  {
    var d, q := numCb - 2, fileLength / BUFFER_SIZE;
    PutWithinIff(fileLength, 0, numCb);
    BuffersOf(fileLength);
    DivMod(q, d);
    assert (q / d) * (d + 1) == d * (q / d) + q / d;
  }

  /** Asked for fewer than three, the callbacks are the first and the last; a negative number asks for one
      after every buffer as well. */
  lemma FewOrAll(fileLength: nat, total: nat, numCb: int)
    requires total <= fileLength && numCb <= 2
    ensures CallCount(fileLength, total, numCb)
            == if numCb >= 0 then 2 else 2 + (fileLength - total + BUFFER_SIZE - 1) / BUFFER_SIZE
  {
  }

  // ---- A whole call --------------------------------------------------------------------

  /** The reports of an attempt: those of its PUT, its last event if there is one. */
  function LogReports(log: seq<Event>, fileLength: nat, numCb: Option<int>): seq<int> {
    if numCb.None? || log == [] || !log[|log| - 1].Put? then []
    else
      var put := log[|log| - 1];
      PutReports(fileLength, put.start, |put.body|, numCb.value, put.putReply)
  }

  /** What `each` counts in the traffic of every attempt of a call, with `progressless` already on the count. */
  function SendTotal(h: Handler, job: Job, each: seq<Event> -> nat, script: seq<Network>, progressless: nat): nat
    decreases |script|
  {
    if script == [] then 0
    else
      var a := Attempt(h, job, script[0]);
      var count := CountAfter(h, a.handler, progressless);
      each(a.log)
      + if Judge(job, a.outcome).Again? && count <= job.numRetries then
          SendTotal(a.handler, job, each, script[1..], count)
        else 0
  }

  lemma TotalOnward(h: Handler, job: Job, each: seq<Event> -> nat, script: seq<Network>, progressless: nat)
    requires script != []
    ensures var a := Attempt(h, job, script[0]);
            SendTotal(h, job, each, script, progressless)
            == each(a.log)
               + if GoesOn(h, job, script, progressless) then
                   SendTotal(a.handler, job, each, script[1..], CountAfter(h, a.handler, progressless))
                 else 0
  {
  }

  function CallsOf(fileLength: nat, numCb: Option<int>): seq<Event> -> nat {
    log => |LogReports(log, fileLength, numCb)|
  }

  /** The callbacks of a call of `send_file`. */
  function SendCalls(h: Handler, job: Job, numCb: Option<int>, script: seq<Network>): nat {
    SendTotal(h, job, CallsOf(|job.file|, numCb), script, 0)
  }

  /** No PUT reports more often than an unbroken one of the whole file. */
  lemma PutCallsBound(fileLength: nat, n: nat, numCb: int, put: PutReply)
    requires n <= fileLength
    ensures PutCalls(fileLength, n, numCb, put) <= CallCount(fileLength, 0, numCb)
  {
    var interval := CallbackInterval(fileLength, numCb);
    assert Buffers(n) <= Buffers(fileLength);
    PartialCount(Buffers(n), Buffers(fileLength), interval);
    if put.SendLost? {
      PartialCount(BuffersOut(n, Some(put.buffers)), Buffers(fileLength), interval);
    }
  }

  lemma AttemptCallsBound(h: Handler, job: Job, net: Network, numCb: int)
    ensures |LogReports(Attempt(h, job, net).log, |job.file|, Some(numCb))| <= CallCount(|job.file|, 0, numCb)
  {
    var log := Attempt(h, job, net).log;
    if log != [] && log[|log| - 1].Put? {
      var put := log[|log| - 1];
      PutReportsProgress(|job.file|, put.start, |put.body|, numCb, put.putReply);
      PutCallsBound(|job.file|, |log[|log| - 1].body|, numCb, log[|log| - 1].putReply);
    }
  }

  /** `n * each`, one at a time. */
  function Times(n: nat, each: nat): nat {
    if n == 0 then 0 else each + Times(n - 1, each)
  }

  lemma {:induction false} TimesIsProduct(n: nat, each: nat)
    ensures Times(n, each) == n * each
  {
    if n == 0 {
    } else {
      TimesIsProduct(n - 1, each);
      assert n * each == each + (n - 1) * each;
    }
  }

  /** Without growth every attempt is one of at most `num_retries + 1`. */
  lemma {:induction false} SendTotalBound(h: Handler, job: Job, each: seq<Event> -> nat, script: seq<Network>,
                                          progressless: nat, most: nat)
    requires StartsAtZero(script) && h.serverHasBytes >= 0 && progressless < AtLeastOne(job.numRetries)
    requires forall g, net :: each(Attempt(g, job, net).log) <= most
    ensures SendTotal(h, job, each, script, progressless) <= Times(AtLeastOne(job.numRetries) - progressless, most)
    decreases |script|
  {
    if script == [] {
    } else {
      var a := Attempt(h, job, script[0]);
      NoGrowth(h, job, script);
      if Judge(job, a.outcome).Again? && progressless + 1 <= job.numRetries {
        SendTotalBound(a.handler, job, each, script[1..], progressless + 1, most);
      }
    }
  }

  /** The whole file goes out, and the answer is lost. */
  const ANSWER_LOST := Network(QueryStatus(308, NoRange), PostStatus(201, NewLocation("", true)), AnswerLost, 0)

  function Repeated(net: Network, n: nat): seq<Network> {
    if n == 0 then [] else [net] + Repeated(net, n - 1)
  }

  /** No upload can be opened, so nothing is ever sent. */
  predicate CannotOpen(h: Handler, job: Job) {
    h.trackerUri.None? && job.hasContentLength
  }

  predicate CanSendAll(h: Handler, job: Job) {
    h.serverHasBytes == 0 && !CannotOpen(h, job)
  }

  lemma AnswerLostAttempt(h: Handler, job: Job)
    requires CanSendAll(h, job)
    ensures var a := Attempt(h, job, ANSWER_LOST);
            && a.outcome == Err(Retryable) && CanSendAll(a.handler, job)
            && a.log != [] && a.log[|a.log| - 1] == Put(0, Rest(job.file, 0), 0, AnswerLost)
  {
    var before := if h.trackerUri.Some? then [Query(ANSWER_LOST.query)] else [] + [Post(ANSWER_LOST.post)];
    assert Attempt(h, job, ANSWER_LOST).log == before + [Put(0, Rest(job.file, 0), 0, AnswerLost)];
  }

  lemma {:induction false} RepeatedStartsAtZero(n: nat)
    ensures StartsAtZero(Repeated(ANSWER_LOST, n))
  {
    if n == 0 {
    } else {
      RepeatedStartsAtZero(n - 1);
    }
  }

  lemma {:induction false} AnswersLost(h: Handler, job: Job, each: seq<Event> -> nat, progressless: nat, left: nat,
                                       most: nat)
    requires CanSendAll(h, job) && left > 0 && progressless + left == AtLeastOne(job.numRetries)
    requires forall g :: CanSendAll(g, job) ==> each(Attempt(g, job, ANSWER_LOST).log) == most
    ensures SendTotal(h, job, each, Repeated(ANSWER_LOST, left), progressless) == Times(left, most)
    decreases left
  {
    var script := Repeated(ANSWER_LOST, left);
    assert script[0] == ANSWER_LOST && script[1..] == Repeated(ANSWER_LOST, left - 1);
    AnswerLostAttempt(h, job);
    if left == 1 {
    } else {
      AnswersLost(Attempt(h, job, ANSWER_LOST).handler, job, each, progressless + 1, left - 1, most);
    }
  }

  lemma {:induction false} NothingSent(h: Handler, job: Job, numCb: int, script: seq<Network>, progressless: nat)
    requires CannotOpen(h, job)
    ensures SendTotal(h, job, CallsOf(|job.file|, Some(numCb)), script, progressless) == 0
  {
    if script == [] {
    } else {
      assert Attempt(h, job, script[0]).log == [];
    }
  }

  /** At most as many callbacks as `num_retries + 1` unbroken PUTs of the whole file make. */
  lemma SendCallsBound(h: Handler, job: Job, numCb: int, script: seq<Network>)
    requires StartsAtZero(script) && h.serverHasBytes >= 0
    ensures SendCalls(h, job, Some(numCb), script) <= AtLeastOne(job.numRetries) * CallCount(|job.file|, 0, numCb)
  {
    var each, most := CallsOf(|job.file|, Some(numCb)), CallCount(|job.file|, 0, numCb);
    forall g, net
      ensures each(Attempt(g, job, net).log) <= most
    {
      AttemptCallsBound(g, job, net, numCb);
    }
    SendTotalBound(h, job, each, script, 0, most);
    TimesIsProduct(AtLeastOne(job.numRetries), most);
  }

  /** That many are made when the answer to each of those PUTs is lost. */
  lemma SendCallsBoundIsMet(h: Handler, job: Job, numCb: int) returns (script: seq<Network>)
    requires CanSendAll(h, job)
    ensures StartsAtZero(script)
    ensures SendCalls(h, job, Some(numCb), script) == AtLeastOne(job.numRetries) * CallCount(|job.file|, 0, numCb)
  {
    var each, most := CallsOf(|job.file|, Some(numCb)), CallCount(|job.file|, 0, numCb);
    script := Repeated(ANSWER_LOST, AtLeastOne(job.numRetries));
    forall g | CanSendAll(g, job)
      ensures each(Attempt(g, job, ANSWER_LOST).log) == most
    {
      AnswerLostAttempt(g, job);
      PutReportsProgress(|job.file|, 0, |job.file|, numCb, AnswerLost);
    }
    AnswersLost(h, job, each, 0, AtLeastOne(job.numRetries), most);
    RepeatedStartsAtZero(AtLeastOne(job.numRetries));
    TimesIsProduct(AtLeastOne(job.numRetries), most);
  }

  /** The documented "maximum number of times the callback will be called during the file transfer" counts
      the retries too. Whatever the network does to a new handler, with every reported range from byte 0,
      it holds exactly when it holds for `num_retries + 1` unbroken PUTs of the whole file. */
  lemma MaximumDuringTransferIff(h: Handler, job: Job, numCb: int)
    requires h.serverHasBytes == 0
    ensures (forall script :: StartsAtZero(script) ==> SendCalls(h, job, Some(numCb), script) <= numCb)
            <==> if CannotOpen(h, job) then 0 <= numCb
                 else AtLeastOne(job.numRetries) * CallCount(|job.file|, 0, numCb) <= numCb
  {
    if CannotOpen(h, job) {
      forall script | StartsAtZero(script)
        ensures SendCalls(h, job, Some(numCb), script) == 0
      {
        NothingSent(h, job, numCb, script, 0);
      }
      assert StartsAtZero([]);
    } else {
      var worst := SendCallsBoundIsMet(h, job, numCb);
      forall script | StartsAtZero(script)
        ensures SendCalls(h, job, Some(numCb), script) <= AtLeastOne(job.numRetries) * CallCount(|job.file|, 0, numCb)
      {
        SendCallsBound(h, job, numCb, script);
      }
    }
  }
}
