/** When a call of `send_file` completes, trips over a missing etag, or uses up its retries. */
module UploadOutcome {
  import opened Common
  import opened UploadProtocol

  // ---- How an attempt and a call end -------------------------------------------------

  /** The tracked upload is reported complete: by a 200, or by a range that ends at the file length. */
  predicate QuerySaysComplete(h: Handler, job: Job, net: Network) {
    && h.trackerUri.Some? && net.query.QueryStatus?
    && (net.query.status == 200
        || (net.query.status == 308 && net.query.range.RangeBytes? && net.query.range.last == |job.file|))
  }

  /** There is no tracked upload to resume, or the server does not give its state. */
  predicate MustStartOver(h: Handler, net: Network) {
    || h.trackerUri.None?
    || (net.query.QueryStatus? && net.query.status != 200
        && (net.query.status != 308 || net.query.range.UnreadableRange?))
  }

  /** A new upload can be opened and remembered. */
  predicate Opens(job: Job, post: PostReply) {
    && !job.hasContentLength
    && post.PostStatus? && post.status == 201 && post.location.NewLocation? && post.location.saved
  }

  /** The server reports less than the file, or nothing. */
  predicate Resumes(h: Handler, job: Job, net: Network) {
    && h.trackerUri.Some? && net.query.QueryStatus? && net.query.status == 308
    && (net.query.range.NoRange? || (net.query.range.RangeBytes? && net.query.range.last < |job.file|))
  }

  /** The server claims more than the file, so there is nothing to send. */
  predicate PastTheEnd(h: Handler, job: Job, net: Network) {
    && h.trackerUri.Some? && net.query.QueryStatus? && net.query.status == 308
    && net.query.range.RangeBytes? && net.query.range.last > |job.file|
  }

  /** A PUT of what the server is missing is sent. */
  predicate SendsRest(h: Handler, job: Job, net: Network) {
    Resumes(h, job, net) || (MustStartOver(h, net) && Opens(job, net.post))
  }

  /** The attempt ends with the answer 200 to its PUT. */
  predicate PutSucceeds(h: Handler, job: Job, net: Network, etag: Option<string>) {
    SendsRest(h, job, net) && net.put == PutStatus(200, etag)
  }

  /** Which part of an attempt its outcome comes from. */
  lemma OutcomeFrom(h: Handler, job: Job, net: Network)
    ensures var outcome := Attempt(h, job, net).outcome;
            if QuerySaysComplete(h, job, net) then outcome == Ok(None)
            else if MustStartOver(h, net) then
              if Opens(job, net.post) then outcome == PutOutcome(job, 0, net.put)
              else outcome.Err? && StartNew(h, job, net.post).1 == Some(outcome.error)
            else if net.query.QueryLost? then outcome == Err(Retryable)
            else outcome == PutOutcome(job, if net.query.range.NoRange? then 0 else net.query.range.last + 1, net.put)
  {
  }

  /** An attempt returns an etag exactly when its PUT is answered by it, and it returns none exactly when the
      query says that the upload is complete or the PUT is answered without one. */
  lemma AttemptReturnsIff(h: Handler, job: Job, net: Network, etag: string)
    ensures Attempt(h, job, net).outcome == Ok(Some(etag)) <==> PutSucceeds(h, job, net, Some(etag))
    ensures Attempt(h, job, net).outcome == Ok(None)
            <==> QuerySaysComplete(h, job, net) || PutSucceeds(h, job, net, None)
  {
    OutcomeFrom(h, job, net);
  }

  /** The attempt trips over a missing etag. */
  predicate MissesEtag(h: Handler, job: Job, net: Network) {
    QuerySaysComplete(h, job, net) || PutSucceeds(h, job, net, None)
  }

  predicate GetsItsMd5(h: Handler, job: Job, net: Network) {
    && net.put.PutStatus? && net.put.etag.Some? && StripQuotes(net.put.etag.value) == job.md5
    && PutSucceeds(h, job, net, net.put.etag)
  }

  /** Nothing final was answered: a connection broke, the POST got no session, or the PUT was answered 503. */
  predicate CanRetry(h: Handler, job: Job, net: Network) {
    || (h.trackerUri.Some? && net.query.QueryLost?)
    || (MustStartOver(h, net) && !job.hasContentLength
        && (net.post.PostLost? || net.post.status != 201 || net.post.location.NoLocation?))
    || (PastTheEnd(h, job, net) && net.put.SendLost?)
    || (SendsRest(h, job, net)
        && (net.put.SendLost? || net.put.AnswerLost? || net.put.status == 503))
  }

  /** A Content-Length header, a tracker file that cannot be written, an offset past the end of the file, a PUT
      answered with anything but 200 and 503, or with another MD5. */
  predicate IsRefused(h: Handler, job: Job, net: Network) {
    || (MustStartOver(h, net) && job.hasContentLength)
    || (MustStartOver(h, net) && net.post.PostStatus? && net.post.status == 201
        && net.post.location.NewLocation? && !net.post.location.saved)
    || (PastTheEnd(h, job, net) && !net.put.SendLost?)
    || (SendsRest(h, job, net) && net.put.PutStatus?
        && if net.put.status == 200 then net.put.etag.Some? && StripQuotes(net.put.etag.value) != job.md5
           else net.put.status != 503)
  }

  predicate GetsBadUri(h: Handler, job: Job, net: Network) {
    && MustStartOver(h, net) && !job.hasContentLength
    && net.post.PostStatus? && net.post.status == 201 && net.post.location.InvalidLocation?
  }

  /** What an attempt comes to, told from the replies alone: it always is one of these five. */
  lemma AttemptVerdictIff(h: Handler, job: Job, net: Network)
    ensures var v := Judge(job, Attempt(h, job, net).outcome);
            && (v == Raised(NoEtag) <==> MissesEtag(h, job, net))
            && (v == Completed <==> GetsItsMd5(h, job, net))
            && (v == Again <==> CanRetry(h, job, net))
            && (v == Raised(Abort) <==> IsRefused(h, job, net))
            && (v == Raised(InvalidUri) <==> GetsBadUri(h, job, net))
            && v in {Again, Completed, Raised(NoEtag), Raised(Abort), Raised(InvalidUri)}
  {
    OutcomeFrom(h, job, net);
  }

  lemma CanRetryIff(h: Handler, job: Job, net: Network)
    ensures Judge(job, Attempt(h, job, net).outcome).Again? <==> CanRetry(h, job, net)
  {
    AttemptVerdictIff(h, job, net);
  }

  /** After `i` attempts the call is still retrying. */
  predicate GetsTo(h: Handler, job: Job, script: seq<Network>, progressless: nat, i: nat)
    requires i <= |script|
  {
    Send(h, job, script[..i], progressless).verdict.Again?
  }

  /** The handler that attempt `i` meets. */
  function HandlerAt(h: Handler, job: Job, script: seq<Network>, progressless: nat, i: nat): Handler
    requires i <= |script|
  {
    Send(h, job, script[..i], progressless).handler
  }

  /** The count of attempts without progress after the first `i`: how many there were since `server_has_bytes`
      last grew. */
  function CountAt(h: Handler, job: Job, script: seq<Network>, progressless: nat, i: nat): nat
    requires i <= |script|
  {
    if i == 0 then progressless
    else if HandlerAt(h, job, script, progressless, i).serverHasBytes
            > HandlerAt(h, job, script, progressless, i - 1).serverHasBytes then 0
    else CountAt(h, job, script, progressless, i - 1) + 1
  }

  /** The count that a call which is still retrying has reached. */
  function FinalCount(h: Handler, job: Job, script: seq<Network>, progressless: nat): nat
    decreases |script|
  {
    if script == [] then progressless
    else
      var next := Attempt(h, job, script[0]).handler;
      FinalCount(next, job, script[1..], CountAfter(h, next, progressless))
  }

  /** One attempt more: a call that is still retrying makes it, and one that has ended does not. */
  lemma {:induction false} SendOneMore(h: Handler, job: Job, script: seq<Network>, net: Network, progressless: nat)
    ensures var s, t := Send(h, job, script, progressless), Send(h, job, script + [net], progressless);
            var a := Attempt(s.handler, job, net);
            var count := CountAfter(s.handler, a.handler, FinalCount(h, job, script, progressless));
            if !s.verdict.Again? then t.verdict == s.verdict
            else
              && t.handler == a.handler
              && FinalCount(h, job, script + [net], progressless) == count
              && t.verdict == (var v := Judge(job, a.outcome);
                               if v.Again? && count > job.numRetries then Raised(Abort) else v)
    decreases |script|
  {
    if script == [] {
      assert [] + [net] == [net];
      SendOnward(h, job, [net], progressless);
      assert FinalCount(h, job, [net], progressless)
          == CountAfter(h, Attempt(h, job, net).handler, progressless);
    } else {
      assert (script + [net])[1..] == script[1..] + [net];
      SendOnward(h, job, script, progressless);
      SendOnward(h, job, script + [net], progressless);
      if GoesOn(h, job, script, progressless) {
        var next := Attempt(h, job, script[0]).handler;
        SendOneMore(next, job, script[1..], net, CountAfter(h, next, progressless));
      }
    }
  }

  lemma {:induction false} CountIsFinal(h: Handler, job: Job, script: seq<Network>, progressless: nat, i: nat)
    requires i <= |script| && GetsTo(h, job, script, progressless, i)
    ensures FinalCount(h, job, script[..i], progressless) == CountAt(h, job, script, progressless, i)
    decreases i
  {
    if i == 0 {
    } else {
      assert script[..i] == script[..i - 1] + [script[i - 1]];
      SendOneMore(h, job, script[..i - 1], script[i - 1], progressless);
      CountIsFinal(h, job, script, progressless, i - 1);
    }
  }

  /** How the call stands after attempt `i`. */
  lemma AfterAttempt(h: Handler, job: Job, script: seq<Network>, progressless: nat, i: nat)
    requires i < |script| && GetsTo(h, job, script, progressless, i)
    ensures var v := Judge(job, Attempt(HandlerAt(h, job, script, progressless, i), job, script[i]).outcome);
            Send(h, job, script[..i + 1], progressless).verdict
            == if v.Again? && CountAt(h, job, script, progressless, i + 1) > job.numRetries then Raised(Abort) else v
  {
    assert script[..i + 1] == script[..i] + [script[i]];
    SendOneMore(h, job, script[..i], script[i], progressless);
    CountIsFinal(h, job, script, progressless, i);
  }

  /** A call that has ended stays so. */
  lemma {:induction false} Ended(h: Handler, job: Job, script: seq<Network>, progressless: nat, i: nat)
    requires i <= |script| && !GetsTo(h, job, script, progressless, i)
    ensures Send(h, job, script, progressless).verdict == Send(h, job, script[..i], progressless).verdict
    decreases |script|
  {
    if i == |script| {
      assert script[..i] == script;
    } else {
      var n := |script| - 1;
      assert script[..n][..i] == script[..i] && script == script[..n] + [script[n]];
      Ended(h, job, script[..n], progressless, i);
      SendOneMore(h, job, script[..n], script[n], progressless);
    }
  }

  /** The attempt at which a call ends. */
  lemma {:induction false} EndingAttempt(h: Handler, job: Job, script: seq<Network>, progressless: nat) returns (i: nat)
    requires !Send(h, job, script, progressless).verdict.Again?
    ensures i < |script| && GetsTo(h, job, script, progressless, i)
    ensures Send(h, job, script[..i + 1], progressless).verdict == Send(h, job, script, progressless).verdict
    decreases |script|
  {
    var n := |script| - 1;
    if GetsTo(h, job, script, progressless, n) {
      i := n;
      assert script[..n + 1] == script;
    } else {
      i := EndingAttempt(h, job, script[..n], progressless);
      assert script[..n][..i] == script[..i] && script[..n][..i + 1] == script[..i + 1];
      Ended(h, job, script, progressless, n);
    }
  }

  /** A call has ended with `v` exactly when some attempt that it gets to leaves it so. */
  lemma SendEndsIff(h: Handler, job: Job, script: seq<Network>, progressless: nat, v: Verdict)
    requires !v.Again?
    ensures Send(h, job, script, progressless).verdict == v
            <==> exists i :: 0 <= i < |script| && GetsTo(h, job, script, progressless, i)
                             && Send(h, job, script[..i + 1], progressless).verdict == v
  {
    if Send(h, job, script, progressless).verdict == v {
      var i := EndingAttempt(h, job, script, progressless);
    }
    if i :| 0 <= i < |script| && GetsTo(h, job, script, progressless, i)
            && Send(h, job, script[..i + 1], progressless).verdict == v {
      Ended(h, job, script, progressless, i + 1);
    }
  }

  /** A call trips over a missing etag exactly when an attempt it gets to is told that the upload is complete,
      or has its PUT answered 200 without an etag. */
  lemma NoEtagIff(h: Handler, job: Job, script: seq<Network>, progressless: nat)
    ensures Send(h, job, script, progressless).verdict == Raised(NoEtag)
            <==> exists i :: 0 <= i < |script| && GetsTo(h, job, script, progressless, i)
                             && MissesEtag(HandlerAt(h, job, script, progressless, i), job, script[i])
  {
    SendEndsIff(h, job, script, progressless, Raised(NoEtag));
    forall i | 0 <= i < |script| && GetsTo(h, job, script, progressless, i)
      ensures Send(h, job, script[..i + 1], progressless).verdict == Raised(NoEtag)
              <==> MissesEtag(HandlerAt(h, job, script, progressless, i), job, script[i])
    {
      AfterAttempt(h, job, script, progressless, i);
      AttemptVerdictIff(HandlerAt(h, job, script, progressless, i), job, script[i]);
    }
  }

  /** A call completes exactly when an attempt it gets to has its PUT answered 200 with the file's MD5. */
  lemma CompletedIff(h: Handler, job: Job, script: seq<Network>, progressless: nat)
    ensures Send(h, job, script, progressless).verdict == Completed
            <==> exists i :: 0 <= i < |script| && GetsTo(h, job, script, progressless, i)
                             && GetsItsMd5(HandlerAt(h, job, script, progressless, i), job, script[i])
  {
    SendEndsIff(h, job, script, progressless, Completed);
    forall i | 0 <= i < |script| && GetsTo(h, job, script, progressless, i)
      ensures Send(h, job, script[..i + 1], progressless).verdict == Completed
              <==> GetsItsMd5(HandlerAt(h, job, script, progressless, i), job, script[i])
    {
      AfterAttempt(h, job, script, progressless, i);
      AttemptVerdictIff(HandlerAt(h, job, script, progressless, i), job, script[i]);
    }
  }

  /** A call is given up exactly when an attempt it gets to is refused, or fails when the retries have run out. */
  lemma AbortIff(h: Handler, job: Job, script: seq<Network>, progressless: nat)
    ensures Send(h, job, script, progressless).verdict == Raised(Abort)
            <==> exists i :: 0 <= i < |script| && GetsTo(h, job, script, progressless, i)
                             && var h' := HandlerAt(h, job, script, progressless, i);
                                || IsRefused(h', job, script[i])
                                || (CanRetry(h', job, script[i])
                                    && CountAt(h, job, script, progressless, i + 1) > job.numRetries)
  {
    SendEndsIff(h, job, script, progressless, Raised(Abort));
    forall i | 0 <= i < |script| && GetsTo(h, job, script, progressless, i)
      ensures Send(h, job, script[..i + 1], progressless).verdict == Raised(Abort)
              <==> var h' := HandlerAt(h, job, script, progressless, i);
                   || IsRefused(h', job, script[i])
                   || (CanRetry(h', job, script[i])
                       && CountAt(h, job, script, progressless, i + 1) > job.numRetries)
    {
      AfterAttempt(h, job, script, progressless, i);
      AttemptVerdictIff(HandlerAt(h, job, script, progressless, i), job, script[i]);
    }
  }

  /** A call tries once more exactly when its attempt can be retried and the retries have not run out. */
  lemma GetsToIff(h: Handler, job: Job, script: seq<Network>, progressless: nat, i: nat)
    requires i < |script|
    ensures GetsTo(h, job, script, progressless, i + 1)
            <==> && GetsTo(h, job, script, progressless, i)
                 && CanRetry(HandlerAt(h, job, script, progressless, i), job, script[i])
                 && CountAt(h, job, script, progressless, i + 1) <= job.numRetries
  {
    if GetsTo(h, job, script, progressless, i) {
      AfterAttempt(h, job, script, progressless, i);
      AttemptVerdictIff(HandlerAt(h, job, script, progressless, i), job, script[i]);
    } else {
      assert script[..i + 1][..i] == script[..i];
      Ended(h, job, script[..i + 1], progressless, i);
    }
  }

  /** What an attempt leaves in the handler: the last session opened, the start of the range reported (0 for a
      new or complete upload), and, once, the last byte that the server had when the first bytes were due. */
  lemma AttemptFields(h: Handler, job: Job, net: Network)
    ensures var next := Attempt(h, job, net).handler;
            && next.trackerUri == (if MustStartOver(h, net) && !job.hasContentLength && net.post.PostStatus?
                                      && net.post.status == 201 && net.post.location.NewLocation?
                                   then Some(net.post.location.uri) else h.trackerUri)
            && next.serverHasBytes == (if MustStartOver(h, net) then 0
                                       else if net.query.QueryLost? then h.serverHasBytes
                                       else if net.query.status == 308 && net.query.range.RangeBytes?
                                       then net.query.range.first else 0)
            && next.uploadStartPoint == (if h.uploadStartPoint.Some? then h.uploadStartPoint
                                         else if QuerySaysComplete(h, job, net) then Some(|job.file|)
                                         else if MustStartOver(h, net) then
                                           if Opens(job, net.post) then Some(-1) else None
                                         else if net.query.QueryLost? then None
                                         else Some(if net.query.range.NoRange? then -1 else net.query.range.last))
  {
  }

  /** Single and double quotes of any number around the MD5 do not count. */
  lemma EtagRead(a: string, core: string, b: string)
    requires forall c <- a + b :: c in "\"'"
    requires core != "" ==> core[0] !in "\"'" && core[|core| - 1] !in "\"'"
    ensures StripQuotes(a + core + b) == core
  {
    assert forall c <- a :: c in a + b;
    assert forall c <- b :: c in a + b;
    TrimPadded(a, core, b, IsQuote);
  }

  // ---- How long a call sleeps ----------------------------------------------------------

  lemma {:induction false} SleepIsFinal(h: Handler, job: Job, script: seq<Network>, progressless: nat, i: nat)
    requires i < |Send(h, job, script, progressless).sleeps|
    ensures i < |script| && GetsTo(h, job, script, progressless, i + 1)
    ensures Send(h, job, script, progressless).sleeps[i]
            == Pow2(FinalCount(h, job, script[..i + 1], progressless))
    decreases |script|
  {
    SendOnward(h, job, script, progressless);
    var next := Attempt(h, job, script[0]).handler;
    var count := CountAfter(h, next, progressless);
    if i == 0 {
      assert script[..1][1..] == [];
      SendOnward(h, job, script[..1], progressless);
    } else {
      SleepIsFinal(next, job, script[1..], count, i - 1);
      assert script[..i + 1][1..] == script[1..][..i];
      SendOnward(h, job, script[..i + 1], progressless);
    }
  }

  /** Before it tries once more a call sleeps 2 to the number of attempts without progress, in seconds. */
  lemma SleepsBackOff(h: Handler, job: Job, script: seq<Network>, progressless: nat, i: nat)
    requires i < |Send(h, job, script, progressless).sleeps|
    ensures i < |script| && GetsTo(h, job, script, progressless, i + 1)
    ensures Send(h, job, script, progressless).sleeps[i] == Pow2(CountAt(h, job, script, progressless, i + 1))
  {
    SleepIsFinal(h, job, script, progressless, i);
    CountIsFinal(h, job, script, progressless, i + 1);
  }

  /** Each sleep is twice the one before; the first is 2 to the `progressless + 1`. */
  predicate Doubling(sleeps: seq<nat>, progressless: nat) {
    Sum(sleeps) == Pow2(progressless + |sleeps| + 1) - Pow2(progressless + 1)
  }

  lemma OneMoreDoubling(sleeps: seq<nat>, rest: seq<nat>, progressless: nat)
    requires sleeps == [Pow2(progressless + 1)] + rest && Doubling(rest, progressless + 1)
    ensures Doubling(sleeps, progressless)
  {
    assert sleeps[1..] == rest;
  }

  /** When every reported range starts at 0 the sleeps double, and add up to a geometric sum. */
  lemma {:induction false} SleepsDouble(h: Handler, job: Job, script: seq<Network>, progressless: nat)
    requires StartsAtZero(script) && h.serverHasBytes >= 0
    ensures Doubling(Send(h, job, script, progressless).sleeps, progressless)
    decreases |script|
  {
    if script == [] {
    } else {
      NoGrowth(h, job, script);
      SendOnward(h, job, script, progressless);
      if GoesOn(h, job, script, progressless) {
        var s, rest := Send(h, job, script, progressless), Onward(h, job, script, progressless);
        SleepsDouble(Attempt(h, job, script[0]).handler, job, script[1..], progressless + 1);
        OneMoreDoubling(s.sleeps, rest.sleeps, progressless);
      }
    }
  }

  /** What an honest server that holds the whole file of a tracked upload must answer for the call to complete:
      to the query a range that ends at the last byte (or, for an empty file, none), or anything that opens a
      new upload, but not 200; and to the PUT 200 with the file's MD5. */
  lemma WholeFileCompletesIff(h: Handler, job: Job, net: Network)
    requires h.trackerUri.Some? && Honest(job.file, |job.file|, Attempt(h, job, net).log)
    ensures Judge(job, Attempt(h, job, net).outcome) == Completed
            <==> && net.query.QueryStatus? && net.query.status != 200
                 && ((net.query.status == 308
                      && net.query.range == if job.file == [] then NoRange else RangeBytes(0, |job.file| - 1))
                     || (MustStartOver(h, net) && Opens(job, net.post)))
                 && net.put.PutStatus? && net.put.status == 200
                 && net.put.etag.Some? && StripQuotes(net.put.etag.value) == job.md5
  {
    AttemptVerdictIff(h, job, net);
  }

  /** Told in every query that the upload is complete, or told nothing, `send_file` never completes; and told it
      at once, it raises for want of an etag. */
  lemma {:induction false} CompleteUploadRaises(h: Handler, job: Job, script: seq<Network>, progressless: nat)
    requires h.trackerUri.Some?
    requires forall net <- script :: net.query.QueryLost? || net.query.status == 200
    ensures !Send(h, job, script, progressless).verdict.Completed?
    ensures script != [] && script[0].query.QueryStatus? ==>
              Send(h, job, script, progressless).verdict == Raised(NoEtag)
    decreases |script|
  {
    if script == [] {
    } else {
      assert script[0] in script;
      var a := Attempt(h, job, script[0]);
      if a.outcome == Err(Retryable) {
        CompleteUploadRaises(a.handler, job, script[1..], progressless + 1);
      }
    }
  }

  // ---- Progress that is not counted ----------------------------------------------------

  /** Each of the first `n` attempts of the script fails and could be retried. */
  predicate AllAgain(h: Handler, job: Job, script: seq<Network>, n: nat)
    decreases n
  {
    n == 0 || (script != [] && CanRetry(h, job, script[0])
               && AllAgain(Attempt(h, job, script[0]).handler, job, script[1..], n - 1))
  }

  /** All `n` retries are used up exactly when `all` says so, and the call is then given up. */
  predicate UsedUp(s: Sending, n: nat, all: bool) {
    (|s.marks| == n <==> all) && (|s.marks| == n ==> s.verdict == Raised(Abort))
  }

  lemma UsedUpOnward(s: Sending, mark: Mark, rest: Sending, n: nat, all: bool)
    requires s.marks == [mark] + rest.marks && s.verdict == rest.verdict && n > 0 && UsedUp(rest, n - 1, all)
    ensures UsedUp(s, n, all)
  {
  }

  /** When every reported range starts at 0, the retries are used up exactly when `num_retries + 1` attempts
      fail one after the other, whatever the server has gained in them; the call then gives up. */
  lemma {:induction false} GivesUpIff(h: Handler, job: Job, script: seq<Network>, progressless: nat)
    requires StartsAtZero(script) && h.serverHasBytes >= 0 && progressless < AtLeastOne(job.numRetries)
    ensures var n := AtLeastOne(job.numRetries) - progressless;
            UsedUp(Send(h, job, script, progressless), n, AllAgain(h, job, script, n))
    decreases |script|
  {
    if script == [] {
    } else {
      var n := AtLeastOne(job.numRetries) - progressless;
      var s, a := Send(h, job, script, progressless), Attempt(h, job, script[0]);
      NoGrowth(h, job, script);
      CanRetryIff(h, job, script[0]);
      SendOnward(h, job, script, progressless);
      AllAgainOnward(h, job, script, n);
      if GoesOn(h, job, script, progressless) {
        GivesUpIff(a.handler, job, script[1..], progressless + 1);
        UsedUpOnward(s, Mark(h.serverHasBytes, a.handler.serverHasBytes), Onward(h, job, script, progressless), n,
                     AllAgain(a.handler, job, script[1..], n - 1));
      }
    }
  }

  lemma AllAgainOnward(h: Handler, job: Job, script: seq<Network>, n: nat)
    requires script != [] && n > 0
    ensures AllAgain(h, job, script, n)
            <==> CanRetry(h, job, script[0]) && AllAgain(Attempt(h, job, script[0]).handler, job, script[1..], n - 1)
  {
  }

  /** A network on which one more byte reaches the server before the connection breaks. */
  function OneByteMore(held: nat): Network {
    var range := if held == 0 then NoRange else RangeBytes(0, held - 1);
    Network(QueryStatus(308, range), PostLost, SendLost(1), 1)
  }

  function OneByteEach(held: nat, attempts: nat): seq<Network>
    decreases attempts
  {
    if attempts == 0 then [] else [OneByteMore(held)] + OneByteEach(held + 1, attempts - 1)
  }

  lemma OneByteScript(held: nat, attempts: nat)
    requires attempts > 0
    ensures var script := OneByteEach(held, attempts);
            script != [] && script[0] == OneByteMore(held) && script[1..] == OneByteEach(held + 1, attempts - 1)
  {
  }

  lemma OneByteAttempt(h: Handler, job: Job, held: nat)
    requires h.trackerUri.Some? && h.serverHasBytes == 0 && held < |job.file|
    ensures var net, a := OneByteMore(held), Attempt(h, job, OneByteMore(held));
            && a.outcome == Err(Retryable)
            && a.handler.trackerUri.Some? && a.handler.serverHasBytes == 0
            && a.log == [Query(net.query)] + [Put(held, job.file[held..], 1, SendLost(1))]
  {
  }

  lemma OneByteServed(file: Bytes, held: Bytes, query: Event, put: Event)
    requires held <= file && |held| < |file|
    requires query == Query(OneByteMore(|held|).query) && put == Put(|held|, file[|held|..], 1, SendLost(1))
    ensures Honest(held, |file|, [query] + [put]) && Served(held, [query] + [put]) == file[..|held| + 1]
  {
    LogConcat(held, file, [query], [put]);
    LogOne(held, file, query);
    LogOne(held, file, put);
    SuffixServed(held, file, 1, SendLost(1));
  }

  /** The call gives up, and leaves an honest server with `n` bytes. */
  ghost predicate GivesUpHaving(s: Sending, file: Bytes, held: Bytes, n: nat) {
    s.verdict == Raised(Abort) && Honest(held, |file|, s.log) && |Served(held, s.log)| == n
  }

  /** One byte more, and on. */
  lemma GainAndGoOn(s: Sending, first: seq<Event>, rest: Sending, file: Bytes, held: Bytes, more: Bytes, n: nat)
    requires s.verdict == rest.verdict && s.log == first + rest.log
    requires Honest(held, |file|, first) && Served(held, first) == more
    requires GivesUpHaving(rest, file, more, n)
    ensures GivesUpHaving(s, file, held, n)
  {
    LogConcat(held, file, first, rest.log);
  }

  /** One byte more is sent, and the attempt can be retried when there are retries left. */
  lemma GainOne(h: Handler, job: Job, script: seq<Network>, progressless: nat, held: Bytes)
    requires h.trackerUri.Some? && h.serverHasBytes == 0
    requires held <= job.file && |held| < |job.file| && script != [] && script[0] == OneByteMore(|held|)
    ensures var s, a := Send(h, job, script, progressless), Attempt(h, job, script[0]);
            && a.handler.trackerUri.Some? && a.handler.serverHasBytes == 0
            && Honest(held, |job.file|, a.log) && Served(held, a.log) == job.file[..|held| + 1]
            && if progressless + 1 <= job.numRetries then
                 var rest := Send(a.handler, job, script[1..], progressless + 1);
                 s.verdict == rest.verdict && s.log == a.log + rest.log
               else s.verdict == Raised(Abort) && s.log == a.log
  {
    var a := Attempt(h, job, script[0]);
    OneByteAttempt(h, job, |held|);
    OneByteServed(job.file, held, a.log[0], a.log[1]);
    SendOnward(h, job, script, progressless);
  }

  /** Documented as "retry as long as we're making progress": with an honest server that gains a byte in
      every attempt the call still gives up after `num_retries + 1` attempts, because the count is
      reset by the start of the reported range and not by its end. */
  lemma {:induction false} ProgressDoesNotPreventAbort(
      h: Handler, job: Job, script: seq<Network>, progressless: nat, held: Bytes)
    requires 0 <= progressless <= job.numRetries && h.trackerUri.Some? && h.serverHasBytes == 0
    requires held <= job.file && |held| + job.numRetries + 1 - progressless < |job.file|
    requires script == OneByteEach(|held|, job.numRetries + 1 - progressless)
    ensures GivesUpHaving(Send(h, job, script, progressless), job.file, held, |held| + |script|)
    decreases job.numRetries - progressless
  {
    OneByteScript(|held|, job.numRetries + 1 - progressless);
    GainOne(h, job, script, progressless, held);
    var s, a, more := Send(h, job, script, progressless), Attempt(h, job, script[0]), job.file[..|held| + 1];
    if progressless == job.numRetries {
      assert script[1..] == [];
    } else {
      ProgressDoesNotPreventAbort(a.handler, job, script[1..], progressless + 1, more);
      var rest := Send(a.handler, job, script[1..], progressless + 1);
      GainAndGoOn(s, a.log, rest, job.file, held, more, |held| + |script|);
    }
  }
}
