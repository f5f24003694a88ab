# Models of the cloud tools in ec2-wrappers

This project models the stateful and self-contained parts of the EC2 class-account tools and of the
copy of boto they carry, and proves properties of them with Dafny 4.11. Check it with
`dafny verify dfyconfig.toml`.

The components, each in the form its source has:

- **Scheduled tasks** (`TaskSchedule`, `TaskStarvation`, `TaskProtocol`, `TaskSpacing`). `Task.check` is a function,
  the lease loop of `Task._run` a loop over a message object. `poll` and `run` are a state machine: any number of
  workers read a message, load and compare, decide, run the command, write the successor message, put the record and
  delete the old message as separate steps; a worker may crash between any two, and the queue may
  deliver a message to several workers. The clock, the store, the queue and the message ids are part of the state;
  ids are fresh and the store is linearizable.
- **LRU cache** (`RecencyList`, `LruCache`). The dictionary and the hand-linked list are heap objects;
  they refine a bounded recency list, which is proved to hold the most recently used keys over whole runs.
- **Resumable upload** (`UploadProtocol`, `UploadOutcome`, `ProgressCalls`, `ResumableUpload`). The client is a
  function of what the network answers in each attempt; the handler class is proved to do the same. An honest server
  replays the traffic.
- **Google Storage ACLs** (`AclModel`, `AclRoundTrip`, `GsAcl`). Node objects with SAX callbacks and
  printers, and the `XmlHandler` stack, refine a parser on values, at the level of start, text and end events.
- **Shell quoting** (`BashQuote`) against the reading of words and quotes in sections 2.2, 2.2.1 and 2.2.2 of the
  POSIX Shell Command Language (IEEE Std 1003.1). The reader gives no answer for patterns, whose meaning the files
  decide, for operators, expansions, comments and home directories.
- **Signature V2 query strings** (`QuerySignature`) against percent-decoding, section 2.1 of RFC 3986.
- **Snapshot retention** (`Calendar`, `Retention`, `VolumeSnapshots`). Snapshot objects whose `keep` flags the
  loops clear; what is kept is a predicate on dates in a Gregorian calendar.
- **Usage accounting** (`Usage`, `UsageReport`), **key ownership and the spend limit** (`KeyOwnership`,
  `InstanceTypes`, `SpendLimit`) and **storage URIs** (`StorageUri`). `Common` holds the wrappers and `str.strip`,
  `Arithmetic` facts about quotients.

Where the code and its documentation disagree, the model follows the code, and the lemmas say exactly when
the documented behaviour holds:

- A task is never lost only if its `start` completed before polling began (`NeverLostIff`).
- `Task.check` documents the seconds until the next scheduled time. For a daily task that is what it returns exactly
  when the task is due, or on the hour while its own is ahead today or twelve hours away (`DelayIsTimeToScheduleIff`);
  counted in clock hours it is, whatever the minute (`DelayIsHoursToScheduleIff`). Otherwise the task is polled at
  other hours, and whether it is ever found due is decided by at most five deferrals (`DailyTaskFoundDueIff`): always
  from eight o'clock on (`LateTasksNeverStarve`), and never again for a midnight task polled once more in the hour of
  its run (`RunsAgainIff`). An hourly task looks at the elapsed time within a day only (`OverdueHourlyTaskPutOffIff`).
- Saved execution times are whole seconds, so the distance between executions is exact on the stamps and up
  to a second short on the clock, exactly for executions off a whole second (`ClockSpacingIff`,
  `ClockSpacingCanFallShort`). A worker that crashes before the save makes an execution repeat
  (`UnsavedExecutionRepeats`); without such a crash all executions keep their distance (`AllExecutionsApart`),
  counted between loads of the record; the starts do so but for the time from load to start (`StartsApart`).
- An upload is documented to be retried as long as it makes progress; progress is measured by the start of
  the reported range, and while that is 0, as it is for an honest server, the call gives up exactly when
  `num_retries + 1` attempts fail, whatever was gained (`GivesUpIff`, `ProgressDoesNotPreventAbort`).
- An upload that is reported complete raises for want of an etag (`NoEtagIff`, `WholeFileCompletesIff`,
  `CompleteUploadRaises`).
- `num_cb` is documented as the maximum number of callbacks during the file transfer. One unbroken PUT makes up to
  `2 * num_cb - 2` (`CallCountBound`, `CallCountBoundIsMet`, `PutWithinIff`), and every retry makes its own; while
  reported ranges start at 0 the documented maximum holds for a transfer exactly when it holds for
  `num_retries + 1` times the callbacks of one PUT of the whole file (`MaximumDuringTransferIff`).
- `trim_snapshots` documents that the first snapshot of each of the previous seven days is kept; the oldest
  of those days is an exception (`OldestOfWeekKeptIff`, `FirstOfDayCanBeLost`). So is, for the first snapshot of
  a month, one that follows a snapshot from the same month of an earlier year (`FirstOfMonthKeptIff`).
- The launch guard compares the key with the user's name without the dash that separates it; it bounds every
  account's cost exactly when no account's name begins with another's (`EveryoneStaysWithinIff`, `GuardMissesTheDash`).

## Model

| member | source | states |
|---|---|---|
| `TaskSchedule.DueIsSpaced` | ec2-wrappers/boto-src/boto/manage/task.py:86-97 | a task found due was last stamped at least 3600 s (hourly) or 86400 s (daily) before |
| `TaskSchedule.DueInHour` | ec2-wrappers/boto-src/boto/manage/task.py:80-97 | a daily task is due only within its hour |
| `TaskSchedule.NeverRunIsDueIff` | ec2-wrappers/boto-src/boto/manage/task.py:77-84 | a task that has never run is due at any instant, a daily one exactly within its hour |
| `TaskSchedule.FallsDue` | ec2-wrappers/boto-src/boto/manage/task.py:77-99 | every task falls due again at some later time, whatever the clock says now |
| `TaskSchedule.HourlyDelayIsExact` | ec2-wrappers/boto-src/boto/manage/task.py:86-91 | an hourly task is due exactly the returned number of seconds later, and at no whole second before |
| `TaskSchedule.OverdueHourlyTaskPutOffIff` | ec2-wrappers/boto-src/boto/manage/task.py:86-91 | an hourly task more than an hour old is still put off exactly when whole days and less than an hour have passed |
| `TaskSchedule.DelayIsTimeToScheduleIff` | ec2-wrappers/boto-src/boto/manage/task.py:67-99 | for every daily task and instant, the documented seconds until the scheduled time are returned exactly when the task is due, or on the hour when its own is still ahead today or twelve hours away |
| `TaskSchedule.DelayIsHoursToScheduleIff` | ec2-wrappers/boto-src/boto/manage/task.py:67-99 | the same rounded to the hour: the delay is the number of clock hours to the scheduled one exactly when the hour is still ahead today, is twelve hours past, or is now and the task is a day old |
| `TaskSchedule.ClockSpacingIff` | ec2-wrappers/boto-src/boto/manage/task.py:86-97 | a task that runs and is saved is not found due for a whole period by the clock, exactly when it ran on a whole second (or outside its hour, where a daily task never runs) |
| `TaskStarvation.DailyTaskFoundDueIff` | ec2-wrappers/boto-src/boto/manage/task.py:92-99 | polled punctually for ever, a daily task is at some poll found due exactly when at most five deferrals bring the clock to its hour and, for a midnight task, a day or more after its last run |
| `TaskStarvation.LateTasksNeverStarve` | ec2-wrappers/boto-src/boto/manage/task.py:92-99 | from whatever instant and last run, a task of eight o'clock or later is found due at some poll |
| `TaskStarvation.RunsAgainIff` | ec2-wrappers/boto-src/boto/manage/task.py:92-97 | polled in its hour within a day of its last run, a daily task is found due again exactly when its hour is not midnight |
| `TaskStarvation.DailyTaskCanStarve` | ec2-wrappers/boto-src/boto/manage/task.py:98-99 | from a clock hour whose walk does not come to the hour, no poll ever finds the task due |
| `TaskSchedule.HoldLease` | ec2-wrappers/boto-src/boto/manage/task.py:106-116 | the lease after every wake-up of the loop, and that it covers every sleep when vtimeout is at least 3 |
| `TaskSchedule.TimeoutIs` | ec2-wrappers/boto-src/boto/manage/task.py:110-114 | after k wake-ups the timeout is vtimeout times k+1, or for a vtimeout above 5 times the whole vtimeouts passed and one |
| `TaskSchedule.LeaseIs` | ec2-wrappers/boto-src/boto/manage/task.py:110-115 | the lease reaches that timeout, counted from five seconds before the wake-up that last extended it |
| `TaskSchedule.LeaseNeverExpiresIff` | ec2-wrappers/boto-src/boto/manage/task.py:106-116 | for commands of every length, the visibility lease never expires exactly when vtimeout is at least 3 seconds |
| `TaskProtocol.HandoverStep` | ec2-wrappers/boto-src/boto/manage/task.py:125-140 | every step of every worker keeps the saved message in the queue and every unsaved successor unclaimed |
| `TaskProtocol.NeverLostIff` | ec2-wrappers/boto-src/boto/manage/task.py:157-169 | over all interleavings, crashes and duplicate deliveries the message with the saved id stays in the queue, exactly when the task was started before polling or has no message at all |
| `TaskProtocol.AtMostOneCritical` | ec2-wrappers/boto-src/boto/manage/task.py:125-137 | under exclusive delivery at most one worker is between the id check and the save of a started task |
| `TaskProtocol.ExclusionIff` | ec2-wrappers/boto-src/boto/manage/task.py:157-165 | over all exclusive runs no two workers are in that section at once, exactly when polling begins with an id saved for the task or with no message of it queued |
| `TaskProtocol.DuplicateDeliveryOverlaps` | ec2-wrappers/boto-src/boto/manage/task.py:157-165 | without exclusive delivery every started task has a run in which two workers run its command at once |
| `TaskSpacing.ExecutionsOnSchedule` | ec2-wrappers/boto-src/boto/manage/task.py:121-134 | over every exclusive run, each execution lies a period after every saved earlier one on the stamps, by the clock at most a second less and nothing less after a whole second; a daily task runs within its hour |
| `TaskSpacing.AllExecutionsApart` | ec2-wrappers/boto-src/boto/manage/task.py:121-134 | over every exclusive run in which no worker crashes between starting the command and saving it, any two executions lie a period apart, from load to load of the record |
| `TaskSpacing.StartsApart` | ec2-wrappers/boto-src/boto/manage/task.py:125-134 | in those runs any two commands start a period apart less the time the earlier one took from load to start, and less than a second |
| `TaskSpacing.StartCanWait` | ec2-wrappers/boto-src/boto/manage/task.py:125-129 | every started task has an exclusive run in which the time from load to start is any given one |
| `TaskSpacing.UnsavedExecutionRepeats` | ec2-wrappers/boto-src/boto/manage/task.py:128-134 | a crash before the save lets a command run again at once, even under exclusive delivery |
| `TaskSpacing.ClockSpacingCanFallShort` | ec2-wrappers/boto-src/boto/sdb/db/manager/sdbmanager.py:250-253 | every started task has an exclusive run without crashes in which it is executed, saved, and executed again less than a period later by the clock |
| `RecencyList.CacheHoldsMostRecent` | ec2-wrappers/boto-src/boto/utils.py:378-407 | over every run the cache holds exactly the most recently used keys, most recent first, with their last stored values, within capacity |
| `LruCache.LRUCache.constructor` | ec2-wrappers/boto-src/boto/utils.py:425-429 | a new cache is empty |
| `LruCache.LRUCache.Contains` | ec2-wrappers/boto-src/boto/utils.py:431-432 | membership is membership in the recency list |
| `LruCache.LRUCache.Len` | ec2-wrappers/boto-src/boto/utils.py:440-441 | the size is that of the list and within capacity |
| `LruCache.LRUCache.Iter` | ec2-wrappers/boto-src/boto/utils.py:434-438 | following `next` from `head` lists the keys once each, most recent first |
| `LruCache.LRUCache.GetItem` | ec2-wrappers/boto-src/boto/utils.py:443-446 | a hit returns the value and moves the key to the front, a miss changes nothing; links and index stay consistent |
| `LruCache.LRUCache.SetItem` | ec2-wrappers/boto-src/boto/utils.py:448-457 | the key comes first with the new value, the least recently used is dropped when full |
| `LruCache.LRUCache.InsertItem` | ec2-wrappers/boto-src/boto/utils.py:462-470 | linking in front keeps the list, its mirror and its ends, then evicts |
| `LruCache.LRUCache.ManageSize` | ec2-wrappers/boto-src/boto/utils.py:472-479 | evicts from the tail down to the capacity, keeping links and index |
| `LruCache.LRUCache.UpdateItem` | ec2-wrappers/boto-src/boto/utils.py:481-494 | moves any item of the list to the front, keeping links, index and the order of the others |
| `LruCache.Drive` | ec2-wrappers/boto-src/boto/utils.py:443-457 | every run of gets and sets leaves the linked structure equal to the recency list of that run |
| `UploadProtocol.UploadIsRight` | ec2-wrappers/boto-src/boto/gs/resumable_upload_handler.py:369-411 | with an honest server and an unchanged file, over any drops, resumes and restarts: the server holds a prefix, each PUT carries exactly the missing suffix, a 200 means the server has the file, and the call completes only then |
| `UploadProtocol.AttemptIsRight` | ec2-wrappers/boto-src/boto/gs/resumable_upload_handler.py:369-411 | the same for one attempt |
| `UploadOutcome.AttemptVerdictIff` | ec2-wrappers/boto-src/boto/gs/resumable_upload_handler.py:344-424 | what one attempt comes to, told from the replies alone: to be retried, complete, no etag, given up or a bad URI, exactly one of these |
| `UploadOutcome.AttemptFields` | ec2-wrappers/boto-src/boto/gs/resumable_upload_handler.py:369-399 | from the replies alone, the session, `server_has_bytes` and start point that an attempt leaves |
| `UploadOutcome.NoEtagIff` | ec2-wrappers/boto-src/boto/gs/resumable_upload_handler.py:392-424 | over every script, a call raises for want of an etag exactly when an attempt it gets to is told that the tracked upload is complete, or has its PUT answered 200 without an etag |
| `UploadOutcome.CompletedIff` | ec2-wrappers/boto-src/boto/gs/resumable_upload_handler.py:483-498 | over every script, a call completes exactly when an attempt it gets to has its PUT, resumed or restarted, answered 200 with the md5 of the file |
| `UploadOutcome.AbortIff` | ec2-wrappers/boto-src/boto/gs/resumable_upload_handler.py:483-526 | over every script, a call is given up exactly when an attempt it gets to is refused (Content-Length header, unwritable tracker file, offset past the end, a PUT answered with a status other than 200 and 503 or with another md5), or fails with the retries run out |
| `UploadOutcome.GetsToIff` | ec2-wrappers/boto-src/boto/gs/resumable_upload_handler.py:500-526 | a call tries once more exactly when nothing final was answered and the count of attempts since `server_has_bytes` grew is within num_retries |
| `UploadOutcome.EtagRead` | ec2-wrappers/boto-src/boto/gs/resumable_upload_handler.py:415-424 | quotes of any number around the md5 in an etag do not count |
| `UploadOutcome.SleepsBackOff` | ec2-wrappers/boto-src/boto/gs/resumable_upload_handler.py:521-526 | before each further attempt a call sleeps 2 to that count, in seconds |
| `UploadOutcome.SleepsDouble` | ec2-wrappers/boto-src/boto/gs/resumable_upload_handler.py:521-526 | while reported ranges start at 0 the sleeps add up to exactly the geometric sum |
| `UploadOutcome.WholeFileCompletesIff` | ec2-wrappers/boto-src/boto/gs/resumable_upload_handler.py:392-424 | what an honest server that holds the whole file must answer for the call to complete: not 200 to the query, and 200 with the md5 to the PUT of nothing or of a new upload |
| `UploadOutcome.CompleteUploadRaises` | ec2-wrappers/boto-src/boto/gs/resumable_upload_handler.py:392-424 | told only that the upload is complete, or nothing, a call never completes, and raises for want of an etag when told at once |
| `UploadProtocol.StretchesAreShort` | ec2-wrappers/boto-src/boto/gs/resumable_upload_handler.py:483-526 | failed attempts in a row without growth of `server_has_bytes` number at most num_retries+1 |
| `UploadProtocol.ZeroRangesBoundTheCall` | ec2-wrappers/boto-src/boto/gs/resumable_upload_handler.py:483-526 | when every reported range starts at 0 the whole call has at most num_retries+1 failures and sleeps at most 2^(num_retries+1)-2 s |
| `UploadOutcome.GivesUpIff` | ec2-wrappers/boto-src/boto/gs/resumable_upload_handler.py:508-519 | when every reported range starts at 0, the retries are used up, and the call aborts, exactly when nothing final is answered in the first num_retries+1 attempts, whatever the server gained |
| `UploadOutcome.ProgressDoesNotPreventAbort` | ec2-wrappers/boto-src/boto/gs/resumable_upload_handler.py:508-519 | a witness: an upload to an honest server that gains a byte in every attempt is still given up after num_retries+1 attempts |
| `ResumableUpload.ResumableUploadHandler.constructor` | ec2-wrappers/boto-src/boto/gs/resumable_upload_handler.py:80-88 | the initial fields |
| `ResumableUpload.ResumableUploadHandler.StartNewResumableUpload` | ec2-wrappers/boto-src/boto/gs/resumable_upload_handler.py:239-275 | fields, failure and request of starting an upload, for every answer |
| `ResumableUpload.ResumableUploadHandler.SendBuffers` | ec2-wrappers/boto-src/boto/gs/resumable_upload_handler.py:321-331 | sends a prefix, the whole rest when unbroken, with exactly the specified progress reports |
| `ResumableUpload.ResumableUploadHandler.UploadFileBytes` | ec2-wrappers/boto-src/boto/gs/resumable_upload_handler.py:287-358 | one PUT: outcome for every answer (pinned by `AttemptVerdictIff`), bytes sent, and the specified progress reports |
| `ResumableUpload.ResumableUploadHandler.AttemptResumableUpload` | ec2-wrappers/boto-src/boto/gs/resumable_upload_handler.py:369-413 | fields, outcome and traffic of an attempt are those of the protocol; its PUT sends the logged body, or a beginning when broken off, and makes the specified reports |
| `ResumableUpload.ResumableUploadHandler.SendFile` | ec2-wrappers/boto-src/boto/gs/resumable_upload_handler.py:468-526 | num_retries is set once, and the call does what the protocol says over every network script |
| `ResumableUpload.ResumableUploadHandler.Retry` | ec2-wrappers/boto-src/boto/gs/resumable_upload_handler.py:483-526 | the retry loop does what the protocol says over every network script, and makes exactly the counted number of callbacks |
| `ProgressCalls.PutReportsProgress` | ec2-wrappers/boto-src/boto/gs/resumable_upload_handler.py:288-334 | the reports of a PUT begin at its offset, tell one whole interval of buffers after the other, never more than was sent, end with all of it unless the PUT breaks, and are as many as counted |
| `ProgressCalls.FewOrAll` | ec2-wrappers/boto-src/boto/gs/resumable_upload_handler.py:288-294 | for num_cb 0 to 2 there are the first and the last report only, for a negative one also one after each buffer |
| `ProgressCalls.CallCountBound` | ec2-wrappers/boto-src/boto/gs/resumable_upload_handler.py:288-331 | for num_cb > 2 one PUT makes at most 2*num_cb-2 callbacks |
| `ProgressCalls.CallCountBoundIsMet` | ec2-wrappers/boto-src/boto/gs/resumable_upload_handler.py:288-331 | for every num_cb > 2 some file length reaches that number in one PUT |
| `ProgressCalls.PutWithinIff` | ec2-wrappers/boto-src/boto/gs/resumable_upload_handler.py:288-331 | for every num_cb from 0 on, file length and resume offset, exactly when one unbroken PUT makes at most num_cb callbacks |
| `ProgressCalls.WholeFilePutWithinIff` | ec2-wrappers/boto-src/boto/gs/resumable_upload_handler.py:288-331 | the same for one PUT of a whole file, in terms of the buffers left over from equal intervals |
| `ProgressCalls.SendCallsBound` | ec2-wrappers/boto-src/boto/gs/resumable_upload_handler.py:477-526 | while reported ranges start at 0, a call makes at most num_retries+1 times the callbacks of one PUT of the whole file |
| `ProgressCalls.SendCallsBoundIsMet` | ec2-wrappers/boto-src/boto/gs/resumable_upload_handler.py:477-526 | a network that loses the answer to each PUT makes it exactly that many |
| `ProgressCalls.MaximumDuringTransferIff` | ec2-wrappers/boto-src/boto/gs/resumable_upload_handler.py:459-464 | for a new handler and every network that reports ranges from 0, the documented maximum of num_cb callbacks during the file transfer holds exactly when num_retries+1 times the callbacks of one whole PUT are at most num_cb, or nothing can be sent |
| `AclRoundTrip.PrintedAclParses` | ec2-wrappers/boto-src/boto/gs/acl.py:91-276 | parsing what is printed gives the normal form and leaves only the root on the stack, or raises for an unsupported permission, for every printable ACL |
| `AclRoundTrip.RoundTripIff` | ec2-wrappers/boto-src/boto/gs/acl.py:91-276 | owner and entries come back the same, in order, exactly for the well-formed ACLs |
| `AclRoundTrip.UserParsed` | ec2-wrappers/boto-src/boto/gs/user.py:34-54 | the printed owner is rebuilt, without its type |
| `AclRoundTrip.ScopeParsed` | ec2-wrappers/boto-src/boto/gs/acl.py:238-276 | every scope type is rebuilt from its printed elements |
| `AclRoundTrip.EntryParsed` | ec2-wrappers/boto-src/boto/gs/acl.py:170-198 | a printed entry is appended, or its permission refused |
| `AclRoundTrip.PermissionRead` | ec2-wrappers/boto-src/boto/gs/acl.py:185-189 | the text READ, WRITE or FULL_CONTROL with any blanks around it is stored as that name, and every other text raises |
| `AclRoundTrip.FieldRead` | ec2-wrappers/boto-src/boto/gs/acl.py:244-255 | the text of a scope element is stored without the blanks around it |
| `AclRoundTrip.ScopeElementsIff` | ec2-wrappers/boto-src/boto/gs/acl.py:204-212 | inside a scope an element can begin exactly when scopes of its type are printed with it |
| `AclRoundTrip.ScopeNeedsType` | ec2-wrappers/boto-src/boto/gs/acl.py:171-178 | a scope without a type, or with an unknown one, raises |
| `AclRoundTrip.UnknownIsIgnored` | ec2-wrappers/boto-src/boto/gs/acl.py:91-107 | outside a scope, elements of other names leave owner, entries and scopes as they are |
| `AclRoundTrip.UnsetIdReadsNone` | ec2-wrappers/boto-src/boto/gs/acl.py:257-276 | an id that is not set is printed, and comes back, as None |
| `AclRoundTrip.OwnersPrintAlikeIff` | ec2-wrappers/boto-src/boto/gs/user.py:45-54 | two owners print alike exactly when id, name and type agree |
| `AclRoundTrip.OwnerNamePrintedIff` | ec2-wrappers/boto-src/boto/gs/user.py:45-54 | the name of an owner is printed exactly when it is not empty |
| `AclRoundTrip.PiecesDoNotMatter` | ec2-wrappers/boto-src/boto/handler.py:43-44 | text delivered in any pieces gives the same result |
| `GsAcl.XmlHandler.StartElement` | ec2-wrappers/boto-src/boto/handler.py:31-35 | the heap and the stack follow the parser on values for every start tag |
| `GsAcl.XmlHandler.EndElement` | ec2-wrappers/boto-src/boto/handler.py:37-41 | the same for every end tag |
| `GsAcl.XmlHandler.Characters` | ec2-wrappers/boto-src/boto/handler.py:43-44 | text is accumulated |
| `GsAcl.XmlHandler.StartAtRoot` | ec2-wrappers/boto-src/boto/gs/acl.py:91-99 | an Owner or Entries element replaces the ACL's own and is pushed |
| `GsAcl.XmlHandler.StartAtEntries` | ec2-wrappers/boto-src/boto/gs/acl.py:135-141 | an Entry element is appended and pushed, the earlier entries unchanged |
| `GsAcl.XmlHandler.StartAtEntry` | ec2-wrappers/boto-src/boto/gs/acl.py:170-180 | a Scope element needs a known type and replaces the entry's scope |
| `GsAcl.XmlHandler.StartAtScope` | ec2-wrappers/boto-src/boto/gs/acl.py:238-242 | inside a scope only the elements of its type are allowed, and nothing changes |
| `GsAcl.XmlHandler.Feed` | ec2-wrappers/boto-src/boto/handler.py:26-44 | a whole document leaves the tree and stack the parser on values says |
| `GsAcl.User.EndElement` | ec2-wrappers/boto-src/boto/gs/user.py:37-43 | name and id are set from their elements |
| `GsAcl.User.ToXml` | ec2-wrappers/boto-src/boto/gs/user.py:45-54 | the printed owner events |
| `GsAcl.Scope.EndElement` | ec2-wrappers/boto-src/boto/gs/acl.py:244-255 | each field is set, trimmed, from its element |
| `GsAcl.Scope.ToXml` | ec2-wrappers/boto-src/boto/gs/acl.py:257-276 | the printed scope events, by type |
| `GsAcl.Entry.SetPermission` | ec2-wrappers/boto-src/boto/gs/acl.py:185-189 | READ, WRITE and FULL_CONTROL, blanks around them removed, are stored; every other text raises and changes nothing |
| `GsAcl.Entry.ToXml` | ec2-wrappers/boto-src/boto/gs/acl.py:193-198 | the printed entry events |
| `GsAcl.Entries.ToXml` | ec2-wrappers/boto-src/boto/gs/acl.py:149-154 | the loop prints all entries in order |
| `GsAcl.Acl.ToXml` | ec2-wrappers/boto-src/boto/gs/acl.py:109-118 | the printed ACL events, owner and entries optional |
| `GsAcl.ParsePrinted` | ec2-wrappers/boto-src/boto/handler.py:26-44 | on the heap, a well-formed ACL comes back whole with only the root on the stack |
| `GsAcl.PrintAndParse` | ec2-wrappers/boto-src/boto/gs/acl.py:109-118 | printing an ACL object and parsing it gives a new one of the same value |
| `BashQuote.BuildEnvString` | ec2-wrappers/hadoop/cloud/util.py:37-46 | the string is the quoted parts joined by blanks; a second `=` raises |
| `BashQuote.DropLastJoins` | ec2-wrappers/hadoop/cloud/util.py:37-46 | the string is the parts with one blank between any two |
| `BashQuote.BuildRaisesIff` | ec2-wrappers/hadoop/cloud/util.py:30-46 | building raises exactly when an environment string has a second `=` |
| `BashQuote.EnvStringReadsBack` | ec2-wrappers/hadoop/cloud/util.py:24-46 | the shell reads the string as exactly the given assignments, in order, for arbitrary values |
| `BashQuote.AssignmentReadsBack` | ec2-wrappers/hadoop/cloud/util.py:24-28 | a quoted value after a plain name reads back as one word, whatever follows |
| `BashQuote.EnvReadsBack` | ec2-wrappers/hadoop/cloud/util.py:30-35 | an environment string reads back as itself |
| `BashQuote.UnquotedReadsBackIff` | ec2-wrappers/hadoop/cloud/util.py:30-33 | a string passed through unquoted, if it is no pattern, reads back exactly when it is not empty, has none of the characters that section 2.2 wants quoted, and begins with neither # nor ~ |
| `QuerySignature.CalcQueryString` | ec2-wrappers/boto-src/boto/auth.py:261-277 | the query string of the parameters with the signature method added, decoding to them |
| `QuerySignature.WritePairs` | ec2-wrappers/boto-src/boto/auth.py:272-276 | one quoted pair for each key, in order |
| `QuerySignature.UnquoteQuote` | ec2-wrappers/boto-src/boto/auth.py:275-276 | percent-decoding undoes quoting for every byte string |
| `QuerySignature.QuotedIsWellQuoted` | ec2-wrappers/boto-src/boto/auth.py:275-276 | quoted text is made of letters, digits, `-`, `.`, `_` (and `~` in a value) and percent signs with two upper-case hexadecimal digits |
| `QuerySignature.PlainIsUnchanged` | ec2-wrappers/boto-src/boto/auth.py:275-276 | a text is left unchanged exactly when it has plain bytes only |
| `QuerySignature.QuoteIsOnlySuch` | ec2-wrappers/boto-src/boto/auth.py:275-276 | the quoted text is the only well-quoted one that decodes to the text and escapes no plain byte |
| `QuerySignature.PairIsQuoted` | ec2-wrappers/boto-src/boto/auth.py:273-276 | a pair is the quoted key, in which `~` is escaped, `=`, and the quoted value, in which it is not |
| `QuerySignature.LeqIff` | ec2-wrappers/boto-src/boto/auth.py:271 | keys are sorted by their bytes, a beginning first |
| `QuerySignature.SignedNamesMethod` | ec2-wrappers/boto-src/boto/auth.py:263-269 | the signature method is added, or replaced, and every other parameter kept |
| `QuerySignature.QueryStringIsFaithful` | ec2-wrappers/boto-src/boto/auth.py:270-277 | splitting and decoding the query string recovers the parameter map, its keys in byte order |
| `QuerySignature.OrderDoesNotMatter` | ec2-wrappers/boto-src/boto/auth.py:270-271 | the dictionary's order does not change the query string |
| `QuerySignature.SameQueryIff` | ec2-wrappers/boto-src/boto/auth.py:270-277 | two parameter maps have the same query string exactly when they are equal |
| `Calendar.SameDayOfMonth` | ec2-wrappers/boto-src/boto/manage/volume.py:361-366 | within four weeks the same day of the month is the same day, so comparing days of the month is enough |
| `Calendar.DayNumberOf` | ec2-wrappers/boto-src/boto/manage/volume.py:361-392 | the dates are those of the Gregorian calendar, by the closed formula for the number of a day |
| `Calendar.WeekdaysPass` | ec2-wrappers/boto-src/boto/manage/volume.py:369-372 | weekdays count from Monday, 1 January 1970 being a Thursday |
| `Retention.TodayIsKept` | ec2-wrappers/boto-src/boto/manage/volume.py:339-369 | nothing of the current day is dropped, a snapshot at midnight included |
| `Retention.FirstOfDayIsKept` | ec2-wrappers/boto-src/boto/manage/volume.py:354-366 | the first snapshot of each day of the previous week is kept, other than of its oldest day |
| `Retention.KeptIsFirstOfDay` | ec2-wrappers/boto-src/boto/manage/volume.py:356-366 | of one day of the previous week nothing but the first snapshot is kept |
| `Retention.DayKeptIff` | ec2-wrappers/boto-src/boto/manage/volume.py:356-366 | of each of its days but the oldest exactly the first snapshot is kept |
| `Retention.KeptIsFirstOfPartialWeek` | ec2-wrappers/boto-src/boto/manage/volume.py:373-377 | of the partial week nothing but the first snapshot is kept |
| `Retention.KeptIsFirstOfWindow` | ec2-wrappers/boto-src/boto/manage/volume.py:378-384 | of each of the four weekly windows nothing but the first snapshot is kept |
| `Retention.BoundaryIsMonday` | ec2-wrappers/boto-src/boto/manage/volume.py:367-372 | the windows begin on Mondays |
| `Retention.OldestOfWeekKeptIff` | ec2-wrappers/boto-src/boto/manage/volume.py:367-384 | exactly when the oldest snapshot of the previous week is kept |
| `Retention.FirstOfDayCanBeLost` | ec2-wrappers/boto-src/boto/manage/volume.py:373-377 | the only snapshot of the oldest day of the week can be dropped |
| `Retention.EarliestOfPartialWeekKeptIff` | ec2-wrappers/boto-src/boto/manage/volume.py:366-383 | the earliest snapshot of the partial week is kept, except exactly when it lies on the Monday and the one before it in the week before |
| `Retention.EarliestOfWindowKeptIff` | ec2-wrappers/boto-src/boto/manage/volume.py:378-392 | the earliest snapshot of each weekly window is kept, except exactly in the stated case on its lower edge |
| `Retention.MonthlyKeptIff` | ec2-wrappers/boto-src/boto/manage/volume.py:385-392 | older snapshots are kept exactly when the one before is from another month of the year |
| `Retention.FirstOfMonthKeptIff` | ec2-wrappers/boto-src/boto/manage/volume.py:385-392 | the documented rule, the first snapshot of each month and year is kept, holds for an older snapshot exactly unless the one before it is from the same month of an earlier year; what is kept is always such a first |
| `VolumeSnapshots.GetSnapshotRange` | ec2-wrappers/boto-src/boto/manage/volume.py:317-331 | the snapshots in the range, as one slice of the sorted list |
| `VolumeSnapshots.KeepFirstOfDays` | ec2-wrappers/boto-src/boto/manage/volume.py:354-369 | clears exactly the repeats of a day in the previous week |
| `VolumeSnapshots.KeepFirst` | ec2-wrappers/boto-src/boto/manage/volume.py:374-383 | clears exactly the snapshots of a window after its first |
| `VolumeSnapshots.KeepFirstOfMonths` | ec2-wrappers/boto-src/boto/manage/volume.py:386-392 | clears exactly the repeats of a month in the remainder |
| `VolumeSnapshots.KeepFirstOfWeeks` | ec2-wrappers/boto-src/boto/manage/volume.py:367-392 | the partial week, the four weeks and the months together |
| `VolumeSnapshots.TrimSnapshots` | ec2-wrappers/boto-src/boto/manage/volume.py:346-398 | the oldest and newest stay, the others are kept as the retention predicate says, and exactly the rest is deleted |
| `Usage.Database.UpdateInstances` | ec2-wrappers/record_usage.py:92-142 | the table after a poll, and the poll that fails because a stopped instance is running again |
| `Usage.RecordAllConcat` | ec2-wrappers/record_usage.py:92-142 | polls compose: two in a row leave the table that their sightings in one history would |
| `Usage.EndTimeOfHistory` | ec2-wrappers/record_usage.py:103-135 | for every history, a row's end is open exactly while the instance was last seen alive, and else the time it last turned terminated; the rest of the row is that sighting's |
| `Usage.EndTimeIsFirstTermination` | ec2-wrappers/record_usage.py:103-135 | when the instance never leaves terminated, the end time is that of the first poll that saw it terminated, null before |
| `Usage.EndedRowIsFrozen` | ec2-wrappers/record_usage.py:114-121 | later polls never change a row that has ended |
| `UsageReport.BilledWithinAnHour` | ec2-wrappers/record_usage.py:54-71 | a duration is billed above itself by at most an hour, strictly so for every non-negative one |
| `UsageReport.SpotIsCheaper` | ec2-wrappers/record_usage.py:202-204 | a spot line costs seven tenths of the same line on demand |
| `UsageReport.HourOnDemand` | ec2-wrappers/record_usage.py:175-205 | the dollars that an hour on demand costs, for every type in the table |
| `UsageReport.RowCostWithinAnHour` | ec2-wrappers/record_usage.py:50-76 | a row costs its hourly rate for its time, and at most one hour more |
| `UsageReport.RequestIsSpotHour` | ec2-wrappers/record_usage.py:243-259 | a pending request costs one hour of its type at the spot rate |
| `UsageReport.GroupingKeepsTotal` | ec2-wrappers/record_usage.py:225-242 | the total over groups is the total over rows, for any prices additive in hours and any grouping order |
| `UsageReport.ViewsCostTheRows` | ec2-wrappers/record_usage.py:50-76 | the two views have one line for each row and together cost what the rows cost |
| `UsageReport.GroupsExist` | ec2-wrappers/record_usage.py:225-242 | every list of lines has the groups that the report is given |
| `UsageReport.ReportSet` | ec2-wrappers/record_usage.py:198-217 | the sum of rate times hours, or KeyError for a type without a price |
| `UsageReport.UserReport` | ec2-wrappers/record_usage.py:219-259 | the report total is the sum over rows of rate times billed hours plus one spot hour for each pending request |
| `StorageUri.ReparseIff` | ec2-wrappers/boto-src/boto/__init__.py:446-482 | reparsing what is printed gives the same parts exactly when there is a bucket or no object, or it is a file |
| `StorageUri.PrintIsStable` | ec2-wrappers/boto-src/boto/__init__.py:446-482 | what is printed is accepted again and prints the same |
| `StorageUri.PrintedForm` | ec2-wrappers/boto-src/boto/storage_uri.py:175-184 | scheme, bucket, slash and object; the slash stays without an object, and an object without bucket is dropped |
| `StorageUri.PrintedParses` | ec2-wrappers/boto-src/boto/storage_uri.py:175-184 | what a printed URI parses to, for every accepted one |
| `StorageUri.DefaultScheme` | ec2-wrappers/boto-src/boto/__init__.py:447-464 | a URI without a colon means what it means with the default scheme before it |
| `StorageUri.LoneColonIsRefused` | ec2-wrappers/boto-src/boto/__init__.py:447-452 | a colon without // is refused |
| `StorageUri.SchemesIff` | ec2-wrappers/boto-src/boto/__init__.py:455-464 | exactly file, s3 and gs are accepted, in any case |
| `StorageUri.BucketAndName` | ec2-wrappers/boto-src/boto/__init__.py:466-482 | the first slash separates bucket and object |
| `StorageUri.ValidNameIff` | ec2-wrappers/boto-src/boto/__init__.py:468-473 | validation accepts exactly the bucket names of 3 to 255 permitted characters with a dot in any 64 in a row |
| `KeyOwnership.KeyMapsToOwner` | ec2-wrappers/record_usage.py:79-83 | a key that starts with an account name and a dash maps back to that account |
| `KeyOwnership.OneOwner` | ec2-wrappers/record_usage.py:79-83 | no key belongs to two accounts |
| `KeyOwnership.SharedPrefixIff` | ec2-wrappers/subaccounts.py:238-240 | some key of an account passes the guard for another account exactly when the other's name begins its own |
| `SpendLimit.SshKeys.CreateSshKey` | ec2-wrappers/subaccounts.py:158-177 | for every user name, the new key is named after its user and no other row changes; an account takes no row from another account |
| `SpendLimit.SanitizedOne` | ec2-wrappers/subaccounts.py:159 | sanitizing keeps letters, digits, - and _ and drops every other character |
| `SpendLimit.FullNameIff` | ec2-wrappers/subaccounts.py:158-163 | the sanitized name is the key or follows the user and a dash; different ones give different keys |
| `SpendLimit.Cloud.RunningInstances` | ec2-wrappers/subaccounts.py:204-213 | the user's instances that are not terminated, in order |
| `SpendLimit.RunningIsLive` | ec2-wrappers/subaccounts.py:204-213 | exactly the instances that are not terminated and whose key begins with the user and a dash are listed, each once, in the cloud's order |
| `SpendLimit.Cloud.CostInstances` | ec2-wrappers/subaccounts.py:222-224 | the sum of their prices, or KeyError |
| `SpendLimit.Cloud.RunInstances` | ec2-wrappers/subaccounts.py:229-274 | a launch is accepted or refused as the guard says, and only an accepted one changes the cloud |
| `SpendLimit.LaunchIff` | ec2-wrappers/subaccounts.py:229-243 | when a launch is accepted, and which refusal comes first |
| `SpendLimit.TerminatingCredits` | ec2-wrappers/subaccounts.py:204-224 | terminating a live instance lowers its user's cost by exactly its price, and changes nobody else's |
| `SpendLimit.StepWithin` | ec2-wrappers/subaccounts.py:229-243 | a step keeps a user's cost within the limit and another user's launch does not change it |
| `SpendLimit.EveryoneStaysWithinIff` | ec2-wrappers/subaccounts.py:229-243 | over every run of launches with any keys the guard lets through, and terminations, every account stays within the limit, exactly when no account's name begins with another's |
| `SpendLimit.OwnKeysStayWithin` | ec2-wrappers/subaccounts.py:229-243 | with their own keys all accounts stay within the limit whatever their names |
| `SpendLimit.LaunchCharges` | ec2-wrappers/subaccounts.py:238-243 | an accepted launch is charged to exactly the users whose key it carries and leaves the launching user within the limit |
| `SpendLimit.GuardMissesTheDash` | ec2-wrappers/subaccounts.py:238-240 | every account whose name begins another's can push that one over the limit in two launches |

## Left out

- HTTP, sockets, HMAC digests, SQLite, subprocesses and SSH are parameters (replies, scripts, times) or not modelled; the md5 and etag of an upload are strings that are compared.
- `Task.start` and `start_all` are the initial state; message retention limits and the maximum visibility timeout of the queue are not modelled.
- Task.last_status, last_output and logging play no part in the protocol.
- Negative capacities of `LRUCache`, for which the first store raises, and the `dict` methods it inherits.
- The bytes of one attempt that are still under way when the next begins; the tracker file is a flag of the POST answer.
- XML as text: escaping, attributes other than `type`, and the extra attributes that `setattr` adds for unknown elements; elements named like Python fields would overwrite them.
- The placeholder that `Entries.startElement` leaves as the scope of a new entry is a null scope; printing an entry whose scope was never read is not modelled.
- Shell expansions, patterns, operators, comments and double quotes: the reader gives no answer for them; reserved words and aliases are not modelled.
- Sorting of keys is an insertion sort; `keys.sort()` is not modelled beyond its result.
- `get_snapshots` (filtering and sorting) is the sorted list that trimming starts from; times are whole seconds in one time zone.
- Stop times are never subtracted from billed hours, because the statement that would close a stop is malformed and raises; the `instance_stopped` table is the set of instances with an open stop.
- `update_spot_requests`, the text of the reports, and floating-point rounding of money, which is exact here.
- Spot requests in the launch guard: open requests are not counted in the running cost, so the limit is proved for on-demand launches.
- `storage_uri` on non-ASCII schemes, and the methods of `StorageUri` that talk to a provider.
- Request builders, paging, redirects, IAM and JSON trees, command-line scripts and configuration files would only add field copying.
