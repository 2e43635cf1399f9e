/** What the review loop guarantees, file by file and over a whole run. */
module Pipeline {
  import opened Effects
  import opened Records
  import opened Utils
  import opened RawUrl
  import opened Comments
  import opened CommentShapes
  import opened Review

  /** Events that only fetch: GETs and one-second retry pauses. */
  predicate FetchOnly(events: seq<Event>) {
    forall e :: e in events ==> e.Get? || e == Wait(RetryDelayMs)
  }

  lemma FetchIsFetchOnly(url: string, attempt: Attempts)
    ensures FetchOnly(Fetch(url, GetFileMaxRetries, attempt).log)
  {
    FetchLogEvents(url, GetFileMaxRetries, attempt);
  }

  /** Fetch activity posts no comment and takes no thirty-second pause. */
  lemma {:induction false} FetchOnlyHasNoComment(events: seq<Event>)
    requires FetchOnly(events)
    ensures Sent(events) == [] && Occurrences(events, Wait(WaitTimeAfterEachFile)) == 0
  {
    if events != [] {
      FetchOnlyHasNoComment(events[..|events| - 1]);
      assert events[|events| - 1] in events;
    }
  }

  /** The screenshot and its upload: a hosted image comes back exactly when
      both services answer 200, and its URL is then the image host's body.
      The bytes uploaded are the screenshot service's body, and a failure is
      that of the first call that failed, with nothing after it. */
  lemma CaptureAndUploadOutcome(url: string, w: FileWorld)
    ensures var c := CaptureAndUpload(url, w);
      && (c.imageUrl.Ok? <==> w.screenshot.Answer? && w.screenshot.status == StatusOk
                              && w.upload.Answer? && w.upload.status == StatusOk)
      && (c.imageUrl.Ok? ==> c.imageUrl.value == w.upload.body)
      && (Succeeds(w.screenshot) ==> c.events == [Capture(url), Upload(w.screenshot.body)])
      && (!Succeeds(w.screenshot) ==>
            c.events == [Capture(url)] && c.imageUrl == Err(CaptureFailed(Accept(w.screenshot).error)))
      && (Succeeds(w.screenshot) && !Succeeds(w.upload) ==>
            c.imageUrl == Err(UploadFailed(Accept(w.upload).error)))
  {
  }

  /** Screenshot and upload post nothing and take no pause. */
  lemma CapturePostsNothing(url: string, w: FileWorld)
    ensures Sent(CaptureAndUpload(url, w).events) == []
    ensures Wait(WaitTimeAfterEachFile) !in CaptureAndUpload(url, w).events
  {
  }

  /** Fetching and capturing followed by one comment posts that comment only. */
  lemma OnePostAtTheEnd(before: seq<Event>, body: string)
    requires Sent(before) == []
    ensures Sent(before + [Post(body)]) == [body]
  {
  }

  // ----- one file -----

  /** A file is skipped exactly when it is a content change or an addition
      whose record has neither `CNAME` nor `URL`; a skipped file has only
      been fetched: no screenshot, upload, main-branch fetch or comment. */
  lemma SkipIffNoTarget(file: ChangedFile, prOwner: string, w: FileWorld)
    ensures var step := ProcessFile(file, prOwner, w);
      var current := Fetch(file.rawUrl, GetFileMaxRetries, w.current);
      && (step.outcome.Skipped? <==>
            Route(file.status) != Deletion && current.result.Ok? && TargetUrl(current.result.value.record).None?)
      && (step.outcome.Skipped? ==> step.events == current.log && FetchOnly(step.events))
  {
    FetchIsFetchOnly(file.rawUrl, w.current);
  }

  /** A deleted file is never skipped. When its comment is posted, exactly one
      thirty-second pause follows it and ends the file's events. */
  lemma DeletionPaces(file: ChangedFile, prOwner: string, w: FileWorld)
    requires Route(file.status) == Deletion
    ensures var step := ProcessFile(file, prOwner, w);
      && !step.outcome.Skipped?
      && (step.outcome.Commented? ==>
            && |step.events| >= 2
            && step.events[|step.events| - 1] == Wait(WaitTimeAfterEachFile)
            && step.events[|step.events| - 2].Post?
            && Occurrences(step.events, Wait(WaitTimeAfterEachFile)) == 1
            && |Sent(step.events)| == 1)
  {
    var previous := Fetch(MainUrl(file.rawUrl), GetFileMaxRetries, w.previous);
    FetchIsFetchOnly(MainUrl(file.rawUrl), w.previous);
    FetchOnlyHasNoComment(previous.log);
    var step := ProcessFile(file, prOwner, w);
    if step.outcome.Commented? {
      var tail := [Post(Sent(step.events)[0]), Wait(WaitTimeAfterEachFile)];
      var body := Render(DeletedComment(file, previous.result.value.owner, prOwner,
                                        Authorized(previous.result.value.owner, prOwner)));
      var tailOf := [Post(body), Wait(WaitTimeAfterEachFile)];
      assert step.events == previous.log + tailOf;
      OccurrencesAppend(previous.log, tailOf, Wait(WaitTimeAfterEachFile));
      SentAppend(previous.log, tailOf);
      assert tailOf[..1] == [Post(body)] && tailOf[..1][..0] == [];
      assert Sent(tailOf) == [body];
      assert Occurrences(tailOf, Wait(WaitTimeAfterEachFile)) == 1;
    }
  }

  /** A content change or an addition is never followed by the pause, and
      when its comment is posted, the comment is its last event. */
  lemma NoPacingAfterReview(file: ChangedFile, prOwner: string, w: FileWorld)
    requires Route(file.status) != Deletion
    ensures var step := ProcessFile(file, prOwner, w);
      && Wait(WaitTimeAfterEachFile) !in step.events
      && (step.outcome.Commented? ==> |step.events| > 0 && step.events[|step.events| - 1].Post?)
  {
    FetchIsFetchOnly(file.rawUrl, w.current);
    FetchIsFetchOnly(MainUrl(file.rawUrl), w.previous);
  }

  /** A completed content change acts in the order of index.js:34-91: the
      record is fetched at the commit, its target is captured, the captured
      bytes are uploaded, the main-branch copy is fetched, and the comment is
      posted last. */
  lemma ContentChangeOrder(file: ChangedFile, prOwner: string, w: FileWorld)
    requires Route(file.status) == ContentChange
    ensures var step := ProcessFile(file, prOwner, w);
      step.outcome.Commented? ==>
        var current := Fetch(file.rawUrl, GetFileMaxRetries, w.current);
        var previous := Fetch(MainUrl(file.rawUrl), GetFileMaxRetries, w.previous);
        && current.result.Ok? && previous.result.Ok?
        && TargetUrl(current.result.value.record).Some?
        && Succeeds(w.screenshot) && Succeeds(w.upload)
        && var content := current.result.value;
           var url := TargetUrl(content.record).value;
           var oldFileOwner := previous.result.value.owner;
           step.events == current.log + [Capture(url), Upload(w.screenshot.body)] + previous.log
                          + [Post(Render(ContentChangeComment(
                               file, url, OrNotAvailable(content.description), OrNotAvailable(content.repo),
                               oldFileOwner, content.owner, prOwner, oldFileOwner == prOwner, w.upload.body)))]
  {
  }

  /** A completed addition acts in the order of index.js:94-131: the record
      is fetched, its target is captured, the captured bytes are uploaded,
      and the comment is posted last; the main branch is never consulted. */
  lemma AdditionOrder(file: ChangedFile, prOwner: string, w: FileWorld)
    requires Route(file.status) == Addition
    ensures var step := ProcessFile(file, prOwner, w);
      step.outcome.Commented? ==>
        var current := Fetch(file.rawUrl, GetFileMaxRetries, w.current);
        && current.result.Ok?
        && TargetUrl(current.result.value.record).Some?
        && Succeeds(w.screenshot) && Succeeds(w.upload)
        && var content := current.result.value;
           var url := TargetUrl(content.record).value;
           step.events == current.log + [Capture(url), Upload(w.screenshot.body)]
                          + [Post(Render(AddedComment(
                               file, url, OrNotAvailable(content.description), OrNotAvailable(content.repo),
                               w.upload.body)))]
  {
  }

  /** Once the screenshot is hosted, a content change posts one comment:
      the rendering of the content-change comment whose verdict is the exact,
      case-sensitive comparison of the main-branch owner with the PR author. */
  lemma CommentOnChangePostsOnce(file: ChangedFile, prOwner: string, w: FileWorld,
                                 content: FileContent, url: string, image: string)
    ensures var rest := CommentOnChange(file, prOwner, w, content, url, image);
      var previous := Fetch(MainUrl(file.rawUrl), GetFileMaxRetries, w.previous);
      rest.outcome.Commented? ==>
        var oldFileOwner := previous.result.value.owner;
        Sent(rest.events) == [Render(ContentChangeComment(
          file, url, OrNotAvailable(content.description), OrNotAvailable(content.repo),
          oldFileOwner, content.owner, prOwner, oldFileOwner == prOwner, image))]
  {
    var rest := CommentOnChange(file, prOwner, w, content, url, image);
    var previous := Fetch(MainUrl(file.rawUrl), GetFileMaxRetries, w.previous);
    if rest.outcome.Commented? {
      FetchIsFetchOnly(MainUrl(file.rawUrl), w.previous);
      FetchOnlyHasNoComment(previous.log);
      OnePostAtTheEnd(previous.log, rest.events[|rest.events| - 1].body);
    }
  }

  lemma ContentChangePostsOnce(file: ChangedFile, prOwner: string, w: FileWorld)
    ensures var step := ContentChangeStep(file, prOwner, w);
      step.outcome.Commented? ==>
        var content := Fetch(file.rawUrl, GetFileMaxRetries, w.current).result.value;
        var url := TargetUrl(content.record).value;
        var rest := CommentOnChange(file, prOwner, w, content, url, CaptureAndUpload(url, w).imageUrl.value);
        Sent(step.events) == Sent(rest.events) && rest.outcome.Commented?
  {
    var step := ContentChangeStep(file, prOwner, w);
    if step.outcome.Commented? {
      var current := Fetch(file.rawUrl, GetFileMaxRetries, w.current);
      var content := current.result.value;
      var url := TargetUrl(content.record).value;
      var captured := CaptureAndUpload(url, w);
      var rest := CommentOnChange(file, prOwner, w, content, url, captured.imageUrl.value);
      FetchIsFetchOnly(file.rawUrl, w.current);
      FetchOnlyHasNoComment(current.log);
      CapturePostsNothing(url, w);
      assert step.events == current.log + captured.events + rest.events;
      SentAppend(current.log, captured.events);
      SentAppend(current.log + captured.events, rest.events);
    }
  }

  /** An addition that completes posts exactly one comment, the rendering of
      the added-file comment for the record's target. */
  lemma AdditionPostsOnce(file: ChangedFile, w: FileWorld)
    ensures var step := AdditionStep(file, w);
      step.outcome.Commented? ==>
        var content := Fetch(file.rawUrl, GetFileMaxRetries, w.current).result.value;
        var url := TargetUrl(content.record).value;
        Sent(step.events) == [Render(AddedComment(
          file, url, OrNotAvailable(content.description), OrNotAvailable(content.repo),
          CaptureAndUpload(url, w).imageUrl.value))]
  {
    var step := AdditionStep(file, w);
    if step.outcome.Commented? {
      var current := Fetch(file.rawUrl, GetFileMaxRetries, w.current);
      var url := TargetUrl(current.result.value.record).value;
      var captured := CaptureAndUpload(url, w);
      FetchIsFetchOnly(file.rawUrl, w.current);
      FetchOnlyHasNoComment(current.log);
      CapturePostsNothing(url, w);
      SentAppend(current.log, captured.events);
      var body := step.events[|step.events| - 1].body;
      OnePostAtTheEnd(current.log + captured.events, body);
    }
  }

  /** Every file posts exactly one comment when it completes and none when
      it is skipped. */
  lemma OneCommentPerFile(file: ChangedFile, prOwner: string, w: FileWorld)
    ensures var step := ProcessFile(file, prOwner, w);
      && (step.outcome.Commented? ==> |Sent(step.events)| == 1)
      && (step.outcome.Skipped? ==> Sent(step.events) == [])
  {
    FetchIsFetchOnly(file.rawUrl, w.current);
    FetchOnlyHasNoComment(Fetch(file.rawUrl, GetFileMaxRetries, w.current).log);
    match Route(file.status)
    case ContentChange =>
      ContentChangePostsOnce(file, prOwner, w);
      if ProcessFile(file, prOwner, w).outcome.Commented? {
        var content := Fetch(file.rawUrl, GetFileMaxRetries, w.current).result.value;
        var url := TargetUrl(content.record).value;
        CommentOnChangePostsOnce(file, prOwner, w, content, url, CaptureAndUpload(url, w).imageUrl.value);
      }
    case Addition => AdditionPostsOnce(file, w);
    case Deletion => DeletionPaces(file, prOwner, w);
  }

  /** The comment a completed content change posts carries the ownership
      section and exactly one verdict, approving iff the main-branch owner
      equals the PR author, character for character. */
  lemma ContentChangeVerdict(file: ChangedFile, prOwner: string, w: FileWorld)
    requires Route(file.status) == ContentChange
    ensures var step := ProcessFile(file, prOwner, w);
      step.outcome.Commented? ==>
        var content := Fetch(file.rawUrl, GetFileMaxRetries, w.current).result.value;
        var oldFileOwner := Fetch(MainUrl(file.rawUrl), GetFileMaxRetries, w.previous).result.value.owner;
        var url := TargetUrl(content.record).value;
        var lines := ContentChangeComment(
          file, url, OrNotAvailable(content.description), OrNotAvailable(content.repo),
          oldFileOwner, content.owner, prOwner, oldFileOwner == prOwner, CaptureAndUpload(url, w).imageUrl.value);
        && Sent(step.events) == [Render(lines)]
        && AuthorizationHeading in lines
        && ContentUrlPrefix + url in lines
        && CountPrefixed(lines, MarkerPrefix) == 1
        && MarkerPrefix + Marker(oldFileOwner == prOwner) in lines
        && MarkerPrefix + Marker(oldFileOwner != prOwner) !in lines
        && (NoBreaks([file.filename, file.blobUrl, url, OrNotAvailable(content.description),
                      OrNotAvailable(content.repo), oldFileOwner, content.owner, prOwner,
                      CaptureAndUpload(url, w).imageUrl.value]) ==>
              Lines(Sent(step.events)[0]) == lines && '\r' !in Sent(step.events)[0])
  {
    if ProcessFile(file, prOwner, w).outcome.Commented? {
      ContentChangePostsOnce(file, prOwner, w);
      var content := Fetch(file.rawUrl, GetFileMaxRetries, w.current).result.value;
      var oldFileOwner := Fetch(MainUrl(file.rawUrl), GetFileMaxRetries, w.previous).result.value.owner;
      var url := TargetUrl(content.record).value;
      var image := CaptureAndUpload(url, w).imageUrl.value;
      CommentOnChangePostsOnce(file, prOwner, w, content, url, image);
      ContentChangeCommentShape(file, url, OrNotAvailable(content.description), OrNotAvailable(content.repo),
                                oldFileOwner, content.owner, prOwner, oldFileOwner == prOwner, image);
    }
  }

  /** The comment a completed addition posts shows the target and the
      screenshot and has no ownership section. */
  lemma AdditionHasNoVerdict(file: ChangedFile, prOwner: string, w: FileWorld)
    requires Route(file.status) == Addition
    ensures var step := ProcessFile(file, prOwner, w);
      step.outcome.Commented? ==>
        var content := Fetch(file.rawUrl, GetFileMaxRetries, w.current).result.value;
        var url := TargetUrl(content.record).value;
        var lines := AddedComment(file, url, OrNotAvailable(content.description), OrNotAvailable(content.repo),
                                  CaptureAndUpload(url, w).imageUrl.value);
        && Sent(step.events) == [Render(lines)]
        && AuthorizationHeading !in lines
        && CountPrefixed(lines, MarkerPrefix) == 0
        && ContentUrlPrefix + url in lines
        && ScreenshotHeading in lines
        && (NoBreaks([file.filename, file.blobUrl, url, OrNotAvailable(content.description),
                      OrNotAvailable(content.repo), CaptureAndUpload(url, w).imageUrl.value]) ==>
              Lines(Sent(step.events)[0]) == lines && '\r' !in Sent(step.events)[0])
  {
    if ProcessFile(file, prOwner, w).outcome.Commented? {
      AdditionPostsOnce(file, w);
      var content := Fetch(file.rawUrl, GetFileMaxRetries, w.current).result.value;
      var url := TargetUrl(content.record).value;
      AddedCommentShape(file, url, OrNotAvailable(content.description), OrNotAvailable(content.repo),
                        CaptureAndUpload(url, w).imageUrl.value);
    }
  }

  /** The comment a completed deletion posts names the main-branch owner,
      carries exactly one verdict and no screenshot. */
  lemma DeletionVerdict(file: ChangedFile, prOwner: string, w: FileWorld)
    requires Route(file.status) == Deletion
    ensures var step := ProcessFile(file, prOwner, w);
      step.outcome.Commented? ==>
        var fileOwner := Fetch(MainUrl(file.rawUrl), GetFileMaxRetries, w.previous).result.value.owner;
        var lines := DeletedComment(file, fileOwner, prOwner, fileOwner == prOwner);
        && Sent(step.events) == [Render(lines)]
        && ScreenshotHeading !in lines
        && CountPrefixed(lines, MarkerPrefix) == 1
        && MarkerPrefix + Marker(fileOwner == prOwner) in lines
        && MarkerPrefix + Marker(fileOwner != prOwner) !in lines
        && (NoBreaks([file.filename, file.blobUrl, fileOwner, prOwner]) ==>
              Lines(Sent(step.events)[0]) == lines && '\r' !in Sent(step.events)[0])
  {
    var step := ProcessFile(file, prOwner, w);
    if step.outcome.Commented? {
      var previous := Fetch(MainUrl(file.rawUrl), GetFileMaxRetries, w.previous);
      var fileOwner := previous.result.value.owner;
      var body := Render(DeletedComment(file, fileOwner, prOwner, fileOwner == prOwner));
      FetchIsFetchOnly(MainUrl(file.rawUrl), w.previous);
      FetchOnlyHasNoComment(previous.log);
      assert step.events == (previous.log + [Post(body)]) + [Wait(WaitTimeAfterEachFile)];
      OnePostAtTheEnd(previous.log, body);
      SentAppend(previous.log + [Post(body)], [Wait(WaitTimeAfterEachFile)]);
      assert [Wait(WaitTimeAfterEachFile)][..0] == [];
      DeletedCommentShape(file, fileOwner, prOwner, fileOwner == prOwner);
    }
  }

  /** Ownership is compared exactly: a file owned by "Alice" on the main
      branch, deleted by "alice", is reported as unauthorized. */
  lemma OwnerCaseMatters(file: ChangedFile, w: FileWorld, content: FileContent)
    requires Route(file.status) == Deletion
    requires Fetch(MainUrl(file.rawUrl), GetFileMaxRetries, w.previous).result == Ok(content)
    requires content.owner == "Alice"
    requires w.posted
    ensures var step := ProcessFile(file, "alice", w);
      && step.outcome == Commented
      && Sent(step.events) == [Render(DeletedComment(file, "Alice", "alice", false))]
      && MarkerPrefix + Rejected in DeletedComment(file, "Alice", "alice", false)
      && MarkerPrefix + Approved !in DeletedComment(file, "Alice", "alice", false)
  {
    assert "Alice"[0] != "alice"[0];
    DeletionVerdict(file, "alice", w);
  }

  // ----- a whole run -----

  /** A run completes exactly when none of its steps fails. */
  lemma {:induction false} CompletedIffNoFailure(steps: seq<FileStep>, n: nat)
    requires n <= |steps|
    ensures Run(steps, n).outcome == Completed <==> forall j :: 0 <= j < n ==> !steps[j].outcome.Failed?
  {
    if n > 0 {
      CompletedIffNoFailure(steps, n - 1);
    }
  }

  /** A run that aborts stops at its first failing file: every earlier file
      was done, and the failing file's events are the last in the log. */
  lemma {:induction false} AbortStopsAtFailure(steps: seq<FileStep>, n: nat)
    requires n <= |steps|
    requires Run(steps, n).outcome.Aborted?
    ensures var k := Run(steps, n).outcome.at;
      && k < n
      && steps[k].outcome == Failed(Run(steps, n).outcome.error)
      && Run(steps, k).outcome == Completed
      && Run(steps, n).log == Run(steps, k).log + steps[k].events
  {
    if Run(steps, n - 1).outcome.Aborted? {
      AbortStopsAtFailure(steps, n - 1);
    }
  }

  /** The log only grows: a comment posted for an earlier file is never
      withdrawn, and later files only add comments after it. */
  lemma {:induction false} LogGrows(steps: seq<FileStep>, n: nat, m: nat)
    requires n <= m <= |steps|
    ensures Run(steps, n).log <= Run(steps, m).log
    ensures Sent(Run(steps, n).log) <= Sent(Run(steps, m).log)
  {
    if m > n {
      LogGrows(steps, n, m - 1);
    }
    var a := Run(steps, n).log;
    var b := Run(steps, m).log;
    assert b == a + b[|a|..];
    SentAppend(a, b[|a|..]);
  }

  /** Number of the first `n` files the review deletes. */
  function Deletions(files: seq<ChangedFile>, n: nat): (d: nat)
    requires n <= |files|
    ensures d <= n
  {
    if n == 0 then 0
    else Deletions(files, n - 1) + (if Route(files[n - 1].status) == Deletion then 1 else 0)
  }

  /** `Deletions` counts exactly the positions of the deleted files. */
  lemma {:induction false} DeletionsCountsPositions(files: seq<ChangedFile>, n: nat)
    requires n <= |files|
    ensures Deletions(files, n) == |set i | 0 <= i < n && Route(files[i].status) == Deletion|
  {
    if n > 0 {
      DeletionsCountsPositions(files, n - 1);
      var before := set i | 0 <= i < n - 1 && Route(files[i].status) == Deletion;
      var now := set i | 0 <= i < n && Route(files[i].status) == Deletion;
      if Route(files[n - 1].status) == Deletion {
        assert now == before + {n - 1};
      } else {
        assert now == before;
      }
    }
  }

  /** A content change or addition whose record names no target. */
  predicate WithoutTarget(file: ChangedFile, w: FileWorld) {
    var current := Fetch(file.rawUrl, GetFileMaxRetries, w.current);
    Route(file.status) != Deletion && current.result.Ok? && TargetUrl(current.result.value.record).None?
  }

  function CountWithoutTarget(files: seq<ChangedFile>, net: nat -> FileWorld, n: nat): (c: nat)
    requires n <= |files|
    ensures c <= n
  {
    if n == 0 then 0
    else CountWithoutTarget(files, net, n - 1) + (if WithoutTarget(files[n - 1], net(n - 1)) then 1 else 0)
  }

  /** A file that does not fail posts one comment unless it is skipped for
      lack of a target. */
  lemma CommentUnlessWithoutTarget(file: ChangedFile, prOwner: string, w: FileWorld)
    ensures var step := ProcessFile(file, prOwner, w);
      !step.outcome.Failed? ==> |Sent(step.events)| == (if WithoutTarget(file, w) then 0 else 1)
  {
    OneCommentPerFile(file, prOwner, w);
    SkipIffNoTarget(file, prOwner, w);
  }

  /** Extending a range by one position adds that position to the set of
      positions where `p` holds exactly when `p` holds there. */
  lemma PositionsSnoc(p: nat -> bool, n: nat)
    requires n > 0
    ensures |set i: nat | i < n && p(i)| == |set i: nat | i < n - 1 && p(i)| + (if p(n - 1) then 1 else 0)
  {
    var before := set i: nat | i < n - 1 && p(i);
    var now := set i: nat | i < n && p(i);
    if p(n - 1) {
      assert now == before + {n - 1};
    } else {
      assert now == before;
    }
  }

  /** `CountWithoutTarget` counts exactly the positions of the files without
      a target. */
  lemma {:induction false} CountWithoutTargetCountsPositions(files: seq<ChangedFile>, net: nat -> FileWorld, n: nat)
    requires n <= |files|
    ensures CountWithoutTarget(files, net, n) == |set i: nat | i < n && WithoutTarget(files[i], net(i))|
  {
    if n > 0 {
      CountWithoutTargetCountsPositions(files, net, n - 1);
      var p := (i: nat) => i < |files| && WithoutTarget(files[i], net(i));
      PositionsSnoc(p, n);
      forall i: nat | i < n
        ensures p(i) == WithoutTarget(files[i], net(i))
      {
      }
      assert (set i: nat | i < n && WithoutTarget(files[i], net(i))) == (set i: nat | i < n && p(i));
      assert (set i: nat | i < n - 1 && WithoutTarget(files[i], net(i))) == (set i: nat | i < n - 1 && p(i));
    }
  }

  /** In a completed review the thirty-second pause is taken once per
      deleted file and never otherwise. */
  lemma {:induction false} PacingMatchesDeletions(files: seq<ChangedFile>, prOwner: string,
                                                  net: nat -> FileWorld, n: nat)
    requires n <= |files|
    requires RunUpTo(files, prOwner, net, n).outcome == Completed
    ensures Occurrences(RunUpTo(files, prOwner, net, n).log, Wait(WaitTimeAfterEachFile)) == Deletions(files, n)
  {
    if n > 0 {
      var steps := Steps(files, prOwner, net);
      assert Run(steps, n - 1).outcome == Completed;
      PacingMatchesDeletions(files, prOwner, net, n - 1);
      var step := steps[n - 1];
      assert step == ProcessFile(files[n - 1], prOwner, net(n - 1));
      OccurrencesAppend(Run(steps, n - 1).log, step.events, Wait(WaitTimeAfterEachFile));
      if Route(files[n - 1].status) == Deletion {
        DeletionPaces(files[n - 1], prOwner, net(n - 1));
      } else {
        NoPacingAfterReview(files[n - 1], prOwner, net(n - 1));
      }
    }
  }

  /** A completed review posts one comment for every file except the
      content changes and additions whose record names no target. */
  lemma {:induction false} CommentPerReviewedFile(files: seq<ChangedFile>, prOwner: string,
                                                  net: nat -> FileWorld, n: nat)
    requires n <= |files|
    requires RunUpTo(files, prOwner, net, n).outcome == Completed
    ensures |Sent(RunUpTo(files, prOwner, net, n).log)| == n - CountWithoutTarget(files, net, n)
  {
    if n > 0 {
      var steps := Steps(files, prOwner, net);
      assert Run(steps, n - 1).outcome == Completed;
      CommentPerReviewedFile(files, prOwner, net, n - 1);
      var step := steps[n - 1];
      assert step == ProcessFile(files[n - 1], prOwner, net(n - 1));
      SentAppend(Run(steps, n - 1).log, step.events);
      CommentUnlessWithoutTarget(files[n - 1], prOwner, net(n - 1));
    }
  }
}
