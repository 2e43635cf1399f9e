/** The pull-request review loop (index.js:27-164). For each changed file, in
    list order, the file is routed by its status, its record is fetched, a
    screenshot of its target is taken and uploaded, ownership is checked
    against the main branch, and one comment is posted. Any failure aborts
    the run; a file without a target is skipped. */
module Review {
  import opened Effects
  import opened Records
  import opened Utils
  import opened RawUrl
  import opened Comments

  /** Pause after each deletion comment (index.js:4, 162). */
  const WaitTimeAfterEachFile := 30000

  /** The three arms of the status test (index.js:28-32, 92, 132). */
  datatype Branch = ContentChange | Addition | Deletion

  /** "modified", "renamed" and "changed" are content changes, "added" is an
      addition, and every other status, known or not, falls into the
      deletion arm. The comparison is exact. */
  function Route(status: string): (b: Branch)
    ensures b == ContentChange <==> status == "modified" || status == "renamed" || status == "changed"
    ensures b == Addition <==> status == "added"
    ensures b == Deletion <==> status !in {"modified", "renamed", "changed", "added"}
  {
    if status == "modified" || status == "renamed" || status == "changed" then ContentChange
    else if status == "added" then Addition
    else Deletion
  }

  /** The ownership verdict: the owner on the main branch is the author of
      the pull request, compared with `===` (index.js:61-64, 140-143). */
  function Authorized(oldFileOwner: string, prOwner: string): bool {
    oldFileOwner == prOwner
  }

  /** How the services answer the requests made for one file. */
  datatype FileWorld = FileWorld(
    current: Attempts,        // fetches of the file at the pull request's commit
    previous: Attempts,       // fetches of the file on the main branch
    screenshot: Reply<Bytes>, // the screenshot service
    upload: Reply<string>,    // the image host; the body is the hosted image URL
    posted: bool)             // whether GitHub accepts the comment

  /** The exceptions that end a run. */
  datatype Error =
    | Retrieval(cause: FetchError)
    | CaptureFailed(failure: Failure)
    | UploadFailed(failure: Failure)
    | PostFailed

  datatype FileOutcome = Commented | Skipped | Failed(error: Error)

  /** The events one file causes and how its processing ends. */
  datatype FileStep = FileStep(events: seq<Event>, outcome: FileOutcome)

  /** The screenshot and its upload (index.js:45-49, 107-111): what the
      screenshot service returns for the target is what goes to the image
      host, and the hosted image's URL comes back. Either call may throw. */
  datatype Captured = Captured(events: seq<Event>, imageUrl: Result<string, Error>)

  function CaptureAndUpload(url: string, w: FileWorld): Captured {
    var screenshot := Accept(w.screenshot);
    if screenshot.Err? then Captured([Capture(url)], Err(CaptureFailed(screenshot.error)))
    else
      var imbb := Accept(w.upload);
      Captured([Capture(url), Upload(screenshot.value)],
               if imbb.Err? then Err(UploadFailed(imbb.error)) else Ok(imbb.value))
  }

  /** index.js:50-91: once the screenshot is hosted, the main-branch copy is
      fetched for its owner and the comment is posted. */
  function CommentOnChange(file: ChangedFile, prOwner: string, w: FileWorld,
                                content: FileContent, url: string, imageUrl: string): FileStep {
    var previous := Fetch(MainUrl(file.rawUrl), GetFileMaxRetries, w.previous);
    if previous.result.Err? then FileStep(previous.log, Failed(Retrieval(previous.result.error)))
    else
      var oldFileOwner := previous.result.value.owner;
      var body := Render(ContentChangeComment(
        file, url, OrNotAvailable(content.description), OrNotAvailable(content.repo),
        oldFileOwner, content.owner, prOwner, Authorized(oldFileOwner, prOwner), imageUrl));
      FileStep(previous.log + [Post(body)], if w.posted then Commented else Failed(PostFailed))
  }

  /** index.js:33-91. */
  function ContentChangeStep(file: ChangedFile, prOwner: string, w: FileWorld): FileStep {
    var current := Fetch(file.rawUrl, GetFileMaxRetries, w.current);
    if current.result.Err? then FileStep(current.log, Failed(Retrieval(current.result.error)))
    else
      var content := current.result.value;
      match TargetUrl(content.record)
      case None => FileStep(current.log, Skipped)
      case Some(url) =>
        var captured := CaptureAndUpload(url, w);
        if captured.imageUrl.Err? then FileStep(current.log + captured.events, Failed(captured.imageUrl.error))
        else
          var rest := CommentOnChange(file, prOwner, w, content, url, captured.imageUrl.value);
          FileStep(current.log + captured.events + rest.events, rest.outcome)
  }

  /** index.js:93-131. */
  function AdditionStep(file: ChangedFile, w: FileWorld): FileStep {
    var current := Fetch(file.rawUrl, GetFileMaxRetries, w.current);
    if current.result.Err? then FileStep(current.log, Failed(Retrieval(current.result.error)))
    else
      var content := current.result.value;
      match TargetUrl(content.record)
      case None => FileStep(current.log, Skipped)
      case Some(url) =>
        var captured := CaptureAndUpload(url, w);
        if captured.imageUrl.Err? then FileStep(current.log + captured.events, Failed(captured.imageUrl.error))
        else
          var body := Render(AddedComment(
            file, url, OrNotAvailable(content.description), OrNotAvailable(content.repo), captured.imageUrl.value));
          FileStep(current.log + captured.events + [Post(body)], if w.posted then Commented else Failed(PostFailed))
  }

  /** index.js:133-162. */
  function DeletionStep(file: ChangedFile, prOwner: string, w: FileWorld): FileStep {
    var previous := Fetch(MainUrl(file.rawUrl), GetFileMaxRetries, w.previous);
    if previous.result.Err? then FileStep(previous.log, Failed(Retrieval(previous.result.error)))
    else
      var oldFileOwner := previous.result.value.owner;
      var body := Render(DeletedComment(file, oldFileOwner, prOwner, Authorized(oldFileOwner, prOwner)));
      if w.posted then FileStep(previous.log + [Post(body), Wait(WaitTimeAfterEachFile)], Commented)
      else FileStep(previous.log + [Post(body)], Failed(PostFailed))
  }

  /** What reviewing one file does. */
  function ProcessFile(file: ChangedFile, prOwner: string, w: FileWorld): FileStep {
    match Route(file.status)
    case ContentChange => ContentChangeStep(file, prOwner, w)
    case Addition => AdditionStep(file, w)
    case Deletion => DeletionStep(file, prOwner, w)
  }

  datatype RunOutcome = Completed | Aborted(at: nat, error: Error)

  datatype RunState = RunState(log: seq<Event>, outcome: RunOutcome)

  /** The step of each file, `net(i)` answering for the i-th. */
  function Steps(files: seq<ChangedFile>, prOwner: string, net: nat -> FileWorld): (steps: seq<FileStep>)
    ensures |steps| == |files|
  {
    seq(|files|, i requires 0 <= i < |files| => ProcessFile(files[i], prOwner, net(i)))
  }

  /** The run made of the first `n` steps: steps are taken in order, their
      events appended to the log, until one fails. */
  function Run(steps: seq<FileStep>, n: nat): RunState
    requires n <= |steps|
  {
    if n == 0 then RunState([], Completed)
    else
      var before := Run(steps, n - 1);
      if before.outcome.Aborted? then before
      else
        var step := steps[n - 1];
        RunState(before.log + step.events,
                 if step.outcome.Failed? then Aborted(n - 1, step.outcome.error) else Completed)
  }

  /** The review of the first `n` changed files. */
  function RunUpTo(files: seq<ChangedFile>, prOwner: string, net: nat -> FileWorld, n: nat): RunState
    requires n <= |files|
  {
    Run(Steps(files, prOwner, net), n)
  }

  /** Once a run has aborted, the steps after the failing one change
      nothing: no later file is fetched, captured or commented on. */
  lemma {:induction false} AbortIsFinal(steps: seq<FileStep>, n: nat, m: nat)
    requires n <= m <= |steps|
    requires Run(steps, n).outcome.Aborted?
    ensures Run(steps, m) == Run(steps, n)
  {
    if m > n {
      AbortIsFinal(steps, n, m - 1);
    }
  }

  /** index.js:45-49 and 107-111: `screenshotUrl`, then `uploadImageToImgbb`
      of the screenshot, then `imbb.data.url`. */
  method ScreenshotAndUpload(url: string, w: FileWorld) returns (imageUrl: Result<string, Error>, events: seq<Event>)
    ensures Captured(events, imageUrl) == CaptureAndUpload(url, w)
  {
    events := [Capture(url)];
    var screenshot := Accept(w.screenshot);
    if screenshot.Err? {
      return Err(CaptureFailed(screenshot.error)), events;
    }
    events := events + [Upload(screenshot.value)];
    var imbb := Accept(w.upload);
    if imbb.Err? {
      return Err(UploadFailed(imbb.error)), events;
    }
    imageUrl := Ok(imbb.value);
  }

  /** index.js:33-91, the body of the loop for a content change. Returning
      `Skipped` is the source's `continue`; returning `Failed` is a throw. */
  method ReviewContentChange(file: ChangedFile, prOwner: string, w: FileWorld)
    returns (outcome: FileOutcome, events: seq<Event>)
    ensures FileStep(events, outcome) == ContentChangeStep(file, prOwner, w)
  {
    var fileContent, fetchLog := GetRawFileContent(file.rawUrl, GetFileMaxRetries, w.current);
    events := fetchLog;
    if fileContent.Err? {
      return Failed(Retrieval(fileContent.error)), events;
    }
    var record := fileContent.value.record;
    var url: string;
    if record.cname.Some? {
      url := "http://" + record.cname.value;
    } else if record.url.Some? {
      url := record.url.value;
    } else {
      return Skipped, events;
    }
    var imbb, captureLog := ScreenshotAndUpload(url, w);
    events := events + captureLog;
    if imbb.Err? {
      return Failed(imbb.error), events;
    }
    var imageUrl := imbb.value;
    var description := OrNotAvailable(fileContent.value.description);
    var repository := OrNotAvailable(fileContent.value.repo);
    var oldRawFileUrl := MainUrl(file.rawUrl);
    var oldFile, oldLog := GetRawFileContent(oldRawFileUrl, GetFileMaxRetries, w.previous);
    ghost var rest := CommentOnChange(file, prOwner, w, fileContent.value, url, imageUrl);
    events := events + oldLog;
    if oldFile.Err? {
      return Failed(Retrieval(oldFile.error)), events;
    }
    var newFileOwner := fileContent.value.owner;
    var oldFileOwner := oldFile.value.owner;
    var authorized := false;
    if oldFileOwner == prOwner {
      authorized := true;
    }
    var commentMessage := Render(ContentChangeComment(
      file, url, description, repository, oldFileOwner, newFileOwner, prOwner, authorized, imageUrl));
    assert rest.events == oldLog + [Post(commentMessage)];
    events := events + [Post(commentMessage)];
    outcome := if w.posted then Commented else Failed(PostFailed);
  }

  /** index.js:93-131, the body of the loop for an added file. */
  method ReviewAddition(file: ChangedFile, w: FileWorld)
    returns (outcome: FileOutcome, events: seq<Event>)
    ensures FileStep(events, outcome) == AdditionStep(file, w)
  {
    var fileContent, fetchLog := GetRawFileContent(file.rawUrl, GetFileMaxRetries, w.current);
    events := fetchLog;
    if fileContent.Err? {
      return Failed(Retrieval(fileContent.error)), events;
    }
    var record := fileContent.value.record;
    var url: string;
    if record.cname.Some? {
      url := "http://" + record.cname.value;
    } else if record.url.Some? {
      url := record.url.value;
    } else {
      return Skipped, events;
    }
    var imbb, captureLog := ScreenshotAndUpload(url, w);
    events := events + captureLog;
    if imbb.Err? {
      return Failed(imbb.error), events;
    }
    var imageUrl := imbb.value;
    var description := OrNotAvailable(fileContent.value.description);
    var repository := OrNotAvailable(fileContent.value.repo);
    var commentMessage := Render(AddedComment(file, url, description, repository, imageUrl));
    events := events + [Post(commentMessage)];
    outcome := if w.posted then Commented else Failed(PostFailed);
  }

  /** index.js:133-162, the body of the loop for every other status. */
  method ReviewDeletion(file: ChangedFile, prOwner: string, w: FileWorld)
    returns (outcome: FileOutcome, events: seq<Event>)
    ensures FileStep(events, outcome) == DeletionStep(file, prOwner, w)
  {
    var oldRawFileUrl := MainUrl(file.rawUrl);
    var oldFile, oldLog := GetRawFileContent(oldRawFileUrl, GetFileMaxRetries, w.previous);
    events := oldLog;
    if oldFile.Err? {
      return Failed(Retrieval(oldFile.error)), events;
    }
    var oldFileOwner := oldFile.value.owner;
    var authorized := false;
    if oldFileOwner == prOwner {
      authorized := true;
    }
    var commentMessage := Render(DeletedComment(file, oldFileOwner, prOwner, authorized));
    events := events + [Post(commentMessage)];
    if !w.posted {
      return Failed(PostFailed), events;
    }
    events := events + [Wait(WaitTimeAfterEachFile)];
    outcome := Commented;
  }

  /** index.js:27-164: the handler's loop over `changedFiles`, one file at a
      time; the first failure ends the run and leaves earlier comments posted. */
  method ReviewFiles(changedFiles: seq<ChangedFile>, prOwner: string, net: nat -> FileWorld)
    returns (outcome: RunOutcome, log: seq<Event>)
    ensures RunState(log, outcome) == RunUpTo(changedFiles, prOwner, net, |changedFiles|)
  {
    log := [];
    for i := 0 to |changedFiles|
      invariant RunUpTo(changedFiles, prOwner, net, i) == RunState(log, Completed)
    {
      var file := changedFiles[i];
      ghost var steps := Steps(changedFiles, prOwner, net);
      assert steps[i] == ProcessFile(file, prOwner, net(i));
      var fileOutcome, events;
      if file.status == "modified" || file.status == "renamed" || file.status == "changed" {
        fileOutcome, events := ReviewContentChange(file, prOwner, net(i));
      } else if file.status == "added" {
        fileOutcome, events := ReviewAddition(file, net(i));
      } else {
        fileOutcome, events := ReviewDeletion(file, prOwner, net(i));
      }
      log := log + events;
      if fileOutcome.Failed? {
        AbortIsFinal(steps, i + 1, |changedFiles|);
        return Aborted(i, fileOutcome.error), log;
      }
    }
    outcome := Completed;
  }
}
