# ReviewMate review pipeline in Dafny

ReviewMate is a GitHub App that reviews pull requests against a registry of
records. Each record is a JSON file that names an owner and a web target,
either a `CNAME` host or a `URL`. When a pull request is opened, updated or
marked ready, the app walks its changed files in order. It posts one comment
for each file, except that a content change or an addition whose record
names neither `CNAME` nor `URL` is skipped without a comment:

- A **modified, renamed or changed** record is fetched at the pull request's
  commit. Its target is screenshotted and the image is uploaded to an image
  host. The record's owner on the `main` branch is compared with the pull
  request's author, and a comment gives the target, the screenshot, both
  owners and the verdict.
- An **added** record gets the same comment without the ownership section.
- Every **other** status is handled as a deletion. Only the `main`-branch
  copy is fetched, and the comment gives its owner, the author and the
  verdict. A 30-second pause then follows against the screenshot service's
  rate limit.

Raw files are fetched with a retry helper that makes up to two attempts,
with a one-second pause after a failed attempt when another follows. A batch
helper fetches many URLs and drops the ones that fail. Any other failure
stops the run, and the comments already posted stay.

The project has eight modules:

- `Effects` holds replies, the success rule for a reply, and the event log.
- `Records` holds the record document, the target rule and the `"N/A"`
  fallback.
- `Utils` holds `getRawFileContent` and `getAllFilesContent`, each as a
  specification function plus the imperative loop proved against it.
- `RawUrl` holds the commit-to-`main` URL rewrite.
- `Comments` holds the three comment bodies as lines joined by line
  breaks, and `Lines`, which cuts a posted text back into lines.
- `CommentShapes` holds what each body contains, and when the posted text
  reads back as exactly those lines.
- `Review` holds the routing, the per-file step functions, the loop
  `ReviewFiles` with one method per branch, and the run function that
  `ReviewFiles` is proved equal to.
- `Pipeline` holds what the review guarantees per file and per run.

The world is an input to the model.
- The k-th GET of a raw file receives the reply `attempt(k)`.
- The i-th changed file receives its fetch, previous-fetch, screenshot,
  upload and post replies from `net(i)`.
- Every request, pause and comment is appended to an event log, which the
  methods return. `Sent` lists the comments sent, including one that
  GitHub refused.

Behaviour worth knowing when reading the model:

- Ownership is compared with `===`, so the match is case-sensitive
  (index.js:62, 141).
- A status other than `modified`, `renamed`, `changed` or `added` takes the
  deletion arm (index.js:132).
- The deletion arm fetches only the `main`-branch copy of the file
  (index.js:133-137).
- The content-change comment always lists the old owner, the new owner and
  the author, whether or not the change is authorized (index.js:74-79).
- A fetch error reports the retry budget `maxRetries` (utils.js:31). Every
  attempt was made, so this equals the number of attempts.
- Values are interpolated into the comments unescaped (index.js:67-83,
  114-123, 144-153). A value that contains a line break adds lines of its
  own to the posted text. Here and below a line break is a line feed or a
  carriage return, the two line endings of section 2.1 of the CommonMark
  specification.

## Model

| member | source | states |
|---|---|---|
| Effects.Accept | utils.js:18-26 | A reply is a success exactly when it arrived with status 200, and then it yields its body. A throw fails as Transport; any other status fails with that status. |
| Records.TargetUrl | index.js:36-43 | `CNAME` wins and gives `http://` + the name. Otherwise the target is `URL`. There is no target exactly when both keys are absent. |
| Records.OrNotAvailable | index.js:50-51 | The result is never empty. A present, non-empty value is kept; an absent or empty value gives `"N/A"`. |
| Utils.FirstSuccess | utils.js:16-21 | Returns the leftmost successful attempt in the window, with every earlier attempt failing, or None when no attempt in the window succeeds. |
| Utils.RetryLogEvents | utils.js:16-36 | The retry loop's log holds only GETs of its own URL and one-second pauses. |
| Utils.FetchLogEvents | utils.js:10-42 | A whole fetch only issues GETs of its URL and one-second pauses. |
| Utils.RetryLogAlternates | utils.js:16-36 | After n attempts the log has 2n-1 events: GETs at even positions and one-second pauses at odd positions. |
| Utils.GetRawFileContent | utils.js:10-42 | The while loop returns exactly the result and the event log of the specification function `Fetch`. |
| Utils.RetryLogCounts | utils.js:28-35 | n attempts make n GETs and n-1 pauses. |
| Utils.FetchAttempts | utils.js:14-37 | At most `maxRetries` GETs are made, and none for a budget of zero or less. Pauses are one fewer than attempts. |
| Utils.FetchReturnsFirstSuccess | utils.js:16-21 | The fetch succeeds iff some allowed attempt answers 200. It then returns that first success's body, made by the last GET; every earlier attempt failed and cost one pause. |
| Utils.FetchAllFail | utils.js:27-41 | When every attempt fails: a budget of zero or less makes no request and raises the budget error. Otherwise exactly `maxRetries` GETs and `maxRetries`-1 pauses happen, and the error carries the last failure. |
| Utils.FailOnceThenSucceed | utils.js:8-35 | With the default budget of 2, a failure followed by a 200 gives the second body and the log GET, wait 1000 ms, GET. |
| Utils.BatchResults | utils.js:47-54 | There is one result per URL, and position i holds the result of fetching the i-th URL with the default budget of 2 attempts. |
| Utils.Successes | utils.js:47-54 | No more contents are kept than there were URLs. |
| Utils.SuccessesSnoc | utils.js:48-53 | A success appends its content; a failure appends nothing. |
| Utils.SuccessIndices | utils.js:47-54 | The positions of the successful fetches, strictly increasing and complete. |
| Utils.SuccessesAreOkSubsequence | utils.js:44-57 | The batch result is the successful contents, in URL order, at exactly those positions. |
| Utils.SuccessesExtremes | utils.js:44-57 | If every fetch succeeds, all contents are returned in order. If every fetch fails, the result is empty. |
| Utils.GetAllFilesContent | utils.js:44-57 | The for loop returns the successful contents of a fetch per URL, and the concatenated logs of those fetches. |
| RawUrl.FindSegment | index.js:53-56 | Finds the leftmost `/<40 lower-case hex>/` segment at or after a position, or None when there is none. |
| RawUrl.MainUrl | index.js:53-56 | The URL changes exactly when it has such a segment, and it then becomes 36 characters shorter. |
| RawUrl.CommitUrlToMain | index.js:53-56 | `prefix/<sha>/path` becomes `prefix/main/path` when the prefix has no segment of its own. |
| RawUrl.UpperCaseShaIsKept | index.js:54 | A 40-character sha with any upper-case digit `A`-`F` is not matched, and the URL is kept as it is when no other segment matches. |
| Comments.Marker | index.js:79 | Gives ✅ exactly when authorized and ❌ otherwise. |
| Comments.RenderAppend | index.js:67-83 | Joining two blocks of lines puts exactly one line feed between them. |
| Comments.Framed | index.js:67-83 | A body with empty first and last lines renders to text that starts and ends with a line feed. |
| Comments.CountPrefixedAppend | index.js:67-83 | Counting lines by prefix adds up over concatenation. |
| Comments.FirstCharDiffers | index.js:67-83 | A line whose literal start has a different first character neither equals nor starts with the target. |
| CommentShapes.IntroShape | index.js:67-72 | The intro has the content-URL line and no section heading, marker or image. |
| Comments.LastBreak | index.js:67-83 | Finds the last line feed among the first n characters, with none after it, or None when there is none. |
| Comments.Lines | index.js:67-83 | Cutting a text at its line feeds gives at least one piece. |
| Comments.RenderLines | index.js:67-83 | Joining the pieces of any text gives that text back, and no piece contains a line feed. |
| Comments.LinesSnoc | index.js:67-83 | A text ending in a line feed and then a line without one is cut into the pieces of the head plus that line. |
| Comments.RenderNoReturn | index.js:67-83 | Joining lines that hold no line break gives a text with no carriage return. |
| Comments.LinesRender | index.js:67-83 | Lines without line feeds, joined and cut again, give the same lines. |
| CommentShapes.IntroClean | index.js:68-72 | The intro lines contain no line break when the file, URL, description and repository contain none. |
| CommentShapes.ScreenshotClean | index.js:81-82 | The screenshot lines contain no line break when the file name and image URL contain none. |
| CommentShapes.AuthorizationClean | index.js:74-79 | The lines of both ownership sections contain no line break when the owners contain none. |
| CommentShapes.DeletedIntroClean | index.js:145-146 | The deletion intro contains no line break when the file name and link contain none. |
| CommentShapes.NoBreaksAppend | index.js:67-83 | Break-free blocks of lines concatenate to a break-free block. |
| CommentShapes.AddedReadsBack | index.js:114-123 | When no interpolated value contains a line feed or carriage return, the added-file comment's text has no carriage return and reads back as exactly its lines. |
| CommentShapes.DeletedReadsBack | index.js:144-153 | The same for the deletion comment. |
| CommentShapes.ContentChangeReadsBack | index.js:67-83 | The same for the content-change comment. |
| CommentShapes.RenderSplitLine | index.js:67-83 | A line that is itself several joined lines renders like those lines. |
| CommentShapes.RenderForgery | index.js:71 | The description line with the description `x`, line feed, line feed, `**Authorized**: ✅` renders like three separate lines. |
| CommentShapes.DescriptionForgesVerdict | index.js:71-79 | With that description, the text posted for a change that is not authorized reads back with both a ❌ and a ✅ verdict line. |
| CommentShapes.ForgedLinesClean | index.js:67-83 | The lines of that forged reading contain no line break when the other values contain none. |
| CommentShapes.ContentChangeSections | index.js:67-83 | Section by section, the content-change lines have both headings, the URL line and exactly one marker line, the right one. |
| CommentShapes.ScreenshotShape | index.js:81-82 | The screenshot section has its heading and exactly one image line, and no marker. |
| CommentShapes.ContentAuthorizationShape | index.js:74-79 | The ownership section has exactly one marker line, the right one and never the other. |
| CommentShapes.DeletedAuthorizationShape | index.js:148-152 | The same for the deletion comment's ownership section. |
| CommentShapes.DeletedIntroShape | index.js:145-146 | The deletion intro has no section heading, marker, URL or image. |
| CommentShapes.OwnerLine | index.js:75-77 | An owner list item is read as no heading, marker, URL or image. |
| CommentShapes.FixedLines | index.js:68-81 | The fixed lines are not read as markers, URLs or images. |
| CommentShapes.MarkerLine | index.js:79 | The two marker lines differ, and neither is a heading, URL or image. |
| CommentShapes.AddedCommentShape | index.js:114-123 | The added-file comment has no ownership section and no marker. It has the URL line, the screenshot heading and one image. When no interpolated value contains a line feed or carriage return, the posted text has no carriage return and reads back as exactly these lines. |
| CommentShapes.DeletedCommentShape | index.js:144-153 | The deletion comment has no screenshot, image or URL line. It has the ownership heading and exactly one marker, the right one. When no interpolated value contains a line feed or carriage return, the posted text has no carriage return and reads back as exactly these lines. |
| CommentShapes.ContentChangeCommentShape | index.js:67-83 | The content-change comment has both headings and the URL line, and exactly one marker, the right one. When no interpolated value contains a line feed or carriage return, the posted text has no carriage return and reads back as exactly these lines. |
| CommentShapes.CommentsAreFramed | index.js:67-83 | Each comment's text begins and ends with a line feed. |
| Review.Route | index.js:28-32 | `modified`/`renamed`/`changed` are content changes and `added` is an addition; every other status is a deletion, each as an iff. |
| Review.AbortIsFinal | index.js:27-164 | After a failure, later files add no events. |
| Pipeline.CaptureAndUploadOutcome | index.js:45-49 | A hosted image comes back exactly when both services answer 200, and its URL is the image host's body. The uploaded bytes are the screenshot's body; a failure is the first failing call's, with nothing after it. |
| Review.ScreenshotAndUpload | index.js:45-49 | Captures the target and uploads the captured bytes. A failure in either call is that call's error. |
| Review.ReviewContentChange | index.js:33-91 | The method's events and outcome are those of `ContentChangeStep`: fetch, skip without a target, capture, upload, fetch from main, verdict, post. |
| Review.ReviewAddition | index.js:93-131 | The same for `AdditionStep`, with no ownership check. |
| Review.ReviewDeletion | index.js:133-162 | The same for `DeletionStep`: fetch from main, post, then pause only if posted. |
| Review.ReviewFiles | index.js:27-164 | The loop's log and outcome equal the run of the per-file steps in list order, stopping at the first failure. |
| Pipeline.FetchIsFetchOnly | utils.js:16-36 | A raw-file fetch only issues GETs and one-second pauses. |
| Pipeline.FetchOnlyHasNoComment | utils.js:16-36 | Fetch activity posts no comment and takes no 30-second pause. |
| Pipeline.CapturePostsNothing | index.js:45-49 | Screenshot and upload post nothing and take no pause. |
| Pipeline.OnePostAtTheEnd | index.js:86-91 | Silent events followed by one post leave exactly that comment. |
| Pipeline.SkipIffNoTarget | index.js:36-43 | A file is skipped iff it is a content change or addition whose fetched record has no target. A skipped file has only been fetched. |
| Pipeline.DeletionPaces | index.js:155-162 | A deletion is never skipped. A posted deletion ends with its comment and then the single 30-second pause. |
| Pipeline.NoPacingAfterReview | index.js:86-131 | Content changes and additions never pause 30 s, and their comment is their last event. |
| Pipeline.CommentOnChangePostsOnce | index.js:53-91 | After the upload, exactly the content-change comment is posted, with the verdict `old owner == author`. |
| Pipeline.ContentChangeOrder | index.js:34-91 | A completed content change fetched the record at the commit, captured its target, uploaded the captured bytes, fetched the `main`-branch copy and then posted the comment, in that order and with nothing else. The posted comment carries the hosted image URL and the verdict `main`-branch owner == author. |
| Pipeline.AdditionOrder | index.js:94-131 | A completed addition fetched the record, captured its target, uploaded the captured bytes and then posted the added-file comment, in that order and with nothing else. It never fetches the `main` branch. |
| Pipeline.ContentChangePostsOnce | index.js:33-91 | A completed content change posts what its final stage posts, and nothing else. |
| Pipeline.AdditionPostsOnce | index.js:93-131 | A completed addition posts exactly its added-file comment. |
| Pipeline.OneCommentPerFile | index.js:27-164 | A completed file posts exactly one comment; a skipped file posts none. |
| Pipeline.ContentChangeVerdict | index.js:57-91 | The posted content-change comment has one verdict, approving iff the main-branch owner equals the author exactly. When no interpolated value contains a line feed or carriage return, the sent text has no carriage return and `Lines` of it is exactly those lines. |
| Pipeline.AdditionHasNoVerdict | index.js:114-131 | The posted addition comment has no ownership section. When no interpolated value contains a line feed or carriage return, the sent text has no carriage return and `Lines` of it is exactly those lines. |
| Pipeline.DeletionVerdict | index.js:137-161 | The posted deletion comment has one verdict on the main-branch owner and no screenshot. When no interpolated value contains a line feed or carriage return, the sent text has no carriage return and `Lines` of it is exactly those lines. |
| Pipeline.OwnerCaseMatters | index.js:141-152 | Owner "Alice" with author "alice" is posted as ❌, never as ✅. |
| Pipeline.CompletedIffNoFailure | index.js:27-164 | A run completes iff none of its files fails. |
| Pipeline.AbortStopsAtFailure | index.js:27-164 | An aborted run stops at its first failing file: earlier files completed, and the failing file's events end the log. |
| Pipeline.LogGrows | index.js:27-164 | Every prefix run's log, and its posted comments, are a prefix of the longer run's. Comments already posted stand. |
| Pipeline.DeletionsCountsPositions | index.js:132 | `Deletions` equals the number of positions, among the first n, whose status takes the deletion arm. |
| Pipeline.PositionsSnoc | index.js:27 | Extending the range by one position adds that position to the count exactly when the property holds there. |
| Pipeline.CountWithoutTargetCountsPositions | index.js:41-43 | `CountWithoutTarget` equals the number of positions, among the first n, of content changes and additions whose fetched record has no target. |
| Pipeline.CommentUnlessWithoutTarget | index.js:27-164 | A file that does not fail posts one comment, or none exactly when it has no target. |
| Pipeline.PacingMatchesDeletions | index.js:162 | In a completed run the 30-second pause occurs exactly once per deleted file. |
| Pipeline.CommentPerReviewedFile | index.js:27-164 | A completed run posts one comment per file, except the files without a target. |

## Left out

- Probot registration, the three webhook events and the `listFiles` call (index.js:9-26) are not modelled. The changed-file list and the author are inputs.
- The start-up check of the two API keys (index.js:10-12) is process configuration, not part of the review.
- Timers are not modelled: a pause is a `Wait` event.
- Network transport is not modelled: axios, Octokit and their timeouts become `Reply` values and the `posted` flag.
- `screenshotUrl` and `uploadImageToImgbb` (utils.js:59-103) are reduced to one reply each. The model does not capture the query string, the fixed delay and force parameters, `FormData`, the base64 encoding or reading `imbb.data.url`.
- Uploaded bytes are passed to the image host as they were captured; the base64 text is not modelled.
- JSON parsing is not modelled: a record arrives already parsed.
- Records are modelled as always having a `record` object and an `owner` with a string `username`. In JavaScript a missing `owner` throws a `TypeError` in the content-change arm (index.js:58-59) and in the deletion arm (index.js:138). A missing `record` throws in the content-change and addition arms (index.js:37, 98). The addition arm never reads `owner`, and the deletion arm never reads `record`.
- An `owner` without `username` is not modelled. JavaScript then reads `undefined`, with a different effect per record:
  - On the `main`-branch record, `oldFileOwner` is `undefined` (index.js:59, 138). The comment shows the text "undefined", and the verdict is ❌, because `undefined === prOwner` is false (index.js:62, 141).
  - On the commit's record of a content change, only the "New File Owner" line shows "undefined" (index.js:58, 76). The verdict still follows the `main`-branch owner.
- Non-string values of `CNAME`, `URL`, `description` or `repo` are not modelled; JavaScript would coerce them to text.
- `console.error` in the batch helper (utils.js:52) is output only and is not modelled.
- CommentShapes.AddedCommentShape: the shape is proved of the comment's lines. It holds of the posted text only when no interpolated value contains a line break. The source interpolates values unescaped, and CommentShapes.DescriptionForgesVerdict shows a description that adds lines to the posted text.
- CommentShapes.DeletedCommentShape: the single verdict is proved of the lines. It holds of the posted text only when the file name, link and owners contain no line break, for the same reason.
- CommentShapes.ContentChangeCommentShape: the single verdict is proved of the lines. In the posted text it holds only when no interpolated value contains a line break. CommentShapes.DescriptionForgesVerdict gives a description that makes an unauthorized change show a ✅ line as well.
- Pipeline.ContentChangeVerdict: the verdict is stated of the comment's lines. It carries over to the sent text only under the no-line-break condition in its last clause.
- Pipeline.AdditionHasNoVerdict: "no ownership section" is stated of the lines. A description with line breaks can add a fake one to the sent text. The last clause gives the condition under which the sent text reads back as the lines.
- Pipeline.DeletionVerdict: the verdict is stated of the lines. It carries over to the sent text under the no-line-break condition in its last clause.
- The shape and read-back facts are about the comment's text lines, not about the HTML GitHub renders from them. GitHub also renders inline HTML, so a description such as `x<br><br>**Authorized**: ✅` contains no line break and still displays a second verdict.
- Comments.Lines: cuts only at line feeds, while Markdown also ends a line at a lone carriage return. The read-back clauses therefore assume values free of both, and they also prove that the posted text then holds no carriage return.
- The merge-time hosting activation and the label/title filter are not in this source and are not part of this model.
- Review.Authorized: has no contract of its own. It is the exact equality used by the verdict lemmas, and its case sensitivity is shown by Pipeline.OwnerCaseMatters.
- Comments.ContentChangeComment, Comments.AddedComment, Comments.DeletedComment: no contract of their own. The three template literals (index.js:67-83, 114-123, 144-153) are written out line by line. CommentShapes.ContentChangeCommentShape, AddedCommentShape and DeletedCommentShape state what each contains.
- Comments.Render: no contract of its own. It joins lines with line feeds as the template literals do; Comments.RenderAppend, Framed and LinesRender state its properties.
- Review.CaptureAndUpload: no contract of its own (index.js:45-49, 107-111). Pipeline.CaptureAndUploadOutcome states what it returns and logs, and Review.ScreenshotAndUpload is proved equal to it.
- Review.CommentOnChange, Review.ContentChangeStep, Review.AdditionStep, Review.DeletionStep, Review.ProcessFile: no contract of their own (index.js:33-162). The methods ReviewContentChange, ReviewAddition and ReviewDeletion are proved equal to them. Pipeline.SkipIffNoTarget, DeletionPaces, NoPacingAfterReview, OneCommentPerFile and the three verdict lemmas state what they do.
- Review.Run: no contract of its own (index.js:27-164). Review.ReviewFiles is proved equal to it. Review.AbortIsFinal and Pipeline.CompletedIffNoFailure, AbortStopsAtFailure, LogGrows, PacingMatchesDeletions and CommentPerReviewedFile state its properties.
- Utils.Fetch: no contract of its own (utils.js:10-42). Utils.GetRawFileContent is proved equal to it. Utils.FetchAttempts, FetchReturnsFirstSuccess, FetchAllFail and FetchLogEvents state its properties.
- Utils.BatchLog: no contract of its own (utils.js:47-54). It concatenates the logs of the fetches in URL order, and Utils.GetAllFilesContent returns it.
