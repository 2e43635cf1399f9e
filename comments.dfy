/** The three comment bodies the review posts (index.js:67-83, 114-123,
    144-153). A body is a sequence of Markdown lines; the posted text is those
    lines joined by line breaks, which reproduces each template literal
    character for character (each template begins and ends with a line break). */
module Comments {
  import opened Effects
  import opened Records

  const Title := "# 🔍 ReviewMate Analysis"
  const AuthorizationHeading := "## 🔒 Authorization"
  const ScreenshotHeading := "## 📸 Screenshot"
  const ContentUrlPrefix := "Content URL: "
  const MarkerPrefix := "**Authorized**: "
  const ImagePrefix := "!["
  const Approved := "✅"
  const Rejected := "❌"

  /** The authorization marker: a check mark exactly when authorized. */
  function Marker(authorized: bool): (m: string)
    ensures m == Approved || m == Rejected
    ensures m == Approved <==> authorized
  {
    if authorized then Approved else Rejected
  }

  function FileLink(file: ChangedFile): string {
    "[" + file.filename + "](" + file.blobUrl + ")"
  }

  // ----- sections -----

  /** Title, file link, content URL, description and repository, shared by
      the content-change and the added-file comments. */
  function Intro(file: ChangedFile, url: string, description: string, repository: string): seq<string> {
    ["", Title, "File: " + FileLink(file), ContentUrlPrefix + url,
     "Description: " + description, "Repository: " + repository]
  }

  function ContentAuthorization(oldOwner: string, newOwner: string, prOwner: string, authorized: bool): seq<string> {
    ["", AuthorizationHeading, "- Old File Owner: " + oldOwner, "- New File Owner: " + newOwner,
     "- PR Author: " + prOwner, "", MarkerPrefix + Marker(authorized)]
  }

  function Screenshot(file: ChangedFile, imageUrl: string): seq<string> {
    ["", ScreenshotHeading, ImagePrefix + ("Screenshot of " + file.filename + "](" + imageUrl + ")"), ""]
  }

  function DeletedIntro(file: ChangedFile): seq<string> {
    ["", Title, "🗑️ **File Deleted**: " + FileLink(file)]
  }

  function DeletedAuthorization(fileOwner: string, prOwner: string, authorized: bool): seq<string> {
    ["", AuthorizationHeading, "- File Owner: " + fileOwner, "- PR Owner: " + prOwner,
     "", MarkerPrefix + Marker(authorized), ""]
  }

  // ----- the three comments -----

  /** index.js:67-83: a modified, renamed or changed record. */
  function ContentChangeComment(file: ChangedFile, url: string, description: string, repository: string,
                                oldOwner: string, newOwner: string, prOwner: string, authorized: bool,
                                imageUrl: string): seq<string> {
    Intro(file, url, description, repository)
      + ContentAuthorization(oldOwner, newOwner, prOwner, authorized)
      + Screenshot(file, imageUrl)
  }

  /** index.js:114-123: a new record. */
  function AddedComment(file: ChangedFile, url: string, description: string, repository: string,
                        imageUrl: string): seq<string> {
    Intro(file, url, description, repository) + Screenshot(file, imageUrl)
  }

  /** index.js:144-153: any other status, treated as a deleted record. */
  function DeletedComment(file: ChangedFile, fileOwner: string, prOwner: string, authorized: bool): seq<string> {
    DeletedIntro(file) + DeletedAuthorization(fileOwner, prOwner, authorized)
  }

  /** The text posted: the lines separated by line breaks. */
  function Render(lines: seq<string>): string {
    if lines == [] then ""
    else if |lines| == 1 then lines[0]
    else Render(lines[..|lines| - 1]) + "\n" + lines[|lines| - 1]
  }

  /** Joining two non-empty blocks of lines puts one line break between them. */
  lemma {:induction false} RenderAppend(a: seq<string>, b: seq<string>)
    requires a != [] && b != []
    ensures Render(a + b) == Render(a) + "\n" + Render(b)
  {
    var ab := a + b;
    assert ab[..|ab| - 1] == a + b[..|b| - 1];
    if |b| > 1 {
      RenderAppend(a, b[..|b| - 1]);
    } else {
      assert ab[..|ab| - 1] == a;
    }
  }

  /** A body whose first and last lines are empty is posted as text that
      begins and ends with a line break. */
  lemma Framed(lines: seq<string>)
    requires |lines| >= 2 && lines[0] == "" && lines[|lines| - 1] == ""
    ensures |Render(lines)| > 0
    ensures Render(lines)[0] == '\n' && Render(lines)[|Render(lines)| - 1] == '\n'
  {
    assert lines == lines[..1] + lines[1..];
    RenderAppend(lines[..1], lines[1..]);
  }

  // ----- reading the posted text back as lines -----

  /** The string holds no line feed, the character `Lines` cuts at. */
  predicate NoFeed(s: string) {
    '\n' !in s
  }

  predicate NoFeeds(values: seq<string>) {
    forall i :: 0 <= i < |values| ==> NoFeed(values[i])
  }

  /** The string holds no line ending as Markdown reads one (section 2.1 of
      the CommonMark specification): neither a line feed nor a carriage
      return. */
  predicate NoBreak(s: string) {
    '\n' !in s && '\r' !in s
  }

  /** None of the strings contains a line break. */
  predicate NoBreaks(values: seq<string>) {
    forall i :: 0 <= i < |values| ==> NoBreak(values[i])
  }

  lemma BreaksAreFeeds(values: seq<string>)
    requires NoBreaks(values)
    ensures NoFeeds(values)
  {
  }

  /** Joining lines that hold no line ending leaves no carriage return in
      the text: every line ending in it is one of the joining line feeds. */
  lemma {:induction false} RenderNoReturn(lines: seq<string>)
    requires NoBreaks(lines)
    ensures '\r' !in Render(lines)
  {
    if |lines| > 1 {
      var init := lines[..|lines| - 1];
      assert NoBreaks(init) by {
        assert forall i :: 0 <= i < |init| ==> init[i] == lines[i];
      }
      RenderNoReturn(init);
      assert NoBreak(lines[|lines| - 1]);
    } else if |lines| == 1 {
      assert NoBreak(lines[0]);
    }
  }

  /** The position of the last line break among the first `n` characters. */
  function LastBreak(t: string, n: nat): (r: Option<nat>)
    requires n <= |t|
    ensures r.Some? ==> r.value < n && t[r.value] == '\n'
    ensures r.Some? ==> forall k :: r.value < k < n ==> t[k] != '\n'
    ensures r.None? ==> forall k :: 0 <= k < n ==> t[k] != '\n'
  {
    if n == 0 then None
    else if t[n - 1] == '\n' then Some(n - 1)
    else LastBreak(t, n - 1)
  }

  /** The text cut at every line break, as `text.split("\n")` reads it. */
  function Lines(t: string): (ls: seq<string>)
    ensures ls != []
    decreases |t|
  {
    match LastBreak(t, |t|)
    case None => [t]
    case Some(j) => Lines(t[..j]) + [t[j + 1..]]
  }

  /** Cutting a text at its line breaks and joining the pieces again gives
      the text back. */
  lemma {:induction false} RenderLines(t: string)
    ensures Render(Lines(t)) == t
    ensures NoFeeds(Lines(t))
    decreases |t|
  {
    match LastBreak(t, |t|)
    case None =>
      assert NoFeed(t);
    case Some(j) =>
      RenderLines(t[..j]);
      var tail := t[j + 1..];
      assert forall k :: 0 <= k < |tail| ==> tail[k] == t[j + 1 + k];
      assert NoFeed(tail);
      var ls := Lines(t[..j]) + [tail];
      assert ls[..|ls| - 1] == Lines(t[..j]);
      assert t == t[..j] + "\n" + tail;
  }

  /** A line break followed by a line without one is cut there. */
  lemma LinesSnoc(head: string, last: string)
    requires NoFeed(last)
    ensures Lines(head + "\n" + last) == Lines(head) + [last]
  {
    var t := head + "\n" + last;
    var j := |head|;
    assert t[j] == '\n';
    assert forall k :: j < k < |t| ==> t[k] == last[k - j - 1];
    assert forall k :: j < k < |t| ==> t[k] != '\n' by {
      assert forall k :: 0 <= k < |last| ==> last[k] in last;
    }
    assert LastBreak(t, |t|) == Some(j);
    assert t[..j] == head && t[j + 1..] == last;
  }

  /** Joining lines without line breaks and cutting the text again gives the
      same lines: the posted text is read exactly as the lines it was built
      from. */
  lemma {:induction false} LinesRender(ls: seq<string>)
    requires ls != [] && NoFeeds(ls)
    ensures Lines(Render(ls)) == ls
  {
    if |ls| == 1 {
      assert NoFeed(ls[0]);
    } else {
      var init, last := ls[..|ls| - 1], ls[|ls| - 1];
      assert NoFeeds(init) by {
        assert forall i :: 0 <= i < |init| ==> init[i] == ls[i];
      }
      assert NoFeed(last);
      LinesSnoc(Render(init), last);
      LinesRender(init);
      assert ls == init + [last];
    }
  }

  // ----- reading a body -----

  predicate StartsWith(line: string, prefix: string) {
    |prefix| <= |line| && line[..|prefix|] == prefix
  }

  /** Number of lines that start with `prefix`. */
  function CountPrefixed(lines: seq<string>, prefix: string): (n: nat)
    ensures n <= |lines|
    ensures n == 0 <==> forall i :: 0 <= i < |lines| ==> !StartsWith(lines[i], prefix)
  {
    if lines == [] then 0
    else CountPrefixed(lines[..|lines| - 1], prefix) + (if StartsWith(lines[|lines| - 1], prefix) then 1 else 0)
  }

  lemma {:induction false} CountPrefixedAppend(a: seq<string>, b: seq<string>, prefix: string)
    ensures CountPrefixed(a + b, prefix) == CountPrefixed(a, prefix) + CountPrefixed(b, prefix)
  {
    if b == [] {
      assert a + b == a;
    } else {
      assert (a + b)[..|a + b| - 1] == a + b[..|b| - 1];
      CountPrefixedAppend(a, b[..|b| - 1], prefix);
    }
  }

  lemma {:induction false} CountOne(lines: seq<string>, prefix: string, k: nat)
    requires k < |lines| && StartsWith(lines[k], prefix)
    requires forall i :: 0 <= i < |lines| && i != k ==> !StartsWith(lines[i], prefix)
    ensures CountPrefixed(lines, prefix) == 1
  {
    if k == |lines| - 1 {
    } else {
      CountOne(lines[..|lines| - 1], prefix, k);
    }
  }

  lemma Prefixed(prefix: string, value: string)
    ensures StartsWith(prefix + value, prefix)
  {
  }

  /** A line that begins with a literal whose first character differs from
      that of `target` neither equals `target` nor starts with it. */
  lemma FirstCharDiffers(lit: string, value: string, target: string)
    requires lit != [] && target != [] && lit[0] != target[0]
    ensures lit + value != target
    ensures !StartsWith(lit + value, target)
  {
  }
}

/** What each comment body contains and leaves out, section by section. */
module CommentShapes {
  import opened Records
  import opened Comments

  lemma IntroShape(file: ChangedFile, url: string, description: string, repository: string)
    ensures var lines := Intro(file, url, description, repository);
      && AuthorizationHeading !in lines && ScreenshotHeading !in lines
      && CountPrefixed(lines, MarkerPrefix) == 0
      && CountPrefixed(lines, ImagePrefix) == 0
      && ContentUrlPrefix + url in lines
  {
    var lines := Intro(file, url, description, repository);
    FirstCharDiffers("File: ", FileLink(file), AuthorizationHeading);
    FirstCharDiffers("File: ", FileLink(file), ScreenshotHeading);
    FirstCharDiffers("File: ", FileLink(file), MarkerPrefix);
    FirstCharDiffers("File: ", FileLink(file), ImagePrefix);
    FirstCharDiffers(ContentUrlPrefix, url, AuthorizationHeading);
    FirstCharDiffers(ContentUrlPrefix, url, ScreenshotHeading);
    FirstCharDiffers(ContentUrlPrefix, url, MarkerPrefix);
    FirstCharDiffers(ContentUrlPrefix, url, ImagePrefix);
    FirstCharDiffers("Description: ", description, AuthorizationHeading);
    FirstCharDiffers("Description: ", description, ScreenshotHeading);
    FirstCharDiffers("Description: ", description, MarkerPrefix);
    FirstCharDiffers("Description: ", description, ImagePrefix);
    FirstCharDiffers("Repository: ", repository, AuthorizationHeading);
    FirstCharDiffers("Repository: ", repository, ScreenshotHeading);
    FirstCharDiffers("Repository: ", repository, MarkerPrefix);
    FirstCharDiffers("Repository: ", repository, ImagePrefix);
  }

  lemma ScreenshotShape(file: ChangedFile, imageUrl: string)
    ensures var lines := Screenshot(file, imageUrl);
      && ScreenshotHeading in lines && AuthorizationHeading !in lines
      && CountPrefixed(lines, MarkerPrefix) == 0
      && CountPrefixed(lines, ContentUrlPrefix) == 0
      && CountPrefixed(lines, ImagePrefix) == 1
  {
    var lines := Screenshot(file, imageUrl);
    var caption := "Screenshot of " + file.filename + "](" + imageUrl + ")";
    FirstCharDiffers(ImagePrefix, caption, AuthorizationHeading);
    FirstCharDiffers(ImagePrefix, caption, MarkerPrefix);
    FirstCharDiffers(ImagePrefix, caption, ContentUrlPrefix);
    Prefixed(ImagePrefix, caption);
    CountOne(lines, ImagePrefix, 2);
  }

  /** The authorization section of a content change: one marker line, the
      one that matches the verdict. */
  lemma ContentAuthorizationShape(oldOwner: string, newOwner: string, prOwner: string, authorized: bool)
    ensures var lines := ContentAuthorization(oldOwner, newOwner, prOwner, authorized);
      && AuthorizationHeading in lines && ScreenshotHeading !in lines
      && CountPrefixed(lines, MarkerPrefix) == 1
      && MarkerPrefix + Marker(authorized) in lines
      && MarkerPrefix + Marker(!authorized) !in lines
      && CountPrefixed(lines, ContentUrlPrefix) == 0
      && CountPrefixed(lines, ImagePrefix) == 0
  {
    var lines := ContentAuthorization(oldOwner, newOwner, prOwner, authorized);
    OwnerLine("- Old File Owner: ", oldOwner);
    OwnerLine("- New File Owner: ", newOwner);
    OwnerLine("- PR Author: ", prOwner);
    MarkerLine(authorized);
    FixedLines();
    CountOne(lines, MarkerPrefix, 6);
  }

  lemma DeletedAuthorizationShape(fileOwner: string, prOwner: string, authorized: bool)
    ensures var lines := DeletedAuthorization(fileOwner, prOwner, authorized);
      && AuthorizationHeading in lines && ScreenshotHeading !in lines
      && CountPrefixed(lines, MarkerPrefix) == 1
      && MarkerPrefix + Marker(authorized) in lines
      && MarkerPrefix + Marker(!authorized) !in lines
      && CountPrefixed(lines, ContentUrlPrefix) == 0
      && CountPrefixed(lines, ImagePrefix) == 0
  {
    var lines := DeletedAuthorization(fileOwner, prOwner, authorized);
    OwnerLine("- File Owner: ", fileOwner);
    OwnerLine("- PR Owner: ", prOwner);
    MarkerLine(authorized);
    FixedLines();
    CountOne(lines, MarkerPrefix, 5);
  }

  /** A list item is no heading, marker, content URL or image line. */
  lemma OwnerLine(lit: string, value: string)
    requires lit != [] && lit[0] == '-'
    ensures lit + value !in [AuthorizationHeading, ScreenshotHeading]
    ensures !StartsWith(lit + value, MarkerPrefix)
    ensures !StartsWith(lit + value, ContentUrlPrefix)
    ensures !StartsWith(lit + value, ImagePrefix)
  {
    FirstCharDiffers(lit, value, AuthorizationHeading);
    FirstCharDiffers(lit, value, ScreenshotHeading);
    FirstCharDiffers(lit, value, MarkerPrefix);
    FirstCharDiffers(lit, value, ContentUrlPrefix);
    FirstCharDiffers(lit, value, ImagePrefix);
  }

  /** The fixed lines are no marker, content URL or image line. */
  lemma FixedLines()
    ensures forall line, prefix ::
      (line in ["", Title, AuthorizationHeading, ScreenshotHeading] && prefix in [MarkerPrefix, ContentUrlPrefix, ImagePrefix])
      ==> !StartsWith(line, prefix)
  {
    forall line, prefix |
      line in ["", Title, AuthorizationHeading, ScreenshotHeading] && prefix in [MarkerPrefix, ContentUrlPrefix, ImagePrefix]
      ensures !StartsWith(line, prefix)
    {
      assert line == "" || line[0] == '#';
      assert prefix[0] != '#';
    }
  }

  /** The marker line is not a heading, a content URL or an image, and the
      two possible marker lines are different lines. */
  lemma MarkerLine(authorized: bool)
    ensures StartsWith(MarkerPrefix + Marker(authorized), MarkerPrefix)
    ensures MarkerPrefix + Marker(authorized) != MarkerPrefix + Marker(!authorized)
    ensures MarkerPrefix + Marker(authorized) !in [AuthorizationHeading, ScreenshotHeading]
    ensures !StartsWith(MarkerPrefix + Marker(authorized), ContentUrlPrefix)
    ensures !StartsWith(MarkerPrefix + Marker(authorized), ImagePrefix)
  {
    Prefixed(MarkerPrefix, Marker(authorized));
    var a, b := MarkerPrefix + Marker(authorized), MarkerPrefix + Marker(!authorized);
    assert a[|MarkerPrefix|] == Marker(authorized)[0] && b[|MarkerPrefix|] == Marker(!authorized)[0];
    FirstCharDiffers(MarkerPrefix, Marker(authorized), AuthorizationHeading);
    FirstCharDiffers(MarkerPrefix, Marker(authorized), ScreenshotHeading);
    FirstCharDiffers(MarkerPrefix, Marker(authorized), ContentUrlPrefix);
    FirstCharDiffers(MarkerPrefix, Marker(authorized), ImagePrefix);
  }

  lemma DeletedIntroShape(file: ChangedFile)
    ensures var lines := DeletedIntro(file);
      && AuthorizationHeading !in lines && ScreenshotHeading !in lines
      && CountPrefixed(lines, MarkerPrefix) == 0
      && CountPrefixed(lines, ContentUrlPrefix) == 0
      && CountPrefixed(lines, ImagePrefix) == 0
  {
    var lines := DeletedIntro(file);
    var lit := "🗑️ **File Deleted**: ";
    FirstCharDiffers(lit, FileLink(file), AuthorizationHeading);
    FirstCharDiffers(lit, FileLink(file), ScreenshotHeading);
    FirstCharDiffers(lit, FileLink(file), MarkerPrefix);
    FirstCharDiffers(lit, FileLink(file), ContentUrlPrefix);
    FirstCharDiffers(lit, FileLink(file), ImagePrefix);
    FixedLines();
  }

  // ----- the posted text -----

  lemma IntroClean(file: ChangedFile, url: string, description: string, repository: string)
    requires NoBreaks([file.filename, file.blobUrl, url, description, repository])
    ensures NoBreaks(Intro(file, url, description, repository))
  {
    var v := [file.filename, file.blobUrl, url, description, repository];
    assert NoBreak(v[0]) && NoBreak(v[1]) && NoBreak(v[2]) && NoBreak(v[3]) && NoBreak(v[4]);
  }

  lemma ScreenshotClean(file: ChangedFile, imageUrl: string)
    requires NoBreaks([file.filename, imageUrl])
    ensures NoBreaks(Screenshot(file, imageUrl))
  {
    var v := [file.filename, imageUrl];
    assert NoBreak(v[0]) && NoBreak(v[1]);
  }

  lemma AuthorizationClean(oldOwner: string, newOwner: string, prOwner: string, authorized: bool)
    requires NoBreaks([oldOwner, newOwner, prOwner])
    ensures NoBreaks(ContentAuthorization(oldOwner, newOwner, prOwner, authorized))
    ensures NoBreaks(DeletedAuthorization(oldOwner, prOwner, authorized))
  {
    var v := [oldOwner, newOwner, prOwner];
    assert NoBreak(v[0]) && NoBreak(v[1]) && NoBreak(v[2]);
  }

  lemma DeletedIntroClean(file: ChangedFile)
    requires NoBreaks([file.filename, file.blobUrl])
    ensures NoBreaks(DeletedIntro(file))
  {
    var v := [file.filename, file.blobUrl];
    assert NoBreak(v[0]) && NoBreak(v[1]);
  }

  lemma NoBreaksAppend(a: seq<string>, b: seq<string>)
    requires NoBreaks(a) && NoBreaks(b)
    ensures NoBreaks(a + b)
  {
    assert forall i :: 0 <= i < |a + b| ==> (a + b)[i] == if i < |a| then a[i] else b[i - |a|];
  }

  /** When no interpolated value contains a line break, each comment's text
      holds no carriage return and is read back, cut at its line feeds, as
      exactly the lines it was built from. */
  lemma AddedReadsBack(file: ChangedFile, url: string, description: string, repository: string, imageUrl: string)
    requires NoBreaks([file.filename, file.blobUrl, url, description, repository, imageUrl])
    ensures var lines := AddedComment(file, url, description, repository, imageUrl);
      Lines(Render(lines)) == lines && '\r' !in Render(lines)
  {
    var v := [file.filename, file.blobUrl, url, description, repository, imageUrl];
    assert NoBreak(v[0]) && NoBreak(v[1]) && NoBreak(v[2]) && NoBreak(v[3]) && NoBreak(v[4]) && NoBreak(v[5]);
    IntroClean(file, url, description, repository);
    ScreenshotClean(file, imageUrl);
    NoBreaksAppend(Intro(file, url, description, repository), Screenshot(file, imageUrl));
    var lines := AddedComment(file, url, description, repository, imageUrl);
    BreaksAreFeeds(lines);
    LinesRender(lines);
    RenderNoReturn(lines);
  }

  lemma DeletedReadsBack(file: ChangedFile, fileOwner: string, prOwner: string, authorized: bool)
    requires NoBreaks([file.filename, file.blobUrl, fileOwner, prOwner])
    ensures var lines := DeletedComment(file, fileOwner, prOwner, authorized);
      Lines(Render(lines)) == lines && '\r' !in Render(lines)
  {
    var v := [file.filename, file.blobUrl, fileOwner, prOwner];
    assert NoBreak(v[0]) && NoBreak(v[1]) && NoBreak(v[2]) && NoBreak(v[3]);
    DeletedIntroClean(file);
    AuthorizationClean(fileOwner, fileOwner, prOwner, authorized);
    NoBreaksAppend(DeletedIntro(file), DeletedAuthorization(fileOwner, prOwner, authorized));
    var lines := DeletedComment(file, fileOwner, prOwner, authorized);
    BreaksAreFeeds(lines);
    LinesRender(lines);
    RenderNoReturn(lines);
  }

  lemma ContentChangeReadsBack(file: ChangedFile, url: string, description: string, repository: string,
                               oldOwner: string, newOwner: string, prOwner: string, authorized: bool,
                               imageUrl: string)
    requires NoBreaks([file.filename, file.blobUrl, url, description, repository,
                       oldOwner, newOwner, prOwner, imageUrl])
    ensures var lines := ContentChangeComment(file, url, description, repository,
                                              oldOwner, newOwner, prOwner, authorized, imageUrl);
      Lines(Render(lines)) == lines && '\r' !in Render(lines)
  {
    var a := Intro(file, url, description, repository);
    var b := ContentAuthorization(oldOwner, newOwner, prOwner, authorized);
    var c := Screenshot(file, imageUrl);
    var v := [file.filename, file.blobUrl, url, description, repository, oldOwner, newOwner, prOwner, imageUrl];
    assert NoBreak(v[0]) && NoBreak(v[1]) && NoBreak(v[2]) && NoBreak(v[3]) && NoBreak(v[4]);
    assert NoBreak(v[5]) && NoBreak(v[6]) && NoBreak(v[7]) && NoBreak(v[8]);
    IntroClean(file, url, description, repository);
    AuthorizationClean(oldOwner, newOwner, prOwner, authorized);
    ScreenshotClean(file, imageUrl);
    NoBreaksAppend(a, b);
    NoBreaksAppend(a + b, c);
    BreaksAreFeeds(a + b + c);
    LinesRender(a + b + c);
    RenderNoReturn(a + b + c);
  }

  /** A line that is itself several lines joined renders like those lines. */
  lemma RenderSplitLine(a: seq<string>, line: string, pieces: seq<string>, b: seq<string>)
    requires a != [] && pieces != [] && b != [] && Render(pieces) == line
    ensures Render(a + [line] + b) == Render(a + pieces + b)
  {
    RenderAppend(a, [line]);
    RenderAppend(a + [line], b);
    RenderAppend(a, pieces);
    RenderAppend(a + pieces, b);
  }

  const ForgedDescription := "x\n\n**Authorized**: ✅"

  lemma RenderForgery()
    ensures Render(["Description: x", "", MarkerPrefix + Approved]) == "Description: " + ForgedDescription
  {
    var forgery := ["Description: x", "", MarkerPrefix + Approved];
    var two := forgery[..2];
    assert two[..1] == ["Description: x"];
    assert Render(two) == "Description: x" + "\n" + "";
    assert Render(forgery) == Render(two) + "\n" + (MarkerPrefix + Approved);
  }

  /** Values are interpolated as they are. A description that carries line
      breaks adds lines of its own to the posted text: here, a change that is
      not authorized is posted with a second verdict line that approves it. */
  lemma DescriptionForgesVerdict(file: ChangedFile, url: string, repository: string,
                                 oldOwner: string, newOwner: string, prOwner: string, imageUrl: string)
    requires NoBreaks([file.filename, file.blobUrl, url, repository, oldOwner, newOwner, prOwner, imageUrl])
    ensures var posted := Lines(Render(ContentChangeComment(file, url, ForgedDescription, repository,
                                                            oldOwner, newOwner, prOwner, false, imageUrl)));
      MarkerPrefix + Approved in posted && MarkerPrefix + Rejected in posted
  {
    var lines := ContentChangeComment(file, url, ForgedDescription, repository,
                                      oldOwner, newOwner, prOwner, false, imageUrl);
    var a, b := lines[..4], lines[5..];
    var forgery := ["Description: x", "", MarkerPrefix + Approved];
    assert lines == a + ["Description: " + ForgedDescription] + b;
    RenderForgery();
    RenderSplitLine(a, "Description: " + ForgedDescription, forgery, b);
    ForgedLinesClean(file, url, repository, oldOwner, newOwner, prOwner, imageUrl, a, forgery, b);
    BreaksAreFeeds(a + forgery + b);
    LinesRender(a + forgery + b);
    assert (a + forgery + b)[6] == MarkerPrefix + Approved;
    assert b[7] == lines[12] == MarkerPrefix + Rejected;
    assert (a + forgery + b)[14] == b[7];
  }

  lemma ForgedLinesClean(file: ChangedFile, url: string, repository: string,
                         oldOwner: string, newOwner: string, prOwner: string, imageUrl: string,
                         a: seq<string>, forgery: seq<string>, b: seq<string>)
    requires NoBreaks([file.filename, file.blobUrl, url, repository, oldOwner, newOwner, prOwner, imageUrl])
    requires var lines := ContentChangeComment(file, url, ForgedDescription, repository,
                                               oldOwner, newOwner, prOwner, false, imageUrl);
      a == lines[..4] && b == lines[5..]
    requires forgery == ["Description: x", "", MarkerPrefix + Approved]
    ensures NoBreaks(a + forgery + b)
  {
    var v := [file.filename, file.blobUrl, url, repository, oldOwner, newOwner, prOwner, imageUrl];
    assert NoBreak(v[0]) && NoBreak(v[1]) && NoBreak(v[2]) && NoBreak(v[3]);
    assert NoBreak(v[4]) && NoBreak(v[5]) && NoBreak(v[6]) && NoBreak(v[7]);
    var intro := Intro(file, url, "", repository);
    assert NoBreak("");
    IntroClean(file, url, "", repository);
    assert NoBreaks(a) by {
      assert forall i :: 0 <= i < |a| ==> a[i] == intro[i];
    }
    ForgeryClean();
    AuthorizationClean(oldOwner, newOwner, prOwner, false);
    ScreenshotClean(file, imageUrl);
    var auth := ContentAuthorization(oldOwner, newOwner, prOwner, false);
    assert b == ["Repository: " + repository] + auth + Screenshot(file, imageUrl);
    NoBreaksAppend(["Repository: " + repository], auth);
    NoBreaksAppend(["Repository: " + repository] + auth, Screenshot(file, imageUrl));
    NoBreaksAppend(a, forgery);
    NoBreaksAppend(a + forgery, b);
  }

  lemma ForgeryClean()
    ensures NoBreaks(["Description: x", "", MarkerPrefix + Approved])
  {
    var forgery := ["Description: x", "", MarkerPrefix + Approved];
    assert NoBreak(forgery[0]) && NoBreak(forgery[1]) && NoBreak(forgery[2]);
  }

  /** An added record's comment shows the content URL and a screenshot and
      has no authorization section and no authorization marker. */
  lemma AddedCommentShape(file: ChangedFile, url: string, description: string, repository: string, imageUrl: string)
    ensures var lines := AddedComment(file, url, description, repository, imageUrl);
      && AuthorizationHeading !in lines
      && CountPrefixed(lines, MarkerPrefix) == 0
      && ContentUrlPrefix + url in lines
      && ScreenshotHeading in lines
      && CountPrefixed(lines, ImagePrefix) == 1
    ensures NoBreaks([file.filename, file.blobUrl, url, description, repository, imageUrl]) ==>
      var lines := AddedComment(file, url, description, repository, imageUrl);
      Lines(Render(lines)) == lines && '\r' !in Render(lines)
  {
    if NoBreaks([file.filename, file.blobUrl, url, description, repository, imageUrl]) {
      AddedReadsBack(file, url, description, repository, imageUrl);
    }
    IntroShape(file, url, description, repository);
    ScreenshotShape(file, imageUrl);
    CountPrefixedAppend(Intro(file, url, description, repository), Screenshot(file, imageUrl), MarkerPrefix);
    CountPrefixedAppend(Intro(file, url, description, repository), Screenshot(file, imageUrl), ImagePrefix);
  }

  /** A deleted record's comment has no screenshot section, no image and no
      content URL, and exactly one authorization marker, the one matching
      the verdict. */
  lemma DeletedCommentShape(file: ChangedFile, fileOwner: string, prOwner: string, authorized: bool)
    ensures var lines := DeletedComment(file, fileOwner, prOwner, authorized);
      && ScreenshotHeading !in lines
      && CountPrefixed(lines, ImagePrefix) == 0
      && CountPrefixed(lines, ContentUrlPrefix) == 0
      && AuthorizationHeading in lines
      && CountPrefixed(lines, MarkerPrefix) == 1
      && MarkerPrefix + Marker(authorized) in lines
      && MarkerPrefix + Marker(!authorized) !in lines
    ensures NoBreaks([file.filename, file.blobUrl, fileOwner, prOwner]) ==>
      var lines := DeletedComment(file, fileOwner, prOwner, authorized);
      Lines(Render(lines)) == lines && '\r' !in Render(lines)
  {
    var a, b := DeletedIntro(file), DeletedAuthorization(fileOwner, prOwner, authorized);
    if NoBreaks([file.filename, file.blobUrl, fileOwner, prOwner]) {
      DeletedReadsBack(file, fileOwner, prOwner, authorized);
    }
    DeletedIntroShape(file);
    DeletedAuthorizationShape(fileOwner, prOwner, authorized);
    MarkerLine(!authorized);
    assert MarkerPrefix + Marker(!authorized) !in a;
    CountPrefixedAppend(a, b, ImagePrefix);
    CountPrefixedAppend(a, b, ContentUrlPrefix);
    CountPrefixedAppend(a, b, MarkerPrefix);
  }

  /** A content-change comment has both sections and exactly one
      authorization marker: the check mark when authorized, the cross
      otherwise, never both. */
  lemma ContentChangeCommentShape(file: ChangedFile, url: string, description: string, repository: string,
                                  oldOwner: string, newOwner: string, prOwner: string, authorized: bool,
                                  imageUrl: string)
    ensures var lines := ContentChangeComment(file, url, description, repository,
                                              oldOwner, newOwner, prOwner, authorized, imageUrl);
      && AuthorizationHeading in lines
      && ScreenshotHeading in lines
      && ContentUrlPrefix + url in lines
      && CountPrefixed(lines, MarkerPrefix) == 1
      && MarkerPrefix + Marker(authorized) in lines
      && MarkerPrefix + Marker(!authorized) !in lines
    ensures NoBreaks([file.filename, file.blobUrl, url, description, repository,
                      oldOwner, newOwner, prOwner, imageUrl]) ==>
      var lines := ContentChangeComment(file, url, description, repository,
                                        oldOwner, newOwner, prOwner, authorized, imageUrl);
      Lines(Render(lines)) == lines && '\r' !in Render(lines)
  {
    ContentChangeSections(file, url, description, repository, oldOwner, newOwner, prOwner, authorized, imageUrl);
    if NoBreaks([file.filename, file.blobUrl, url, description, repository, oldOwner, newOwner, prOwner, imageUrl]) {
      ContentChangeReadsBack(file, url, description, repository, oldOwner, newOwner, prOwner, authorized, imageUrl);
    }
  }

  /** The section-by-section argument behind `ContentChangeCommentShape`. */
  lemma ContentChangeSections(file: ChangedFile, url: string, description: string, repository: string,
                              oldOwner: string, newOwner: string, prOwner: string, authorized: bool,
                              imageUrl: string)
    ensures var lines := ContentChangeComment(file, url, description, repository,
                                              oldOwner, newOwner, prOwner, authorized, imageUrl);
      && AuthorizationHeading in lines
      && ScreenshotHeading in lines
      && ContentUrlPrefix + url in lines
      && CountPrefixed(lines, MarkerPrefix) == 1
      && MarkerPrefix + Marker(authorized) in lines
      && MarkerPrefix + Marker(!authorized) !in lines
  {
    var a := Intro(file, url, description, repository);
    var b := ContentAuthorization(oldOwner, newOwner, prOwner, authorized);
    var c := Screenshot(file, imageUrl);
    IntroShape(file, url, description, repository);
    ContentAuthorizationShape(oldOwner, newOwner, prOwner, authorized);
    ScreenshotShape(file, imageUrl);
    MarkerLine(!authorized);
    assert MarkerPrefix + Marker(!authorized) !in a && MarkerPrefix + Marker(!authorized) !in c;
    CountPrefixedAppend(a, b, MarkerPrefix);
    CountPrefixedAppend(a + b, c, MarkerPrefix);
  }

  /** Each of the three comments is posted as text that begins and ends with
      a line break, as the template literals do. */
  lemma CommentsAreFramed(file: ChangedFile, url: string, description: string, repository: string,
                          oldOwner: string, newOwner: string, prOwner: string, authorized: bool,
                          imageUrl: string)
    ensures var t := Render(ContentChangeComment(file, url, description, repository,
                                                 oldOwner, newOwner, prOwner, authorized, imageUrl));
      |t| > 0 && t[0] == '\n' && t[|t| - 1] == '\n'
    ensures var t := Render(AddedComment(file, url, description, repository, imageUrl));
      |t| > 0 && t[0] == '\n' && t[|t| - 1] == '\n'
    ensures var t := Render(DeletedComment(file, oldOwner, prOwner, authorized));
      |t| > 0 && t[0] == '\n' && t[|t| - 1] == '\n'
  {
    Framed(ContentChangeComment(file, url, description, repository,
                                oldOwner, newOwner, prOwner, authorized, imageUrl));
    Framed(AddedComment(file, url, description, repository, imageUrl));
    Framed(DeletedComment(file, oldOwner, prOwner, authorized));
  }
}
