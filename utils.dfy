/** The raw-file fetcher: one URL with bounded retries, and a batch of URLs
    whose failures are dropped. Each network attempt is an input: the
    function `attempt` gives the reply to the k-th attempt (counting from 0). */
module Utils {
  import opened Effects
  import opened Records

  /** Default attempt budget of `getRawFileContent` (utils.js:8, 12). */
  const GetFileMaxRetries := 2

  /** Pause after a failed attempt that is not the last one (utils.js:35). */
  const RetryDelayMs := 1000

  /** `attempt(k)` is the reply to the k-th attempt at one URL. */
  type Attempts = nat -> Reply<FileContent>

  /** The two errors `getRawFileContent` throws. */
  datatype FetchError =
    | Exhausted(maxRetries: int, last: Failure)  // every allowed attempt failed (utils.js:29-33)
    | NoAttempt(maxRetries: int)                 // the budget allowed no attempt at all (utils.js:39-41)

  /** The leftmost attempt in [from, n) that succeeds, if any. */
  function FirstSuccess(attempt: Attempts, from: nat, n: nat): (r: Option<nat>)
    decreases n - from
    ensures r.Some? ==> from <= r.value < n && Succeeds(attempt(r.value))
    ensures r.Some? ==> forall j :: from <= j < r.value ==> !Succeeds(attempt(j))
    ensures r.None? ==> forall j :: from <= j < n ==> !Succeeds(attempt(j))
  {
    if from >= n then None
    else if Succeeds(attempt(from)) then Some(from)
    else FirstSuccess(attempt, from + 1, n)
  }

  /** The events of `n` attempts at `url`: a GET per attempt and a pause
      between two consecutive attempts, none before the first or after the last. */
  function RetryLog(url: string, n: nat): seq<Event> {
    if n == 0 then []
    else if n == 1 then [Get(url)]
    else RetryLog(url, n - 1) + [Wait(RetryDelayMs), Get(url)]
  }

  /** A fetch only reads: its log holds GETs of its own URL and one-second
      pauses, nothing else. */
  lemma {:induction false} RetryLogEvents(url: string, n: nat)
    ensures forall e :: e in RetryLog(url, n) ==> e == Get(url) || e == Wait(RetryDelayMs)
  {
    if n >= 2 {
      RetryLogEvents(url, n - 1);
    }
  }

  lemma FetchLogEvents(url: string, maxRetries: int, attempt: Attempts)
    ensures forall e :: e in Fetch(url, maxRetries, attempt).log ==> e == Get(url) || e == Wait(RetryDelayMs)
  {
    if maxRetries > 0 {
      match FirstSuccess(attempt, 0, maxRetries)
      case Some(k) => RetryLogEvents(url, k + 1);
      case None => RetryLogEvents(url, maxRetries);
    }
  }

  /** The retry log alternates GET and pause, starting and ending with a GET. */
  lemma {:induction false} RetryLogAlternates(url: string, n: nat)
    ensures |RetryLog(url, n)| == if n == 0 then 0 else 2 * n - 1
    ensures forall i :: 0 <= i < |RetryLog(url, n)| ==>
      RetryLog(url, n)[i] == if i % 2 == 0 then Get(url) else Wait(RetryDelayMs)
  {
    if n >= 2 {
      RetryLogAlternates(url, n - 1);
    }
  }

  /** What one call of `getRawFileContent` returns (or throws) and the events it performs. */
  datatype Fetched = Fetched(result: Result<FileContent, FetchError>, log: seq<Event>)

  /** The specification of `getRawFileContent(url, maxRetries)`: the payload of
      the first attempt answered with status 200, attempts stopping there; or,
      when every allowed attempt fails, the error of the last one. */
  function Fetch(url: string, maxRetries: int, attempt: Attempts): Fetched {
    if maxRetries <= 0 then Fetched(Err(NoAttempt(maxRetries)), [])
    else
      match FirstSuccess(attempt, 0, maxRetries)
      case Some(k) => Fetched(Ok(attempt(k).body), RetryLog(url, k + 1))
      case None =>
        Fetched(Err(Exhausted(maxRetries, Accept(attempt(maxRetries - 1)).error)),
                RetryLog(url, maxRetries))
  }

  /** utils.js:10-42. The `while` loop over the mutable `retries` counter. */
  method GetRawFileContent(rawFileUrl: string, maxRetries: int, attempt: Attempts)
    returns (r: Result<FileContent, FetchError>, log: seq<Event>)
    ensures Fetched(r, log) == Fetch(rawFileUrl, maxRetries, attempt)
  {
    log := [];
    var retries := 0;
    while retries < maxRetries
      invariant 0 <= retries && (retries == 0 || retries < maxRetries)
      invariant forall j :: 0 <= j < retries ==> !Succeeds(attempt(j))
      invariant log == if retries == 0 then [] else RetryLog(rawFileUrl, retries) + [Wait(RetryDelayMs)]
    {
      var response := attempt(retries);
      log := log + [Get(rawFileUrl)];
      var failure: Failure;
      if response.Answer? {
        if response.status == StatusOk {
          return Ok(response.body), log;
        }
        failure := BadStatus(response.status);
      } else {
        failure := Transport;
      }
      retries := retries + 1;
      if retries >= maxRetries {
        return Err(Exhausted(maxRetries, failure)), log;
      }
      log := log + [Wait(RetryDelayMs)];
    }
    return Err(NoAttempt(maxRetries)), log;
  }

  /** Number of GET attempts in a log. */
  function Gets(log: seq<Event>, url: string): nat {
    Occurrences(log, Get(url))
  }

  /** Number of one-second retry pauses in a log. */
  function RetryWaits(log: seq<Event>): nat {
    Occurrences(log, Wait(RetryDelayMs))
  }

  lemma {:induction false} RetryLogCounts(url: string, n: nat)
    ensures Gets(RetryLog(url, n), url) == n
    ensures RetryWaits(RetryLog(url, n)) == if n == 0 then 0 else n - 1
  {
    if n == 1 {
      assert RetryLog(url, 1) == [] + [Get(url)];
    } else if n >= 2 {
      RetryLogCounts(url, n - 1);
      var pair := [Wait(RetryDelayMs), Get(url)];
      assert pair[..1] == [Wait(RetryDelayMs)] && pair[..1][..0] == [];
      assert Occurrences(pair, Get(url)) == 1;
      assert Occurrences(pair, Wait(RetryDelayMs)) == 1;
      OccurrencesAppend(RetryLog(url, n - 1), pair, Get(url));
      OccurrencesAppend(RetryLog(url, n - 1), pair, Wait(RetryDelayMs));
    }
  }

  /** At most `maxRetries` attempts are made, none when the budget is not
      positive; a pause follows every failed attempt except the last one made,
      so pauses are one fewer than attempts. */
  lemma FetchAttempts(url: string, maxRetries: int, attempt: Attempts)
    ensures var f := Fetch(url, maxRetries, attempt);
      && Gets(f.log, url) <= (if maxRetries <= 0 then 0 else maxRetries)
      && RetryWaits(f.log) == (if Gets(f.log, url) == 0 then 0 else Gets(f.log, url) - 1)
  {
    if maxRetries > 0 {
      match FirstSuccess(attempt, 0, maxRetries)
      case Some(k) => RetryLogCounts(url, k + 1);
      case None => RetryLogCounts(url, maxRetries);
    }
  }

  /** The fetch succeeds exactly when some allowed attempt is answered with
      status 200, and then returns the payload of the first such attempt,
      which is the last attempt made; every failure before it cost one pause. */
  lemma FetchReturnsFirstSuccess(url: string, maxRetries: int, attempt: Attempts)
    ensures var f := Fetch(url, maxRetries, attempt);
      f.result.Ok? <==> exists k :: 0 <= k < maxRetries && Succeeds(attempt(k))
    ensures var f := Fetch(url, maxRetries, attempt);
      f.result.Ok? ==>
        var k := Gets(f.log, url) - 1;
        && 0 <= k < maxRetries
        && Succeeds(attempt(k)) && f.result.value == attempt(k).body
        && (forall j :: 0 <= j < k ==> !Succeeds(attempt(j)))
        && RetryWaits(f.log) == k
  {
    if maxRetries > 0 {
      match FirstSuccess(attempt, 0, maxRetries)
      case Some(k) => RetryLogCounts(url, k + 1);
      case None =>
    }
  }

  /** When every attempt fails, exactly `maxRetries` attempts and
      `maxRetries - 1` pauses happen and the error carries the last failure;
      a budget of zero or less makes no attempt and raises the other error. */
  lemma FetchAllFail(url: string, maxRetries: int, attempt: Attempts)
    requires forall k :: 0 <= k < maxRetries ==> !Succeeds(attempt(k))
    ensures var f := Fetch(url, maxRetries, attempt);
      if maxRetries <= 0 then
        f.result == Err(NoAttempt(maxRetries)) && f.log == []
      else
        && f.result == Err(Exhausted(maxRetries, Accept(attempt(maxRetries - 1)).error))
        && Gets(f.log, url) == maxRetries
        && RetryWaits(f.log) == maxRetries - 1
  {
    if maxRetries > 0 {
      match FirstSuccess(attempt, 0, maxRetries)
      case Some(k) =>
      case None => RetryLogCounts(url, maxRetries);
    }
  }

  /** With the default budget, a URL that fails once and then answers 200
      is fetched in exactly two attempts with one pause between them. */
  lemma FailOnceThenSucceed(url: string, attempt: Attempts)
    requires !Succeeds(attempt(0)) && Succeeds(attempt(1))
    ensures var f := Fetch(url, GetFileMaxRetries, attempt);
      && f.result == Ok(attempt(1).body)
      && f.log == [Get(url), Wait(RetryDelayMs), Get(url)]
  {
    assert FirstSuccess(attempt, 0, 2) == Some(1);
    assert RetryLog(url, 2) == [Get(url)] + [Wait(RetryDelayMs), Get(url)];
  }

  // ----- getAllFilesContent -----

  /** The results of `getRawFileContent` with the default budget for the
      first `n` URLs in turn; `net(i)` answers the attempts for the i-th URL. */
  function BatchResults(rawUrls: seq<string>, net: nat -> Attempts, n: nat): (rs: seq<Result<FileContent, FetchError>>)
    requires n <= |rawUrls|
    ensures |rs| == n
    ensures forall i :: 0 <= i < n ==> rs[i] == Fetch(rawUrls[i], GetFileMaxRetries, net(i)).result
  {
    if n == 0 then []
    else BatchResults(rawUrls, net, n - 1) + [Fetch(rawUrls[n - 1], GetFileMaxRetries, net(n - 1)).result]
  }

  /** The events of fetching the first `n` URLs one after another. */
  function BatchLog(rawUrls: seq<string>, net: nat -> Attempts, n: nat): seq<Event>
    requires n <= |rawUrls|
  {
    if n == 0 then []
    else BatchLog(rawUrls, net, n - 1) + Fetch(rawUrls[n - 1], GetFileMaxRetries, net(n - 1)).log
  }

  /** The payloads of the successful results, in order. */
  function Successes(rs: seq<Result<FileContent, FetchError>>): (s: seq<FileContent>)
    ensures |s| <= |rs|
  {
    if rs == [] then []
    else Successes(rs[..|rs| - 1]) + (if rs[|rs| - 1].Ok? then [rs[|rs| - 1].value] else [])
  }

  lemma SuccessesSnoc(rs: seq<Result<FileContent, FetchError>>, r: Result<FileContent, FetchError>)
    ensures Successes(rs + [r]) == Successes(rs) + (if r.Ok? then [r.value] else [])
  {
  }

  /** The positions of the successful results, in increasing order. */
  function SuccessIndices(rs: seq<Result<FileContent, FetchError>>): (idx: seq<nat>)
    ensures forall j :: 0 <= j < |idx| ==> idx[j] < |rs| && rs[idx[j]].Ok?
    ensures forall j, k :: 0 <= j < k < |idx| ==> idx[j] < idx[k]
    ensures forall i :: 0 <= i < |rs| && rs[i].Ok? ==> i in idx
  {
    if rs == [] then []
    else SuccessIndices(rs[..|rs| - 1]) + (if rs[|rs| - 1].Ok? then [|rs| - 1] else [])
  }

  /** The successes form an order-preserving subsequence of the results that
      keeps every success and drops every failure: the j-th success is the
      payload of the j-th successful result. */
  lemma {:induction false} SuccessesAreOkSubsequence(rs: seq<Result<FileContent, FetchError>>)
    ensures |Successes(rs)| == |SuccessIndices(rs)|
    ensures forall j :: 0 <= j < |Successes(rs)| ==>
      Successes(rs)[j] == rs[SuccessIndices(rs)[j]].value
  {
    if rs != [] {
      SuccessesAreOkSubsequence(rs[..|rs| - 1]);
    }
  }

  /** The batch keeps exactly the failures' complement: if every URL is
      fetched, nothing is dropped; if none is, the result is empty. */
  lemma {:induction false} SuccessesExtremes(rs: seq<Result<FileContent, FetchError>>)
    ensures (forall i :: 0 <= i < |rs| ==> rs[i].Ok?) ==>
      Successes(rs) == seq(|rs|, i requires 0 <= i < |rs| => rs[i].value)
    ensures (forall i :: 0 <= i < |rs| ==> rs[i].Err?) ==> Successes(rs) == []
  {
    if rs != [] {
      SuccessesExtremes(rs[..|rs| - 1]);
    }
  }

  /** utils.js:44-57. Fetches every URL in order with the default budget and
      pushes each payload that arrives; a failed URL is only omitted. */
  method GetAllFilesContent(rawUrls: seq<string>, net: nat -> Attempts)
    returns (fileContents: seq<FileContent>, log: seq<Event>)
    ensures fileContents == Successes(BatchResults(rawUrls, net, |rawUrls|))
    ensures log == BatchLog(rawUrls, net, |rawUrls|)
  {
    fileContents, log := [], [];
    for i := 0 to |rawUrls|
      invariant fileContents == Successes(BatchResults(rawUrls, net, i))
      invariant log == BatchLog(rawUrls, net, i)
    {
      var content, fetchLog := GetRawFileContent(rawUrls[i], GetFileMaxRetries, net(i));
      log := log + fetchLog;
      if content.Ok? {
        fileContents := fileContents + [content.value];
      }
      SuccessesSnoc(BatchResults(rawUrls, net, i), content);
    }
  }
}
