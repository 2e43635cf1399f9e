/** The outside world as this model sees it: the replies that HTTP services
    give, the rule by which a reply counts as a success, and the log of side
    effects (requests, timer waits, posted comments) that a run performs. */
module Effects {

  type Bytes = seq<bv8>

  /** Either a value or an error, for the operations that throw in the source. */
  datatype Result<+T, +E> = Ok(value: T) | Err(error: E)

  /** A JSON key that may be absent. */
  datatype Option<+T> = None | Some(value: T)

  /** What one HTTP request gives back: either the transport throws
      (connection refused, a status axios rejects, a timeout) or an answer
      with a status code and a body arrives. */
  datatype Reply<+T> = Thrown | Answer(status: int, body: T)

  /** Why one request did not succeed. */
  datatype Failure = Transport | BadStatus(status: int)

  const StatusOk := 200

  /** The success rule shared by every helper: a reply succeeds exactly when
      it arrived with status 200; any other status fails like a throw. */
  function Accept<T>(reply: Reply<T>): (r: Result<T, Failure>)
    ensures r.Ok? <==> reply.Answer? && reply.status == StatusOk
    ensures r.Ok? ==> r.value == reply.body
    ensures reply.Thrown? ==> r == Err(Transport)
    ensures reply.Answer? && reply.status != StatusOk ==> r == Err(BadStatus(reply.status))
  {
    match reply
    case Thrown => Err(Transport)
    case Answer(status, body) =>
      if status == StatusOk then Ok(body) else Err(BadStatus(status))
  }

  predicate Succeeds<T>(reply: Reply<T>) {
    Accept(reply).Ok?
  }

  /** One observable side effect, in the order the run performs it. */
  datatype Event =
    | Get(url: string)          // one attempt at fetching a raw file
    | Wait(ms: nat)             // one timer suspension
    | Capture(target: string)   // one screenshot request for a target URL
    | Upload(image: Bytes)      // one upload of a screenshot to the image host
    | Post(body: string)        // one pull-request comment sent to GitHub (it may be refused)

  /** Number of events of the log equal to `e`. */
  function Occurrences(log: seq<Event>, e: Event): (n: nat)
    ensures n <= |log|
    ensures n == 0 <==> e !in log
  {
    if log == [] then 0
    else Occurrences(log[..|log| - 1], e) + (if log[|log| - 1] == e then 1 else 0)
  }

  lemma {:induction false} OccurrencesAppend(a: seq<Event>, b: seq<Event>, e: Event)
    ensures Occurrences(a + b, e) == Occurrences(a, e) + Occurrences(b, e)
  {
    if b == [] {
      assert a + b == a;
    } else {
      assert (a + b)[..|a + b| - 1] == a + b[..|b| - 1];
      OccurrencesAppend(a, b[..|b| - 1], e);
    }
  }

  /** The bodies of the comments sent to GitHub, in order, whether or not
      GitHub accepted them. */
  function Sent(log: seq<Event>): (bodies: seq<string>)
    ensures |bodies| <= |log|
    ensures forall b :: b in bodies <==> Post(b) in log
  {
    if log == [] then []
    else
      var last := log[|log| - 1];
      Sent(log[..|log| - 1]) + (if last.Post? then [last.body] else [])
  }

  lemma {:induction false} SentAppend(a: seq<Event>, b: seq<Event>)
    ensures Sent(a + b) == Sent(a) + Sent(b)
  {
    if b == [] {
      assert a + b == a;
    } else {
      assert (a + b)[..|a + b| - 1] == a + b[..|b| - 1];
      SentAppend(a, b[..|b| - 1]);
    }
  }
}
