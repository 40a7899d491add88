/**
  `fetch_html` of the price monitor and the retry policy wrapped around it:
  a request is tried at most four times, a failed attempt raises
  `FetchError`, and the waits between attempts grow exponentially from one
  second, clamped to [1, 16] seconds. The network is a parameter: for each
  attempt number it says what the server answered.
*/
module Fetcher {
  import opened Wrappers
  import opened Text
  import opened PriceParsing

  /** What one `requests.get` produced: a response with its status and parsed page, or a raised `RequestException`. */
  datatype Response =
    | Reply(status: int, page: Page)
    | ConnectionFailed(message: string)

  /** The answers of the server, attempt by attempt (attempts are numbered from 1). */
  type Server = nat -> Response

  /** `stop_after_attempt(4)`. */
  const MaxAttempts: nat := 4

  /** The bounds of `wait_exponential(multiplier=1, min=1, max=16)`, in seconds. */
  const MinWait: nat := 1
  const MaxWait: nat := 16

  /** The message of the `FetchError` raised for an HTTP error status. */
  function HttpErrorMessage(status: int, url: string): string {
    "HTTP " + IntToString(status) + " on " + url
  }

  /**
    One call of `fetch_html`: a status of 400 or more, or a connection error,
    raises `FetchError` with its message; otherwise the page is returned.
  */
  function Attempt(url: string, r: Response): (res: Result<Page, string>)
    ensures res.Ok? <==> r.Reply? && r.status < 400
    ensures res.Ok? ==> res.value == r.page
    ensures r.ConnectionFailed? ==> res == Err(r.message)
    ensures r.Reply? && r.status >= 400 ==> res == Err(HttpErrorMessage(r.status, url))
  {
    match r
    case ConnectionFailed(m) => Err(m)
    case Reply(status, page) =>
      if status >= 400 then Err(HttpErrorMessage(status, url)) else Ok(page)
  }

  function Pow2(n: nat): (p: nat)
    ensures p >= 1
  {
    if n == 0 then 1 else 2 * Pow2(n - 1)
  }

  /** The wait, in seconds, that `wait_exponential` chooses after failed attempt number `n`. */
  function Backoff(n: nat): (w: nat)
    requires n >= 1
    ensures MinWait <= w <= MaxWait
  {
    var raw := Pow2(n - 1);
    if raw < MinWait then MinWait else if raw > MaxWait then MaxWait else raw
  }

  /**
    The outcome of the retry loop from attempt `n` on: the first successful
    attempt, or the error of the last attempt once the attempts are used
    up (`reraise=True` re-raises that error itself).
  */
  function FetchFrom(url: string, server: Server, n: nat): Result<Page, string>
    requires 1 <= n <= MaxAttempts
    decreases MaxAttempts - n
  {
    var r := Attempt(url, server(n));
    if r.Ok? || n == MaxAttempts then r else FetchFrom(url, server, n + 1)
  }

  /** The number of attempts the retry loop makes from attempt `n` on. */
  function AttemptsFrom(url: string, server: Server, n: nat): (k: nat)
    requires 1 <= n <= MaxAttempts
    ensures n <= k <= MaxAttempts
    decreases MaxAttempts - n
  {
    if Attempt(url, server(n)).Ok? || n == MaxAttempts then n else AttemptsFrom(url, server, n + 1)
  }

  /** The waits between `k` attempts: one after each attempt but the last. */
  function WaitsBefore(k: nat): (ws: seq<nat>)
    ensures |ws| == if k == 0 then 0 else k - 1
    ensures forall i :: 0 <= i < |ws| ==> ws[i] == Backoff(i + 1)
  {
    if k <= 1 then [] else WaitsBefore(k - 1) + [Backoff(k - 1)]
  }

  /**
    The decorated `fetch_html`: attempts until one succeeds or four have
    failed, recording the wait chosen after each failed attempt that is
    followed by another.
  */
  method FetchWithRetry(url: string, server: Server) returns (result: Result<Page, string>, waits: seq<nat>)
    ensures result == FetchFrom(url, server, 1)
    ensures waits == WaitsBefore(AttemptsFrom(url, server, 1))
  {
    var n := 1;
    waits := [];
    result := Attempt(url, server(n));
    while result.Err? && n < MaxAttempts
      invariant 1 <= n <= MaxAttempts
      invariant result == Attempt(url, server(n))
      invariant FetchFrom(url, server, 1) == FetchFrom(url, server, n)
      invariant AttemptsFrom(url, server, 1) == AttemptsFrom(url, server, n)
      invariant waits == WaitsBefore(n)
      decreases MaxAttempts - n
    {
      waits := waits + [Backoff(n)];
      n := n + 1;
      result := Attempt(url, server(n));
    }
  }

  /**
    The retry loop succeeds exactly when some attempt within the first four
    succeeds, and then returns the page of the first one that does.
  */
  lemma {:induction false} FetchSucceedsIff(url: string, server: Server, n: nat)
    requires 1 <= n <= MaxAttempts
    ensures FetchFrom(url, server, n).Ok? <==> exists m :: n <= m <= MaxAttempts && Attempt(url, server(m)).Ok?
    ensures FetchFrom(url, server, n).Ok? ==>
      var m := AttemptsFrom(url, server, n);
      && Attempt(url, server(m)).Ok?
      && FetchFrom(url, server, n).value == server(m).page
      && forall l :: n <= l < m ==> Attempt(url, server(l)).Err?
    decreases MaxAttempts - n
  {
    if !Attempt(url, server(n)).Ok? && n < MaxAttempts {
      FetchSucceedsIff(url, server, n + 1);
    }
  }

  /** When every attempt fails, the error raised is the last attempt's own. */
  lemma {:induction false} FetchFailsWithLastError(url: string, server: Server, n: nat)
    requires 1 <= n <= MaxAttempts
    requires forall m :: n <= m <= MaxAttempts ==> Attempt(url, server(m)).Err?
    ensures FetchFrom(url, server, n) == Attempt(url, server(MaxAttempts))
    ensures AttemptsFrom(url, server, n) == MaxAttempts
    decreases MaxAttempts - n
  {
    if n < MaxAttempts {
      FetchFailsWithLastError(url, server, n + 1);
    }
  }

  /**
    The waits actually used are 1, 2 and 4 seconds: the loop stops before the
    clamp at 16 seconds can matter.
  */
  lemma BackoffSchedule()
    ensures WaitsBefore(MaxAttempts) == [1, 2, 4]
    ensures forall n :: 1 <= n < MaxAttempts ==> Backoff(n) == Pow2(n - 1) < MaxWait
  {
    assert Backoff(1) == 1 && Backoff(2) == 2 && Backoff(3) == 4;
  }

  /** A server that fails three times and then answers is still read. */
  lemma FourthAttemptSucceeds(url: string, server: Server)
    requires forall m :: 1 <= m < MaxAttempts ==> server(m).ConnectionFailed?
    requires server(MaxAttempts).Reply? && server(MaxAttempts).status < 400
    ensures FetchFrom(url, server, 1) == Ok(server(MaxAttempts).page)
    ensures WaitsBefore(AttemptsFrom(url, server, 1)) == [1, 2, 4]
  {
    FetchSucceedsIff(url, server, 1);
    BackoffSchedule();
  }
}
