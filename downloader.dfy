/**
 * The download engine (pkg/downloader), one job and one worker at a time.
 *
 * The filesystem is a map from path to contents. Each HTTP attempt is an
 * oracle outcome, `attempt(n)` for try n; whether the final rename succeeds is
 * another. Sleeps are not performed: `Download` returns the delays it asks for.
 */
module Downloader {
  import opened Wrappers

  const DefaultRetries: int := 3
  /** time.Second, in nanoseconds. */
  const Second: int := 1_000_000_000
  const DefaultRetryDelay: int := 5 * Second

  type Bytes = seq<bv8>
  type FileSystem = map<string, Bytes>

  /** A job: where to fetch from, where to store, how often to try, the backoff unit. */
  datatype File = File(url: string, localPath: string, retries: int, retryDelay: int)

  function NewFile(url: string, localPath: string): (f: File)
    ensures f.url == url && f.localPath == localPath
    ensures f.retries == 3 && f.retryDelay == 5 * Second
  {
    File(url, localPath, DefaultRetries, DefaultRetryDelay)
  }

  /** os.Stat succeeds on the local path. */
  predicate Exists(f: File, fs: FileSystem) {
    f.localPath in fs
  }

  /** Writing or removing the temp file never makes the target exist or vanish. */
  lemma ExistsIgnoresTemp(f: File, fs: FileSystem, body: Bytes)
    ensures Exists(f, fs[IncompletePath(f) := body]) == Exists(f, fs)
    ensures Exists(f, fs - {IncompletePath(f)}) == Exists(f, fs)
  {
    assert IncompletePath(f) != f.localPath;
  }

  function IncompletePath(f: File): (temp: string)
    ensures |temp| > |f.localPath| && temp[..|f.localPath|] == f.localPath
  {
    f.localPath + ".incomplete"
  }

  /** How one attempt of downloadIncomplete goes. */
  datatype Attempt =
    | RequestFailed            // building the request or client.Do fails
    | MkdirFailed              // the response came; creating the parent directories fails
    | CreateFailed             // creating the temp file fails
    | CopyFailed(partial: Bytes)  // the body copy breaks off after writing partial
    | Fetched(body: Bytes)     // the whole body is written

  datatype Error = RequestError | MkdirError | CreateError | CopyError | RenameError

  /** The error an attempt ends with, None for a complete body. */
  function AttemptError(a: Attempt): (e: Option<Error>)
    ensures e.None? <==> a.Fetched?
  {
    match a
    case RequestFailed => Some(RequestError)
    case MkdirFailed => Some(MkdirError)
    case CreateFailed => Some(CreateError)
    case CopyFailed(_) => Some(CopyError)
    case Fetched(_) => None
  }

  /**
   * One attempt: nothing on disk changes before a response arrives; after it,
   * the old temp file is removed, then the directories and the file are
   * created and the body is written. No other path is touched.
   */
  method DownloadIncomplete(temp: string, fs: FileSystem, a: Attempt) returns (err: Option<Error>, fs': FileSystem)
    ensures err == AttemptError(a)
    ensures a.RequestFailed? ==> fs' == fs
    ensures fs' - {temp} == fs - {temp}
    ensures (a.MkdirFailed? || a.CreateFailed?) ==> temp !in fs'
    ensures a.CopyFailed? ==> temp in fs' && fs'[temp] == a.partial
    ensures a.Fetched? ==> temp in fs' && fs'[temp] == a.body
  {
    if a.RequestFailed? {
      return Some(RequestError), fs;
    }
    fs' := fs - {temp};
    if a.MkdirFailed? {
      return Some(MkdirError), fs';
    }
    if a.CreateFailed? {
      return Some(CreateError), fs';
    }
    fs' := fs'[temp := []];
    match a
    case CopyFailed(partial) =>
      fs' := fs'[temp := partial];
      err := Some(CopyError);
    case Fetched(body) =>
      fs' := fs'[temp := body];
      err := None;
  }

  /** The first try in 1..retries whose attempt fetches the whole body. */
  function FirstFetch(attempt: nat -> Attempt, retries: int): (r: Option<nat>)
    ensures r.Some? ==> 1 <= r.value <= retries && attempt(r.value).Fetched?
    ensures r.Some? ==> forall k :: 1 <= k < r.value ==> !attempt(k).Fetched?
    ensures r.None? ==> forall k :: 1 <= k <= retries ==> !attempt(k).Fetched?
    decreases if retries < 0 then 0 else retries
  {
    if retries <= 0 then None
    else match FirstFetch(attempt, retries - 1)
      case Some(k) => Some(k)
      case None => if attempt(retries).Fetched? then Some(retries) else None
  }

  /** The delays slept after the first k failed tries: delay * 1, ..., delay * k. */
  function Backoff(delay: int, k: nat): (r: seq<int>)
    ensures |r| == k && forall i :: 0 <= i < k ==> r[i] == delay * (i + 1)
  {
    seq(k, i requires 0 <= i < k => delay * (i + 1))
  }

  function Sum(s: seq<int>): int
    decreases |s|
  {
    if s == [] then 0 else Sum(s[..|s| - 1]) + s[|s| - 1]
  }

  /** Failing k times costs delay * k * (k + 1) / 2 of sleep in all. */
  lemma {:induction false} BackoffTotal(delay: int, k: nat)
    ensures 2 * Sum(Backoff(delay, k)) == delay * k * (k + 1)
    decreases k
  {
    if k > 0 {
      BackoffTotal(delay, k - 1);
      assert Backoff(delay, k)[..k - 1] == Backoff(delay, k - 1);
      calc {
        2 * Sum(Backoff(delay, k));
        2 * Sum(Backoff(delay, k - 1)) + 2 * (delay * k);
        delay * (k - 1) * k + 2 * (delay * k);
        { assert delay * (k - 1) * k == delay * k * k - delay * k; }
        delay * k * (k + 1);
      }
    }
  }

  /** A job made by NewFile that fails all three tries sleeps 5 + 10 + 15 seconds. */
  lemma NewFileBackoff(url: string, localPath: string)
    ensures Sum(Backoff(NewFile(url, localPath).retryDelay, NewFile(url, localPath).retries)) == 30 * Second
  {
    BackoffTotal(DefaultRetryDelay, 3);
  }

  /**
   * The retry loop of Download: try up to retries times, sleeping
   * retryDelay * n after failed try n, and stop at the first complete body.
   */
  method Retry(f: File, temp: string, fs: FileSystem, attempt: nat -> Attempt)
    returns (err: Option<Error>, fs': FileSystem, tries: nat, sleeps: seq<int>)
    ensures fs' - {temp} == fs - {temp}
    ensures match FirstFetch(attempt, f.retries)
      case Some(k) =>
        && err == None && tries == k && sleeps == Backoff(f.retryDelay, k - 1)
        && temp in fs' && fs'[temp] == attempt(k).body
      case None =>
        && tries == (if f.retries < 0 then 0 else f.retries)
        && sleeps == Backoff(f.retryDelay, tries)
        && (f.retries >= 1 ==> err == AttemptError(attempt(f.retries)) && err.Some?)
        && (f.retries < 1 ==> err == None && fs' == fs)
  {
    err, fs', tries, sleeps := None, fs, 0, [];
    var n := 1;
    while n <= f.retries
      invariant 1 <= n <= (if f.retries >= 1 then f.retries + 1 else 1)
      invariant tries == n - 1
      invariant FirstFetch(attempt, n - 1).None?
      invariant fs' - {temp} == fs - {temp}
      invariant sleeps == Backoff(f.retryDelay, n - 1)
      invariant n == 1 ==> err == None && fs' == fs
      invariant n > 1 ==> err == AttemptError(attempt(n - 1)) && err.Some?
    {
      err, fs' := DownloadIncomplete(temp, fs', attempt(n));
      tries := n;
      if err == None {
        FirstFetchFrom(attempt, n, f.retries);
        return;
      }
      sleeps := sleeps + [f.retryDelay * n];
      assert sleeps == Backoff(f.retryDelay, n);
      n := n + 1;
    }
  }

  /**
   * The end of Download: after a loop without error, rename the temp file onto
   * the target (failing when there is no temp file); then the deferred
   * removal of the temp file.
   */
  method Finish(temp: string, localPath: string, fs: FileSystem, err: Option<Error>, renameOk: bool)
    returns (err': Option<Error>, fs': FileSystem)
    requires temp != localPath
    ensures temp !in fs'
    ensures err == None && temp in fs && renameOk ==>
      err' == None && fs' == (fs - {temp})[localPath := fs[temp]]
    ensures !(err == None && temp in fs && renameOk) ==>
      err' == (if err == None then Some(RenameError) else err) && fs' == fs - {temp}
  {
    err', fs' := err, fs;
    if err == None {
      if temp in fs' && renameOk {
        fs' := fs'[localPath := fs'[temp]] - {temp};
      } else {
        err' := Some(RenameError);
      }
    }
    fs' := fs' - {temp};
  }

  /**
   * Download: skip an existing target; otherwise retry, then rename the temp
   * file onto the target. The temp file is gone on every exit, and the target
   * appears exactly when no error is returned.
   */
  method Download(f: File, fs: FileSystem, attempt: nat -> Attempt, renameOk: bool)
    returns (err: Option<Error>, fs': FileSystem, tries: nat, sleeps: seq<int>)
    ensures Exists(f, fs) ==> err == None && fs' == fs && tries == 0 && sleeps == []
    ensures !Exists(f, fs) ==> IncompletePath(f) !in fs'
    ensures !Exists(f, fs) ==> (err == None <==> f.localPath in fs')
    ensures fs' - {IncompletePath(f), f.localPath} == fs - {IncompletePath(f), f.localPath}
    ensures !Exists(f, fs) ==> match FirstFetch(attempt, f.retries)
      case Some(k) =>
        && tries == k
        && sleeps == Backoff(f.retryDelay, k - 1)
        && (renameOk ==> err == None && fs' == (fs - {IncompletePath(f)})[f.localPath := attempt(k).body])
        && (!renameOk ==> err == Some(RenameError) && fs' == fs - {IncompletePath(f)})
      case None =>
        && tries == (if f.retries < 0 then 0 else f.retries)
        && sleeps == Backoff(f.retryDelay, tries)
        && (f.retries >= 1 ==> err == AttemptError(attempt(f.retries)) && fs' == fs - {IncompletePath(f)})
        && (f.retries < 1 ==> (if renameOk && IncompletePath(f) in fs
                               then err == None && fs' == (fs - {IncompletePath(f)})[f.localPath := fs[IncompletePath(f)]]
                               else err == Some(RenameError) && fs' == fs - {IncompletePath(f)}))
  {
    if f.localPath in fs {
      return None, fs, 0, [];
    }
    var temp := f.localPath + ".incomplete";
    assert temp == IncompletePath(f);
    var fs1;
    err, fs1, tries, sleeps := Retry(f, temp, fs, attempt);
    err, fs' := Finish(temp, f.localPath, fs1, err, renameOk);
    if err == None {
      assert (fs1 - {temp})[f.localPath := fs1[temp]] == (fs - {temp})[f.localPath := fs1[temp]];
    }
  }

  /** A first complete body at try n stays the first one whatever the retry bound. */
  lemma {:induction false} FirstFetchFrom(attempt: nat -> Attempt, n: nat, retries: int)
    requires 1 <= n <= retries
    requires FirstFetch(attempt, n - 1).None? && attempt(n).Fetched?
    ensures FirstFetch(attempt, retries) == Some(n)
    decreases retries
  {
    if retries > n {
      FirstFetchFrom(attempt, n, retries - 1);
    }
  }

  /** The number of failed jobs at the end of the results: continuousWarnings. */
  function Streak(failures: seq<bool>): nat
    decreases |failures|
  {
    if failures == [] then 0
    else if failures[|failures| - 1] then Streak(failures[..|failures| - 1]) + 1
    else 0
  }

  /** The counter is at least m exactly when the last m jobs all failed. */
  lemma {:induction false} StreakIsTrailingRun(failures: seq<bool>, m: nat)
    ensures Streak(failures) >= m <==> m <= |failures| && forall i :: |failures| - m <= i < |failures| ==> failures[i]
    decreases |failures|
  {
    if failures != [] && m > 0 {
      var init := failures[..|failures| - 1];
      StreakIsTrailingRun(init, m - 1);
      assert forall i :: 0 <= i < |init| ==> init[i] == failures[i];
    }
  }

  /**
   * One worker's loop over the results of its jobs (true: Download returned an
   * error). It counts consecutive failures, resets on success, and with a
   * positive limit leaves as soon as the count reaches the limit.
   */
  method Work(limit: int, failures: seq<bool>) returns (processed: nat, continuousWarnings: nat)
    ensures processed <= |failures|
    ensures continuousWarnings == Streak(failures[..processed])
    ensures limit <= 0 ==> processed == |failures|
    ensures limit > 0 ==> forall k :: 0 <= k < processed ==> Streak(failures[..k]) < limit
    ensures processed < |failures| ==> limit > 0 && continuousWarnings == limit
  {
    processed, continuousWarnings := 0, 0;
    while processed < |failures|
      invariant processed <= |failures|
      invariant continuousWarnings == Streak(failures[..processed])
      invariant limit > 0 ==> forall k :: 0 <= k <= processed ==> Streak(failures[..k]) < limit
    {
      var failed := failures[processed];
      assert failures[..processed + 1][..processed] == failures[..processed];
      processed := processed + 1;
      if failed {
        continuousWarnings := continuousWarnings + 1;
        if limit > 0 && continuousWarnings >= limit {
          return;
        }
      } else {
        continuousWarnings := 0;
      }
    }
  }

  /** A run of limit failures ending at job j trips the breaker by then. */
  lemma RunTripsBreaker(failures: seq<bool>, j: nat, limit: nat)
    requires limit <= j <= |failures|
    requires forall i :: j - limit <= i < j ==> failures[i]
    ensures Streak(failures[..j]) >= limit
  {
    StreakIsTrailingRun(failures[..j], limit);
  }

  /** The options the OptionFuncs fill in. */
  datatype Options = Options(proxyURL: string, timeout: int, threads: int, warnAsErrorLimit: int)

  datatype OptionFunc =
    | WithProxy(proxyURL: string)
    | WithTimeout(timeout: int)
    | WithThreads(threads: int)
    | WithWarnAsErrorLimit(limit: int)

  /** One option function: it sets its own field and leaves the other three. */
  function Apply(o: Options, fo: OptionFunc): (r: Options)
    ensures Shows(r, fo)
    ensures fo.WithProxy? || r.proxyURL == o.proxyURL
    ensures fo.WithTimeout? || r.timeout == o.timeout
    ensures fo.WithThreads? || r.threads == o.threads
    ensures fo.WithWarnAsErrorLimit? || r.warnAsErrorLimit == o.warnAsErrorLimit
  {
    match fo
    case WithProxy(p) => o.(proxyURL := p)
    case WithTimeout(t) => o.(timeout := t)
    case WithThreads(n) => o.(threads := n)
    case WithWarnAsErrorLimit(l) => o.(warnAsErrorLimit := l)
  }

  /** The options after applying the functions in order to zero-valued Options. */
  function Configure(options: seq<OptionFunc>): Options
    decreases |options|
  {
    if options == [] then Options("", 0, 0, 0)
    else Apply(Configure(options[..|options| - 1]), options[|options| - 1])
  }

  predicate SameKind(f: OptionFunc, g: OptionFunc) {
    (f.WithProxy? && g.WithProxy?) || (f.WithTimeout? && g.WithTimeout?)
    || (f.WithThreads? && g.WithThreads?) || (f.WithWarnAsErrorLimit? && g.WithWarnAsErrorLimit?)
  }

  /** The field that fo sets holds fo's value. */
  predicate Shows(o: Options, fo: OptionFunc) {
    match fo
    case WithProxy(p) => o.proxyURL == p
    case WithTimeout(t) => o.timeout == t
    case WithThreads(n) => o.threads == n
    case WithWarnAsErrorLimit(l) => o.warnAsErrorLimit == l
  }

  /** The last option of each kind wins; options of other kinds leave it alone. */
  lemma {:induction false} LastOptionWins(before: seq<OptionFunc>, fo: OptionFunc, after: seq<OptionFunc>)
    requires forall i :: 0 <= i < |after| ==> !SameKind(after[i], fo)
    ensures Shows(Configure(before + [fo] + after), fo)
    decreases |after|
  {
    if after == [] {
      assert before + [fo] + after == before + [fo];
      assert (before + [fo])[..|before|] == before;
    } else {
      var init := after[..|after| - 1];
      LastOptionWins(before, fo, init);
      var all := before + [fo] + after;
      assert all[..|all| - 1] == before + [fo] + init;
    }
  }

  method CollectOptions(options: seq<OptionFunc>) returns (o: Options)
    ensures o == Configure(options)
  {
    o := Options("", 0, 0, 0);
    for i := 0 to |options|
      invariant o == Configure(options[..i])
    {
      o := Apply(o, options[i]);
      assert options[..i + 1][..i] == options[..i];
    }
    assert options[..|options|] == options;
  }

  /** The settings a worker reads (the HTTP client is not modelled). */
  datatype Downloader = Downloader(threads: int, warnAsErrorLimit: int)

  /** New as written: at least one thread, and the limit is never copied, so it stays 0. */
  method New(options: seq<OptionFunc>) returns (d: Downloader)
    ensures d.threads >= 1
    ensures d.threads == if Configure(options).threads > 1 then Configure(options).threads else 1
    ensures d.warnAsErrorLimit == 0
  {
    var o := CollectOptions(options);
    d := Downloader(if 1 > o.threads then 1 else o.threads, 0);
  }

  /** New as evidently intended: the limit is copied from the options. */
  method NewCorrected(options: seq<OptionFunc>) returns (d: Downloader)
    ensures d.threads >= 1
    ensures d.threads == if Configure(options).threads > 1 then Configure(options).threads else 1
    ensures d.warnAsErrorLimit == Configure(options).warnAsErrorLimit
  {
    var o := CollectOptions(options);
    d := Downloader(if 1 > o.threads then 1 else o.threads, o.warnAsErrorLimit);
  }

  /**
   * One worker of a downloader built by the corrected constructor: the limit
   * given in the options decides when it leaves.
   */
  method RunWorker(options: seq<OptionFunc>, failures: seq<bool>) returns (processed: nat, continuousWarnings: nat)
    ensures processed <= |failures| && continuousWarnings == Streak(failures[..processed])
    ensures Configure(options).warnAsErrorLimit <= 0 ==> processed == |failures|
    ensures Configure(options).warnAsErrorLimit > 0 ==>
      forall k :: 0 <= k < processed ==> Streak(failures[..k]) < Configure(options).warnAsErrorLimit
    ensures processed < |failures| ==> continuousWarnings == Configure(options).warnAsErrorLimit
  {
    var d := NewCorrected(options);
    processed, continuousWarnings := Work(d.warnAsErrorLimit, failures);
  }

  /**
   * The corrected downloader with the command line's limit of 1 leaves at the
   * first failing job.
   */
  method CorrectedWorkerStops(failures: seq<bool>) returns (processed: nat)
    requires |failures| > 0 && failures[0]
    ensures Configure([WithWarnAsErrorLimit(1)]).warnAsErrorLimit == 1
    ensures processed == 1
  {
    LastOptionWins([], WithWarnAsErrorLimit(1), []);
    var counter;
    processed, counter := RunWorker([WithWarnAsErrorLimit(1)], failures);
    assert failures[..1] == [failures[0]] && failures[..1][..0] == [];
    assert Streak(failures[..1]) == 1;
  }

  /**
   * The discrepancy: asking for a limit of 1 (the command line's default)
   * configures 1, yet New's downloader carries 0, and its worker processes
   * every job however many fail in a row.
   */
  method WarnLimitDropped(failures: seq<bool>) returns (d: Downloader, processed: nat)
    ensures Configure([WithWarnAsErrorLimit(1)]).warnAsErrorLimit == 1
    ensures Configure([WithThreads(4), WithWarnAsErrorLimit(1)]).warnAsErrorLimit == 1
    ensures d.warnAsErrorLimit == 0
    ensures processed == |failures|
  {
    LastOptionWins([], WithWarnAsErrorLimit(1), []);
    LastOptionWins([WithThreads(4)], WithWarnAsErrorLimit(1), []);
    d := New([WithWarnAsErrorLimit(1)]);
    var counter;
    processed, counter := Work(d.warnAsErrorLimit, failures);
  }
}
