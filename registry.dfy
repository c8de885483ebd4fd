/**
 * The job registry `result_cache`: a dictionary from request id to the state
 * of one background scrape, created by the scrape endpoint, read by the
 * status endpoint, updated by `run_scraper` and pruned by two sweeps.
 *
 * Timestamps are whole seconds of UTC time; the clock is a parameter.
 */
module Registry {
  import opened Wrappers
  import opened Text
  import Crawler

  datatype JobStatus = Processing | Completed | Failed

  /** The name the API reports for a status. */
  function StatusName(s: JobStatus): string {
    match s
    case Processing => "processing"
    case Completed => "completed"
    case Failed => "error"
  }

  /** One cache entry. `completedAt` and `error` are `None` until set. */
  datatype Job = Job(
    status: JobStatus,
    url: string,
    emails: seq<string>,
    pagesScanned: int,
    emailsFound: int,
    startedAt: int,
    completedAt: Option<int>,
    error: Option<string>,
    timestamp: int)

  type Cache = map<string, Job>

  /** The response of `check_status` for a known id. */
  datatype StatusView = StatusView(
    requestId: string,
    status: JobStatus,
    url: string,
    emails: Option<seq<string>>,
    pagesScanned: int,
    emailsFound: int,
    timestamp: int,
    error: Option<string>)

  /** The HTTP status `check_status` raises for an unknown id. */
  const NotFound := 404

  /** The entry the scrape endpoint stores before the background task starts. */
  function NewJob(url: string, now: int): Job {
    Job(Processing, url, [], 0, 0, now, None, None, now)
  }

  /** `check_status`: not found for an unknown id; the emails only once completed; the error only when set. */
  function View(cache: Cache, requestId: string): (r: Result<StatusView, int>)
    ensures r.Err? <==> requestId !in cache
    ensures r.Err? ==> r.error == NotFound
    ensures r.Ok? ==>
      var job := cache[requestId];
      && r.value.requestId == requestId && r.value.status == job.status && r.value.url == job.url
      && r.value.pagesScanned == job.pagesScanned && r.value.emailsFound == job.emailsFound
      && r.value.timestamp == job.timestamp
      && (r.value.emails.Some? <==> job.status == Completed)
      && (r.value.emails.Some? ==> r.value.emails.value == job.emails)
      && (r.value.error.Some? <==> job.error.Some? && job.error.value != "")
      && (r.value.error.Some? ==> r.value.error == job.error)
  {
    if requestId !in cache then Err(NotFound)
    else
      var job := cache[requestId];
      Ok(StatusView(
        requestId, job.status, job.url,
        if job.status == Completed then Some(job.emails) else None,
        job.pagesScanned, job.emailsFound, job.timestamp,
        if job.error.Some? && job.error.value != "" then job.error else None))
  }

  /** The success update of `run_scraper`. */
  function Complete(job: Job, result: Crawler.ScrapeResult, now: int): Job {
    job.(status := Completed, emails := result.emails, pagesScanned := result.pagesScanned,
         emailsFound := |result.emails|, completedAt := Some(now), timestamp := now)
  }

  /** The error update of `run_scraper`: the status, the message and the timestamp, nothing else. */
  function Fail(job: Job, message: string, now: int): Job {
    job.(status := Failed, error := Some(message), timestamp := now)
  }

  /** The message stored when the scrape runs out of time. */
  function TimeoutMessage(timeout: int, url: string): (m: string)
    ensures m != ""
  {
    "Tiempo de espera agotado (" + IntToString(timeout) + "s) para el escaneo de " + url
  }

  /** The message stored when the scrape raises. */
  function CrashMessage(url: string, detail: string): (m: string)
    ensures m != ""
  {
    "Error en scraper para " + url + ": " + detail
  }

  /** How the background scrape ended. */
  datatype RunOutcome = Finished(result: Crawler.ScrapeResult) | TimedOut | Crashed(detail: string)

  /** The entry after `run_scraper`, for an entry still in the cache. */
  function Recorded(job: Job, url: string, timeout: int, outcome: RunOutcome, now: int): Job {
    match outcome
    case Finished(result) => Complete(job, result, now)
    case TimedOut => Fail(job, TimeoutMessage(timeout, url), now)
    case Crashed(detail) => Fail(job, CrashMessage(url, detail), now)
  }

  /** An entry whose age exceeds `limit` seconds at time `now`. */
  predicate Stale(stamp: int, now: int, limit: int) {
    now - stamp > limit
  }

  /**
   * The age the sweeps compute in the source. Both compare a UTC wall-clock
   * reading with a local one (`datetime.now()` against a `utcnow()` stamp, and
   * `time.time()` against a naive UTC stamp read back as local time), so the
   * measured age is the true age plus the server's offset from UTC.
   */
  function MeasuredAge(stamp: int, now: int, utcOffset: int): int {
    (now + utcOffset) - stamp
  }

  predicate StaleAsWritten(stamp: int, now: int, utcOffset: int, limit: int) {
    MeasuredAge(stamp, now, utcOffset) > limit
  }

  /** On a server five hours behind UTC, a two-hour-old entry is not removed by the one-hour sweep. */
  lemma LocalClockKeepsStaleEntry()
    ensures Stale(0, 7200, 3600) && !StaleAsWritten(0, 7200, -18000, 3600)
  {
  }

  /** The measured test agrees with the intended one exactly when the clocks agree. */
  lemma StaleAsWrittenShift(stamp: int, now: int, utcOffset: int, limit: int)
    ensures StaleAsWritten(stamp, now, utcOffset, limit) <==> Stale(stamp, now, limit - utcOffset)
    ensures StaleAsWritten(stamp, now, 0, limit) <==> Stale(stamp, now, limit)
  {
  }

  /** The periodic sweep removes an entry iff it has a completion time older than a day. */
  predicate ExpiredResult(job: Job, now: int) {
    job.completedAt.Some? && Stale(job.completedAt.value, now, 86400)
  }

  /** The per-request sweep removes an entry iff it is not the current one and its timestamp is too old. */
  predicate ExpiredEntry(id: string, job: Job, current: string, now: int, maxAgeHours: int) {
    id != current && Stale(job.timestamp, now, 3600 * maxAgeHours)
  }

  /** The cache with the ids in `gone` removed. */
  function Without(cache: Cache, gone: set<string>): (r: Cache)
    ensures forall id :: id in r <==> id in cache && id !in gone
    ensures forall id :: id in r ==> r[id] == cache[id]
  {
    map id | id in cache && id !in gone :: cache[id]
  }

  function ExpiredResults(cache: Cache, now: int): set<string> {
    set id | id in cache && ExpiredResult(cache[id], now)
  }

  function ExpiredEntries(cache: Cache, current: string, now: int, maxAgeHours: int): set<string> {
    set id | id in cache && ExpiredEntry(id, cache[id], current, now, maxAgeHours)
  }

  /** The submission leaves an entry that reports processing, no emails and no error. */
  lemma ViewAfterSubmit(cache: Cache, requestId: string, url: string, now: int)
    ensures View(cache[requestId := NewJob(url, now)], requestId)
      == Ok(StatusView(requestId, Processing, url, None, 0, 0, now, None))
  {
  }

  /** After a successful scrape the status view exposes exactly the result's emails, and counts them. */
  lemma ViewAfterComplete(cache: Cache, requestId: string, result: Crawler.ScrapeResult, now: int)
    requires requestId in cache
    ensures var v := View(cache[requestId := Complete(cache[requestId], result, now)], requestId);
      && v.Ok? && v.value.status == Completed
      && v.value.emails == Some(result.emails)
      && v.value.emailsFound == |result.emails|
      && v.value.pagesScanned == result.pagesScanned
  {
  }

  /** An error update keeps the emails, counts and completion time; the view shows the message and no emails. */
  lemma ViewAfterFail(cache: Cache, requestId: string, message: string, now: int)
    requires requestId in cache && message != ""
    ensures var job := cache[requestId];
      var failed := Fail(job, message, now);
      && failed.emails == job.emails && failed.pagesScanned == job.pagesScanned
      && failed.emailsFound == job.emailsFound && failed.completedAt == job.completedAt
      && var v := View(cache[requestId := failed], requestId);
         v.Ok? && v.value.status == Failed && v.value.emails == None && v.value.error == Some(message)
  {
  }

  /** A submitted job that then fails never gets a completion time, so the periodic sweep keeps it. */
  lemma FailedJobSurvivesResultSweep(url: string, started: int, message: string, failedAt: int, now: int)
    ensures !ExpiredResult(Fail(NewJob(url, started), message, failedAt), now)
  {
  }

  /** The periodic sweep keeps exactly the entries that were not completed more than a day ago. */
  lemma ResultSweepKeeps(cache: Cache, now: int, id: string)
    ensures id in Without(cache, ExpiredResults(cache, now)) <==>
      id in cache && (cache[id].completedAt.None? || now - cache[id].completedAt.value <= 86400)
  {
  }

  /** The per-request sweep never removes the current request, and otherwise removes exactly the stale entries. */
  lemma EntrySweepKeeps(cache: Cache, current: string, now: int, maxAgeHours: int, id: string)
    ensures current in cache ==> current in Without(cache, ExpiredEntries(cache, current, now, maxAgeHours))
    ensures id in cache && id != current ==>
      (id in Without(cache, ExpiredEntries(cache, current, now, maxAgeHours)) <==>
       now - cache[id].timestamp <= 3600 * maxAgeHours)
  {
  }

  /** The timeout message names the limit in decimal. */
  lemma TimeoutMessageNamesLimit(timeout: nat, url: string)
    ensures var m := TimeoutMessage(timeout, url);
      var digits := Digits(timeout);
      m[26..26 + |digits|] == digits && DigitsValue(digits) == timeout
  {
    DigitsRoundTrip(timeout);
  }

  /** `result_cache` and the operations on it. */
  class JobRegistry {
    var cache: Cache

    constructor ()
      ensures cache == map[]
    {
      cache := map[];
    }

    /** The scrape endpoint: store a processing entry under `requestId`, replacing any entry already there. */
    method Submit(requestId: string, url: string, now: int) returns (view: StatusView)
      modifies this
      ensures cache == old(cache)[requestId := NewJob(url, now)]
      ensures view == StatusView(requestId, Processing, url, None, 0, 0, now, None)
    {
      cache := cache[requestId := NewJob(url, now)];
      view := StatusView(requestId, Processing, url, None, 0, 0, now, None);
    }

    /** The status endpoint. */
    method CheckStatus(requestId: string) returns (r: Result<StatusView, int>)
      ensures r == View(cache, requestId)
    {
      if requestId !in cache {
        return Err(NotFound);
      }
      var job := cache[requestId];
      var emails := if job.status == Completed then Some(job.emails) else None;
      var error := if job.error.Some? && job.error.value != "" then job.error else None;
      r := Ok(StatusView(requestId, job.status, job.url, emails, job.pagesScanned, job.emailsFound, job.timestamp, error));
    }

    /**
     * The updates at the end of `run_scraper`. An entry that is no longer in
     * the cache makes the update raise, and the task ends with the cache unchanged.
     */
    method Record(requestId: string, url: string, timeout: int, outcome: RunOutcome, now: int)
      modifies this
      ensures requestId in old(cache) ==>
        cache == old(cache)[requestId := Recorded(old(cache)[requestId], url, timeout, outcome, now)]
      ensures requestId !in old(cache) ==> cache == old(cache)
    {
      if requestId in cache {
        cache := cache[requestId := Recorded(cache[requestId], url, timeout, outcome, now)];
      }
    }

    /** `cleanup_old_results`, one pass: collect the keys completed more than a day ago, then pop them. */
    method CleanupOldResults(now: int)
      modifies this
      ensures cache == Without(old(cache), ExpiredResults(old(cache), now))
    {
      var oldKeys: set<string> := {};
      var pending := cache.Keys;
      while pending != {}
        invariant pending <= cache.Keys
        invariant oldKeys == set id | id in cache.Keys - pending && ExpiredResult(cache[id], now)
        decreases |pending|
      {
        var id :| id in pending;
        if ExpiredResult(cache[id], now) {
          oldKeys := oldKeys + {id};
        }
        pending := pending - {id};
      }
      assert oldKeys == ExpiredResults(cache, now);
      cache := Without(cache, oldKeys);
    }

    /** `cleanup_old_entries` after its wait: drop every stale entry except the current request's. */
    method CleanupOldEntries(current: string, now: int, maxAgeHours: int)
      modifies this
      ensures cache == Without(old(cache), ExpiredEntries(old(cache), current, now, maxAgeHours))
    {
      ghost var start := cache;
      var keys := cache.Keys;
      while keys != {}
        invariant keys <= start.Keys
        invariant cache == Without(start, ExpiredEntries(start, current, now, maxAgeHours) - keys)
        decreases |keys|
      {
        var id :| id in keys;
        if id != current && Stale(cache[id].timestamp, now, 3600 * maxAgeHours) {
          cache := Without(cache, {id});
        }
        keys := keys - {id};
      }
    }
  }
}
