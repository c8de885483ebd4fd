# Web Scraping Backend — a Dafny model of its core

The backend crawls one web site breadth first, collects the e-mail addresses it finds and keeps each
crawl as a background job. Clients poll the job through a status endpoint.

This project models the parts of `app/main.py` and `app/auth.py` that decide what happens:

- **The address filter.** This is the anchored pattern of `is_valid_email` plus the normalisation
  and denylist loop of `extract_emails_from_page`.
- **The extraction helpers:**
  - `mailto:` handling;
  - resolution of image sources;
  - the contact-file-name test;
  - the JPEG/PNG sniff;
  - the post-processing of OCR lines;
  - the classification of a fetch.
- **Link collection and admission.** Contact links go to the front. The `netloc` test, the exclusion
  and extension lists, the page and email limits and the 50-link cap decide what is queued.
- **One worker step.** This is the `EmailScraper` state as a class (`Crawler.Scraper`), with a
  sequential `worker` iteration proved against a step function on crawl states. The class also
  covers `scrape_website`'s setup and its result summary.
- **The job registry `result_cache`.** A class over a map covers:
  - the entry the scrape endpoint creates;
  - the status view;
  - the success and error updates of `run_scraper`;
  - the two sweeps.
- **Account rules from `app/auth.py`:**
  - the password validator on `UserCreate`;
  - the sender domain, address and display name of the verification mail;
  - the role of a new user;
  - the reset-token expiry test.

Files:

| file | contents |
|---|---|
| `wrappers.dfy` | `Option` and `Result` |
| `text.dfy` | the Python string operations the core relies on (`strip`, `lower`, `split`, `join`, `in`, `startswith`, integer formatting), ASCII only |
| `email_filter.dfy` | the pattern recognizer, a declarative reading of the pattern, the acceptance predicate and the filter loop |
| `extract.dfy` | page and image extraction, fetch classification |
| `links.dfy` | link collection, `netloc`, admission and the per-page selection |
| `crawler.dfy` | the crawl step function, its invariant, the `Scraper` class and the summary |
| `registry.dfy` | the job entries, the status view, the sweeps and the `JobRegistry` class |
| `auth.dfy` | the account rules |

External effects are parameters:

- `Extract.Env` holds the regular-expression extractor `re.findall(email_pattern, ·)`, `urljoin`, the
  image download and the OCR engine.
- `Crawler.Web` holds the page download and the HTML parser. The parser gives `None` where BeautifulSoup raises.
- Every clock reading is an integer `now`, in seconds of UTC time.

## Model

| member | source | states |
|---|---|---|
| EmailFilter.MatchesPatternIff | app/main.py:257-260 | the recognizer accepts a string iff it splits as L `@` X `.` Y with L non-empty over `[a-zA-Z0-9._%+-]`, X non-empty over `[a-zA-Z0-9.-]` and Y at least two letters |
| EmailFilter.MatchesPatternSound | app/main.py:259 | every accepted string has such a split |
| EmailFilter.MatchesPatternComplete | app/main.py:259 | every string with such a split is accepted |
| EmailFilter.ValidEmailShape | app/main.py:259-260 | a valid address holds an `@` and at least six characters |
| EmailFilter.ValidEmailShapeLength | app/main.py:259-260 | no string shorter than six characters is valid |
| EmailFilter.StrippedValidMatches | app/main.py:319-320 | once stripped, the end-of-line allowance of `$` plays no part: a valid address matches the whole pattern |
| EmailFilter.DomainOfValid | app/main.py:320-325 | a valid address has an `@` and its second `@`-field holds a `.` |
| EmailFilter.ImpliedChecks | app/main.py:320-325 | the length and dot checks of the filter follow from validity |
| EmailFilter.AcceptIff | app/main.py:320-325 | a candidate is kept iff it is valid and neither part carries an asset word |
| EmailFilter.NormalizeShape | app/main.py:319 | a normalised candidate has no uppercase letter and no edge whitespace |
| EmailFilter.NormalizeIdempotent | app/main.py:319 | normalising twice equals normalising once |
| EmailFilter.AcceptedIsNormalMatch | app/main.py:319-325 | an accepted normalised candidate is lower case, stripped, described by the pattern and at least six characters |
| EmailFilter.RejectsNumericLocal | app/main.py:322 | an address whose local part is all digits is rejected |
| EmailFilter.RejectsAssetLocal | app/main.py:323 | an address whose local part contains `icon`, `logo`, `image`, `img` or `sprite` is rejected |
| EmailFilter.RejectsAssetDomain | app/main.py:324 | an address whose first domain label contains a CDN or asset word is rejected |
| EmailFilter.ExampleIconRejected | app/main.py:323-324 | `icon@cdn.example.com` is rejected |
| EmailFilter.ExampleNumericRejected | app/main.py:322 | `123@example.com` is rejected |
| EmailFilter.ExampleNoDotRejected | app/main.py:259 | `a@b` is rejected |
| EmailFilter.ComposedAccepted | app/main.py:320-325 | every `l@x.y` drawn from the pattern's classes is kept when `l` is not all digits and carries no local asset word and the first label of `x` carries no domain asset word; `x` may hold further dots |
| EmailFilter.ExampleAccepted | app/main.py:320-325 | `jane.doe@example.com` is kept |
| EmailFilter.FilterCandidates | app/main.py:317-328 | the loop returns exactly the normalised forms of the candidates whose normalised form is accepted |
| EmailFilter.FilteredSound | app/main.py:317-328 | every kept address is accepted, in normal form, lower case, stripped and described by the pattern |
| EmailFilter.FilteredIdempotent | app/main.py:317-328 | filtering a filtered set changes nothing |
| Extract.RasterImageIff | app/main.py:225 | the sniff accepts exactly the downloads opening with `FF D8` or `89 50 4E 47` |
| Extract.ImageText | app/main.py:218-226 | OCR text exists only for a download with status 200 that passes the sniff |
| Extract.EmailLinesSpec | app/main.py:245 | no line is kept iff no OCR line holds an `@`; stripping adds no line break |
| Extract.OcrEmailLinesSpec | app/main.py:245-247 | the OCR result is `None` iff the text holds no `@`; otherwise splitting it at line breaks gives back the kept lines, each with an `@` |
| Extract.InJoin | app/main.py:247 | a character other than the separator is in a join iff it is in a part |
| Extract.EmailLines | app/main.py:245 | every kept line holds an `@`, and at most as many lines are kept as were read |
| Extract.PageContent | app/main.py:372-387 | a fetch yields content iff the status is 200, the lower-cased content type contains `text/html` and a body was read, and the content is that body |
| Extract.MailtoAddressOf | app/main.py:281-283 | a `mailto:` link yields its address, stripped, without the query |
| Extract.MailtoAddress | app/main.py:282-283 | the address taken from a `mailto:` link holds no `?` |
| Extract.MailtoContributes | app/main.py:276-283 | the address of every `mailto:` href with an `@` is among the attribute candidates |
| Extract.TagCandidatesHas | app/main.py:277-287 | every listed attribute with an `@` contributes its candidates to its tag |
| Extract.AttributeCandidatesHas | app/main.py:276-287 | every tag contributes its candidates to the attribute scan |
| Extract.ScanTag | app/main.py:277-287 | the inner loop collects exactly what the tag's listed attributes yield |
| Extract.ScanAttributes | app/main.py:275-287 | the outer loop collects exactly the attribute candidates of all tags |
| Extract.ResolveImageUrl | app/main.py:296-301 | a `//` source becomes `https:` plus the source; a source without a leading `/` is kept |
| Extract.ContactImageIff | app/main.py:304 | a source qualifies iff its lower-cased form contains `mail`, `contact` or `correo` (`email` adds nothing) |
| Extract.ScanImages | app/main.py:290-311 | the image loop collects exactly the candidates of qualifying images whose OCR text is non-empty |
| Extract.ExtractEmailsFromPage | app/main.py:262-328 | the page yields the filtered union of text, attribute and image candidates; every address is accepted and normalised |
| Extract.ToSet | app/main.py:434-435 | `set(xs)` has exactly the members of `xs` |
| Links.LinkHref | app/main.py:538-541 | an `a` or `link` tag with an `href` yields its stripped href exactly when that is non-empty and has none of the skipped prefixes; any other tag yields nothing |
| Links.ResolveLink | app/main.py:544-549 | an href without a leading `/` is taken as is |
| Links.SchemeRelativeLink | app/main.py:544-545 | a `//` href takes `https:` exactly when the page URL is https, else `http:` |
| Links.TagLink | app/main.py:538-549 | a tag has a link iff its href survives the skip test |
| Links.PickedPartition | app/main.py:551-556 | every followed link is a contact link or another link, none is dropped |
| Links.SkippedTagIgnored | app/main.py:540-541 | a skipped tag changes neither list |
| Links.CollectLinks | app/main.py:537-556 | the collected list is the contact links in reverse document order, then the others in document order |
| Links.FrontAndBack | app/main.py:551-556 | inserting at the front and appending yields reversed contacts followed by the others |
| Links.PrependedIsReverse | app/main.py:554 | repeated front insertion is reversal |
| Links.ReverseSnoc | app/main.py:554 | reversing after an append puts the new link first |
| Links.Netloc | app/main.py:564-567 | the `netloc` holds no `/`, `?` or `#` |
| Links.NetlocOf | app/main.py:564-567 | the `netloc` of `scheme://host/path` is `host` |
| Links.AuthorityEnd | app/main.py:564 | the authority stops at the first `/`, `?` or `#` |
| Links.Filter | app/main.py:567-572 | the admitted links come from the list and pass admission, and there are no more of them than links |
| Links.FilterSubsequence | app/main.py:559-572 | the admitted links are the list's links at strictly increasing positions, and a position is among them iff its link passes admission |
| Links.FilterComplete | app/main.py:559-572 | every link of the list that passes admission is among the admitted links |
| Links.FilterAppend | app/main.py:559-572 | admission over a concatenation is the concatenation of admissions |
| Links.SelectLinks | app/main.py:559-578 | the queued items are exactly the selection: nothing at the page or email limit, else the first 50 admitted links, each at depth+1, on the start host and unvisited |
| Links.PushedLinksSound | app/main.py:559-578 | at most 50 links are queued, each from the list, admitted and one level deeper |
| Links.QueueAdmitted | app/main.py:559-578 | the loop queues nothing when the limit test holds, else the first 50 admitted links |
| Links.CapReached | app/main.py:574-576 | the 51st admitted link ends the loop with the first 50 |
| Crawler.NextKeepsInv | app/main.py:504-584 | a worker step keeps every queued item on the start host within one level of the depth limit, and every collected address filtered and normalised |
| Crawler.ProcessKeepsInv | app/main.py:507-584 | processing one dequeued item keeps that invariant |
| Crawler.ScanKeepsInv | app/main.py:522-584 | scanning a page keeps that invariant |
| Crawler.AddPageEmails | app/main.py:522-525 | adding a page's addresses keeps every address filtered |
| Crawler.PushKeepsQueue | app/main.py:578 | queuing links one level deeper on the start host keeps the queue well formed |
| Crawler.NextShape | app/main.py:504-584 | a step leaves the rest of the queue as a prefix, only adds addresses, and marks the page visited iff it was scanned |
| Crawler.ProcessShape | app/main.py:507-584 | the same for one dequeued item |
| Crawler.ScanShape | app/main.py:522-584 | the same for the scan of a page |
| Crawler.SkippedEntryOnlyPops | app/main.py:507-513 | a visited or too-deep entry is popped and nothing else changes |
| Crawler.EmptyContentFails | app/main.py:516-519 | an empty page counts as a failed fetch and only pops the queue |
| Crawler.ParseFailureOnlyPops | app/main.py:522-588 | a page the parser cannot read is dropped by the exception handler: the item is popped, nothing is collected, queued or marked visited |
| Crawler.ScannedOnlyBelowEmailLimit | app/main.py:511-531 | a scanned page was new, within depth and non-empty, and the address count stayed below the limit |
| Crawler.EmailLimitLeavesPageUnvisited | app/main.py:527-530 | a page that reaches the email limit is not marked visited and queues nothing |
| Crawler.PageLimitDrainsQueue | app/main.py:559-561 | at the page limit a step queues no link |
| Crawler.ScanAtPageLimit | app/main.py:559-561 | the scan of a page at the page limit queues nothing |
| Crawler.TailWellFormed | app/main.py:506 | dequeuing keeps the queue well formed |
| Crawler.SliceLength | app/main.py:476 | `xs[:stop]` keeps `min(len, stop)` elements for a non-negative stop and never more than `len` |
| Crawler.ListOf | app/main.py:476 | `list(s)` holds each member of the set exactly once |
| Crawler.Scraper.constructor | app/main.py:154-162 | the defaults are 10 pages, 50 addresses and depth 3, with empty collections |
| Crawler.Scraper.Start | app/main.py:428-444 | setup clears the crawl, stores the limits and lists as sets, takes the start URL's `netloc` as base host and queues the URL at depth 0 |
| Crawler.Scraper.Step | app/main.py:504-584 | one worker iteration changes the crawl exactly as the step function says and keeps the settings and the queue invariant |
| Crawler.Scraper.ProcessItem | app/main.py:507-584 | the handling of a dequeued item matches the specification of processing |
| Crawler.Scraper.ScanPage | app/main.py:522-584 | the scan of a fetched page matches the specification of scanning |
| Crawler.Scraper.MergeEmails | app/main.py:523-525 | the collected addresses become the old ones together with the page's, and nothing else changes |
| Crawler.Scraper.FollowLinks | app/main.py:533-583 | the queue grows by exactly the selected links and the page is marked visited |
| Crawler.Scraper.PageQueueItems | app/main.py:533-578 | the links queued from a page are the selection over its collected links |
| Crawler.Scraper.Summarize | app/main.py:474-480 | the result reports the URL, the visited-page count and `min(count, limit)`, with as many distinct collected addresses as the slice keeps |
| Registry.View | app/main.py:745-770 | an unknown id gives 404; otherwise the view copies the entry, shows the emails only when completed and the error only when set and non-empty |
| Registry.ViewAfterSubmit | app/main.py:708-718 | a new entry reports processing, no emails, no error and zero counts |
| Registry.ViewAfterComplete | app/main.py:823-831 | after success the view shows the result's emails, their count and the page count |
| Registry.ViewAfterFail | app/main.py:840-855 | an error update keeps the emails, counts and completion time, and the view shows the message and no emails |
| Registry.TimeoutMessage | app/main.py:838 | the timeout message is never empty |
| Registry.TimeoutMessageNamesLimit | app/main.py:838 | the timeout message carries the limit in decimal |
| Registry.CrashMessage | app/main.py:848 | the crash message is never empty |
| Registry.FailedJobSurvivesResultSweep | app/main.py:874-882 | a job that failed without completing is never removed by the daily sweep |
| Registry.ResultSweepKeeps | app/main.py:874-882 | the daily sweep keeps exactly the entries with no completion time or one at most a day old |
| Registry.EntrySweepKeeps | app/main.py:51-57 | the per-request sweep never removes the current request and removes another entry iff its timestamp is older than the limit |
| Registry.Without | app/main.py:881-882 | removing ids keeps exactly the other entries, unchanged |
| Registry.LocalClockKeepsStaleEntry | app/main.py:49-56 | with the source's mixed clocks, on a server five hours behind UTC, a two-hour-old entry survives the one-hour sweep |
| Registry.StaleAsWrittenShift | app/main.py:49-56 | the measured age test is the true one with the limit shifted by the UTC offset, and they agree at offset zero |
| Registry.JobRegistry.constructor | app/main.py:121 | the registry starts empty |
| Registry.JobRegistry.Submit | app/main.py:705-742 | the id maps to a fresh processing entry and the response reports processing with zero counts |
| Registry.JobRegistry.CheckStatus | app/main.py:745-770 | the endpoint returns the status view of the cache |
| Registry.JobRegistry.Record | app/main.py:819-855 | the entry becomes completed with the result, or failed with the matching message; a missing entry leaves the cache unchanged |
| Registry.JobRegistry.CleanupOldResults | app/main.py:871-882 | one pass removes exactly the entries completed more than a day ago |
| Registry.JobRegistry.CleanupOldEntries | app/main.py:49-58 | the pass removes exactly the stale entries other than the current request |
| Auth.PasswordComplexity | app/auth.py:82-90 | a password passes iff it has at least 8 characters, an uppercase letter and a digit, and is returned unchanged; otherwise the first failing check names the error |
| Auth.AcceptedPassword | app/auth.py:84-90 | any password of length 8 or more with an uppercase letter and a digit passes |
| Auth.UserDomain | app/auth.py:259 | the domain is the text after the last `@`, or `app.com` when there is none, and holds no `@` |
| Auth.SenderEmail | app/auth.py:269 | the sender is `noreply@` followed by the user's domain |
| Auth.DomainOf | app/auth.py:259 | for `local@host` with no `@` in the host, the user's domain is exactly the host |
| Auth.SenderOf | app/auth.py:259-269 | for `local@host` with no `@` in the host, the sender is `noreply@host` |
| Auth.DisplayNameOf | app/auth.py:259-268 | for `local@host` with no `@` in the host, the sender name is `<first name> desde host`, or `Soporte de host` without a first name |
| Auth.NewUserRole | app/auth.py:358-360 | a new user is admin iff no admin exists yet |
| Auth.CheckReset | app/auth.py:566-581 | a corrupt expiry is refused, an expiry strictly before now is expired, and otherwise (including no expiry) the reset proceeds |
| Text.Strip | app/main.py:319 | `strip` leaves no edge whitespace and returns a slice of its input |
| Text.StripIdempotent | app/main.py:319 | stripping twice equals stripping once |
| Text.Lower | app/main.py:319 | `lower` keeps the length, maps each character and leaves no uppercase letter |
| Text.Split | app/main.py:322-325 | the parts hold no separator, there are at least two iff the separator occurs, and the first part is the text before it |
| Text.SplitJoin | app/main.py:245-247 | splitting a join of separator-free parts gives the parts back |
| Text.JoinSplit | app/main.py:245-247 | joining the parts of a split gives the text back |
| Text.ContainsAnyIff | app/main.py:553 | the `any(term in s …)` test holds iff some term occurs |
| Text.StartsWithAnyIff | app/main.py:540 | `startswith` with a tuple holds iff some prefix matches |
| Text.DigitsRoundTrip | app/main.py:838 | the decimal digits of a number read back as that number |
| Text.IntToString | app/main.py:838 | the decimal form of an integer reads back as the integer, after a leading `-` when it is negative |

## Left out

- HTTP and sessions: `aiohttp`, the session setup and teardown, and the request headers are left out. A fetch outcome is a parameter (`Crawler.Web.fetch`, `Extract.Env.fetchImage`), and `get_page_content`'s exception branches are outcomes with no content.
- Concurrency is left out: the five workers, the semaphore, `queue.join`, task cancellation and the global `asyncio.timeout`. The model runs one worker step at a time. How a timeout ends the crawl is a parameter of `Registry.RunOutcome`.
- Crawler.Scraper.Step: on an empty queue the source blocks. The model returns `Idle` and changes nothing.
- `_process_page` is left out: nothing outside itself calls it.
- HTML parsing (BeautifulSoup) is a parameter, `Crawler.Web.parse`, which gives a page's text and tags in document order, or `None` when parsing raises.
- Crawler.Scraper.Step: the worker's catch-all handler is modelled only for a page that cannot be parsed (outcome `Raised`), which the source meets while extracting addresses, before any are merged. An exception raised after the merge is not modelled. The second parse of the same content cannot fail once the first has succeeded. `urljoin`, `get_text` and the other parameters are taken never to raise.
- The regular expression `email_pattern` used by `re.findall` is a parameter, `Extract.Env.findAll`. Only the anchored pattern of `is_valid_email` is modelled.
- `urljoin` is a parameter, `Extract.Env.join`.
- Links.Netloc follows `urlparse`'s split (scheme, then `//`, then up to `/`, `?` or `#`, as in section 3.2 of RFC 3986). It leaves out `urlparse`'s removal of control characters and its other special cases.
- Pillow and Tesseract are left out: the image download and the OCR engine are parameters. The Tesseract setup check and the image conversion are not modelled.
- The image early-exit test `len(emails) < 5` reads a local set that is always empty. The model therefore always scans images.
- `include_paths` is stored by setup (`Crawler.Scraper.Start`) but the crawl never reads it, and the model keeps it that way.
- Crawler.Scraper.Step: the number of visited pages may exceed `max_pages`, because the limit is only checked before each link. No bound on it is claimed.
- Crawler.Scraper.Valid is the queue's shape only. That collected addresses are filtered is proved on the step function (`Crawler.NextKeepsInv`), not carried as a class invariant.
- Clocks are left out: every reading is an integer count of UTC seconds passed in as `now`, and ISO formatting is not modelled.
- `execution_time_seconds` is left out of both the result and the cache.
- Registry.JobRegistry.Submit takes the request id as a parameter. Its generation from the clock and `os.urandom` is left out.
- Registry.JobRegistry.CleanupOldEntries and CleanupOldResults model one pass after the wait. The sleeps and the periodic loop are left out.
- Registry.JobRegistry.CleanupOldEntries and CleanupOldResults use the intended UTC age test `Registry.Stale`, not the source's mixed-clock age (see Findings).
- `run_scraper` on a timeout or an exception stores only the status, the message and the timestamp. An error update leaves the emails and the page count as they were: `[]` and 0, unless the success update already ran, as when the timeout strikes while the scraper's session closes. Registry.JobRegistry.Record keeps them in either case. `run_scraper` does not pass its `timeout` on to `scrape_website`, which then uses its default; what ends the run is a parameter.
- Registry.JobRegistry.Record on a missing entry: the `KeyError` ends the background `run_scraper` coroutine and the cache is unchanged.
- Logging is left out.
- The FastAPI routing, the response models and the field bounds of `ScrapeRequest` are left out.
- Text: `lower`, `strip`, `isupper` and `isdigit` are modelled on ASCII, with ASCII-range whitespace for `strip`. Unicode case mapping and Unicode whitespace are left out.
- Auth: bcrypt, JWT, SMTP, the database and `app/db.py` are left out. `app/db.py` is not part of this model.
- Auth.PasswordComplexity is the validator on `UserCreate`. `register` takes a `RegisterRequest`, which does not run it, so the model makes no claim that registration checks passwords.
- Auth.CheckReset: the token lookup and the clean-up write of a corrupt expiry are left out. Only the decision is modelled.

## Findings

| source | as written | input that shows it | evidently intended | confidence | as-written member | corrected member |
|---|---|---|---|---|---|---|
| app/main.py:49-56 | the sweeps (and likewise lines 877-878) subtract a UTC stamp (`utcnow().isoformat()`) from a local reading (`datetime.now()`, or `fromisoformat(...).timestamp()` which reads the naive UTC stamp as local time), so the measured age is the true age plus the server's UTC offset | server at UTC-5, entry stamped at 0, sweep at 7200 with a one-hour limit: measured age -10800, entry kept | an entry is removed when its true age exceeds the limit | not executed | Registry.LocalClockKeepsStaleEntry | Registry.EntrySweepKeeps |
