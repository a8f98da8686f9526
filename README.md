# nessus.py scan lifecycle controller, modelled in Dafny

nessus.py is a client for a vulnerability scanner. Its core is a scan
lifecycle controller. It finds a scan by name in the scanner's directory and
launches it through the REST API. When the launch endpoint is feature-locked
(HTTP 412) it launches the scan through the web console instead. It can then
block until the scan has started and finished.

The model covers that controller and the helpers it depends on:

- `common.dfy`: module `Common` holds the option and outcome types. An
  outcome is `Return`, `Abort` (the source calls `exit()`, with the reason it
  prints) or `Raise` (an exception escapes). Module `Http` holds the
  response check `assert_valid_http_response`.
- `waiter.dfy`: module `Waiter` holds the element waiter
  `block_until_element_is_visible`. Each attempt's outcome is an input.
- `shaping.dfy`: module `Shaping` holds the folder-name slug and the
  comma-separated target string of the web fallback.
- `directory.dfy`: module `Directory` holds the folder and scan lists of
  `GET /scans`, the join that gives each scan its folder name, and the
  lookups by name (`_assert_scan_exists`, `get_scan_status`,
  `get_scan_information`).
- `web_interface.dfy`: module `WebInterface` holds the web fallback (login,
  then launch). It is modelled as the trace of page actions the client asks
  for, given what the page shows.
- `controller.dfy`: module `Controller` holds `start_scan` and
  `block_until_scan_completes`, plus a bounded variant of the latter (see
  Findings).

Every answer of the scanner is an input value. This covers HTTP status
codes, JSON bodies, directory listings, and what each status poll observes.
Every exit is a value, so the model is total and deterministic.

Two behaviours of the code shape the model:

- Most failures the controller detects print a message and call `exit()`
  (for example nessus.py:28-30, 95-96, 308-309). The model returns `Abort`
  with the reason instead of ending the process. Three do not exit: a scan
  row that never shows up on the console prints a fatal message and returns
  normally (nessus.py:146-148), a launch drop-down that never shows up raises
  `ElementNotVisibleError` (nessus.py:151), and the await-terminal loop's
  give-up returns False (nessus.py:318-320). The model keeps each as the
  source has it: `Return`, `Raise` and `Return(false)`.
- The docstring of `block_until_scan_completes` (nessus.py:297-299) promises
  "True if scan completes within timeout, False otherwise". The loop at
  nessus.py:316-320 decrements `time_left` but tests `timeout`, so a
  non-zero timeout never ends the wait. The model keeps the code as written,
  and the Findings section below records the discrepancy together with a
  variant that makes the evidently intended test.

## Model

| member | source | states |
|---|---|---|
| Http.AssertValidHttpResponse | nessus.py:16-37 | passes exactly when the status is the expected one and, when JSON is expected, the body decodes; otherwise it exits with a status mismatch, checked first, or undecodable JSON |
| Waiter.WaitVisible | nessus.py:40-59 | returns at the first attempt that sees the element, having made at most `timeout` attempts; it raises exactly when none of the first `timeout` attempts sees it, after exactly `timeout` attempts (none when `timeout <= 0`) |
| Waiter.BlockUntilElementIsVisible | nessus.py:48-59 | the retry loop with its countdown computes WaitVisible for every timeout and outcome sequence |
| Waiter.NeverVisibleExhaustsRetries | nessus.py:48-59 | an element that never shows up costs exactly `timeout` attempts, then raises |
| Waiter.VisibleAtOnce | nessus.py:51-56 | an element visible at the first attempt is found after one attempt |
| Waiter.MoreRetriesFindNoLater | nessus.py:48-59 | a larger timeout never loses an element a smaller one finds, and finds it at the same attempt |
| Shaping.Lower | nessus.py:139 | `str.lower`: same length, each character lower-cased |
| Shaping.ReplaceChar | nessus.py:139 | `str.replace` with one character: same length, each occurrence replaced, all else kept |
| Shaping.FolderSlug | nessus.py:138-140 | the slug has the name's length, a hyphen exactly where the name has a space or a hyphen, the lower-cased character elsewhere, and no spaces or capitals |
| Shaping.FolderSlugIdempotent | nessus.py:139 | slugging a slug changes nothing |
| Shaping.FolderSlugOfAllScans | nessus.py:139 | "All Scans" becomes "all-scans" |
| Shaping.FolderSlugOfRepeatedSpaces | nessus.py:139 | a run of n spaces anywhere in a name becomes a run of n hyphens, and the parts around it are slugged on their own ("My   Scans" gives "my---scans") |
| Shaping.BuildTargetString | nessus.py:159-162 | the accumulate-then-truncate loop yields the targets joined by ", " (the empty string for no targets) |
| Shaping.TerminatedIsJoinedPlusSeparator | nessus.py:159-162 | before truncation the accumulator is the joined string plus exactly one trailing ", ", the two characters `[:-2]` removes |
| Shaping.JoinTargetsLength | nessus.py:159-162 | the joined string is as long as all targets together plus 2 for each of the n-1 separators |
| Shaping.JoinTargetsAppend | nessus.py:159-162 | joining two non-empty lists is joining each with one ", " between them, so separators appear only between targets |
| Shaping.JoinTargetsEndsWithLast | nessus.py:162 | the joined string ends with the last target, with no separator left over |
| Shaping.JoinTargetsExample | nessus.py:159-162 | two addresses are joined as "10.0.0.1, 10.0.0.2" |
| Directory.GetScanFolders | nessus.py:209-227 | exits unless the answer is 200 with JSON; otherwise it gives the folders' names and ids, in order and nothing else |
| Directory.FirstFolder | nessus.py:264-267 | the first folder with the id, or none exactly when no folder has it |
| Directory.GetOnDemandScans | nessus.py:248-268 | gives back the rejected answer, with the reason `assert_valid_http_response` gives, exactly when the scan listing fails or, when there is a scan, the folder listing fails; otherwise each scan keeps its name, id, folder id and status in place and gets the name of the first folder with its folder id, or no folder name when none matches |
| Directory.FindScan | nessus.py:92-94 | the first scan with exactly that name, or none exactly when no scan has it |
| Directory.FirstNamedUnique | nessus.py:92-94 | the first scan with a name is unique |
| Directory.AssertScanExists | nessus.py:84-96 | exits with the rejected answer when the listing cannot be fetched; otherwise it passes exactly when some scan has the name, and exits with "scan not found" when none has |
| Directory.GetScanInformation | nessus.py:281-291 | exits with the rejected answer when the listing cannot be fetched, and with "scan not found" exactly when no scan has the name; it never raises; otherwise it returns the record of the first scan with that name |
| Directory.GetScanStatus | nessus.py:270-279 | with its own search of the listing: exits with the rejected answer when the listing cannot be fetched, and with "scan not found" exactly when no scan has the name; it never raises; otherwise it returns the status of the first scan with that name |
| Directory.StatusIsInformationStatus | nessus.py:270-291 | the two lookups agree: the status is the status of the looked-up record, and when one exits the other exits for the same reason |
| Directory.LookupThroughJoin | nessus.py:248-291 | after the join, a lookup by name finds the scan listed first under that name, with its fields kept and its folder name resolved |
| WebInterface.LoginWebInterface | nessus.py:98-124 | exits before navigating when the page check fails; otherwise the trace is, in order, opening the page, filling the username, filling the password and clicking Sign In, stopping after the page when the username field never shows up and after the password when the Sign In control never shows up; a missing form still returns normally |
| WebInterface.LoginStaysOutOfDialog | nessus.py:106-124 | the login neither uses the launch dialog nor types into the custom-targets field |
| WebInterface.LaunchDialog | nessus.py:152-165 | the dialog starts with Launch; with no targets it chooses Default; otherwise it chooses Custom, types the joined targets and confirms; it types nothing else |
| WebInterface.SelectAndLaunch | nessus.py:143-165 | a row that never shows up ends normally with no click; a drop-down that never shows up raises after the row click; otherwise the row click is followed by the launch dialog |
| WebInterface.StartScanWebInterface | nessus.py:126-168 | exits first, with no action, for a listing that cannot be fetched or an unknown scan, and before navigating when the page check fails; otherwise it opens the folder page named by the slug; past the page check the trace is the login's trace followed by exactly what selecting and launching does, which also decides the outcome: no click and a normal return when the scan row never shows up, the row click and then a raise when the launch drop-down never shows up; once the dialog is reached, the trace is the login, the row click and the dialog |
| WebInterface.StartScanWebInterfaceDialog | nessus.py:141-165 | the launch dialog is used only when it is reached; it ends with Default for no targets and with the joined targets typed in and confirmed otherwise |
| WebInterface.StartScanWebInterfaceFillsJoinedTargets | nessus.py:154-165 | the custom-targets field is typed into only when there are targets, and only with the targets joined by ", " |
| Controller.LaunchBody | nessus.py:350-356 | a JSON body is sent exactly when there are targets, and it carries the targets unchanged |
| Controller.StartScan | nessus.py:330-373 | exits with the rejected answer, sending nothing, when the listing cannot be fetched; exits for an unknown scan or a refused state before sending anything; otherwise it sends exactly one launch for the scan's id; on 200 it is done, on 412 it calls the web fallback once with the scan's folder name and targets (a scan without a folder name raises a missing-key error), and on any other code it exits; the browser is driven only after a 412 |
| Controller.RefusedStatesSendNothing | nessus.py:339-346 | start_scan exits with the state as reason exactly for the seven refused states; a completed scan is launched |
| Controller.FeatureLockedLaunchTypesTargets | nessus.py:348-369 | a 412 launch of a scan with targets, on a console that shows every element, opens the slug's folder page and ends by typing the joined targets into the custom field and confirming |
| Controller.PollExit | nessus.py:84-96 | a poll that finds no scan exits with "scan not found", and a poll whose listing is rejected exits with that rejection |
| Controller.ObserveReadsStatus | nessus.py:270-279 | a status poll fails exactly when the listing cannot be fetched, sees no scan exactly when no scan has the name, and otherwise sees the status of the first scan with that name; when it sees no status, get_scan_status exits with the reason the loops exit with |
| Controller.BlockUntilScanCompletes | nessus.py:293-328 | the two polling loops as written compute BlockUntilComplete on the observed statuses, including the raise of the sleep for a negative interval |
| Controller.NegativeIntervalRaises | nessus.py:316-323 | with a non-zero timeout and a negative interval, the call raises from the sleep right after the poll that first sees the scan running |
| Controller.CompletionRaisesOnlyOnSleep | nessus.py:316-323 | the await-terminal loop raises only at its first sleep, and only for a non-zero timeout and a negative interval |
| Controller.StartRaisesOnlyOnSleep | nessus.py:305-323 | the same holds from any poll of the await-start loop, which itself never raises |
| Controller.RaiseFollowsRunning | nessus.py:305-323 | a raise comes right after a poll that saw the scan running |
| Controller.RaisesOnlyForNegativeInterval | nessus.py:293-328 | the call raises only with the sleep's error, only for a non-zero timeout and a negative interval, and right after a poll that saw the scan running |
| Controller.AwaitStartFrom | nessus.py:305-313 | after k polls that do not see the scan running, 15 seconds of the 900-second budget have gone per poll |
| Controller.CompletionNeverStartTimeout | nessus.py:315-328 | once running, the call never ends in the start-timeout exit |
| Controller.StartTimeoutFrom | nessus.py:305-310 | from poll k, the start timeout comes exactly after polls k to 60 all see the scan in a state other than running |
| Controller.StartTimesOutAfterSixtyPolls | nessus.py:301-313 | the call exits with a start timeout exactly when the first 61 polls (the first and 60 more, 15 seconds apart) all see the scan in a state other than running, and then after exactly 61 polls |
| Controller.ZeroTimeoutReturnsFalse | nessus.py:316-320 | with timeout 0 and any interval, the call returns False as soon as a poll first sees the scan running, with no further poll |
| Controller.CompletionNeverFalse | nessus.py:316-328 | with a non-zero timeout the await-terminal loop never returns False |
| Controller.StartNeverFalse | nessus.py:305-328 | with a non-zero timeout the call never returns False, from any poll and any budget |
| Controller.FalseOnlyForZeroTimeout | nessus.py:316-320 | False comes back only when the timeout is 0 |
| Controller.TrueAtFirstNonRunningStatus | nessus.py:317-328 | with a non-negative interval, once running, the call returns True at the first later poll that sees another state, with the matching poll count |
| Controller.CompletionTrueShape | nessus.py:317-328 | a True from the await-terminal loop means the second-to-last poll saw running and the last poll saw another state |
| Controller.StartTrueShape | nessus.py:305-328 | the same shape holds from any poll of the await-start loop |
| Controller.TrueMeansTerminalStateSeen | nessus.py:293-328 | True means the scan was seen running and then, at the last poll, in a state other than running |
| Controller.PendingRunningCompleted | nessus.py:293-328 | with a non-zero timeout and a non-negative interval, pending, pending, running, running, completed gives True after 5 polls |
| Controller.StillRunningStillPolling | nessus.py:316-326 | as written, with a non-negative interval, a scan that stays running keeps the loop polling for as long as there are observations |
| Controller.RunningForeverNeverTimesOut | nessus.py:316-326 | as written, with a non-zero timeout and a non-negative interval a scan that stays running is never given up on, however long the polls take |
| Controller.DefaultTimeoutIgnored | nessus.py:293-326 | the default call (360 minutes, a poll every 5) on a scan still running after 101 polls is still waiting, where the docstring promises False |
| Controller.BlockUntilScanCompletesBounded | nessus.py:316-323 | the loops with the evidently intended `time_left <= 0` test compute BlockUntilCompleteBounded, where the sleep raises for a negative interval as in the source |
| Controller.BoundedWaitGivesUp | nessus.py:298-299 | with the intended test and a positive interval, a scan still running after enough polls to cover the minutes left makes the call return False, after no more than those polls |
| Controller.BoundedTrueWithinTime | nessus.py:316-328 | with the intended test, a scan that stops running while minutes are left makes the await-terminal loop return True at the first poll that sees another state |
| Controller.AwaitStartBoundedFrom | nessus.py:305-313 | in the variant, after k polls that do not see the scan running, 15 seconds of the 900-second budget have gone per poll |
| Controller.BoundedTrueWhenScanCompletesInTime | nessus.py:293-328 | with the intended test, a scan that starts running within the start budget and stops running before the timeout is spent makes the call return True, at the first poll that sees another state |
| Controller.DefaultTimeoutHonoured | nessus.py:293-299 | with the intended test, the default call on the scan still running after 101 polls returns False within 73 polls |

## Left out

- HTTP, TLS, request headers and the session: every answer is an input value. `assert_valid_http_response`'s URL argument only feeds a log line.
- The browser: Playwright calls are modelled as recorded actions, and each element wait as a sequence of per-attempt outcomes. An attempt past the end of that sequence counts as a timeout.
- Sleeps, clocks and `print`: the model counts polls instead of seconds or minutes. The one effect of a sleep that is kept is the `ValueError` that `time.sleep(interval*60)` raises for a negative interval (nessus.py:323).
- The constructors, `__init__` and the browser set-up (nessus.py:63-82, 172-207): these store credentials and open sessions. As written, nessus.py:199 passes the boolean `headless` (default False) where the Playwright object `context_manager` is expected, so nessus.py:80 evaluates `False.chromium.launch(...)` and raises `AttributeError`: `NessusEssentials` cannot be constructed as written. The model starts from an already constructed client and leaves the constructors out.
- The `__main__` block (nessus.py:378-400): a usage example.
- Re-fetching: the source fetches the directory anew for every lookup, and fetches the folder list once per scan. The model reads one listing (or one rejected answer) per call of `get_on_demand_scans`, `start_scan` and the web fallback, and one per status poll.
- Directory.GetOnDemandScans: the folder-list answer is the same for every scan, so a folder list that changes between fetches is not captured.
- Controller.BlockUntilScanCompletes: each poll's result is given as an input `Poll`: `Seen(status)`, `Missing` (no scan has the name) or `Rejected` (the listing cannot be fetched). `Controller.Observe` states what a poll reads from one listing, and `Controller.ObserveReadsStatus` proves it. A run that outlasts the given observations ends as `StillPolling`.
- Shaping.Lower: lower-cases ASCII only. Python's `str.lower` also folds non-ASCII letters.
- Waiter.BlockUntilElementIsVisible: exceptions other than the browser's timeout error, which the source lets escape, are not modelled.
- JSON shapes: a reply whose JSON lacks `folders`, `scans` or a field the client reads (a `KeyError` in Python) is not modelled. The only missing key that is modelled is the scan's `folder_name` at nessus.py:369.

## Findings

| source | as written | input that shows it | evidently intended | confidence | as-written member | corrected member |
|---|---|---|---|---|---|---|
| nessus.py:316-320 | the await-terminal loop decrements `time_left` but exits only when `timeout == 0`, so a non-zero timeout never ends the wait | default call (timeout 360, interval 5) on a scan that keeps reporting "running" for 101 polls (500 minutes): the call is still polling | return False once `time_left` minutes are spent (`time_left <= 0`), as the docstring at nessus.py:297-299 promises | high, not executed | Controller.RunningForeverNeverTimesOut | Controller.BoundedWaitGivesUp |
