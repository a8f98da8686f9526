/** The scan lifecycle controller (nessus.py:293-373): launching a named scan
    through the REST API with the web console as fallback, and waiting for a
    scan to start and to finish. Every answer of the scanner is an input:
    the directory listing (or its rejection), the launch endpoint's status code, the statuses
    the polls observe. */
module Controller {
  import opened Common
  import opened Directory
  import opened Shaping
  import opened Waiter
  import opened WebInterface

  // ---------------------------------------------------------------- start_scan

  /** A POST to /scans/{id}/launch; `targets` is the JSON body, sent only for
      a non-empty target list. */
  datatype LaunchRequest = LaunchRequest(scanId: int, targets: Option<seq<string>>)

  /** A call of the web fallback, with the arguments it was given. */
  datatype FallbackCall = FallbackCall(scanName: string, folderName: string, targets: seq<string>)

  /** How start_scan ends, the launch requests it sent, the fallback calls it
      made and what the fallback asked of the browser. */
  datatype StartRun = StartRun(
    outcome: Outcome<()>,
    launches: seq<LaunchRequest>,
    fallbacks: seq<FallbackCall>,
    actions: seq<Action>)

  /** The states from which start_scan refuses to launch (nessus.py:340-342). */
  const NonStartableStates: seq<string> :=
    ["running", "stopping", "imported", "pausing", "paused", "pending", "resuming"]

  /** The launch endpoint's answers start_scan handles. */
  const LaunchAccepted := 200
  const FeatureLocked := 412

  /** The request body start_scan chooses (nessus.py:350-356). */
  function LaunchBody(targets: seq<string>): (r: Option<seq<string>>)
    ensures r.Some? <==> |targets| > 0
    ensures r.Some? ==> r.value == targets
  {
    if |targets| == 0 then None else Some(targets)
  }

  /** The scan the directory resolves `scanName` to exists and its status
      lets it start, so start_scan sends a launch request. */
  predicate SendsLaunch(dir: Listing, scanName: string)
  {
    GetScanStatus(dir, scanName).Return? && GetScanStatus(dir, scanName).value !in NonStartableStates
  }

  /** start_scan (nessus.py:330-373). `launchStatus` is the status code the
      launch endpoint answers with; `env` is what the web fallback observes if
      it is called. `dir` is what get_on_demand_scans gives; the one listing
      serves every lookup. */
  function StartScan(
    dir: Listing, url: string, username: string, password: string,
    scanName: string, targets: seq<string>, launchStatus: int, env: WebEnv): (r: StartRun)
    // the listing cannot be fetched, or has no scan of that name: exit
    // before anything is sent
    ensures AssertScanExists(dir, scanName).Some? ==> r == StartRun(Abort(AssertScanExists(dir, scanName).value), [], [], [])
    ensures dir.Unfetched? ==> r == StartRun(Abort(BadResponse(dir.error)), [], [], [])
    // a non-startable state: exit before anything is sent
    ensures GetScanStatus(dir, scanName).Return? && GetScanStatus(dir, scanName).value in NonStartableStates ==>
      r == StartRun(Abort(InvalidState(GetScanStatus(dir, scanName).value)), [], [], [])
    // otherwise exactly one launch request, for the scan's id, with a
    // targets body exactly when there are targets
    ensures r.launches != [] <==> SendsLaunch(dir, scanName)
    ensures SendsLaunch(dir, scanName) ==>
      r.launches == [LaunchRequest(GetScanInformation(dir, scanName).value.id, LaunchBody(targets))]
    // 200: done, no fallback, the browser untouched
    ensures SendsLaunch(dir, scanName) && launchStatus == LaunchAccepted ==>
      r.outcome == Return(()) && r.fallbacks == [] && r.actions == []
    // 412: the fallback, once, with the scan's folder name and the same targets
    ensures SendsLaunch(dir, scanName) && launchStatus == FeatureLocked ==>
      var scan := GetScanInformation(dir, scanName).value;
      scan.folderName.Some? ==>
        && r.fallbacks == [FallbackCall(scanName, scan.folderName.value, targets)]
        && var web := StartScanWebInterface(dir, url, username, password, scanName, scan.folderName.value, targets, env);
           r.outcome == web.outcome && r.actions == web.actions
    // 412 for a scan whose folder is unknown: the dictionary has no folder_name
    ensures (SendsLaunch(dir, scanName) && launchStatus == FeatureLocked &&
             GetScanInformation(dir, scanName).value.folderName.None?) ==>
      r.outcome == Raise(MissingKey("folder_name")) && r.fallbacks == [] && r.actions == []
    // any other code: exit, no fallback
    ensures SendsLaunch(dir, scanName) && launchStatus != LaunchAccepted && launchStatus != FeatureLocked ==>
      r.outcome == Abort(UnexpectedLaunchStatus(launchStatus)) && r.fallbacks == [] && r.actions == []
    // the browser is driven only through the fallback, and the fallback only
    // after a launch request was refused with 412
    ensures r.actions != [] ==> |r.fallbacks| == 1
    ensures r.fallbacks != [] ==> r.launches != [] && launchStatus == FeatureLocked
  {
    match AssertScanExists(dir, scanName)
    case Some(why) => StartRun(Abort(why), [], [], [])
    case None =>
      var currState := GetScanStatus(dir, scanName).value;
      if currState in NonStartableStates then StartRun(Abort(InvalidState(currState)), [], [], [])
      else
        var scan := GetScanInformation(dir, scanName).value;
        var sent := [LaunchRequest(scan.id, LaunchBody(targets))];
        if launchStatus == LaunchAccepted then StartRun(Return(()), sent, [], [])
        else if launchStatus == FeatureLocked then
          match scan.folderName
          case None => StartRun(Raise(MissingKey("folder_name")), sent, [], [])
          case Some(folderName) =>
            var web := StartScanWebInterface(dir, url, username, password, scanName, folderName, targets, env);
            StartRun(web.outcome, sent, [FallbackCall(scanName, folderName, targets)], web.actions)
        else StartRun(Abort(UnexpectedLaunchStatus(launchStatus)), sent, [], [])
  }

  /** Every state of the refused set stops start_scan before it sends a
      launch request, and a completed scan does not. */
  lemma {:induction false} RefusedStatesSendNothing(
    scans: seq<Scan>, url: string, username: string, password: string,
    scanName: string, targets: seq<string>, launchStatus: int, env: WebEnv, k: nat)
    requires FirstNamed(scans, scanName, k)
    ensures scans[k].status in {"running", "stopping", "imported", "pausing", "paused", "pending", "resuming"} <==>
      StartScan(Listed(scans), url, username, password, scanName, targets, launchStatus, env).outcome == Abort(InvalidState(scans[k].status))
    ensures scans[k].status == "completed" ==>
      StartScan(Listed(scans), url, username, password, scanName, targets, launchStatus, env).launches != []
  {
    var r := StartScan(Listed(scans), url, username, password, scanName, targets, launchStatus, env);
    assert GetScanStatus(Listed(scans), scanName) == Return(scans[k].status);
  }

  /** End to end, through the fallback: a feature-locked launch of a scan with
      targets whose console shows every element types the targets, joined by
      ", ", into the custom-targets field, then confirms. */
  lemma {:induction false} FeatureLockedLaunchTypesTargets(
    scans: seq<Scan>, url: string, username: string, password: string,
    scanName: string, targets: seq<string>, env: WebEnv, k: nat)
    requires FirstNamed(scans, scanName, k) && scans[k].status !in NonStartableStates
    requires scans[k].folderName.Some?
    requires |targets| > 0
    requires env.pageStatus == 200
    requires WaitVisible(env.scanRow, DefaultRetries).Visible? && WaitVisible(env.launchDropdown, DefaultRetries).Visible?
    ensures var r := StartScan(Listed(scans), url, username, password, scanName, targets, FeatureLocked, env);
      && r.outcome == Return(())
      && r.launches == [LaunchRequest(scans[k].id, Some(targets))]
      && |r.actions| >= 3
      && r.actions[0] == Goto(url + ScanFoldersResource + FolderSlug(scans[k].folderName.value))
      && r.actions[|r.actions| - 2..] == [Fill(CustomTargetsField, JoinTargets(targets)), Click(CustomTargetsLaunch)]
  {
    var r := StartScan(Listed(scans), url, username, password, scanName, targets, FeatureLocked, env);
    var web := StartScanWebInterface(Listed(scans), url, username, password, scanName, scans[k].folderName.value, targets, env);
    assert AssertScanExists(Listed(scans), scanName).None?;
    assert ReachesLaunch(Listed(scans), scanName, env);
    assert r.actions == web.actions;
    var n := |web.actions|;
    assert web.actions[n - 4..][2..] == web.actions[n - 2..];
  }

  // ------------------------------------------------- block_until_scan_completes

  const Running := "running"

  /** The await-start phase: a 900-second budget, 15 seconds per poll. */
  const StartBudget := 900
  const StartPollSeconds := 15

  /** How block_until_scan_completes ends and how many status polls it made
      (the first, at nessus.py:301-302, included), or StillPolling when the
      given observations run out while the source would still be polling. */
  datatype Polling = Finished(result: Outcome<bool>, polls: nat) | StillPolling

  /** What one status poll observes: the scan's status, no scan of that
      name, or a listing the client could not fetch. */
  datatype Poll = Seen(status: string) | Missing | Rejected(error: HttpError)

  /** What get_scan_status gives on a listing, as a poll. */
  function Observe(dir: Listing, scanName: string): Poll
  {
    match GetScanStatus(dir, scanName)
    case Return(status) => Seen(status)
    case _ => if dir.Unfetched? then Rejected(dir.error) else Missing
  }

  /** Why a poll that saw no status makes the call exit. */
  function PollExit(p: Poll, scanName: string): (r: Reason)
    requires !p.Seen?
    ensures p.Missing? ==> r == ScanNotFound(scanName)
    ensures p.Rejected? ==> r == BadResponse(p.error)
  {
    if p.Missing? then ScanNotFound(scanName) else BadResponse(p.error)
  }

  /** A poll sees the status of the first scan with the name; it sees no scan
      exactly when the listing has none of that name; it fails exactly when
      the listing cannot be fetched; and when it sees no status the call
      exits for the reason get_scan_status exits. */
  lemma ObserveReadsStatus(dir: Listing, scanName: string)
    ensures dir.Listed? ==> (Observe(dir, scanName).Missing? <==> forall k :: 0 <= k < |dir.scans| ==> dir.scans[k].name != scanName)
    ensures dir.Listed? ==> forall k :: FirstNamed(dir.scans, scanName, k) ==> Observe(dir, scanName) == Seen(dir.scans[k].status)
    ensures Observe(dir, scanName).Rejected? <==> dir.Unfetched?
    ensures !Observe(dir, scanName).Seen? ==>
      GetScanStatus(dir, scanName) == Abort(PollExit(Observe(dir, scanName), scanName))
  {
  }

  /** The await-start loop (nessus.py:305-313) from the poll numbered k, with
      `budget` seconds left. */
  function AwaitStart(statuses: seq<Poll>, scanName: string, k: nat, budget: int, timeout: int, interval: int): Polling
    decreases |statuses| - k
  {
    if k >= |statuses| then StillPolling
    else match statuses[k]
      case Missing => Finished(Abort(PollExit(statuses[k], scanName)), k + 1)
      case Rejected(_) => Finished(Abort(PollExit(statuses[k], scanName)), k + 1)
      case Seen(status) =>
        if status == Running then AwaitCompletion(statuses, scanName, k, timeout, interval)
        else if budget == 0 then Finished(Abort(ScanStartTimeout), k + 1)
        else AwaitStart(statuses, scanName, k + 1, budget - StartPollSeconds, timeout, interval)
  }

  /** The await-terminal loop as written (nessus.py:316-328): poll k saw the
      scan running; the loop tests `timeout`, which it never changes, and
      then sleeps `interval` minutes, which raises for a negative interval
      before the next poll (nessus.py:323). */
  function AwaitCompletion(statuses: seq<Poll>, scanName: string, k: nat, timeout: int, interval: int): Polling
    requires k < |statuses|
    decreases |statuses| - k
  {
    if timeout == 0 then Finished(Return(false), k + 1)
    else if interval < 0 then Finished(Raise(NegativeSleepLength), k + 1)
    else if k + 1 >= |statuses| then StillPolling
    else match statuses[k + 1]
      case Missing => Finished(Abort(PollExit(statuses[k + 1], scanName)), k + 2)
      case Rejected(_) => Finished(Abort(PollExit(statuses[k + 1], scanName)), k + 2)
      case Seen(status) =>
        if status == Running then AwaitCompletion(statuses, scanName, k + 1, timeout, interval)
        else Finished(Return(true), k + 2)
  }

  /** What block_until_scan_completes does, as written, on these observations. */
  function BlockUntilComplete(statuses: seq<Poll>, scanName: string, timeout: int, interval: int): Polling
  {
    AwaitStart(statuses, scanName, 0, StartBudget, timeout, interval)
  }

  /** One poll of the await-start loop that does not see the scan running. */
  lemma StartStep(statuses: seq<Poll>, scanName: string, k: nat, budget: int, timeout: int, interval: int)
    requires k < |statuses| && statuses[k].Seen? && statuses[k].status != Running && budget != 0
    ensures AwaitStart(statuses, scanName, k, budget, timeout, interval) ==
      AwaitStart(statuses, scanName, k + 1, budget - StartPollSeconds, timeout, interval)
  {
  }

  /** One poll of the await-terminal loop as written. */
  lemma CompletionStep(statuses: seq<Poll>, scanName: string, k: nat, timeout: int, interval: int)
    requires k + 1 < |statuses| && timeout != 0 && interval >= 0
    ensures statuses[k + 1] == Seen(Running) ==>
      AwaitCompletion(statuses, scanName, k, timeout, interval) == AwaitCompletion(statuses, scanName, k + 1, timeout, interval)
    ensures statuses[k + 1].Seen? && statuses[k + 1].status != Running ==>
      AwaitCompletion(statuses, scanName, k, timeout, interval) == Finished(Return(true), k + 2)
  {
  }

  /** block_until_scan_completes (nessus.py:293-328) as written. statuses[k]
      is what the poll numbered k observes (Observe on that moment's
      directory). `interval` paces the polls, feeds the dead `time_left`
      countdown, and makes the sleep raise when it is negative. */
  method BlockUntilScanCompletes(statuses: seq<Poll>, scanName: string, timeout: int, interval: int)
    returns (r: Polling)
    ensures r == BlockUntilComplete(statuses, scanName, timeout, interval)
  {
    if |statuses| == 0 {
      return StillPolling;
    }
    var polled := statuses[0];
    if !polled.Seen? {
      return Finished(Abort(PollExit(polled, scanName)), 1);
    }
    var k := 0;
    var scanStatus := polled.status;

    var startRunningTimeout := StartBudget;
    while scanStatus != Running
      invariant k < |statuses| && statuses[k] == Seen(scanStatus)
      invariant startRunningTimeout == StartBudget - StartPollSeconds * k >= 0
      invariant BlockUntilComplete(statuses, scanName, timeout, interval) ==
        AwaitStart(statuses, scanName, k, startRunningTimeout, timeout, interval)
      decreases startRunningTimeout
    {
      if startRunningTimeout == 0 {
        return Finished(Abort(ScanStartTimeout), k + 1);
      }
      StartStep(statuses, scanName, k, startRunningTimeout, timeout, interval);
      startRunningTimeout := startRunningTimeout - StartPollSeconds;
      k := k + 1;
      if k >= |statuses| {
        return StillPolling;
      }
      polled := statuses[k];
      if !polled.Seen? {
        return Finished(Abort(PollExit(polled, scanName)), k + 1);
      }
      scanStatus := polled.status;
    }

    var timeLeft := timeout;  // counted down, never read
    while scanStatus == Running
      invariant k < |statuses| && statuses[k] == Seen(scanStatus)
      invariant scanStatus == Running ==>
        BlockUntilComplete(statuses, scanName, timeout, interval) == AwaitCompletion(statuses, scanName, k, timeout, interval)
      invariant scanStatus != Running ==>
        BlockUntilComplete(statuses, scanName, timeout, interval) == Finished(Return(true), k + 1)
      decreases |statuses| - k
    {
      if timeout == 0 {
        return Finished(Return(false), k + 1);
      }
      if interval < 0 {
        return Finished(Raise(NegativeSleepLength), k + 1);
      }
      timeLeft := timeLeft - interval;
      if k + 1 >= |statuses| {
        return StillPolling;
      }
      CompletionStep(statuses, scanName, k, timeout, interval);
      k := k + 1;
      polled := statuses[k];
      if !polled.Seen? {
        return Finished(Abort(PollExit(polled, scanName)), k + 1);
      }
      scanStatus := polled.status;
    }
    r := Finished(Return(true), k + 1);
  }

  /** Polls from..to-1 all saw the scan, in a state other than running. */
  ghost predicate NotRunningBetween(statuses: seq<Poll>, from: nat, to: nat)
  {
    to <= |statuses| && forall i :: from <= i < to ==> statuses[i].Seen? && statuses[i].status != Running
  }

  /** After k polls that did not see the scan running, the await-start phase
      has spent exactly 15 seconds of budget per poll. */
  lemma {:induction false} AwaitStartFrom(statuses: seq<Poll>, scanName: string, k: nat, timeout: int, interval: int)
    requires k <= 60 && NotRunningBetween(statuses, 0, k)
    ensures BlockUntilComplete(statuses, scanName, timeout, interval) ==
      AwaitStart(statuses, scanName, k, StartBudget - StartPollSeconds * k, timeout, interval)
  {
    if k > 0 {
      AwaitStartFrom(statuses, scanName, k - 1, timeout, interval);
    }
  }

  /** The await-terminal phase never ends in the start-timeout exit. */
  lemma {:induction false} CompletionNeverStartTimeout(statuses: seq<Poll>, scanName: string, k: nat, timeout: int, interval: int)
    requires k < |statuses|
    ensures var p := AwaitCompletion(statuses, scanName, k, timeout, interval);
      p.Finished? ==> p.result != Abort(ScanStartTimeout)
    decreases |statuses| - k
  {
    if timeout != 0 && k + 1 < |statuses| && statuses[k + 1] == Seen(Running) {
      CompletionNeverStartTimeout(statuses, scanName, k + 1, timeout, interval);
    }
  }

  lemma {:induction false} StartTimeoutFrom(statuses: seq<Poll>, scanName: string, k: nat, timeout: int, interval: int)
    requires k <= 60
    ensures NotRunningBetween(statuses, k, 61) ==>
      AwaitStart(statuses, scanName, k, StartBudget - StartPollSeconds * k, timeout, interval) == Finished(Abort(ScanStartTimeout), 61)
    ensures var p := AwaitStart(statuses, scanName, k, StartBudget - StartPollSeconds * k, timeout, interval);
      p.Finished? && p.result == Abort(ScanStartTimeout) ==> p.polls == 61 && NotRunningBetween(statuses, k, 61)
    decreases 60 - k
  {
    if k < |statuses| && statuses[k].Seen? {
      if statuses[k].status == Running {
        CompletionNeverStartTimeout(statuses, scanName, k, timeout, interval);
      } else if k < 60 {
        StartTimeoutFrom(statuses, scanName, k + 1, timeout, interval);
      }
    }
  }

  /** Sixty-one polls in a row (the first and sixty more, 900 seconds at 15
      seconds each) that see the scan but not running make the call exit,
      and that is the only way it exits for a scan that does not start. */
  lemma StartTimesOutAfterSixtyPolls(statuses: seq<Poll>, scanName: string, timeout: int, interval: int)
    ensures NotRunningBetween(statuses, 0, 61) <==>
      BlockUntilComplete(statuses, scanName, timeout, interval) == Finished(Abort(ScanStartTimeout), 61)
    ensures var p := BlockUntilComplete(statuses, scanName, timeout, interval);
      p.Finished? && p.result == Abort(ScanStartTimeout) ==> p.polls == 61
  {
    StartTimeoutFrom(statuses, scanName, 0, timeout, interval);
  }

  /** The scan is first seen running at poll k, within the start budget. */
  ghost predicate StartsRunningAt(statuses: seq<Poll>, k: nat)
  {
    k <= 60 && k < |statuses| && statuses[k] == Seen(Running) && NotRunningBetween(statuses, 0, k)
  }

  /** With timeout 0 the call gives up as soon as the scan is seen running:
      False, and no further poll. */
  lemma ZeroTimeoutReturnsFalse(statuses: seq<Poll>, scanName: string, k: nat, interval: int)
    requires StartsRunningAt(statuses, k)
    ensures BlockUntilComplete(statuses, scanName, 0, interval) == Finished(Return(false), k + 1)
  {
    AwaitStartFrom(statuses, scanName, k, 0, interval);
  }

  /** A negative interval with a non-zero timeout: the first sleep of the
      await-terminal loop raises, right after the poll that first sees the
      scan running. */
  lemma NegativeIntervalRaises(statuses: seq<Poll>, scanName: string, k: nat, timeout: int, interval: int)
    requires StartsRunningAt(statuses, k) && timeout != 0 && interval < 0
    ensures BlockUntilComplete(statuses, scanName, timeout, interval) == Finished(Raise(NegativeSleepLength), k + 1)
  {
    AwaitStartFrom(statuses, scanName, k, timeout, interval);
  }

  lemma {:induction false} CompletionRaisesOnlyOnSleep(statuses: seq<Poll>, scanName: string, k: nat, timeout: int, interval: int)
    requires k < |statuses|
    ensures var p := AwaitCompletion(statuses, scanName, k, timeout, interval);
      p.Finished? && p.result.Raise? ==> p == Finished(Raise(NegativeSleepLength), k + 1) && timeout != 0 && interval < 0
    decreases |statuses| - k
  {
    if timeout != 0 && interval >= 0 && k + 1 < |statuses| && statuses[k + 1] == Seen(Running) {
      CompletionRaisesOnlyOnSleep(statuses, scanName, k + 1, timeout, interval);
    }
  }

  lemma {:induction false} StartRaisesOnlyOnSleep(statuses: seq<Poll>, scanName: string, k: nat, budget: int, timeout: int, interval: int)
    ensures var p := AwaitStart(statuses, scanName, k, budget, timeout, interval);
      p.Finished? && p.result.Raise? ==> p.result == Raise(NegativeSleepLength) && timeout != 0 && interval < 0
    decreases |statuses| - k
  {
    if k < |statuses| && statuses[k].Seen? {
      if statuses[k].status == Running {
        CompletionRaisesOnlyOnSleep(statuses, scanName, k, timeout, interval);
      } else if budget != 0 {
        StartRaisesOnlyOnSleep(statuses, scanName, k + 1, budget - StartPollSeconds, timeout, interval);
      }
    }
  }

  /** The call raises only from the sleep, only for a negative interval and a
      non-zero timeout, and then right after a poll that saw the scan running. */
  lemma RaisesOnlyForNegativeInterval(statuses: seq<Poll>, scanName: string, timeout: int, interval: int)
    ensures var p := BlockUntilComplete(statuses, scanName, timeout, interval);
      p.Finished? && p.result.Raise? ==>
        p.result == Raise(NegativeSleepLength) && timeout != 0 && interval < 0
        && 1 <= p.polls <= |statuses| && statuses[p.polls - 1] == Seen(Running)
  {
    StartRaisesOnlyOnSleep(statuses, scanName, 0, StartBudget, timeout, interval);
    var p := BlockUntilComplete(statuses, scanName, timeout, interval);
    if p.Finished? && p.result.Raise? {
      RaiseFollowsRunning(statuses, scanName, 0, StartBudget, timeout, interval);
    }
  }

  /** A raise comes right after a poll that saw the scan running. */
  lemma {:induction false} RaiseFollowsRunning(statuses: seq<Poll>, scanName: string, k: nat, budget: int, timeout: int, interval: int)
    ensures var p := AwaitStart(statuses, scanName, k, budget, timeout, interval);
      p.Finished? && p.result.Raise? ==> 1 <= p.polls <= |statuses| && statuses[p.polls - 1] == Seen(Running)
    decreases |statuses| - k
  {
    if k < |statuses| && statuses[k].Seen? {
      if statuses[k].status == Running {
        CompletionRaisesOnlyOnSleep(statuses, scanName, k, timeout, interval);
      } else if budget != 0 {
        RaiseFollowsRunning(statuses, scanName, k + 1, budget - StartPollSeconds, timeout, interval);
      }
    }
  }

  lemma {:induction false} CompletionNeverFalse(statuses: seq<Poll>, scanName: string, k: nat, timeout: int, interval: int)
    requires k < |statuses| && timeout != 0
    ensures AwaitCompletion(statuses, scanName, k, timeout, interval).Finished? ==>
      AwaitCompletion(statuses, scanName, k, timeout, interval).result != Return(false)
    decreases |statuses| - k
  {
    if k + 1 < |statuses| && statuses[k + 1] == Seen(Running) {
      CompletionNeverFalse(statuses, scanName, k + 1, timeout, interval);
    }
  }

  lemma {:induction false} StartNeverFalse(statuses: seq<Poll>, scanName: string, k: nat, budget: int, timeout: int, interval: int)
    requires timeout != 0
    ensures AwaitStart(statuses, scanName, k, budget, timeout, interval).Finished? ==>
      AwaitStart(statuses, scanName, k, budget, timeout, interval).result != Return(false)
    decreases |statuses| - k
  {
    if k < |statuses| && statuses[k].Seen? {
      if statuses[k].status == Running {
        CompletionNeverFalse(statuses, scanName, k, timeout, interval);
      } else if budget != 0 {
        StartNeverFalse(statuses, scanName, k + 1, budget - StartPollSeconds, timeout, interval);
      }
    }
  }

  /** False comes back only with timeout 0: counting down the minutes left
      never stops the wait. */
  lemma FalseOnlyForZeroTimeout(statuses: seq<Poll>, scanName: string, timeout: int, interval: int)
    ensures var p := BlockUntilComplete(statuses, scanName, timeout, interval);
      p.Finished? && p.result == Return(false) ==> timeout == 0
  {
    if timeout != 0 {
      StartNeverFalse(statuses, scanName, 0, StartBudget, timeout, interval);
    }
  }

  /** Once running, the call returns True at the first later poll that sees
      the scan in any other state, with a poll count to match. */
  lemma {:induction false} TrueAtFirstNonRunningStatus(statuses: seq<Poll>, scanName: string, k: nat, m: nat, timeout: int, interval: int)
    requires timeout != 0 && interval >= 0 && k < m < |statuses|
    requires forall i :: k <= i < m ==> statuses[i] == Seen(Running)
    requires statuses[m].Seen? && statuses[m].status != Running
    ensures AwaitCompletion(statuses, scanName, k, timeout, interval) == Finished(Return(true), m + 1)
    decreases m - k
  {
    if k + 1 < m {
      TrueAtFirstNonRunningStatus(statuses, scanName, k + 1, m, timeout, interval);
    }
  }

  lemma {:induction false} CompletionTrueShape(statuses: seq<Poll>, scanName: string, k: nat, timeout: int, interval: int)
    requires k < |statuses| && statuses[k] == Seen(Running)
    ensures var p := AwaitCompletion(statuses, scanName, k, timeout, interval);
      p.Finished? && p.result == Return(true) ==>
        2 <= p.polls <= |statuses| && statuses[p.polls - 2] == Seen(Running)
        && statuses[p.polls - 1].Seen? && statuses[p.polls - 1].status != Running
    decreases |statuses| - k
  {
    if timeout != 0 && k + 1 < |statuses| && statuses[k + 1] == Seen(Running) {
      CompletionTrueShape(statuses, scanName, k + 1, timeout, interval);
    }
  }

  lemma {:induction false} StartTrueShape(statuses: seq<Poll>, scanName: string, k: nat, budget: int, timeout: int, interval: int)
    ensures var p := AwaitStart(statuses, scanName, k, budget, timeout, interval);
      p.Finished? && p.result == Return(true) ==>
        2 <= p.polls <= |statuses| && statuses[p.polls - 2] == Seen(Running)
        && statuses[p.polls - 1].Seen? && statuses[p.polls - 1].status != Running
    decreases |statuses| - k
  {
    if k < |statuses| && statuses[k].Seen? {
      if statuses[k].status == Running {
        CompletionTrueShape(statuses, scanName, k, timeout, interval);
      } else if budget != 0 {
        StartTrueShape(statuses, scanName, k + 1, budget - StartPollSeconds, timeout, interval);
      }
    }
  }

  /** True means the scan was seen running and then, at the last poll, in a
      state other than running: a terminal state. */
  lemma TrueMeansTerminalStateSeen(statuses: seq<Poll>, scanName: string, timeout: int, interval: int)
    ensures var p := BlockUntilComplete(statuses, scanName, timeout, interval);
      p.Finished? && p.result == Return(true) ==>
        2 <= p.polls <= |statuses| && statuses[p.polls - 2] == Seen(Running)
        && statuses[p.polls - 1].Seen? && statuses[p.polls - 1].status != Running
  {
    StartTrueShape(statuses, scanName, 0, StartBudget, timeout, interval);
  }

  /** A scan pending for two polls, running for two, then completed: True
      after the fifth poll. */
  lemma PendingRunningCompleted(scanName: string, timeout: int, interval: int)
    requires timeout != 0 && interval >= 0
    ensures BlockUntilComplete([Seen("pending"), Seen("pending"), Seen(Running), Seen(Running), Seen("completed")], scanName, timeout, interval)
      == Finished(Return(true), 5)
  {
    var s := [Seen("pending"), Seen("pending"), Seen(Running), Seen(Running), Seen("completed")];
    AwaitStartFrom(s, scanName, 2, timeout, interval);
    TrueAtFirstNonRunningStatus(s, scanName, 2, 4, timeout, interval);
  }

  lemma {:induction false} StillRunningStillPolling(statuses: seq<Poll>, scanName: string, k: nat, timeout: int, interval: int)
    requires timeout != 0 && interval >= 0 && k < |statuses|
    requires forall i :: k <= i < |statuses| ==> statuses[i] == Seen(Running)
    ensures AwaitCompletion(statuses, scanName, k, timeout, interval) == StillPolling
    decreases |statuses| - k
  {
    if k + 1 < |statuses| {
      StillRunningStillPolling(statuses, scanName, k + 1, timeout, interval);
    }
  }

  /** The quirk as written: with a non-zero timeout a scan that keeps running
      is polled for as long as there are observations — however many minutes
      of `interval` they stand for, the call never returns. */
  lemma RunningForeverNeverTimesOut(statuses: seq<Poll>, scanName: string, timeout: int, interval: int)
    requires timeout != 0 && interval >= 0
    requires forall i :: 0 <= i < |statuses| ==> statuses[i] == Seen(Running)
    ensures BlockUntilComplete(statuses, scanName, timeout, interval) == StillPolling
  {
    if |statuses| > 0 {
      StillRunningStillPolling(statuses, scanName, 0, timeout, interval);
    }
  }

  /** The default call (timeout 360 minutes, polled every 5) on a scan that
      runs for 101 polls, 500 minutes after the first: still waiting, where
      the documented contract is to return False. */
  lemma DefaultTimeoutIgnored(statuses: seq<Poll>, scanName: string)
    requires |statuses| == 101 && forall i :: 0 <= i < |statuses| ==> statuses[i] == Seen(Running)
    ensures BlockUntilComplete(statuses, scanName, 360, 5) == StillPolling
  {
    RunningForeverNeverTimesOut(statuses, scanName, 360, 5);
  }

  // ------------------------------------- the await-terminal loop as intended

  /** The await-terminal loop with the countdown it evidently intends: it
      gives up once `timeLeft` minutes are spent. */
  function AwaitCompletionBounded(statuses: seq<Poll>, scanName: string, k: nat, timeLeft: int, interval: int): Polling
    requires k < |statuses|
    decreases |statuses| - k
  {
    if timeLeft <= 0 then Finished(Return(false), k + 1)
    else if interval < 0 then Finished(Raise(NegativeSleepLength), k + 1)
    else if k + 1 >= |statuses| then StillPolling
    else match statuses[k + 1]
      case Missing => Finished(Abort(PollExit(statuses[k + 1], scanName)), k + 2)
      case Rejected(_) => Finished(Abort(PollExit(statuses[k + 1], scanName)), k + 2)
      case Seen(status) =>
        if status == Running then AwaitCompletionBounded(statuses, scanName, k + 1, timeLeft - interval, interval)
        else Finished(Return(true), k + 2)
  }

  /** The await-start phase followed by the bounded await-terminal phase. */
  function AwaitStartBounded(statuses: seq<Poll>, scanName: string, k: nat, budget: int, timeout: int, interval: int): Polling
    decreases |statuses| - k
  {
    if k >= |statuses| then StillPolling
    else match statuses[k]
      case Missing => Finished(Abort(PollExit(statuses[k], scanName)), k + 1)
      case Rejected(_) => Finished(Abort(PollExit(statuses[k], scanName)), k + 1)
      case Seen(status) =>
        if status == Running then AwaitCompletionBounded(statuses, scanName, k, timeout, interval)
        else if budget == 0 then Finished(Abort(ScanStartTimeout), k + 1)
        else AwaitStartBounded(statuses, scanName, k + 1, budget - StartPollSeconds, timeout, interval)
  }

  /** One poll of the bounded await-terminal loop. */
  lemma CompletionBoundedStep(statuses: seq<Poll>, scanName: string, k: nat, timeLeft: int, interval: int)
    requires k + 1 < |statuses| && timeLeft > 0 && interval >= 0
    ensures statuses[k + 1] == Seen(Running) ==>
      AwaitCompletionBounded(statuses, scanName, k, timeLeft, interval) ==
      AwaitCompletionBounded(statuses, scanName, k + 1, timeLeft - interval, interval)
    ensures statuses[k + 1].Seen? && statuses[k + 1].status != Running ==>
      AwaitCompletionBounded(statuses, scanName, k, timeLeft, interval) == Finished(Return(true), k + 2)
  {
  }

  /** One poll of the bounded await-start loop that does not see the scan running. */
  lemma StartBoundedStep(statuses: seq<Poll>, scanName: string, k: nat, budget: int, timeout: int, interval: int)
    requires k < |statuses| && statuses[k].Seen? && statuses[k].status != Running && budget != 0
    ensures AwaitStartBounded(statuses, scanName, k, budget, timeout, interval) ==
      AwaitStartBounded(statuses, scanName, k + 1, budget - StartPollSeconds, timeout, interval)
  {
  }

  /** What block_until_scan_completes does with the intended countdown. */
  function BlockUntilCompleteBounded(statuses: seq<Poll>, scanName: string, timeout: int, interval: int): Polling
  {
    AwaitStartBounded(statuses, scanName, 0, StartBudget, timeout, interval)
  }

  /** block_until_scan_completes with the await-terminal loop testing
      `time_left <= 0` where the source tests `timeout == 0`. */
  method BlockUntilScanCompletesBounded(statuses: seq<Poll>, scanName: string, timeout: int, interval: int)
    returns (r: Polling)
    ensures r == BlockUntilCompleteBounded(statuses, scanName, timeout, interval)
  {
    if |statuses| == 0 {
      return StillPolling;
    }
    var polled := statuses[0];
    if !polled.Seen? {
      return Finished(Abort(PollExit(polled, scanName)), 1);
    }
    var k := 0;
    var scanStatus := polled.status;

    var startRunningTimeout := StartBudget;
    while scanStatus != Running
      invariant k < |statuses| && statuses[k] == Seen(scanStatus)
      invariant startRunningTimeout == StartBudget - StartPollSeconds * k >= 0
      invariant BlockUntilCompleteBounded(statuses, scanName, timeout, interval) ==
        AwaitStartBounded(statuses, scanName, k, startRunningTimeout, timeout, interval)
      decreases startRunningTimeout
    {
      if startRunningTimeout == 0 {
        return Finished(Abort(ScanStartTimeout), k + 1);
      }
      StartBoundedStep(statuses, scanName, k, startRunningTimeout, timeout, interval);
      startRunningTimeout := startRunningTimeout - StartPollSeconds;
      k := k + 1;
      if k >= |statuses| {
        return StillPolling;
      }
      polled := statuses[k];
      if !polled.Seen? {
        return Finished(Abort(PollExit(polled, scanName)), k + 1);
      }
      scanStatus := polled.status;
    }

    var timeLeft := timeout;
    while scanStatus == Running
      invariant k < |statuses| && statuses[k] == Seen(scanStatus)
      invariant scanStatus == Running ==>
        BlockUntilCompleteBounded(statuses, scanName, timeout, interval) ==
        AwaitCompletionBounded(statuses, scanName, k, timeLeft, interval)
      invariant scanStatus != Running ==>
        BlockUntilCompleteBounded(statuses, scanName, timeout, interval) == Finished(Return(true), k + 1)
      decreases |statuses| - k
    {
      if timeLeft <= 0 {
        return Finished(Return(false), k + 1);
      }
      if interval < 0 {
        return Finished(Raise(NegativeSleepLength), k + 1);
      }
      timeLeft := timeLeft - interval;
      if k + 1 >= |statuses| {
        return StillPolling;
      }
      CompletionBoundedStep(statuses, scanName, k, timeLeft + interval, interval);
      k := k + 1;
      polled := statuses[k];
      if !polled.Seen? {
        return Finished(Abort(PollExit(polled, scanName)), k + 1);
      }
      scanStatus := polled.status;
    }
    r := Finished(Return(true), k + 1);
  }

  /** The intended promise: with a positive interval, a scan still running
      for n more polls, where n intervals cover the minutes left, makes the
      call return False after no more than those polls. */
  lemma {:induction false} BoundedWaitGivesUp(statuses: seq<Poll>, scanName: string, k: nat, n: nat, timeLeft: int, interval: int)
    requires interval > 0 && n * interval >= timeLeft
    requires k + n < |statuses|
    requires forall i :: k <= i <= k + n ==> statuses[i] == Seen(Running)
    ensures AwaitCompletionBounded(statuses, scanName, k, timeLeft, interval).Finished?
    ensures AwaitCompletionBounded(statuses, scanName, k, timeLeft, interval).result == Return(false)
    ensures AwaitCompletionBounded(statuses, scanName, k, timeLeft, interval).polls <= k + n + 1
    decreases n
  {
    if timeLeft > 0 {
      assert n > 0;
      BoundedWaitGivesUp(statuses, scanName, k + 1, n - 1, timeLeft - interval, interval);
    }
  }

  /** The other half of the intended promise: a scan that stops running
      while minutes are left makes the call return True at the first poll
      that sees it in another state. */
  lemma {:induction false} BoundedTrueWithinTime(statuses: seq<Poll>, scanName: string, k: nat, m: nat, timeLeft: int, interval: int)
    requires interval >= 0 && (m - k - 1) * interval < timeLeft
    requires k < m < |statuses|
    requires forall i :: k <= i < m ==> statuses[i] == Seen(Running)
    requires statuses[m].Seen? && statuses[m].status != Running
    ensures AwaitCompletionBounded(statuses, scanName, k, timeLeft, interval) == Finished(Return(true), m + 1)
    decreases m - k
  {
    assert (m - k - 1) * interval >= 0;
    if k + 1 < m {
      assert (m - (k + 1) - 1) * interval == (m - k - 1) * interval - interval;
      BoundedTrueWithinTime(statuses, scanName, k + 1, m, timeLeft - interval, interval);
    }
  }

  /** After k polls that did not see the scan running, the bounded variant's
      await-start phase has spent 15 seconds of budget per poll. */
  lemma {:induction false} AwaitStartBoundedFrom(statuses: seq<Poll>, scanName: string, k: nat, timeout: int, interval: int)
    requires k <= 60 && NotRunningBetween(statuses, 0, k)
    ensures BlockUntilCompleteBounded(statuses, scanName, timeout, interval) ==
      AwaitStartBounded(statuses, scanName, k, StartBudget - StartPollSeconds * k, timeout, interval)
  {
    if k > 0 {
      AwaitStartBoundedFrom(statuses, scanName, k - 1, timeout, interval);
    }
  }

  /** End to end with the intended test: a scan that starts running within
      the start budget and stops running while minutes are left makes the
      call return True, at the first poll that sees another state. */
  lemma BoundedTrueWhenScanCompletesInTime(statuses: seq<Poll>, scanName: string, s: nat, m: nat, timeout: int, interval: int)
    requires StartsRunningAt(statuses, s)
    requires s < m < |statuses|
    requires forall i :: s <= i < m ==> statuses[i] == Seen(Running)
    requires statuses[m].Seen? && statuses[m].status != Running
    requires interval >= 0 && (m - s - 1) * interval < timeout
    ensures BlockUntilCompleteBounded(statuses, scanName, timeout, interval) == Finished(Return(true), m + 1)
  {
    AwaitStartBoundedFrom(statuses, scanName, s, timeout, interval);
    BoundedTrueWithinTime(statuses, scanName, s, m, timeout, interval);
  }

  /** The default call on the scan that runs for 101 polls: False, after at
      most 73 polls (the first, then 72 of 5 minutes for the 360). */
  lemma DefaultTimeoutHonoured(statuses: seq<Poll>, scanName: string)
    requires |statuses| == 101 && forall i :: 0 <= i < |statuses| ==> statuses[i] == Seen(Running)
    ensures BlockUntilCompleteBounded(statuses, scanName, 360, 5).Finished?
    ensures BlockUntilCompleteBounded(statuses, scanName, 360, 5).result == Return(false)
    ensures BlockUntilCompleteBounded(statuses, scanName, 360, 5).polls <= 73
  {
    BoundedWaitGivesUp(statuses, scanName, 0, 72, 360, 5);
  }
}
