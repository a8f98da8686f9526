/** The web fallback (nessus.py:98-168): log in to the product's web console
    and launch a scan by clicking through it, used when the REST launch
    endpoint is feature-locked. The browser is not modelled: what the client
    asks of the page is recorded as a trace of actions, and what the page and
    the web server do is given as a WebEnv. */
module WebInterface {
  import opened Common
  import opened Http
  import opened Directory
  import opened Waiter
  import opened Shaping

  /** One request the client makes of the page: page.goto, page.fill, page.click. */
  datatype Action = Goto(url: string) | Fill(selector: string, text: string) | Click(selector: string)

  /** What one fallback run observes: the status of the HTTP check made before
      navigating, and the per-attempt outcomes of the four waits for an element
      (the username field, the Sign In control, the scan's row, the launch
      drop-down). */
  datatype WebEnv = WebEnv(
    pageStatus: int,
    usernameField: seq<bool>,
    signInButton: seq<bool>,
    scanRow: seq<bool>,
    launchDropdown: seq<bool>)

  /** How a run ends, and what it asked of the page. */
  datatype WebRun = WebRun(outcome: Outcome<()>, actions: seq<Action>)

  /** The part of the console's URL that names a scan folder. */
  const ScanFoldersResource := "/#/scans/folders/"

  /** The selectors the fallback uses. */
  const UsernameField := ".login-username"
  const PasswordField := ".login-password"
  const SignIn := "text=Sign In"
  const LaunchDropdown := "#launch-dropdown"
  const LaunchButton := "text=Launch"
  const DefaultTargets := "text=Default"
  const CustomTargets := "text=Custom"
  const CustomTargetsField := "#custom-launch-targets"
  const CustomTargetsLaunch := "#custom-targets-launch"

  /** The selector of a scan's row: its name as text. */
  function ScanRow(scanName: string): string
  {
    "text=" + scanName
  }

  /** Both login waits succeed, so the credentials are submitted. */
  predicate SignsIn(env: WebEnv)
  {
    WaitVisible(env.usernameField, DefaultRetries).Visible? && WaitVisible(env.signInButton, DefaultRetries).Visible?
  }

  /** _login_web_interface (nessus.py:98-124). The page is checked over HTTP
      (200 expected, no JSON) before navigating; a login form that does not
      show up is taken to mean the session is already logged in, so the call
      still returns normally. */
  function LoginWebInterface(url: string, username: string, password: string, resource: string, env: WebEnv): (r: WebRun)
    ensures r.outcome.Abort? <==> env.pageStatus != 200
    ensures env.pageStatus != 200 ==> r == WebRun(Abort(BadResponse(UnexpectedStatus(200, env.pageStatus))), [])
    ensures env.pageStatus == 200 ==>
      r.outcome == Return(()) && |r.actions| >= 1 && r.actions[0] == Goto(url + resource)
    ensures Fill(UsernameField, username) in r.actions <==>
      env.pageStatus == 200 && WaitVisible(env.usernameField, DefaultRetries).Visible?
    ensures Fill(PasswordField, password) in r.actions <==>
      env.pageStatus == 200 && WaitVisible(env.usernameField, DefaultRetries).Visible?
    ensures Click(SignIn) in r.actions <==> env.pageStatus == 200 && SignsIn(env)
    ensures forall a :: a in r.actions ==>
      a == Goto(url + resource) || a == Fill(UsernameField, username) || a == Fill(PasswordField, password) || a == Click(SignIn)
    // the order is fixed: open the page, type the user name, type the
    // password, click Sign In, stopping where an element is missing
    ensures env.pageStatus == 200 && WaitVisible(env.usernameField, DefaultRetries).NotVisible? ==>
      r.actions == [Goto(url + resource)]
    ensures env.pageStatus == 200 && WaitVisible(env.usernameField, DefaultRetries).Visible? && !SignsIn(env) ==>
      r.actions == [Goto(url + resource), Fill(UsernameField, username), Fill(PasswordField, password)]
    ensures env.pageStatus == 200 && SignsIn(env) ==>
      r.actions == [Goto(url + resource), Fill(UsernameField, username), Fill(PasswordField, password), Click(SignIn)]
  {
    var probe: Response<()> := Response(env.pageStatus, None);
    var check := AssertValidHttpResponse(probe, 200, false);
    if check.Some? then WebRun(Abort(BadResponse(check.value)), [])
    else
      var navigated := [Goto(url + resource)];
      if WaitVisible(env.usernameField, DefaultRetries).NotVisible? then WebRun(Return(()), navigated)
      else
        var filled := navigated + [Fill(UsernameField, username), Fill(PasswordField, password)];
        if WaitVisible(env.signInButton, DefaultRetries).NotVisible? then WebRun(Return(()), filled)
        else WebRun(Return(()), filled + [Click(SignIn)])
  }

  /** The scan exists, the page answers, and both the scan's row and the
      launch drop-down show up: the run reaches the launch dialog. */
  predicate ReachesLaunch(dir: Listing, scanName: string, env: WebEnv)
  {
    && AssertScanExists(dir, scanName).None?
    && env.pageStatus == 200
    && WaitVisible(env.scanRow, DefaultRetries).Visible?
    && WaitVisible(env.launchDropdown, DefaultRetries).Visible?
  }

  /** An action that belongs to the launch dialog rather than to navigation,
      login or selecting the scan. */
  predicate InLaunchDialog(a: Action)
  {
    a == Click(LaunchButton) || a == Click(DefaultTargets) || a == Click(CustomTargets)
    || (a.Fill? && a.selector == CustomTargetsField) || a == Click(CustomTargetsLaunch)
  }

  /** The launch dialog (nessus.py:152-165): Launch, then Default for no
      targets, or Custom with the joined targets typed in and confirmed. */
  function LaunchDialog(targets: seq<string>): (r: seq<Action>)
    ensures forall a :: a in r ==> InLaunchDialog(a)
    ensures forall a :: a in r && a.Fill? ==> |targets| > 0 && a == Fill(CustomTargetsField, JoinTargets(targets))
    ensures |r| >= 2 && r[0] == Click(LaunchButton)
    ensures |targets| == 0 ==> r[1..] == [Click(DefaultTargets)]
    ensures |targets| > 0 ==> r[1..] == [Click(CustomTargets), Fill(CustomTargetsField, JoinTargets(targets)), Click(CustomTargetsLaunch)]
  {
    if |targets| == 0 then [Click(LaunchButton), Click(DefaultTargets)]
    else [Click(LaunchButton), Click(CustomTargets), Fill(CustomTargetsField, JoinTargets(targets)), Click(CustomTargetsLaunch)]
  }

  /** What follows the login on the folder page (nessus.py:143-165): select
      the scan's row, then launch it. */
  function SelectAndLaunch(scanName: string, targets: seq<string>, env: WebEnv): (r: WebRun)
    ensures WaitVisible(env.scanRow, DefaultRetries).NotVisible? ==> r == WebRun(Return(()), [])
    ensures WaitVisible(env.scanRow, DefaultRetries).Visible? && WaitVisible(env.launchDropdown, DefaultRetries).NotVisible? ==>
      r == WebRun(Raise(ElementNotVisible(LaunchDropdown)), [Click(ScanRow(scanName))])
    ensures WaitVisible(env.scanRow, DefaultRetries).Visible? && WaitVisible(env.launchDropdown, DefaultRetries).Visible? ==>
      r == WebRun(Return(()), [Click(ScanRow(scanName))] + LaunchDialog(targets))
    ensures forall a :: a in r.actions && a.Fill? ==> |targets| > 0 && a == Fill(CustomTargetsField, JoinTargets(targets))
  {
    if WaitVisible(env.scanRow, DefaultRetries).NotVisible? then WebRun(Return(()), [])
    else if WaitVisible(env.launchDropdown, DefaultRetries).NotVisible? then
      WebRun(Raise(ElementNotVisible(LaunchDropdown)), [Click(ScanRow(scanName))])
    else WebRun(Return(()), [Click(ScanRow(scanName))] + LaunchDialog(targets))
  }

  /** _start_scan_web_interface (nessus.py:126-168). A scan row that never
      shows up ends the call normally after a fatal message; a launch
      drop-down that never shows up raises ElementNotVisibleError. */
  function StartScanWebInterface(
    dir: Listing, url: string, username: string, password: string,
    scanName: string, folderName: string, targets: seq<string>, env: WebEnv): (r: WebRun)
    // the existence check comes first and touches nothing
    ensures AssertScanExists(dir, scanName).Some? ==> r == WebRun(Abort(AssertScanExists(dir, scanName).value), [])
    // a failed HTTP check of the folder page exits before navigating
    ensures AssertScanExists(dir, scanName).None? && env.pageStatus != 200 ==>
      r == WebRun(Abort(BadResponse(UnexpectedStatus(200, env.pageStatus))), [])
    // otherwise the first step opens the folder page named by the slug
    ensures AssertScanExists(dir, scanName).None? && env.pageStatus == 200 ==>
      |r.actions| >= 1 && r.actions[0] == Goto(url + ScanFoldersResource + FolderSlug(folderName))
    ensures r.outcome == Raise(ElementNotVisible(LaunchDropdown)) <==>
      && AssertScanExists(dir, scanName).None? && env.pageStatus == 200
      && WaitVisible(env.scanRow, DefaultRetries).Visible?
      && WaitVisible(env.launchDropdown, DefaultRetries).NotVisible?
    ensures r.outcome.Return? <==>
      && AssertScanExists(dir, scanName).None? && env.pageStatus == 200
      && (WaitVisible(env.scanRow, DefaultRetries).Visible? ==> WaitVisible(env.launchDropdown, DefaultRetries).Visible?)
    // once the folder page is open, the login's trace is followed by
    // selecting the scan's row and launching it, which decides the outcome
    ensures AssertScanExists(dir, scanName).None? && env.pageStatus == 200 ==>
      r == WebRun(SelectAndLaunch(scanName, targets, env).outcome,
        LoginWebInterface(url, username, password, ScanFoldersResource + FolderSlug(folderName), env).actions
        + SelectAndLaunch(scanName, targets, env).actions)
    ensures ReachesLaunch(dir, scanName, env) ==>
      r.actions == LoginWebInterface(url, username, password, ScanFoldersResource + FolderSlug(folderName), env).actions
        + [Click(ScanRow(scanName))] + LaunchDialog(targets)
  {
    match AssertScanExists(dir, scanName)
    case Some(why) => WebRun(Abort(why), [])
    case None =>
      var login := LoginWebInterface(url, username, password, ScanFoldersResource + FolderSlug(folderName), env);
      if !login.outcome.Return? then login
      else
        var rest := SelectAndLaunch(scanName, targets, env);
        WebRun(rest.outcome, login.actions + rest.actions)
  }

  /** The login neither uses the launch dialog nor types into the
      custom-targets field. */
  lemma LoginStaysOutOfDialog(url: string, username: string, password: string, resource: string, env: WebEnv)
    ensures forall a :: a in LoginWebInterface(url, username, password, resource, env).actions ==>
      !InLaunchDialog(a) && !(a.Fill? && a.selector == CustomTargetsField)
  {
    var login := LoginWebInterface(url, username, password, resource, env);
    forall a | a in login.actions
      ensures !InLaunchDialog(a) && !(a.Fill? && a.selector == CustomTargetsField)
    {
      assert a == Goto(url + resource) || a == Fill(UsernameField, username) || a == Fill(PasswordField, password) || a == Click(SignIn);
    }
  }

  /** The launch dialog is used exactly when it is reached (a scan may be
      called "Launch", so its row's click is set apart), and it ends with
      Default for no targets and with the joined targets typed in and
      confirmed otherwise. */
  lemma StartScanWebInterfaceDialog(
    dir: Listing, url: string, username: string, password: string,
    scanName: string, folderName: string, targets: seq<string>, env: WebEnv)
    ensures var r := StartScanWebInterface(dir, url, username, password, scanName, folderName, targets, env);
      !ReachesLaunch(dir, scanName, env) ==>
        forall a :: a in r.actions && a != Click(ScanRow(scanName)) ==> !InLaunchDialog(a)
    ensures var r := StartScanWebInterface(dir, url, username, password, scanName, folderName, targets, env);
      ReachesLaunch(dir, scanName, env) && |targets| == 0 ==>
        |r.actions| >= 2 && r.actions[|r.actions| - 2..] == [Click(LaunchButton), Click(DefaultTargets)]
    ensures var r := StartScanWebInterface(dir, url, username, password, scanName, folderName, targets, env);
      ReachesLaunch(dir, scanName, env) && |targets| > 0 ==>
        |r.actions| >= 4 && r.actions[|r.actions| - 4..] ==
          [Click(LaunchButton), Click(CustomTargets), Fill(CustomTargetsField, JoinTargets(targets)), Click(CustomTargetsLaunch)]
  {
    var r := StartScanWebInterface(dir, url, username, password, scanName, folderName, targets, env);
    if AssertScanExists(dir, scanName).None? {
      var resource := ScanFoldersResource + FolderSlug(folderName);
      var login := LoginWebInterface(url, username, password, resource, env);
      if login.outcome.Return? {
        var rest := SelectAndLaunch(scanName, targets, env);
        assert r.actions == login.actions + rest.actions;
        LoginStaysOutOfDialog(url, username, password, resource, env);
        if ReachesLaunch(dir, scanName, env) {
          var dialog := LaunchDialog(targets);
          assert r.actions == (login.actions + [Click(ScanRow(scanName))]) + dialog;
          assert r.actions[|r.actions| - |dialog|..] == dialog;
        } else {
          assert forall a :: a in rest.actions ==> a == Click(ScanRow(scanName));
        }
      }
    }
  }

  /** The custom-targets field only ever receives the joined target list. */
  lemma StartScanWebInterfaceFillsJoinedTargets(
    dir: Listing, url: string, username: string, password: string,
    scanName: string, folderName: string, targets: seq<string>, env: WebEnv)
    ensures var r := StartScanWebInterface(dir, url, username, password, scanName, folderName, targets, env);
      forall a :: a in r.actions && a.Fill? && a.selector == CustomTargetsField ==>
        |targets| > 0 && a.text == JoinTargets(targets)
  {
    var r := StartScanWebInterface(dir, url, username, password, scanName, folderName, targets, env);
    if AssertScanExists(dir, scanName).None? {
      var resource := ScanFoldersResource + FolderSlug(folderName);
      var login := LoginWebInterface(url, username, password, resource, env);
      if login.outcome.Return? {
        var rest := SelectAndLaunch(scanName, targets, env);
        assert r.actions == login.actions + rest.actions;
        LoginStaysOutOfDialog(url, username, password, resource, env);
      }
    }
  }
}
