/** The scan directory (nessus.py:84-96, 209-291): the folder and scan lists
    the client reads from GET /scans, the join that gives each scan its
    folder's name, and the lookups by scan name. Each REST answer is an input
    value; the client fetches anew on every call, the model takes one
    listing per call. A listing that cannot be fetched is kept as
    the rejected answer, so every lookup can exit with it. */
module Directory {
  import opened Common
  import opened Http

  /** A folder as GET /scans lists it: the two fields the client reads and
      the rest of the JSON object, which it drops. */
  datatype ApiFolder = ApiFolder(name: string, id: int, otherFields: map<string, string>)

  /** A scan as GET /scans lists it. */
  datatype ApiScan = ApiScan(name: string, id: int, folderId: int, status: string, otherFields: map<string, string>)

  /** An entry of get_scan_folders. */
  datatype Folder = Folder(name: string, id: int)

  /** An entry of get_on_demand_scans; `folderName` is absent when no folder
      has the scan's folder id. The status is an open vocabulary, so a string. */
  datatype Scan = Scan(name: string, id: int, folderId: int, status: string, folderName: Option<string>)

  /** get_scan_folders (nessus.py:219-227): exit unless the answer is 200 with
      JSON, otherwise the folders' names and ids, in order. */
  function GetScanFolders(resp: Response<seq<ApiFolder>>): (r: Outcome<seq<Folder>>)
    ensures !JsonOk(resp) ==> r == Abort(BadResponse(AssertValidHttpResponse(resp, 200, true).value))
    ensures JsonOk(resp) ==> r.Return? && |r.value| == |resp.json.value|
    ensures JsonOk(resp) ==> forall i :: 0 <= i < |r.value| ==>
      r.value[i] == Folder(resp.json.value[i].name, resp.json.value[i].id)
  {
    var check := AssertValidHttpResponse(resp, 200, true);
    if check.Some? then Abort(BadResponse(check.value))
    else
      var api := resp.json.value;
      Return(seq(|api|, i requires 0 <= i < |api| => Folder(api[i].name, api[i].id)))
  }

  /** The first position in `folders` whose id is `id`. */
  function FirstFolder(folders: seq<Folder>, id: int): (r: Option<nat>)
    ensures r.None? <==> forall k :: 0 <= k < |folders| ==> folders[k].id != id
    ensures r.Some? ==> r.value < |folders| && folders[r.value].id == id
    ensures r.Some? ==> forall k :: 0 <= k < r.value ==> folders[k].id != id
  {
    if |folders| == 0 then None
    else if folders[0].id == id then Some(0)
    else match FirstFolder(folders[1..], id)
      case None => None
      case Some(k) => Some(k + 1)
  }

  /** The name the join gives a scan in folder `id`: that of the first
      matching folder, none when no folder matches. */
  function FolderNameOf(folders: seq<Folder>, id: int): Option<string>
  {
    match FirstFolder(folders, id)
    case None => None
    case Some(k) => Some(folders[k].name)
  }

  /** The dictionary comprehension at nessus.py:253-258: the four fields kept,
      no folder name yet. */
  function Project(a: ApiScan): Scan
  {
    Scan(a.name, a.id, a.folderId, a.status, None)
  }

  /** What get_on_demand_scans gives its callers: the annotated scan list, or
      the rejected answer that makes it exit. */
  datatype Listing = Listed(scans: seq<Scan>) | Unfetched(error: HttpError)

  /** `scans` is the scan list `api` with each entry's name, id, folder id and
      status kept in place and its folder name looked up in `folders`. */
  ghost predicate Annotates(scans: seq<Scan>, api: seq<ApiScan>, folders: seq<Folder>)
  {
    && |scans| == |api|
    && forall i :: 0 <= i < |api| ==>
        && scans[i].name == api[i].name
        && scans[i].id == api[i].id
        && scans[i].folderId == api[i].folderId
        && scans[i].status == api[i].status
        && scans[i].folderName == FolderNameOf(folders, api[i].folderId)
  }

  /** get_on_demand_scans (nessus.py:248-268). The source re-fetches the
      folders once per scan (so not at all when there are no scans); the
      model gives every fetch the same answer `foldersResp`. */
  method GetOnDemandScans(scansResp: Response<seq<ApiScan>>, foldersResp: Response<seq<ApiFolder>>)
    returns (r: Listing)
    ensures !JsonOk(scansResp) ==> r == Unfetched(AssertValidHttpResponse(scansResp, 200, true).value)
    ensures JsonOk(scansResp) && |scansResp.json.value| > 0 && !JsonOk(foldersResp) ==>
      r == Unfetched(AssertValidHttpResponse(foldersResp, 200, true).value)
    ensures r.Listed? <==> JsonOk(scansResp) && (|scansResp.json.value| == 0 || JsonOk(foldersResp))
    ensures r.Listed? && |r.scans| > 0 ==>
      JsonOk(foldersResp) && Annotates(r.scans, scansResp.json.value, GetScanFolders(foldersResp).value)
    ensures r.Listed? ==> |r.scans| == |scansResp.json.value|
  {
    var check := AssertValidHttpResponse(scansResp, 200, true);
    if check.Some? {
      return Unfetched(check.value);
    }
    var api := scansResp.json.value;
    var scanDict := seq(|api|, i requires 0 <= i < |api| => Project(api[i]));

    for i := 0 to |scanDict|
      invariant |scanDict| == |api|
      invariant i > 0 ==> JsonOk(foldersResp)
      invariant forall k :: 0 <= k < |api| ==>
        && scanDict[k].name == api[k].name && scanDict[k].id == api[k].id
        && scanDict[k].folderId == api[k].folderId && scanDict[k].status == api[k].status
      invariant forall k :: i <= k < |api| ==> scanDict[k].folderName == None
      invariant forall k :: 0 <= k < i ==>
        scanDict[k].folderName == FolderNameOf(GetScanFolders(foldersResp).value, api[k].folderId)
    {
      var folderId := scanDict[i].folderId;
      var fetched := GetScanFolders(foldersResp);
      if !fetched.Return? {
        return Unfetched(fetched.reason.error);
      }
      var folders := fetched.value;
      for j := 0 to |folders|
        invariant forall k :: 0 <= k < j ==> folders[k].id != folderId
        invariant scanDict[i].folderName == None
      {
        if folders[j].id == folderId {
          scanDict := scanDict[i := scanDict[i].(folderName := Some(folders[j].name))];
          break;
        }
      }
    }
    r := Listed(scanDict);
  }

  /** A position holding the first scan named `name`. */
  ghost predicate FirstNamed(scans: seq<Scan>, name: string, k: int)
  {
    0 <= k < |scans| && scans[k].name == name && forall j :: 0 <= j < k ==> scans[j].name != name
  }

  /** The linear search by name that every lookup performs: the first scan
      with exactly that name, if any. */
  function FindScan(scans: seq<Scan>, name: string): (r: Option<nat>)
    ensures r.None? <==> forall k :: 0 <= k < |scans| ==> scans[k].name != name
    ensures r.Some? ==> FirstNamed(scans, name, r.value)
  {
    if |scans| == 0 then None
    else if scans[0].name == name then Some(0)
    else match FindScan(scans[1..], name)
      case None => None
      case Some(k) => Some(k + 1)
  }

  /** At most one position holds the first scan of a given name. */
  lemma FirstNamedUnique(scans: seq<Scan>, name: string, k: int, m: int)
    requires FirstNamed(scans, name, k) && FirstNamed(scans, name, m)
    ensures k == m
  {
  }

  /** _assert_scan_exists (nessus.py:84-96): exits when the listing cannot
      be fetched, passes exactly when some scan has the name, exits
      otherwise. */
  function AssertScanExists(dir: Listing, name: string): (r: Option<Reason>)
    ensures dir.Unfetched? ==> r == Some(BadResponse(dir.error))
    ensures dir.Listed? ==> (r.None? <==> exists k :: 0 <= k < |dir.scans| && dir.scans[k].name == name)
    ensures dir.Listed? && r.Some? ==> r.value == ScanNotFound(name)
  {
    match dir
    case Unfetched(e) => Some(BadResponse(e))
    case Listed(scans) => if FindScan(scans, name).Some? then None else Some(ScanNotFound(name))
  }

  /** get_scan_information (nessus.py:281-291): the existence check, then the
      record of the first scan with that name. */
  function GetScanInformation(dir: Listing, name: string): (r: Outcome<Scan>)
    ensures dir.Unfetched? ==> r == Abort(BadResponse(dir.error))
    ensures dir.Listed? ==> (r.Abort? <==> forall k :: 0 <= k < |dir.scans| ==> dir.scans[k].name != name)
    ensures dir.Listed? && r.Abort? ==> r.reason == ScanNotFound(name)
    ensures !r.Raise?
    ensures dir.Listed? ==> forall k :: FirstNamed(dir.scans, name, k) ==> r == Return(dir.scans[k])
  {
    match AssertScanExists(dir, name)
    case Some(why) => Abort(why)
    case None =>
      var k := FindScan(dir.scans, name).value;
      assert forall m :: FirstNamed(dir.scans, name, m) ==> m == k by {
        forall m | FirstNamed(dir.scans, name, m) { FirstNamedUnique(dir.scans, name, m, k); }
      }
      Return(dir.scans[k])
  }

  /** get_scan_status (nessus.py:270-279): the existence check, then its own
      search for the first scan with that name, whose status it returns. */
  function GetScanStatus(dir: Listing, name: string): (r: Outcome<string>)
    ensures dir.Unfetched? ==> r == Abort(BadResponse(dir.error))
    ensures dir.Listed? ==> (r.Abort? <==> forall k :: 0 <= k < |dir.scans| ==> dir.scans[k].name != name)
    ensures dir.Listed? && r.Abort? ==> r.reason == ScanNotFound(name)
    ensures !r.Raise?
    ensures dir.Listed? ==> forall k :: FirstNamed(dir.scans, name, k) ==> r == Return(dir.scans[k].status)
  {
    match AssertScanExists(dir, name)
    case Some(why) => Abort(why)
    case None =>
      var k := FindScan(dir.scans, name).value;
      assert forall m :: FirstNamed(dir.scans, name, m) ==> m == k by {
        forall m | FirstNamed(dir.scans, name, m) { FirstNamedUnique(dir.scans, name, m, k); }
      }
      Return(dir.scans[k].status)
  }

  /** The two searches agree: the status get_scan_status finds is that of the
      record get_scan_information finds, and both exit for the same reason. */
  lemma StatusIsInformationStatus(dir: Listing, name: string)
    ensures GetScanStatus(dir, name).Return? <==> GetScanInformation(dir, name).Return?
    ensures GetScanStatus(dir, name).Return? ==>
      GetScanStatus(dir, name).value == GetScanInformation(dir, name).value.status
    ensures GetScanStatus(dir, name).Abort? ==>
      GetScanStatus(dir, name).reason == GetScanInformation(dir, name).reason
  {
  }

  /** The join renames nothing, so every lookup by name on the joined list
      finds the scan the API listed first under that name. */
  lemma {:induction false} LookupThroughJoin(scans: seq<Scan>, api: seq<ApiScan>, folders: seq<Folder>, name: string, k: nat)
    requires Annotates(scans, api, folders)
    requires k < |api| && api[k].name == name
    requires forall j :: 0 <= j < k ==> api[j].name != name
    ensures GetScanInformation(Listed(scans), name) == Return(Scan(name, api[k].id, api[k].folderId, api[k].status, FolderNameOf(folders, api[k].folderId)))
    ensures GetScanStatus(Listed(scans), name) == Return(api[k].status)
  {
    assert FirstNamed(scans, name, k);
  }
}
