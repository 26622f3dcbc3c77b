/**
 * MainActivity: the startup routing in onCreate and the callback that receives the answer to
 * a storage permission request, with the denial counter kept in memory and persisted in
 * SharedPreferences.
 */
module Activity {
  import opened Wrappers
  import opened Seqs
  import opened FileModels
  import opened StorageUtility

  /** The SharedPreferences key the denial counter is stored under. */
  const PermissionDeniedCountKey: string := "permissionDeniedCount"

  /** The highest value ever written for the counter. */
  const MaxPersistedDenials: int := 2

  /** The string resource shown on the not-found screen. */
  datatype Message = NotAvailable | NoFilesFound | Denied | Granted

  datatype Screen = NotFound(msg: Message, returnable: bool) | RootFragment

  /** What the activity does in answer to an event, in order. */
  datatype UiAction = Navigate(screen: Screen) | ShowRationale(permissions: seq<Permission>)

  // ---------------------------------------------------------------- permission results

  /** One entry of the result map: a requested permission and whether it was granted. */
  datatype PermissionResult = PermissionResult(permission: Permission, isGranted: bool)

  /** `permissions.keys`, in the map's order. */
  function Keys(results: seq<PermissionResult>): (keys: seq<Permission>)
    ensures |keys| == |results|
    ensures forall i :: 0 <= i < |results| ==> keys[i] == results[i].permission
  {
    if results == [] then [] else [results[0].permission] + Keys(results[1..])
  }

  /** `entries.filter { it.value }.map { it.key }`. */
  function GrantedKeys(results: seq<PermissionResult>): (granted: seq<Permission>)
    ensures forall p :: p in granted <==> PermissionResult(p, true) in results
  {
    if results == [] then []
    else (if results[0].isGranted then [results[0].permission] else []) + GrantedKeys(results[1..])
  }

  /** `entries.filter { !it.value }.map { it.key }`. */
  function DeniedKeys(results: seq<PermissionResult>): (denied: seq<Permission>)
    ensures forall p :: p in denied <==> PermissionResult(p, false) in results
  {
    if results == [] then []
    else (if results[0].isGranted then [] else [results[0].permission]) + DeniedKeys(results[1..])
  }

  /** Every entry lands in exactly one of the two lists. */
  lemma {:induction false} PartitionSizes(results: seq<PermissionResult>)
    ensures |GrantedKeys(results)| + |DeniedKeys(results)| == |results|
  {
    if results != [] {
      PartitionSizes(results[1..]);
    }
  }

  /** With distinct keys, the granted and denied lists are disjoint and together hold every key. */
  lemma PartitionCoversKeys(results: seq<PermissionResult>)
    requires Distinct(Keys(results))
    ensures forall p :: p in Keys(results) <==> p in GrantedKeys(results) || p in DeniedKeys(results)
    ensures forall p :: !(p in GrantedKeys(results) && p in DeniedKeys(results))
  {
    var keys := Keys(results);
    forall p ensures p in keys <==> p in GrantedKeys(results) || p in DeniedKeys(results) {
      if p in keys {
        var i :| 0 <= i < |keys| && keys[i] == p;
        assert results[i] == PermissionResult(p, results[i].isGranted);
      }
      if PermissionResult(p, true) in results {
        var i :| 0 <= i < |results| && results[i] == PermissionResult(p, true);
        assert keys[i] == p;
      }
      if PermissionResult(p, false) in results {
        var i :| 0 <= i < |results| && results[i] == PermissionResult(p, false);
        assert keys[i] == p;
      }
    }
    forall p ensures !(p in GrantedKeys(results) && p in DeniedKeys(results)) {
      if PermissionResult(p, true) in results {
        var i :| 0 <= i < |results| && results[i] == PermissionResult(p, true);
        forall j | 0 <= j < |results| ensures results[j] != PermissionResult(p, false) {
          if j != i { assert keys[i] != keys[j]; }
        }
      }
    }
  }

  /**
   * `granted.size == permissions.size` holds exactly when `denied` is empty, so the callback's
   * two branches never both run and one of them always does.
   */
  lemma AllGrantedIffNoneDenied(results: seq<PermissionResult>)
    ensures |GrantedKeys(results)| == |results| <==> DeniedKeys(results) == []
  {
    PartitionSizes(results);
  }

  /** An empty result map (a request that was dismissed) takes the all-granted branch. */
  lemma EmptyResultCountsAsGranted()
    ensures var none: seq<PermissionResult> := []; |GrantedKeys(none)| == |none| && DeniedKeys(none) == []
  {
  }

  /** `if (permissionDeniedCount > 2) 2 else permissionDeniedCount`. */
  function Clamped(count: int): (persisted: int)
    ensures persisted <= MaxPersistedDenials
    ensures persisted == count || persisted == MaxPersistedDenials
    ensures count <= MaxPersistedDenials ==> persisted == count
  {
    if count > MaxPersistedDenials then MaxPersistedDenials else count
  }

  /** The rationale dialog: "OK" launches the request again with the keys it was given, "Cancel" does nothing. */
  function OnRationaleAnswer(permissions: seq<Permission>, ok: bool): LaunchRequest
  {
    if ok then Launch(permissions) else NoLaunch
  }

  /**
   * The rationale shown after a denied batch is given every requested key, so answering OK
   * asks again for each permission that was denied, and also for those already granted;
   * the relaunched request is non-empty and names no permission twice.
   */
  lemma RationaleRelaunchesAllRequested(results: seq<PermissionResult>)
    requires Distinct(Keys(results))
    requires DeniedKeys(results) != []
    ensures var r := OnRationaleAnswer(Keys(results), true);
      && r.Launch? && r.permissions != [] && Distinct(r.permissions)
      && (forall p :: p in DeniedKeys(results) ==> p in r.permissions)
      && (forall p :: p in GrantedKeys(results) ==> p in r.permissions)
      && (forall p :: p in r.permissions ==> p in DeniedKeys(results) || p in GrantedKeys(results))
  {
    PartitionCoversKeys(results);
  }

  // ---------------------------------------------------------------- persisted state

  /** The app's SharedPreferences file: integer values by key, surviving restarts. */
  class Preferences {
    var ints: map<string, int>

    constructor (initial: map<string, int>)
      ensures ints == initial
    {
      ints := initial;
    }

    /** `getInt(key, default)`. */
    function GetInt(key: string, default: int): int
      reads this
    {
      if key in ints then ints[key] else default
    }

    /** `edit().putInt(key, value).apply()`. */
    method PutInt(key: string, value: int)
      modifies this
      ensures ints == old(ints)[key := value]
    {
      ints := ints[key := value];
    }
  }

  class MainActivity {
    /** The preferences file "myPref". */
    const myPref: Preferences
    var permissionDeniedCount: int

    /** Every count stored under the key is between 0 and 2; the in-memory count is never negative. */
    ghost predicate Valid()
      reads this, myPref
    {
      && permissionDeniedCount >= 0
      && (PermissionDeniedCountKey in myPref.ints ==>
            0 <= myPref.ints[PermissionDeniedCountKey] <= MaxPersistedDenials)
    }

    constructor (prefs: Preferences)
      requires PermissionDeniedCountKey in prefs.ints ==>
        0 <= prefs.ints[PermissionDeniedCountKey] <= MaxPersistedDenials
      ensures Valid()
      ensures myPref == prefs && permissionDeniedCount == 0
    {
      myPref := prefs;
      permissionDeniedCount := 0;
    }

    /**
     * onCreate: load the counter (0 if absent), then route. Unmounted storage goes to the
     * non-returnable "not available" screen before any permission check. Otherwise the
     * missing permissions are requested; with every permission granted an unreadable or
     * empty root gives the returnable "no files found" screen and a non-empty one the root
     * listing; without them the non-returnable "denied" screen is shown.
     */
    method OnCreate(storageMounted: bool, sdkInt: int, granted: GrantState, root: Node)
      returns (screen: Screen, request: LaunchRequest)
      requires Valid()
      modifies this
      ensures Valid()
      ensures permissionDeniedCount == myPref.GetInt(PermissionDeniedCountKey, 0)
      ensures !storageMounted ==> screen == NotFound(NotAvailable, false) && request == NoLaunch
      ensures storageMounted ==> request == RequestPermissionIfNeeded(sdkInt, granted)
      ensures storageMounted && AllGranted(sdkInt, granted) && ChildCount(root) == 0 ==>
        screen == NotFound(NoFilesFound, true)
      ensures storageMounted && AllGranted(sdkInt, granted) && ChildCount(root) != 0 ==>
        screen == RootFragment
      ensures storageMounted && !AllGranted(sdkInt, granted) ==> screen == NotFound(Denied, false)
    {
      permissionDeniedCount := myPref.GetInt(PermissionDeniedCountKey, 0);
      if !storageMounted {
        return NotFound(NotAvailable, false), NoLaunch;
      }
      var check := CheckStoragePermissionGranted(sdkInt, granted, granted);
      request := check.request;
      if check.granted {
        if root.listing.Null? || root.listing.children == [] {
          return NotFound(NoFilesFound, true), request;
        }
        screen := RootFragment;
      } else {
        screen := NotFound(Denied, false);
      }
    }

    /**
     * The permissionLauncher callback. All granted: the non-returnable "granted" screen, then
     * the root listing, with the counter left as it was. Any denial: the counter goes up by
     * one; below 2 the rationale is shown for all requested keys, otherwise the
     * non-returnable "denied" screen; the count is persisted clamped to 2.
     */
    method OnPermissionResult(results: seq<PermissionResult>) returns (actions: seq<UiAction>)
      requires Valid()
      requires Distinct(Keys(results))
      modifies this, myPref
      ensures Valid()
      ensures DeniedKeys(results) == [] ==>
        && permissionDeniedCount == old(permissionDeniedCount)
        && myPref.ints == old(myPref.ints)
        && actions == [Navigate(NotFound(Granted, false)), Navigate(RootFragment)]
      ensures DeniedKeys(results) != [] ==>
        && permissionDeniedCount == old(permissionDeniedCount) + 1
        && myPref.ints == old(myPref.ints)[PermissionDeniedCountKey := Clamped(permissionDeniedCount)]
        && actions == if permissionDeniedCount < 2 then [ShowRationale(Keys(results))]
                      else [Navigate(NotFound(Denied, false))]
    {
      var granted := GrantedKeys(results);
      var denied := DeniedKeys(results);
      AllGrantedIffNoneDenied(results);
      actions := [];
      if |granted| == |results| {
        actions := actions + [Navigate(NotFound(Granted, false)), Navigate(RootFragment)];
      }
      if denied != [] {
        permissionDeniedCount := permissionDeniedCount + 1;
        if permissionDeniedCount < 2 {
          actions := actions + [ShowRationale(Keys(results))];
        } else {
          actions := actions + [Navigate(NotFound(Denied, false))];
        }
        myPref.PutInt(PermissionDeniedCountKey, Clamped(permissionDeniedCount));
      }
    }
  }

  /** A grant state in which the user has granted nothing yet. */
  function NothingGranted(p: Permission): bool
  {
    false
  }

  /**
   * Two denied requests on a fresh install: the first shows the rationale for the requested
   * permission, the second the "denied" screen, and 2 is stored.
   */
  method TwoDenialsOnFreshInstall(sdkInt: int, p: Permission)
    returns (first: seq<UiAction>, second: seq<UiAction>, stored: map<string, int>)
    ensures first == [ShowRationale([p])]
    ensures second == [Navigate(NotFound(Denied, false))]
    ensures stored == map[PermissionDeniedCountKey := 2]
  {
    var denial := [PermissionResult(p, false)];
    assert Keys(denial) == [p] && DeniedKeys(denial) == [p];
    var prefs := new Preferences(map[]);
    var activity := new MainActivity(prefs);
    var _, _ := activity.OnCreate(true, sdkInt, NothingGranted, Node("0", "/storage/emulated/0", true, 4096, Files([])));
    assert activity.permissionDeniedCount == 0;
    first := activity.OnPermissionResult(denial);
    assert activity.permissionDeniedCount == 1 && first == [ShowRationale([p])];
    second := activity.OnPermissionResult(denial);
    assert activity.permissionDeniedCount == 2 && second == [Navigate(NotFound(Denied, false))];
    stored := prefs.ints;
  }

  /**
   * A restart on the preferences left by two denials loads the counter as 2, so the next
   * denial goes straight to the "denied" screen: the in-memory counter reaches 3 while the
   * stored one stays 2.
   */
  method DenialAfterRestart(sdkInt: int, p: Permission, stored: map<string, int>)
    returns (actions: seq<UiAction>, inMemory: int, storedAfter: map<string, int>)
    requires stored == map[PermissionDeniedCountKey := 2]
    ensures actions == [Navigate(NotFound(Denied, false))]
    ensures inMemory == 3 && storedAfter == stored
  {
    var denial := [PermissionResult(p, false)];
    assert Keys(denial) == [p] && DeniedKeys(denial) == [p];
    var prefs := new Preferences(stored);
    var activity := new MainActivity(prefs);
    var _, _ := activity.OnCreate(true, sdkInt, NothingGranted, Node("0", "/storage/emulated/0", true, 4096, Files([])));
    assert activity.permissionDeniedCount == 2;
    actions := activity.OnPermissionResult(denial);
    inMemory := activity.permissionDeniedCount;
    storedAfter := prefs.ints;
  }
}
