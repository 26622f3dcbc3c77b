/**
 * The decision logic of StorageUtility: the human-readable file size, the storage
 * permissions required on each Android release and the ones still to request, and the
 * mapping of a directory's children to FileModel rows.
 */
module StorageUtility {
  import opened Wrappers
  import opened Seqs
  import opened FileModels

  // ---------------------------------------------------------------- file sizes

  /** The unit table of fileSizeConversion: one unit per base-1024 group. */
  const Units: seq<string> := ["B", "KB", "MB", "GB", "TB"]

  /** 1024^k. */
  function Pow1024(k: nat): (p: nat)
    ensures p >= 1
  {
    if k == 0 then 1 else 1024 * Pow1024(k - 1)
  }

  lemma {:induction false} Pow1024Monotone(i: nat, j: nat)
    requires i <= j
    ensures Pow1024(i) <= Pow1024(j)
    decreases j
  {
    if i < j {
      Pow1024Monotone(i, j - 1);
    }
  }

  /**
   * The number of whole base-1024 groups in a positive size: the exponent k with
   * 1024^k <= size < 1024^(k+1). The source computes it as log10(size) / log10(1024)
   * truncated to an Int.
   */
  function DigitGroups(size: int): (k: nat)
    requires size > 0
    ensures Pow1024(k) <= size < Pow1024(k + 1)
  {
    if size < 1024 then 0
    else
      var k' := DigitGroups(size / 1024);
      assert 1024 * Pow1024(k') <= 1024 * (size / 1024) <= size;
      assert size < 1024 * (size / 1024 + 1) <= 1024 * Pow1024(k' + 1);
      1 + k'
  }

  /** Only one exponent brackets a size, so DigitGroups is the largest k with 1024^k <= size. */
  lemma DigitGroupsIsLargest(size: int, j: nat)
    requires size > 0
    ensures Pow1024(j) <= size <==> j <= DigitGroups(size)
  {
    var k := DigitGroups(size);
    if j <= k {
      Pow1024Monotone(j, k);
    } else {
      Pow1024Monotone(k + 1, j);
    }
  }

  /** The pair fileSizeConversion returns, or the out-of-bounds index into `units` that it throws on. */
  datatype Conversion = Converted(value: real, unit: string) | UnitIndexOutOfRange(index: nat)

  /** StorageUtility.fileSizeConversion, with the value computed over the reals. */
  function FileSizeConversion(size: Long): (r: Conversion)
    ensures size <= 0 ==> r == Converted(0.0, "B")
    ensures size > 0 ==> (r.Converted? <==> size < Pow1024(|Units|))
    ensures r.Converted? ==> r.unit in Units && 0.0 <= r.value < 1024.0
  {
    if size <= 0 then Converted(0.0, "B")
    else
      var digitGroups := DigitGroups(size);
      if digitGroups < |Units| then
        ScaledValueInRange(size, digitGroups);
        Converted(size as real / Pow1024(digitGroups) as real, Units[digitGroups])
      else
        DigitGroupsIsLargest(size, |Units|);
        UnitIndexOutOfRange(digitGroups)
  }

  lemma ScaledValueInRange(size: int, k: nat)
    requires Pow1024(k) <= size < Pow1024(k + 1)
    ensures 1.0 <= size as real / Pow1024(k) as real < 1024.0
  {
    assert Pow1024(k + 1) == 1024 * Pow1024(k);
    QuotientBounds(size as real, Pow1024(k) as real);
  }

  lemma QuotientBounds(s: real, p: real)
    requires 0.0 < p <= s < 1024.0 * p
    ensures 1.0 <= s / p < 1024.0
  {
    var v := s / p;
    assert v * p == s;
    assert (v - 1.0) * p == s - p;
    var w := 1024.0 - v;
    assert w * p == 1024.0 * p - s;
    assert w * p > 0.0;
  }

  /**
   * For a positive size below 1024^5 the unit is the one for its number of base-1024 groups
   * and the value times 1024^k gives back the size exactly.
   */
  lemma FileSizeConversionInRange(size: Long, k: nat)
    requires 0 < size
    requires Pow1024(k) <= size < Pow1024(k + 1)
    requires k < |Units|
    ensures FileSizeConversion(size) == Converted(size as real / Pow1024(k) as real, Units[k])
    ensures FileSizeConversion(size).value * Pow1024(k) as real == size as real
    ensures 1.0 <= FileSizeConversion(size).value
  {
    ConversionAtBracket(size, k);
    ScaledValueInRange(size, k);
    ConvertedValueTimesScale(FileSizeConversion(size), size as real, Pow1024(k) as real);
  }

  lemma ConversionAtBracket(size: Long, k: nat)
    requires 0 < size
    requires Pow1024(k) <= size < Pow1024(k + 1)
    requires k < |Units|
    ensures FileSizeConversion(size) == Converted(size as real / Pow1024(k) as real, Units[k])
  {
    DigitGroupsIsLargest(size, k);
    DigitGroupsIsLargest(size, k + 1);
    assert DigitGroups(size) == k;
  }

  lemma ConvertedValueTimesScale(r: Conversion, s: real, p: real)
    requires p > 0.0 && r.Converted? && r.value == s / p
    ensures r.value * p == s
  {
  }

  /** Sizes from 1024^5 (2^50) upward index past the five-entry unit table. */
  lemma FileSizeConversionOutOfRange(size: Long)
    requires size >= Pow1024(5)
    ensures FileSizeConversion(size).UnitIndexOutOfRange?
    ensures FileSizeConversion(size).index >= |Units|
  {
    DigitGroupsIsLargest(size, 5);
  }

  lemma FileSizeConversionExamples()
    ensures FileSizeConversion(0) == Converted(0.0, "B")
    ensures FileSizeConversion(1023) == Converted(1023.0, "B")
    ensures FileSizeConversion(1536) == Converted(1.5, "KB")
    ensures FileSizeConversion(1073741824) == Converted(1.0, "GB")
  {
    FileSizeConversionInRange(1023, 0);
    FileSizeConversionInRange(1536, 1);
    assert Pow1024(3) == 1073741824;
    FileSizeConversionInRange(1073741824, 3);
  }

  // ---------------------------------------------------------------- permissions

  /** Build.VERSION_CODES.TIRAMISU (Android 13) and UPSIDE_DOWN_CAKE (Android 14). */
  const Tiramisu: int := 33
  const UpsideDownCake: int := 34

  datatype Permission =
    | ReadMediaAudio
    | ReadMediaImages
    | ReadMediaVideo
    | ReadMediaVisualUserSelected
    | ReadExternalStorage

  /** The `permissions` table: what the app needs on the SDK level it runs on. */
  function RequiredPermissions(sdkInt: int): (r: seq<Permission>)
    ensures r != [] && Distinct(r)
    ensures ReadMediaVisualUserSelected in r <==> sdkInt >= UpsideDownCake
    ensures ReadExternalStorage in r <==> sdkInt < Tiramisu
    ensures ReadMediaAudio in r <==> sdkInt >= Tiramisu
    ensures ReadMediaImages in r <==> sdkInt >= Tiramisu
    ensures ReadMediaVideo in r <==> sdkInt >= Tiramisu
  {
    if sdkInt >= UpsideDownCake then
      [ReadMediaAudio, ReadMediaImages, ReadMediaVideo, ReadMediaVisualUserSelected]
    else if sdkInt >= Tiramisu then
      [ReadMediaAudio, ReadMediaImages, ReadMediaVideo]
    else
      [ReadExternalStorage]
  }

  /** The Android 13 tier is the Android 14 tier without the partial-access permission. */
  lemma MediaTiersNested(middle: int, top: int)
    requires Tiramisu <= middle < UpsideDownCake <= top
    ensures RequiredPermissions(top) == RequiredPermissions(middle) + [ReadMediaVisualUserSelected]
  {
  }

  /** Whether ContextCompat.checkSelfPermission answers PERMISSION_GRANTED, per permission. */
  type GrantState = Permission -> bool

  /** The permissions of `table` that are not granted, in table order (`filter`). */
  function NotGranted(table: seq<Permission>, granted: GrantState): (r: seq<Permission>)
    ensures IsSubsequence(r, table)
    ensures forall p :: p in r <==> p in table && !granted(p)
  {
    if table == [] then []
    else if granted(table[0]) then NotGranted(table[1..], granted)
    else [table[0]] + NotGranted(table[1..], granted)
  }

  predicate AllGranted(sdkInt: int, granted: GrantState)
  {
    forall p :: p in RequiredPermissions(sdkInt) ==> granted(p)
  }

  /** What `launcher.launch` is called with, if it is called. */
  datatype LaunchRequest = NoLaunch | Launch(permissions: seq<Permission>)

  /** requestPermissionIfNeeded: launch the request for the missing permissions, if any. */
  function RequestPermissionIfNeeded(sdkInt: int, granted: GrantState): (r: LaunchRequest)
    ensures r.NoLaunch? <==> AllGranted(sdkInt, granted)
    ensures r.Launch? ==> r.permissions != []
    ensures r.Launch? ==> IsSubsequence(r.permissions, RequiredPermissions(sdkInt))
    ensures r.Launch? ==> forall p :: p in r.permissions <==> p in RequiredPermissions(sdkInt) && !granted(p)
  {
    var denied := NotGranted(RequiredPermissions(sdkInt), granted);
    if denied != [] then
      assert denied[0] in denied;
      Launch(denied)
    else
      assert forall p :: p in RequiredPermissions(sdkInt) ==> granted(p) by {
        forall p | p in RequiredPermissions(sdkInt) ensures granted(p) {
          assert p !in denied;
        }
      }
      NoLaunch
  }

  /**
   * The launched list is the only order-preserving selection of the required permissions
   * that holds exactly the ones not granted, and it never names a permission twice.
   */
  lemma LaunchIsTheMissingSelection(sdkInt: int, granted: GrantState, selection: seq<Permission>)
    requires IsSubsequence(selection, RequiredPermissions(sdkInt))
    requires forall p :: p in selection <==> p in RequiredPermissions(sdkInt) && !granted(p)
    requires !AllGranted(sdkInt, granted)
    ensures RequestPermissionIfNeeded(sdkInt, granted) == Launch(selection)
    ensures Distinct(selection)
  {
    var table := RequiredPermissions(sdkInt);
    var launched := RequestPermissionIfNeeded(sdkInt, granted).permissions;
    SubsequenceDeterminedByMembers(launched, selection, table);
    SubsequenceDistinct(selection, table);
  }

  /** The outcome of checkStoragePermissionGranted: its return value and the request it launched. */
  datatype PermissionCheck = PermissionCheck(granted: bool, request: LaunchRequest)

  /**
   * checkStoragePermissionGranted. `before` is the grant state when the missing permissions
   * are listed; `after` is the one seen by the final `all` over that list (the launched
   * dialog answers asynchronously, so in practice the two are the same).
   */
  function CheckStoragePermissionGranted(sdkInt: int, before: GrantState, after: GrantState): (r: PermissionCheck)
    ensures r.request == RequestPermissionIfNeeded(sdkInt, before)
    ensures AllGranted(sdkInt, before) ==> r.granted
    ensures (forall p :: after(p) == before(p)) ==> (r.granted <==> AllGranted(sdkInt, before))
  {
    var missing := NotGranted(RequiredPermissions(sdkInt), before);
    var request := if missing != [] then RequestPermissionIfNeeded(sdkInt, before) else NoLaunch;
    var granted := forall p :: p in missing ==> after(p);
    assert (forall p :: after(p) == before(p)) && !AllGranted(sdkInt, before) ==> !granted by {
      if (forall p :: after(p) == before(p)) && !AllGranted(sdkInt, before) {
        var p :| p in RequiredPermissions(sdkInt) && !before(p);
        assert p in missing && !after(p);
      }
    }
    PermissionCheck(granted, request)
  }

  // ---------------------------------------------------------------- listing

  /** `it.listFiles()?.size ?: 0`. */
  function ChildCount(n: Node): nat
  {
    match n.listing
    case Null => 0
    case Files(children) => |children|
  }

  /** The FileModel built for one child (without its creation date). */
  function ToFileModel(n: Node): FileModel
  {
    FileModel(n.name, n.path, ChildCount(n), n.isDirectory, n.length)
  }

  /** `listFiles()!!` throws a NullPointerException when the root cannot be listed. */
  datatype ListError = NullListing

  /** The listing built at the top of showFiles: one FileModel per child of `root`, in order. */
  function ShowFiles(root: Node): (r: Result<seq<FileModel>, ListError>)
    ensures r.Failure? <==> root.listing.Null?
    ensures r.Success? ==> |r.value| == |root.listing.children|
    ensures r.Success? ==> forall i :: 0 <= i < |r.value| ==>
      var c := root.listing.children[i];
      && r.value[i].name == c.name && r.value[i].path == c.path
      && r.value[i].isDirectory == c.isDirectory && r.value[i].size == c.length
      && r.value[i].child == (if c.listing.Files? then |c.listing.children| else 0)
  {
    match root.listing
    case Null => Failure(NullListing)
    case Files(children) => Success(seq(|children|, i requires 0 <= i < |children| => ToFileModel(children[i])))
  }

  /** An empty directory gives an empty listing, not the failure of an unreadable one. */
  lemma EmptyDirectoryListsNothing(root: Node)
    requires root.listing == Files([])
    ensures ShowFiles(root) == Success([])
  {
  }

  /** In a tree java.io.File can report, no file row claims to have children. */
  lemma FileRowsHaveNoChildren(root: Node)
    requires WellFormed(root) && root.listing.Files?
    ensures forall m :: m in ShowFiles(root).value && !m.isDirectory ==> m.child == 0
  {
    var rows := ShowFiles(root).value;
    forall m | m in rows && !m.isDirectory ensures m.child == 0 {
      var i :| 0 <= i < |rows| && rows[i] == m;
      assert WellFormed(root.listing.children[i]);
    }
  }

  /** Paths that are unique among the children stay unique among the rows. */
  lemma ShowFilesKeepsPathsUnique(root: Node)
    requires root.listing.Files?
    requires var children := root.listing.children;
      forall i, j :: 0 <= i < j < |children| ==> children[i].path != children[j].path
    ensures var rows := ShowFiles(root).value;
      forall i, j :: 0 <= i < j < |rows| ==> rows[i].path != rows[j].path
  {
  }
}
