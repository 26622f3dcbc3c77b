# SD Manager file browser: decision logic in Dafny

This project models the decision logic of an Android file browser (package
`com.example.sdmanager`): how a byte count becomes a human-readable size, which storage
permissions the app requires on each Android release and which of them it requests, how the
children of a directory become `FileModel` rows, how a row is shown and where a tap on it
leads, and how `MainActivity` routes at startup and reacts to the answer to a permission
request, with a denial counter kept in memory and in `SharedPreferences`.

Modules, one per source file:

- `FileModels` (`FileModel.kt`): the `FileModel` row without its creation date, Kotlin's
  `Long`, and `Node`, an abstract directory tree that stands in for `java.io.File`
  (`listFiles()` is `Null` for a plain file or an unreadable directory). Values of `Node` are
  not constrained in general; the predicate `WellFormed` picks out the trees `java.io.File`
  can report, where nothing but a directory has a listing, and the lemmas that depend on it
  say so.
- `StorageUtility` (`StorageUtility.kt`): `FileSizeConversion`, the `RequiredPermissions`
  tiers, `RequestPermissionIfNeeded`, `CheckStoragePermissionGranted` and `ShowFiles` (the
  row construction at the top of `showFiles`). The grant status that
  `ContextCompat.checkSelfPermission` reports is a function from permission to bool; the
  call `launcher.launch(...)` is a returned `LaunchRequest`.
- `FileAdapter` (`FileAdapter.kt`): `EllipsizeMiddle`, the tap rule `OnTap`, what `Bind`
  shows, and the adapter's indexing. The adapter is a value: its list is only ever read.
- `Activity` (`MainActivity.kt`): classes `Preferences` (the `myPref` file) and
  `MainActivity` (the field `permissionDeniedCount`), whose methods `OnCreate` and
  `OnPermissionResult` update the counters and return the navigation they perform.
- `Wrappers`, `Seqs`: Option/Result, and facts about distinct sequences and subsequences.

Behaviour of the code worth knowing:

- A grant does not reset the denial counter; the all-granted branch leaves it as it was.
- The size-unit index is not clamped: a size of 1024^5 bytes or more indexes past the unit
  table and throws. The model returns `UnitIndexOutOfRange` for it.
- An unreadable root is not reported as a read error; `listFiles()!!` throws. The model
  returns `Failure(NullListing)`.
- When permissions are missing at startup, the request is launched and the "denied" screen
  is shown at once; the answer arrives later through `OnPermissionResult`.
- An empty result map has no denied key and `0 == 0` entries granted, so it takes the
  all-granted branch (`EmptyResultCountsAsGranted`).

## Model

| member | source | states |
|---|---|---|
| `StorageUtility.DigitGroups` | app/src/main/java/com/example/sdmanager/StorageUtility.kt:67 | the group index k of a positive size satisfies 1024^k <= size < 1024^(k+1) |
| `StorageUtility.DigitGroupsIsLargest` | app/src/main/java/com/example/sdmanager/StorageUtility.kt:67 | 1024^j <= size exactly when j <= the group index, so the index is the largest such exponent |
| `StorageUtility.FileSizeConversion` | app/src/main/java/com/example/sdmanager/StorageUtility.kt:64-71 | a size <= 0 gives (0.0, "B"); a positive size converts exactly when it is below 1024^5; a converted pair has a unit from the table and a value in [0, 1024) |
| `StorageUtility.ScaledValueInRange` | app/src/main/java/com/example/sdmanager/StorageUtility.kt:68-69 | size / 1024^k lies in [1, 1024) when k is the size's group index |
| `StorageUtility.FileSizeConversionInRange` | app/src/main/java/com/example/sdmanager/StorageUtility.kt:66-70 | for 1024^k <= size < 1024^(k+1) with k < 5 the unit is units[k], the value times 1024^k gives back the size, and the value is at least 1 |
| `StorageUtility.FileSizeConversionOutOfRange` | app/src/main/java/com/example/sdmanager/StorageUtility.kt:66-70 | every size >= 1024^5 yields an index >= 5, past the end of the unit table |
| `StorageUtility.FileSizeConversionExamples` | app/src/main/java/com/example/sdmanager/StorageUtility.kt:64-71 | 0 -> (0.0, B), 1023 -> (1023.0, B), 1536 -> (1.5, KB), 1073741824 -> (1.0, GB) |
| `StorageUtility.RequiredPermissions` | app/src/main/java/com/example/sdmanager/StorageUtility.kt:79-90 | the table is non-empty and repetition-free; partial media access is required exactly from SDK 34, the three media permissions exactly from SDK 33, broad external-storage read exactly below 33 |
| `StorageUtility.MediaTiersNested` | app/src/main/java/com/example/sdmanager/StorageUtility.kt:79-87 | the SDK 34 tier is the SDK 33 tier followed by READ_MEDIA_VISUAL_USER_SELECTED |
| `StorageUtility.NotGranted` | app/src/main/java/com/example/sdmanager/StorageUtility.kt:96-98 | the filter keeps table order and holds exactly the table's permissions that are not granted |
| `StorageUtility.RequestPermissionIfNeeded` | app/src/main/java/com/example/sdmanager/StorageUtility.kt:92-102 | nothing is launched exactly when every required permission is granted; otherwise a non-empty, order-preserving selection of exactly the missing required permissions is launched |
| `StorageUtility.LaunchIsTheMissingSelection` | app/src/main/java/com/example/sdmanager/StorageUtility.kt:96-100 | any order-preserving selection of exactly the missing permissions equals the launched list, which is repetition-free |
| `StorageUtility.CheckStoragePermissionGranted` | app/src/main/java/com/example/sdmanager/StorageUtility.kt:104-117 | it launches what requestPermissionIfNeeded launches; it returns true when nothing was missing; with an unchanged grant state it returns true exactly when every required permission is granted |
| `StorageUtility.ShowFiles` | app/src/main/java/com/example/sdmanager/StorageUtility.kt:29-40 | listing fails exactly when the root's listing is null; otherwise there is one row per child, in order, and row i carries child i's name, path, directory flag and length, with `child` equal to the number of child i's own entries, or 0 when its listing is null |
| `StorageUtility.FileRowsHaveNoChildren` | app/src/main/java/com/example/sdmanager/StorageUtility.kt:33-34 | in a tree java.io.File can report, every row that is not a directory has a `child` of 0 |
| `StorageUtility.EmptyDirectoryListsNothing` | app/src/main/java/com/example/sdmanager/StorageUtility.kt:29 | an empty directory gives an empty listing, not the null-listing failure |
| `StorageUtility.ShowFilesKeepsPathsUnique` | app/src/main/java/com/example/sdmanager/StorageUtility.kt:29-40 | children with pairwise different paths give rows with pairwise different paths |
| `FileAdapter.EllipsizeMiddle` | app/src/main/java/com/example/sdmanager/FileAdapter.kt:72-79 | text no longer than maxLength comes back unchanged; longer text becomes 2*(maxLength/2)+3 characters, which is more than maxLength |
| `FileAdapter.EllipsizedKeepsEnds` | app/src/main/java/com/example/sdmanager/FileAdapter.kt:75-78 | a shortened name starts with the first maxLength/2 characters, then "...", and ends with the last maxLength/2 characters of the name |
| `FileAdapter.EllipsizeMiddleIdempotent` | app/src/main/java/com/example/sdmanager/FileAdapter.kt:72-78 | shortening twice gives the same text as shortening once |
| `FileAdapter.EllipsizeMiddleExamples` | app/src/main/java/com/example/sdmanager/FileAdapter.kt:72-78 | a short name is kept; a 41-character name becomes 43 characters with the default limit of 40 |
| `FileAdapter.OnTap` | app/src/main/java/com/example/sdmanager/FileAdapter.kt:43-50 | exactly one of three actions: an empty directory goes to not-found under its name, a non-empty directory is descended into by path, a file is opened by path |
| `FileAdapter.TapOnListedChild` | app/src/main/java/com/example/sdmanager/FileAdapter.kt:43-50 | over showFiles' listing, a tap on row i is decided by child i: unreadable or empty directory -> not-found with its name, readable non-empty directory -> descend to its path (whose own listing then succeeds and is non-empty), file -> open |
| `FileAdapter.FileRowShowsScaledSize` | app/src/main/java/com/example/sdmanager/FileAdapter.kt:27-32 | a file row whose size is positive and below 1024^5 shows a converted value in [1, 1024) |
| `FileAdapter.TwoEntryExample` | app/src/main/java/com/example/sdmanager/FileAdapter.kt:25-70 | a root holding `docs` (2 entries) and a 2048-byte `a.txt` shows two rows: docs with 2 items descending to /root/docs, a.txt with 2.0 KB opening the file |
| `Activity.GrantedKeys` | app/src/main/java/com/example/sdmanager/MainActivity.kt:33 | a permission is in the granted list exactly when the results hold it as granted |
| `Activity.DeniedKeys` | app/src/main/java/com/example/sdmanager/MainActivity.kt:34 | a permission is in the denied list exactly when the results hold it as denied |
| `Activity.PartitionSizes` | app/src/main/java/com/example/sdmanager/MainActivity.kt:33-34 | the two lists together have as many entries as the result map |
| `Activity.PartitionCoversKeys` | app/src/main/java/com/example/sdmanager/MainActivity.kt:33-34 | with distinct keys the two lists are disjoint and together hold every key |
| `Activity.AllGrantedIffNoneDenied` | app/src/main/java/com/example/sdmanager/MainActivity.kt:35-43 | granted.size == permissions.size exactly when nothing was denied, so exactly one branch of the callback runs |
| `Activity.EmptyResultCountsAsGranted` | app/src/main/java/com/example/sdmanager/MainActivity.kt:35 | an empty result map satisfies the all-granted test and has no denial |
| `Activity.RationaleRelaunchesAllRequested` | app/src/main/java/com/example/sdmanager/MainActivity.kt:43-45 | after a batch with a denial, answering OK to the rationale relaunches a non-empty, repetition-free request holding every requested key, the denied ones and the granted ones alike, and nothing else |
| `Activity.Clamped` | app/src/main/java/com/example/sdmanager/MainActivity.kt:49-51 | the persisted count is at most 2, equals the count when it is at most 2, and is otherwise 2 |
| `Activity.Preferences.PutInt` | app/src/main/java/com/example/sdmanager/MainActivity.kt:49-51 | the key is bound to the value and every other key is unchanged |
| `Activity.MainActivity.constructor` | app/src/main/java/com/example/sdmanager/MainActivity.kt:26 | a new activity starts with a counter of 0 over the given preferences |
| `Activity.MainActivity.OnCreate` | app/src/main/java/com/example/sdmanager/MainActivity.kt:55-86 | the counter is loaded from preferences (0 if absent); unmounted storage -> non-returnable not-available, no request; all granted and empty or unreadable root -> returnable no-files-found; all granted and non-empty -> root screen; otherwise the missing permissions are requested and the non-returnable denied screen shown; the stored counter stays within [0, 2] |
| `Activity.MainActivity.OnPermissionResult` | app/src/main/java/com/example/sdmanager/MainActivity.kt:30-53 | no denial -> granted screen then root, counter and store unchanged; any denial -> counter + 1, rationale for all keys below 2 else the denied screen, store set to the clamped counter |
| `Activity.TwoDenialsOnFreshInstall` | app/src/main/java/com/example/sdmanager/MainActivity.kt:30-53 | from empty preferences, the first denial shows the rationale, the second the denied screen, and 2 is stored |
| `Activity.DenialAfterRestart` | app/src/main/java/com/example/sdmanager/MainActivity.kt:59-60 | after a restart over a stored 2, one more denial goes straight to the denied screen; the in-memory counter reaches 3, the stored value stays 2 |

## Left out

- Real file-system access (`listFiles`, `length`, `lastModified`), the creation date and its UTC+7 conversion: the tree is an input value and `FileModel` has no date.
- Double arithmetic in `fileSizeConversion` (`log10`, `pow`, the division): the group index is computed on integers and the value over the reals. The floating-point ratio of logarithms can be off in both directions: at an exact power of 1024 it may fall just below the integer and pick the smaller unit, and just below a power of 1024 it may round up to the integer and pick the larger unit (log10(2^50 - 1) / log10(1024) evaluates to exactly 5.0, so the last sizes below 1024^5 may index past the unit table and throw, although `FileSizeConversion` converts them). That rounding is not modelled.
- `openFile` (FileProvider, MIME lookup, intent resolution, the "cannot open" toast) and `checkStorageExists` (`Environment`): the first is the `OpenFile` tap action, the second the `storageMounted` input.
- `ContextCompat.checkSelfPermission` and the `ActivityResultLauncher`: a grant-state function and a returned `LaunchRequest`; the asynchronous delivery of the answer is the separate call `OnPermissionResult`.
- Navigation mechanics: back-stack popping, the 1.5 s `delay` in a coroutine before the root screen, `AlertDialog` construction, edge-to-edge insets, the action bar and `onOptionsItemSelected`: the model returns the screens in the order they are shown.
- View wiring in `showFiles` and `FileAdapter` (inflation, drawables, string formatting, date format) and the fragments `NotFound`, `FileFragment`, `RootFragment`, which only read their arguments.
- `showFiles`'s `navigateNotFound`/`navigateDown` callbacks: represented by the `TapAction` they receive (title or path), not by the navigation bundle.
- Activity.MainActivity.OnPermissionResult: the counter is an unbounded integer; Kotlin's `Int` would wrap after 2^31 - 1 denials in one process.
- Activity.MainActivity.OnPermissionResult: the result map is a sequence of distinct keys in the map's iteration order.
- FileAdapter.EllipsizeMiddle: requires a non-negative maxLength; the adapter only uses the default of 40. For negative limits Kotlin's truncating division matters: -1 gives a keep length of 0 and the result "..." for every text, and -2 or less makes `substring` throw.
- Activity.MainActivity.OnCreate: `getSharedPreferences` is the `Preferences` object given to the constructor.
- Strings are sequences of characters; Kotlin's `String.length` and `substring` count UTF-16 code units, so a name with characters outside the Basic Multilingual Plane may be cut inside a surrogate pair, which the model does not show.
