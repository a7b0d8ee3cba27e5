# Items fragment listing logic

A model of the listing logic inside `ItemsFragment`, the Android fragment of
Simple File Manager that shows the contents of one directory. The model
covers four things:

- the **directory scan** (`getItems`, `getChildren`). It turns the children
  of a directory into `FileDirItem(path, name, isDirectory, children, size)`
  rows. Hidden entries are dropped unless hidden files are shown, and an
  unreadable directory gives an empty list.
- the **reconcile step** of `fillItems`. It clears the refresh indicator and
  installs a freshly scanned and sorted list only when its hash differs from
  the displayed list's hash.
- the **lifecycle updates** in `onResume` and `onPause` of the fields
  `mShowHidden`, `mItems` and `mStoredTextColor`.
- the **open-item decision** (`itemClicked`, `tryGenericMimeType`,
  `getGenericMimeType`). A directory goes to the listener. A file is viewed
  with the MIME type of its extension, or `text/plain` when that type is
  unknown. If no app takes it, the generic type `type/*` is tried. If no app
  takes that either, the "no app found" toast is shown.

The filesystem and platform are inputs:

- a directory listing is `Option<seq<Child>>`, with `None` where
  `listFiles()` returns null. Each `Child` carries its path, its
  directory flag, its length and the names in its own listing.
- a file is hidden when its name starts with `.`.
- these foreign functions are function-valued parameters:
  - the commons `getFilenameFromPath` (`nameOf`)
  - the file extension in lower case (`extensionOf`)
  - `MimeTypeMap` (`mimeOfExtension`)
  - whether `startActivity` finds an app (`canOpen`)
  - the list `hashCode` (`hash`, fixed per fragment)
  - the folder sort (`sort`). The model knows only that it permutes its input.

The class also keeps a ghost counter `scansStarted` of the scans started.
It is not a field of the fragment; it lets the contracts say when a
rescan is triggered.

Files:

- `wrappers.dfy`: the `Option` type.
- `scanner.dfy`: the scan.
- `mime.dfy`: the generic MIME type.
- `opening.dfy`: the click decision.
- `fragment.dfy`: the reconcile step and the `ItemsFragment` class, whose
  methods update its fields in place.

Behaviour as the code has it:

- Every finished scan is delivered while the fragment is attached. Nothing
  discards the result of a scan that was overtaken by a newer one, so the
  model has no such step.
- The child count of a directory follows the same hidden-files flag as the
  listing. The listing without hidden files is therefore not a filter of the
  listing with them. The rows that remain are the same files, but their
  child counts may be smaller. `Scanner.HiddenToggle` states this exact
  relation.
- Within one `onResume`, a changed hidden flag and a changed text colour
  each start a scan. In the code both scans run on background threads and
  are delivered later, so `mItems` is emptied before either is delivered;
  whichever arrives first is reconciled against the empty list, and the
  other against that result. The sequential model delivers the first scan
  before emptying the list. When both scans see the same listing, the final
  `mItems` is the same either way: the reconciliation of the scan against
  the empty list, as `OnResume` states.

## Model

| member | source | states |
|---|---|---|
| `Scanner.VisibleNames` | app/src/main/kotlin/com/simplemobiletools/filemanager/fragments/ItemsFragment.kt:172 | the non-hidden names of a listing: each non-hidden name occurs exactly as often as in the listing and no hidden name occurs, so its length is the count of non-hidden entries |
| `Scanner.GetChildren` | app/src/main/kotlin/com/simplemobiletools/filemanager/fragments/ItemsFragment.kt:164-176 | 0 for an entry whose listing is null or that is not a directory; otherwise the full count when hidden files are shown, else the count of non-hidden names; never more than the listing holds |
| `Scanner.ScanChildren` | app/src/main/kotlin/com/simplemobiletools/filemanager/fragments/ItemsFragment.kt:148-158 | at most one item per child; one per child when hidden files are shown; no item with a hidden name when they are not |
| `Scanner.KeptIndices` | app/src/main/kotlin/com/simplemobiletools/filemanager/fragments/ItemsFragment.kt:148-153 | the positions the scan keeps are strictly increasing, in range, each one kept, and every kept child's position is among them |
| `Scanner.ScanSelectsKept` | app/src/main/kotlin/com/simplemobiletools/filemanager/fragments/ItemsFragment.kt:148-157 | the k-th item is the child at the k-th kept position, carrying its path, its name from the path, its directory flag, its child count and its length: an order-preserving selection of exactly the kept children |
| `Scanner.ScanShowsAll` | app/src/main/kotlin/com/simplemobiletools/filemanager/fragments/ItemsFragment.kt:151-157 | with hidden files shown, every listed child appears, at its own position |
| `Scanner.HiddenToggle` | app/src/main/kotlin/com/simplemobiletools/filemanager/fragments/ItemsFragment.kt:151-172 | the listing without hidden files holds the same files as the listing with them minus its hidden rows, in the same order, each with at most the same child count |
| `Scanner.GetItems` | app/src/main/kotlin/com/simplemobiletools/filemanager/fragments/ItemsFragment.kt:143-162 | the loop builds exactly the scan of the listing; a null listing gives the empty list |
| `Mime.IndexOf` | app/src/main/kotlin/com/simplemobiletools/filemanager/fragments/ItemsFragment.kt:223 | the position of the first occurrence of the character: it is there and not before |
| `Mime.GetGenericMimeType` | app/src/main/kotlin/com/simplemobiletools/filemanager/fragments/ItemsFragment.kt:219-225 | a type without a slash is unchanged; otherwise the result is the part of the type before its first slash, which holds no slash, followed by a slash and an asterisk |
| `Mime.GenericIdempotent` | app/src/main/kotlin/com/simplemobiletools/filemanager/fragments/ItemsFragment.kt:219-225 | making a type generic twice equals making it generic once |
| `Opening.FileMimeType` | app/src/main/kotlin/com/simplemobiletools/filemanager/fragments/ItemsFragment.kt:184-186 | the type the map gives for the lower-case extension, or `text/plain` when it gives none |
| `Opening.TryGenericMimeType` | app/src/main/kotlin/com/simplemobiletools/filemanager/fragments/ItemsFragment.kt:202-211 | the retry succeeds exactly when an app takes the generic type; for a type without a slash that is the same question as the first attempt |
| `Opening.ItemClicked` | app/src/main/kotlin/com/simplemobiletools/filemanager/fragments/ItemsFragment.kt:178-200 | a directory is only forwarded to the listener (or dropped if none is set); a file is viewed first with its looked-up type, the generic type is tried exactly when that fails, and the toast is shown exactly when both fail |
| `Opening.OpenedType` | app/src/main/kotlin/com/simplemobiletools/filemanager/fragments/ItemsFragment.kt:184-206 | the last type a file is offered as is its looked-up type or the generic form of it; a file of unknown type is offered as `text/plain` or `text/*` |
| `Fragment.Reconciled` | app/src/main/kotlin/com/simplemobiletools/filemanager/fragments/ItemsFragment.kt:84-88 | the displayed list after delivery is the old or the new one; it always has the new list's hash; an equal hash keeps the old list, a different hash installs the new one |
| `Fragment.ReconcileTwice` | app/src/main/kotlin/com/simplemobiletools/filemanager/fragments/ItemsFragment.kt:84-88 | delivering the same list a second time leaves the displayed list as the first delivery left it |
| `Fragment.ItemsFragment.constructor` | app/src/main/kotlin/com/simplemobiletools/filemanager/fragments/ItemsFragment.kt:31-34 | a new fragment has no items, hidden files off and stored colour 0 |
| `Fragment.ItemsFragment.OnItemsLoaded` | app/src/main/kotlin/com/simplemobiletools/filemanager/fragments/ItemsFragment.kt:82-88 | the refresh indicator is cleared in every case, and `mItems` becomes the reconciled list; the other fields are unchanged |
| `Fragment.ItemsFragment.FillItems` | app/src/main/kotlin/com/simplemobiletools/filemanager/fragments/ItemsFragment.kt:74-88 | one scan is started with the current flag; `mItems` becomes the reconciliation of the sorted scan; a replaced list is a permutation of the scan and, with hidden files off, holds no hidden name |
| `Fragment.ItemsFragment.OnViewCreated` | app/src/main/kotlin/com/simplemobiletools/filemanager/fragments/ItemsFragment.kt:45-48 | the flag is taken from the configuration and a scan with it is delivered |
| `Fragment.ItemsFragment.OnSwipeRefresh` | app/src/main/kotlin/com/simplemobiletools/filemanager/fragments/ItemsFragment.kt:50 | a pull starts one scan, and the indicator is cleared once it is delivered |
| `Fragment.ItemsFragment.RefreshItems` | app/src/main/kotlin/com/simplemobiletools/filemanager/fragments/ItemsFragment.kt:227-229 | a refresh request starts one scan and delivers it |
| `Fragment.ItemsFragment.OnResume` | app/src/main/kotlin/com/simplemobiletools/filemanager/fragments/ItemsFragment.kt:54-67 | afterwards the flag and the stored colour equal the configuration's; one scan per changed setting and none otherwise; nothing else changes when neither changed; a colour change reconciles against an emptied list |
| `Fragment.ItemsFragment.OnPause` | app/src/main/kotlin/com/simplemobiletools/filemanager/fragments/ItemsFragment.kt:69-72 | the current text colour is recorded and nothing else changes |

## Left out

- Threads: `getItems` runs on a background thread and delivers on the UI thread. Here scan, sort and delivery are one sequential call, so interleavings of several scans are not modelled.
- Detached fragment: a scan that finishes after the fragment is detached is not delivered (`activity?.` at line 82), so the indicator is not cleared and `mItems` is not updated; reading the folder sorting through a null `context` at line 78 fails on the scan thread. The model always delivers.
- Filesystem snapshots: `getChildren` calls `listFiles()` up to twice, and a directory can change between the calls. The model reads one listing per entry. Within one `onResume`, both scans see the same listing.
- `mPath` and the fragment arguments (lines 38 and 75): the directory is the listing passed in, so the path plays no part in the model.
- Sorting (lines 78-79): the comparator and `getFolderSorting` live in the commons library and the configuration, which are not part of this model. The sort is an arbitrary permutation.
- `hashCode`: an arbitrary function. Nothing is claimed about lists whose hashes collide.
- `getFilenameFromPath`, `getFilenameExtension`, `toLowerCase`, `MimeTypeMap` and `startActivity` are not part of this model. They are parameters. `canOpen` returning false stands for `startActivity` throwing `ActivityNotFoundException`, the only exception `itemClicked` and `tryGenericMimeType` catch. Any other exception thrown by `startActivity` propagates out of `itemClicked`, with no retry and no toast, and is not modelled.
- The intent itself (`Uri.fromFile`, `FLAG_ACTIVITY_NEW_TASK`): the outcome records only the path and the types tried.
- Adapter creation and `updateItems`, the item divider, the fast scroller, drag selection, and saving and restoring the scroll state (lines 90-107, 113-137, 242-244): these are view plumbing with no logic to state.
- `updateTextColors` (line 61): it only repaints views.
- `deleteFiles` (lines 231-240) and `createNewItem` (lines 213-217): they delegate to other components and show toasts. A created item is picked up by the `FillItems` that the dialog calls back.
- `File.length()` is a natural number given as data; Kotlin's 64-bit `Long` bound is not modelled.
