/**
 * The directory scan of the items fragment: the children of one directory
 * become a list of FileDirItem, hidden entries are dropped unless they are
 * shown, and every directory entry carries the number of its own children.
 *
 * The filesystem is input data: a `Child` is one file returned by
 * `listFiles()` with the answers the scan asks of it, and the result of
 * `listFiles()` on the scanned directory is an `Option<seq<Child>>` (None
 * where the platform returns null). The commons function that takes the
 * file name from a path is the parameter `nameOf`.
 */
module Scanner {
  import opened Wrappers

  /** One file in a directory listing, with the facts the scan reads from it. */
  datatype Child = Child(
    path: string,                  // absolute path
    isDirectory: bool,
    length: nat,                   // the file's length in bytes
    entries: Option<seq<string>>)  // names listed inside it; None when its listing is null

  /** One row of the displayed listing. */
  datatype FileDirItem = FileDirItem(path: string, name: string, isDirectory: bool, children: nat, size: nat)

  /** A file is hidden when its name starts with a dot. */
  predicate IsHiddenName(name: string)
  {
    |name| > 0 && name[0] == '.'
  }

  /**
   * The names of a listing that are not hidden, in their order: each
   * non-hidden name as often as it is listed, and no hidden name.
   */
  function VisibleNames(names: seq<string>): (r: seq<string>)
    ensures |r| <= |names|
    ensures forall k :: 0 <= k < |r| ==> !IsHiddenName(r[k]) && r[k] in names
    ensures forall n :: n in names && !IsHiddenName(n) ==> n in r
    ensures forall n :: multiset(r)[n] == (if IsHiddenName(n) then 0 else multiset(names)[n])
  {
    if names == [] then []
    else
      assert names == [names[0]] + names[1..];
      (if IsHiddenName(names[0]) then [] else [names[0]]) + VisibleNames(names[1..])
  }

  /** The child count shown for an entry. */
  function GetChildren(c: Child, showHidden: bool): (n: nat)
    ensures c.entries.None? || !c.isDirectory ==> n == 0
    ensures c.entries.Some? ==> n <= |c.entries.value|
    ensures c.entries.Some? && c.isDirectory && showHidden ==> n == |c.entries.value|
    ensures c.entries.Some? && c.isDirectory && !showHidden ==> n == |VisibleNames(c.entries.value)|
  {
    match c.entries
    case None => 0
    case Some(names) =>
      if c.isDirectory then
        if showHidden then |names| else |VisibleNames(names)|
      else 0
  }

  /** Whether the scan keeps a child. */
  predicate Kept(c: Child, showHidden: bool, nameOf: string -> string)
  {
    showHidden || !IsHiddenName(nameOf(c.path))
  }

  /** The item the scan makes of a child it keeps. */
  function ToItem(c: Child, showHidden: bool, nameOf: string -> string): FileDirItem
  {
    FileDirItem(c.path, nameOf(c.path), c.isDirectory, GetChildren(c, showHidden), c.length)
  }

  /** The items made from a directory's listed children, in listing order. */
  function ScanChildren(fs: seq<Child>, showHidden: bool, nameOf: string -> string): (r: seq<FileDirItem>)
    ensures |r| <= |fs|
    ensures showHidden ==> |r| == |fs|
    ensures !showHidden ==> forall k :: 0 <= k < |r| ==> !IsHiddenName(r[k].name)
  {
    if fs == [] then []
    else
      var last := fs[|fs| - 1];
      ScanChildren(fs[..|fs| - 1], showHidden, nameOf)
        + (if Kept(last, showHidden, nameOf) then [ToItem(last, showHidden, nameOf)] else [])
  }

  /** The items of a directory whose listing may be null. */
  function Scan(files: Option<seq<Child>>, showHidden: bool, nameOf: string -> string): seq<FileDirItem>
  {
    match files
    case None => []
    case Some(fs) => ScanChildren(fs, showHidden, nameOf)
  }

  /** The positions of the children the scan keeps, in increasing order. */
  function KeptIndices(fs: seq<Child>, showHidden: bool, nameOf: string -> string): (idx: seq<nat>)
    ensures forall k :: 0 <= k < |idx| ==> idx[k] < |fs| && Kept(fs[idx[k]], showHidden, nameOf)
    ensures forall j, k :: 0 <= j < k < |idx| ==> idx[j] < idx[k]
    ensures forall i :: 0 <= i < |fs| && Kept(fs[i], showHidden, nameOf) ==> i in idx
  {
    if fs == [] then []
    else
      KeptIndices(fs[..|fs| - 1], showHidden, nameOf)
        + (if Kept(fs[|fs| - 1], showHidden, nameOf) then [|fs| - 1] else [])
  }

  /**
   * The scan is a selection: its k-th item is made from the child at the
   * k-th kept position. With KeptIndices' contract this says that the result
   * is exactly the kept children, in listing order.
   */
  lemma {:induction false} ScanSelectsKept(fs: seq<Child>, showHidden: bool, nameOf: string -> string)
    ensures |ScanChildren(fs, showHidden, nameOf)| == |KeptIndices(fs, showHidden, nameOf)|
    ensures forall k :: 0 <= k < |ScanChildren(fs, showHidden, nameOf)| ==>
      KeptIndices(fs, showHidden, nameOf)[k] < |fs| &&
      ScanChildren(fs, showHidden, nameOf)[k] == ToItem(fs[KeptIndices(fs, showHidden, nameOf)[k]], showHidden, nameOf)
  {
    if fs != [] {
      var init := fs[..|fs| - 1];
      ScanSelectsKept(init, showHidden, nameOf);
    }
  }

  /** With hidden files shown, every listed child appears, at its own position. */
  lemma {:induction false} ScanShowsAll(fs: seq<Child>, nameOf: string -> string)
    ensures |ScanChildren(fs, true, nameOf)| == |fs|
    ensures forall k :: 0 <= k < |fs| ==> ScanChildren(fs, true, nameOf)[k] == ToItem(fs[k], true, nameOf)
  {
    if fs != [] {
      ScanShowsAll(fs[..|fs| - 1], nameOf);
    }
  }

  /** The items of a list whose names are not hidden, in their order. */
  function DropHidden(items: seq<FileDirItem>): seq<FileDirItem>
  {
    if items == [] then []
    else
      var last := items[|items| - 1];
      DropHidden(items[..|items| - 1]) + (if IsHiddenName(last.name) then [] else [last])
  }

  /** Two items describe the same file, the first with at most the second's child count. */
  predicate SameFileFewerChildren(a: FileDirItem, b: FileDirItem)
  {
    a.path == b.path && a.name == b.name && a.isDirectory == b.isDirectory &&
    a.size == b.size && a.children <= b.children
  }

  /**
   * Hiding hidden files removes exactly the hidden rows of the listing that
   * shows them. The rows that stay are the same files, but their child
   * counts may be smaller, since the counts follow the same flag.
   */
  lemma {:induction false} HiddenToggle(fs: seq<Child>, nameOf: string -> string)
    ensures |ScanChildren(fs, false, nameOf)| == |DropHidden(ScanChildren(fs, true, nameOf))|
    ensures forall k :: 0 <= k < |ScanChildren(fs, false, nameOf)| ==>
      SameFileFewerChildren(ScanChildren(fs, false, nameOf)[k], DropHidden(ScanChildren(fs, true, nameOf))[k])
  {
    if fs != [] {
      var init, last := fs[..|fs| - 1], fs[|fs| - 1];
      HiddenToggle(init, nameOf);
      var all := ScanChildren(fs, true, nameOf);
      assert all == ScanChildren(init, true, nameOf) + [ToItem(last, true, nameOf)];
      assert all[..|all| - 1] == ScanChildren(init, true, nameOf);
    }
  }

  /** The scan loop: one pass over the listing, skipping hidden names unless they are shown. */
  method GetItems(files: Option<seq<Child>>, showHidden: bool, nameOf: string -> string) returns (items: seq<FileDirItem>)
    ensures items == Scan(files, showHidden, nameOf)
    ensures files.None? ==> items == []
  {
    items := [];
    if files.Some? {
      var fs := files.value;
      for i := 0 to |fs|
        invariant items == ScanChildren(fs[..i], showHidden, nameOf)
      {
        assert fs[..i + 1][..i] == fs[..i];
        var file := fs[i];
        var curPath := file.path;
        var curName := nameOf(curPath);
        if !showHidden && IsHiddenName(curName) {
          continue;
        }
        var children := GetChildren(file, showHidden);
        var size := file.length;
        items := items + [FileDirItem(curPath, curName, file.isDirectory, children, size)];
      }
      assert fs[..|fs|] == fs;
    }
  }
}
