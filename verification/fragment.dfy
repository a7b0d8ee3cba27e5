/**
 * The state the items fragment keeps between scans: the displayed items,
 * the hidden-files flag the last scan used, the text colour last seen, and
 * the swipe-refresh indicator.
 *
 * A scan runs on a background thread and delivers its items to the UI
 * thread; here the scan, the sort and the delivery are one sequential call.
 * The list hash is the function `hash`, fixed for the fragment's lifetime;
 * the folder sort is a parameter `sort` of which only that it permutes its
 * input is known.
 */
module Fragment {
  import opened Wrappers
  import opened Scanner

  /**
   * The displayed items after a scan delivers `newItems`: kept when the
   * hashes agree, replaced otherwise. Either way the displayed list ends up
   * with the new list's hash, and a list equal to the displayed one never
   * replaces it.
   */
  function Reconciled(current: seq<FileDirItem>, newItems: seq<FileDirItem>,
                      hash: seq<FileDirItem> -> int): (r: seq<FileDirItem>)
    ensures r == current || r == newItems
    ensures hash(r) == hash(newItems)
    ensures hash(newItems) == hash(current) ==> r == current
    ensures hash(newItems) != hash(current) ==> r == newItems
  {
    if hash(newItems) == hash(current) then current else newItems
  }

  /** Delivering the same list a second time changes nothing. */
  lemma ReconcileTwice(current: seq<FileDirItem>, newItems: seq<FileDirItem>, hash: seq<FileDirItem> -> int)
    ensures var once := Reconciled(current, newItems, hash);
      Reconciled(once, newItems, hash) == once
  {
  }

  /** The folder sort only reorders. */
  ghost predicate IsPermutation(sort: seq<FileDirItem> -> seq<FileDirItem>)
  {
    forall s :: multiset(sort(s)) == multiset(s)
  }

  class ItemsFragment {
    var mItems: seq<FileDirItem>
    var mShowHidden: bool
    var mStoredTextColor: int
    var isRefreshing: bool  // the swipe-refresh indicator
    ghost var scansStarted: nat  // how many times a scan was started; not program state
    const hash: seq<FileDirItem> -> int

    constructor (hash: seq<FileDirItem> -> int)
      ensures mItems == [] && !mShowHidden && mStoredTextColor == 0
      ensures !isRefreshing && scansStarted == 0 && this.hash == hash
    {
      mItems := [];
      mShowHidden := false;
      mStoredTextColor := 0;
      isRefreshing := false;
      scansStarted := 0;
      this.hash := hash;
    }

    /** The UI-thread part of a scan's callback: clear the indicator, install the list if its hash differs. */
    method OnItemsLoaded(newItems: seq<FileDirItem>)
      modifies this
      ensures !isRefreshing
      ensures mItems == Reconciled(old(mItems), newItems, hash)
      ensures mShowHidden == old(mShowHidden) && mStoredTextColor == old(mStoredTextColor)
      ensures scansStarted == old(scansStarted)
    {
      isRefreshing := false;
      if hash(newItems) == hash(mItems) {
        return;
      }
      mItems := newItems;
    }

    /**
     * Scan the directory with the current hidden-files flag, sort, and
     * deliver. When the list is replaced it holds exactly the scanned items,
     * reordered, and so no hidden entry while hidden files are not shown.
     */
    method FillItems(files: Option<seq<Child>>, nameOf: string -> string,
                     sort: seq<FileDirItem> -> seq<FileDirItem>)
      requires IsPermutation(sort)
      modifies this
      ensures scansStarted == old(scansStarted) + 1
      ensures mShowHidden == old(mShowHidden) && mStoredTextColor == old(mStoredTextColor)
      ensures !isRefreshing
      ensures mItems == Reconciled(old(mItems), sort(Scan(files, mShowHidden, nameOf)), hash)
      ensures mItems == old(mItems) || multiset(mItems) == multiset(Scan(files, mShowHidden, nameOf))
      ensures mItems != old(mItems) && !mShowHidden ==>
        forall k :: 0 <= k < |mItems| ==> !IsHiddenName(mItems[k].name)
    {
      scansStarted := scansStarted + 1;
      var items := GetItems(files, mShowHidden, nameOf);
      var newItems := sort(items);
      assert multiset(newItems) == multiset(items);
      OnItemsLoaded(newItems);
      if mItems != old(mItems) && !mShowHidden {
        forall k | 0 <= k < |mItems|
          ensures !IsHiddenName(mItems[k].name)
        {
          assert mItems[k] in multiset(items);
        }
      }
    }

    /** The view is created: read the hidden-files flag and scan. */
    method OnViewCreated(configShowHidden: bool, files: Option<seq<Child>>, nameOf: string -> string,
                         sort: seq<FileDirItem> -> seq<FileDirItem>)
      requires IsPermutation(sort)
      modifies this
      ensures mShowHidden == configShowHidden && mStoredTextColor == old(mStoredTextColor)
      ensures scansStarted == old(scansStarted) + 1 && !isRefreshing
      ensures mItems == Reconciled(old(mItems), sort(Scan(files, configShowHidden, nameOf)), hash)
    {
      mShowHidden := configShowHidden;
      FillItems(files, nameOf, sort);
    }

    /** A pull on the list: the indicator shows until the scan is delivered. */
    method OnSwipeRefresh(files: Option<seq<Child>>, nameOf: string -> string,
                          sort: seq<FileDirItem> -> seq<FileDirItem>)
      requires IsPermutation(sort)
      modifies this
      ensures mShowHidden == old(mShowHidden) && mStoredTextColor == old(mStoredTextColor)
      ensures scansStarted == old(scansStarted) + 1 && !isRefreshing
      ensures mItems == Reconciled(old(mItems), sort(Scan(files, mShowHidden, nameOf)), hash)
    {
      isRefreshing := true;
      FillItems(files, nameOf, sort);
    }

    /** The adapter asks for a fresh listing, as after a deletion. */
    method RefreshItems(files: Option<seq<Child>>, nameOf: string -> string,
                        sort: seq<FileDirItem> -> seq<FileDirItem>)
      requires IsPermutation(sort)
      modifies this
      ensures mShowHidden == old(mShowHidden) && mStoredTextColor == old(mStoredTextColor)
      ensures scansStarted == old(scansStarted) + 1 && !isRefreshing
      ensures mItems == Reconciled(old(mItems), sort(Scan(files, mShowHidden, nameOf)), hash)
    {
      FillItems(files, nameOf, sort);
    }

    /**
     * The fragment comes back to the foreground. A changed hidden-files flag
     * is taken over and rescanned; a changed text colour empties the list,
     * rescans and is recorded. Nothing changes when neither changed.
     */
    method OnResume(configShowHidden: bool, configTextColor: int, files: Option<seq<Child>>,
                    nameOf: string -> string, sort: seq<FileDirItem> -> seq<FileDirItem>)
      requires IsPermutation(sort)
      modifies this
      ensures mShowHidden == configShowHidden && mStoredTextColor == configTextColor
      ensures scansStarted == old(scansStarted)
        + (if old(mShowHidden) != configShowHidden then 1 else 0)
        + (if old(mStoredTextColor) != configTextColor then 1 else 0)
      ensures old(mShowHidden) == configShowHidden && old(mStoredTextColor) == configTextColor ==>
        mItems == old(mItems) && isRefreshing == old(isRefreshing)
      ensures old(mShowHidden) != configShowHidden && old(mStoredTextColor) == configTextColor ==>
        mItems == Reconciled(old(mItems), sort(Scan(files, configShowHidden, nameOf)), hash) && !isRefreshing
      ensures old(mStoredTextColor) != configTextColor ==>
        mItems == Reconciled([], sort(Scan(files, configShowHidden, nameOf)), hash) && !isRefreshing
    {
      if mShowHidden != configShowHidden {
        mShowHidden := !mShowHidden;
        FillItems(files, nameOf, sort);
      }
      if mStoredTextColor != configTextColor {
        mItems := [];
        FillItems(files, nameOf, sort);
        mStoredTextColor := configTextColor;
      }
    }

    /** The fragment leaves the foreground: the current text colour is recorded. */
    method OnPause(configTextColor: int)
      modifies this
      ensures mStoredTextColor == configTextColor
      ensures mItems == old(mItems) && mShowHidden == old(mShowHidden)
      ensures isRefreshing == old(isRefreshing) && scansStarted == old(scansStarted)
    {
      mStoredTextColor := configTextColor;
    }
  }
}
