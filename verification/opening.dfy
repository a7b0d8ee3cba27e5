/**
 * What a click on a listed item does. A directory is handed to the
 * fragment's listener. A file is viewed with the MIME type of its extension,
 * "text/plain" when the type is unknown; when no app takes that type the
 * generic form of the type is tried, and when no app takes that either the
 * "no app found" toast is shown.
 *
 * The platform is given as parameters: `extensionOf` is the file name's
 * extension in lower case, `mimeOfExtension` is the MIME type map (None
 * where it knows none), and `canOpen` says whether starting a view activity
 * for a type succeeds.
 */
module Opening {
  import opened Wrappers
  import opened Scanner
  import opened Mime

  const DefaultMimeType: string := "text/plain"

  datatype ClickOutcome =
    | ForwardedToListener(item: FileDirItem)       // a directory, passed to the listener
    | Ignored                                      // a directory, and no listener is set
    | ViewFile(path: string, attempts: seq<string>, appFound: bool)
      // the types a view was started with, in order, and whether the last one found an app
  {
    /** Whether the "no app found" toast is shown. */
    predicate ShowsNoAppToast()
    {
      ViewFile? && !appFound
    }
  }

  /** The type a file is first offered to viewers as. */
  function FileMimeType(path: string, extensionOf: string -> string, mimeOfExtension: string -> Option<string>): (m: string)
    ensures mimeOfExtension(extensionOf(path)).Some? ==> m == mimeOfExtension(extensionOf(path)).value
    ensures mimeOfExtension(extensionOf(path)).None? ==> m == DefaultMimeType
  {
    match mimeOfExtension(extensionOf(path))
    case Some(t) => t
    case None => DefaultMimeType
  }

  /**
   * The retry after the first view failed; true when the generic type found
   * an app. A type without a slash is retried as it is, so the retry then
   * succeeds exactly when the first attempt would.
   */
  function TryGenericMimeType(mimeType: string, canOpen: string -> bool): (ok: bool)
    ensures ok <==> canOpen(GetGenericMimeType(mimeType))
    ensures '/' !in mimeType ==> (ok <==> canOpen(mimeType))
  {
    canOpen(GetGenericMimeType(mimeType))
  }

  function ItemClicked(item: FileDirItem, hasListener: bool, extensionOf: string -> string,
                       mimeOfExtension: string -> Option<string>, canOpen: string -> bool): (r: ClickOutcome)
    ensures item.isDirectory ==> (if hasListener then r == ForwardedToListener(item) else r == Ignored)
    ensures !item.isDirectory ==>
      r.ViewFile? && r.path == item.path && 1 <= |r.attempts| <= 2 &&
      r.attempts[0] == FileMimeType(item.path, extensionOf, mimeOfExtension)
    ensures r.ViewFile? ==> (|r.attempts| == 1 <==> canOpen(r.attempts[0]))
    ensures r.ViewFile? && |r.attempts| == 2 ==> r.attempts[1] == GetGenericMimeType(r.attempts[0])
    ensures r.ViewFile? ==> (r.appFound <==> canOpen(r.attempts[|r.attempts| - 1]))
    ensures r.ShowsNoAppToast() <==>
      !item.isDirectory &&
      !canOpen(FileMimeType(item.path, extensionOf, mimeOfExtension)) &&
      !canOpen(GetGenericMimeType(FileMimeType(item.path, extensionOf, mimeOfExtension)))
  {
    if item.isDirectory then
      if hasListener then ForwardedToListener(item) else Ignored
    else
      var mimeType := FileMimeType(item.path, extensionOf, mimeOfExtension);
      if canOpen(mimeType) then ViewFile(item.path, [mimeType], true)
      else ViewFile(item.path, [mimeType, GetGenericMimeType(mimeType)], TryGenericMimeType(mimeType, canOpen))
  }

  /**
   * The type a file is finally viewed with is its looked-up type or the
   * generic form of it; a file of unknown type is viewed as "text/plain" or
   * as the generic text type.
   */
  lemma OpenedType(item: FileDirItem, hasListener: bool, extensionOf: string -> string,
                   mimeOfExtension: string -> Option<string>, canOpen: string -> bool)
    requires !item.isDirectory
    ensures var r := ItemClicked(item, hasListener, extensionOf, mimeOfExtension, canOpen);
      var last := r.attempts[|r.attempts| - 1];
      var m := FileMimeType(item.path, extensionOf, mimeOfExtension);
      (last == m || last == GetGenericMimeType(m)) &&
      (mimeOfExtension(extensionOf(item.path)).None? ==> last == "text/plain" || last == "text/*")
  {
    var m := FileMimeType(item.path, extensionOf, mimeOfExtension);
    if mimeOfExtension(extensionOf(item.path)).None? {
      assert m[..4] == "text";
      assert m[4] == '/';
      var g := GetGenericMimeType(m);
      assert g[..|g| - 2] == "text";
    }
  }
}
