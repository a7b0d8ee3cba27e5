/** The generic form of a MIME type that the fragment retries with. */
module Mime {

  /** The position of the first occurrence of `c` in `s`. */
  function IndexOf(s: string, c: char): (i: nat)
    requires c in s
    ensures i < |s| && s[i] == c
    ensures c !in s[..i]
  {
    if s[0] == c then 0
    else
      var j := IndexOf(s[1..], c);
      assert s[..j + 1] == [s[0]] + s[1..][..j];
      j + 1
  }

  /**
   * A type without a slash is returned as it is; otherwise the part before
   * the first slash, followed by a slash and an asterisk.
   */
  function GetGenericMimeType(mimeType: string): (r: string)
    ensures '/' !in mimeType ==> r == mimeType
    ensures '/' in mimeType ==>
      |r| >= 2 && r[|r| - 2..] == "/*" &&
      var t := r[..|r| - 2];
      '/' !in t && |t| < |mimeType| && mimeType[..|t| + 1] == t + "/"
  {
    if '/' !in mimeType then mimeType
    else
      var t := mimeType[..IndexOf(mimeType, '/')];
      t + "/*"
  }

  /** Making a type generic twice gives what making it generic once does. */
  lemma {:induction false} GenericIdempotent(mimeType: string)
    ensures GetGenericMimeType(GetGenericMimeType(mimeType)) == GetGenericMimeType(mimeType)
  {
    var r := GetGenericMimeType(mimeType);
    if '/' in mimeType {
      var t := r[..|r| - 2];
      assert r == t + "/*";
      assert r[|t|] == '/';
      assert r[..|t|] == t;
      assert IndexOf(r, '/') == |t|;
    }
  }
}
