/** Strings that pass through a `char*`. */
module CStrings {
  predicate NulFree(s: string) {
    '\0' !in s
  }

  /** What remains of a string that went through `c_str()`. */
  function CString(s: string): (r: string)
    ensures |r| <= |s| && r == s[..|r|] && NulFree(r)
    ensures |r| == |s| <==> NulFree(s)
    ensures NulFree(s) ==> r == s
  {
    if s == "" || s[0] == '\0' then "" else [s[0]] + CString(s[1..])
  }
}
