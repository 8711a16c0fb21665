/** What pugixml receives when the converter hands it `s.c_str()`: a
    NUL-terminated character pointer, read up to its first NUL. */
module CStrings {

  const Nul: char := '\0'

  predicate NulFree(s: string) {
    forall k :: 0 <= k < |s| ==> s[k] != Nul
  }

  /** The characters of `s` before its first NUL; all of `s` when it has none. */
  function CStr(s: string): (r: string)
    ensures |r| <= |s| && s[..|r|] == r
    ensures NulFree(r)
    ensures |r| < |s| ==> s[|r|] == Nul
  {
    if s == [] then []
    else if s[0] == Nul then []
    else [s[0]] + CStr(s[1..])
  }

  /** A string without NUL passes through `c_str()` unchanged. */
  lemma CStrOfNulFree(s: string)
    requires NulFree(s)
    ensures CStr(s) == s
  {
  }

  /** Joining two strings without NUL gives one that passes through unchanged. */
  lemma CStrOfNulFreeConcat(a: string, b: string)
    requires NulFree(a) && NulFree(b)
    ensures CStr(a + b) == a + b
  {
    assert forall k :: |a| <= k < |a + b| ==> (a + b)[k] == b[k - |a|];
    CStrOfNulFree(a + b);
  }

  /** A string with a NUL is cut right before its first one. */
  lemma {:induction false} CStrCutsAtFirstNul(s: string, k: nat)
    requires k < |s| && s[k] == Nul && NulFree(s[..k])
    ensures CStr(s) == s[..k]
  {
    if k > 0 {
      CStrCutsAtFirstNul(s[1..], k - 1);
      assert s[1..][..k - 1] == s[1..k];
      assert s[..k] == [s[0]] + s[1..k];
    }
  }
}
