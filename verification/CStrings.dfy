/** NUL-terminated strings, over whatever stands for a character. */
module CStrings {

  /** The characters a C function sees in `s`: everything before the first `nul`. */
  function CString<T(==)>(s: seq<T>, nul: T): (r: seq<T>)
    ensures |r| <= |s| && r == s[..|r|] && nul !in r
    ensures |r| < |s| ==> s[|r|] == nul
  {
    if s == [] || s[0] == nul then [] else [s[0]] + CString(s[1..], nul)
  }

  lemma {:induction false} CStringIs<T>(s: seq<T>, t: seq<T>, nul: T)
    requires nul !in t && t <= s && (|t| == |s| || s[|t|] == nul)
    ensures CString(s, nul) == t
  {
    if t == [] {
    } else {
      CStringIs(s[1..], t[1..], nul);
    }
  }
}
