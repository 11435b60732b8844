/** Strings that a NUL character ends. */
module CStrings {

  /** The NUL is not part of the string. */
  type CString = s: string | '\0' !in s witness ""

  /** The character at a pointer into a C string. */
  function At(s: CString, i: nat): (c: char)
    requires i <= |s|
    ensures c == '\0' <==> i == |s|
  {
    if i < |s| then s[i] else '\0'
  }

  /** How far the string at the start of `s` goes: to the first NUL. */
  function Len(s: seq<char>): (n: nat)
    ensures n <= |s| && (n < |s| ==> s[n] == '\0')
    ensures forall i :: 0 <= i < n ==> s[i] != '\0'
  {
    if s == [] || s[0] == '\0' then 0 else 1 + Len(s[1..])
  }

  /** The string at the start of a buffer. */
  function CStr(s: seq<char>): (t: CString) { s[..Len(s)] }

  lemma CStrIs(s: seq<char>, t: CString)
    requires |t| < |s| && s[..|t|] == t && s[|t|] == '\0'
    ensures CStr(s) == t && Len(s) == |t|
  {
    forall i | 0 <= i < |t| ensures s[i] != '\0' {
      assert s[..|t|][i] == t[i];
    }
  }
}
