/** Strings of C in a sequence of bytes: they end at the first NUL. */
module CStrings {
  import opened Wrappers

  function UpToNul(s: seq<byte>): (r: seq<byte>)
    ensures r <= s
  {
    if s == [] || s[0] == 0 then [] else [s[0]] + UpToNul(s[1..])
  }

  lemma {:induction false} UpToNulAll(s: seq<byte>)
    requires 0 !in s
    ensures UpToNul(s) == s
  {
    if s != [] { UpToNulAll(s[1..]); }
  }

  lemma {:induction false} UpToNulFree(s: seq<byte>)
    ensures 0 !in UpToNul(s) && (UpToNul(s) == s ==> 0 !in s)
  {
    if s != [] && s[0] != 0 { UpToNulFree(s[1..]); }
  }
}
