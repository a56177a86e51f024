/** C strings: text up to the first NUL. */
module CString {

  const NUL: char := '\0'

  function UpToNul(s: string): (t: string)
    ensures t <= s && NUL !in t
    ensures |t| < |s| ==> s[|t|] == NUL
    ensures NUL !in s ==> t == s
  {
    if s == "" || s[0] == NUL then "" else [s[0]] + UpToNul(s[1..])
  }

  lemma {:induction false} FirstNul(s: string, n: nat)
    requires n <= |s| && (n < |s| ==> s[n] == NUL) && forall i :: 0 <= i < n ==> s[i] != NUL
    ensures UpToNul(s) == s[..n]
  {
    if n > 0 {
      FirstNul(s[1..], n - 1);
      assert s[..n] == [s[0]] + s[1..][..n - 1];
    }
  }
}
