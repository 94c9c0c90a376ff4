/** Object ids as git prints them. */
module GitIds {

  predicate IsHex(s: string) {
    forall i :: 0 <= i < |s| ==> '0' <= s[i] <= '9' || 'a' <= s[i] <= 'f'
  }

  predicate IsHexSHA(s: string) {
    |s| == 40 && IsHex(s)
  }

  /** The id that stands for a missing object. */
  const ZERO_SHA := "0000000000000000000000000000000000000000"
}
