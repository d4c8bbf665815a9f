// The few string operations of the Go standard library that the model needs.
// A string is a sequence of bytes: one char stands for one byte.

module Text {

  predicate HasPrefix(s: string, prefix: string) {
    |prefix| <= |s| && s[..|prefix|] == prefix
  }

  predicate HasSuffix(s: string, suffix: string) {
    |suffix| <= |s| && s[|s| - |suffix|..] == suffix
  }

  predicate Contains(s: string, needle: string) {
    HasPrefix(s, needle) || (|s| > 0 && Contains(s[1..], needle))
  }

  function ToLower(s: string): (r: string)
    ensures |r| == |s|
  {
    seq(|s|, i requires 0 <= i < |s| => if 'A' <= s[i] <= 'Z' then s[i] + 32 as char else s[i])
  }

  /** The part of `s` before the first `c`, or all of `s`. */
  function Before(s: string, c: char): string {
    if |s| == 0 || s[0] == c then [] else [s[0]] + Before(s[1..], c)
  }

  /** strings.Replace(s, target, replacement, 1). */
  function ReplaceFirst(s: string, target: string, replacement: string): string
    requires |target| > 0
  {
    if HasPrefix(s, target) then replacement + s[|target|..]
    else if |s| == 0 then []
    else [s[0]] + ReplaceFirst(s[1..], target, replacement)
  }
}
