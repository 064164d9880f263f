/** Shared vocabulary: an optional value (JavaScript's `undefined`/`null`
    versus a present value) and the blank-text test behind `!s.trim()`. */
module Common {

  /** A value that may be absent. */
  datatype Option<+T> = None | Some(value: T)

  /** The characters `String.prototype.trim` removes: the ECMAScript
      WhiteSpace and LineTerminator code points (tab, vertical tab, form feed,
      space, no-break space, byte order mark, line feed, carriage return, the
      line and paragraph separators) and the remaining space separators of
      Unicode category Zs. */
  predicate IsWhitespace(c: char) {
    var n := c as int;
    || n == 0x09 || n == 0x0A || n == 0x0B || n == 0x0C || n == 0x0D
    || n == 0x20 || n == 0xA0 || n == 0x1680
    || (0x2000 <= n <= 0x200A)
    || n == 0x2028 || n == 0x2029 || n == 0x202F || n == 0x205F
    || n == 0x3000 || n == 0xFEFF
  }

  /** `!s.trim()`: trimming leaves the empty string exactly when every
      character is whitespace. */
  predicate IsBlank(s: string) {
    forall i :: 0 <= i < |s| ==> IsWhitespace(s[i])
  }

  /** The key test of both request boxes: Enter without Shift. */
  predicate IsSubmitKey(key: string, shiftKey: bool) {
    key == "Enter" && !shiftKey
  }

  /** Trimming from the left, one character at a time. */
  function TrimStart(s: string): (r: string)
    ensures |r| <= |s|
    ensures r == s[|s| - |r|..]
    ensures IsBlank(s[..|s| - |r|])
    ensures |r| > 0 ==> !IsWhitespace(r[0])
    decreases |s|
  {
    if |s| > 0 && IsWhitespace(s[0]) then TrimStart(s[1..]) else s
  }

  /** The leading-whitespace scan empties a string exactly when the string
      is blank, so `IsBlank` is the truthiness test on the trimmed text. */
  lemma {:induction false} BlankIffTrimEmpty(s: string)
    ensures IsBlank(s) <==> TrimStart(s) == ""
    decreases |s|
  {
    if |s| > 0 && IsWhitespace(s[0]) {
      BlankIffTrimEmpty(s[1..]);
      if IsBlank(s[1..]) {
        forall i | 0 <= i < |s| ensures IsWhitespace(s[i]) {
          if i > 0 { assert s[i] == s[1..][i - 1]; }
        }
      }
      if IsBlank(s) {
        forall i | 0 <= i < |s[1..]| ensures IsWhitespace(s[1..][i]) {
          assert s[1..][i] == s[i + 1];
        }
      }
    }
  }
}
