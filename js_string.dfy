/** The piece of JavaScript string behaviour the task page relies on:
    `String.prototype.trim` (section 22.1.3.32 of ECMA-262) and the
    falsiness of the empty string. Strings are sequences of code points. */
module JsString {

  /** WhiteSpace (section 12.2 of ECMA-262: TAB, VT, FF, ZWNBSP and the
      Unicode category Zs) and LineTerminator (section 12.3: LF, CR, LS, PS). */
  predicate IsWhiteSpace(c: char): (r: bool)
    // each of them is a single UTF-16 code unit, so `trim` on code units and
    // on code points removes the same characters
    ensures r ==> (c as int) < 0x1_0000
  {
    c in {
      '\U{0009}', '\U{000B}', '\U{000C}', '\U{FEFF}',
      '\U{0020}', '\U{00A0}', '\U{1680}',
      '\U{2000}', '\U{2001}', '\U{2002}', '\U{2003}', '\U{2004}', '\U{2005}',
      '\U{2006}', '\U{2007}', '\U{2008}', '\U{2009}', '\U{200A}',
      '\U{202F}', '\U{205F}', '\U{3000}',
      '\U{000A}', '\U{000D}', '\U{2028}', '\U{2029}'
    }
  }

  /** Every character of `s` is white space (vacuously true of ""). */
  predicate IsBlank(s: string) {
    forall k :: 0 <= k < |s| ==> IsWhiteSpace(s[k])
  }

  /** Drops the leading white space: the result is a suffix of `s`, what was
      dropped is all white space, and the result does not start with any. */
  function TrimStart(s: string): (r: string)
    ensures |r| <= |s| && r == s[|s| - |r|..]
    ensures forall k :: 0 <= k < |s| - |r| ==> IsWhiteSpace(s[k])
    ensures r == [] || !IsWhiteSpace(r[0])
  {
    if s != [] && IsWhiteSpace(s[0]) then TrimStart(s[1..]) else s
  }

  /** Drops the trailing white space: the result is a prefix of `s`, what was
      dropped is all white space, and the result does not end with any. */
  function TrimEnd(s: string): (r: string)
    ensures |r| <= |s| && r == s[..|r|]
    ensures forall k :: |r| <= k < |s| ==> IsWhiteSpace(s[k])
    ensures r == [] || !IsWhiteSpace(r[|r| - 1])
  {
    if s != [] && IsWhiteSpace(s[|s| - 1]) then TrimEnd(s[..|s| - 1]) else s
  }

  /** `s.trim()`: the middle of `s`, with only white space cut off at either
      end and none left at either end. */
  function Trim(s: string): (r: string)
    ensures exists i, j :: 0 <= i <= j <= |s| && r == s[i..j] && IsBlank(s[..i]) && IsBlank(s[j..])
    ensures r == [] || (!IsWhiteSpace(r[0]) && !IsWhiteSpace(r[|r| - 1]))
  {
    var t := TrimStart(s);
    var r := TrimEnd(t);
    var i := |s| - |t|;
    var j := i + |r|;
    assert r == s[i..j] && IsBlank(s[..i]);
    assert IsBlank(s[j..]) by {
      forall k | 0 <= k < |s| - j ensures IsWhiteSpace(s[j..][k]) {
        assert s[j..][k] == t[|r| + k];
      }
    }
    r
  }

  /** `!s.trim()` holds exactly for the strings made only of white space. */
  lemma TrimEmptyIffBlank(s: string)
    ensures Trim(s) == "" <==> IsBlank(s)
  {
    // Follows from the contracts of TrimStart and TrimEnd: what TrimEnd
    // drops is white space, and TrimStart leaves no white space in front.
  }
}
