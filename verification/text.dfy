/** String trimming as done by JavaScript's String.prototype.trim. */
module Text {

  /** The WhiteSpace and LineTerminator code points of ECMA-262 (sections
      12.2 and 12.3), which are what trim strips from both ends. */
  predicate IsWhitespace(c: char) {
    || c == ' ' || c == '\t' || c == '\n' || c == '\r'
    || c == '\U{000B}' || c == '\U{000C}' || c == '\U{00A0}' || c == '\U{1680}'
    || ('\U{2000}' <= c <= '\U{200A}')
    || c == '\U{2028}' || c == '\U{2029}' || c == '\U{202F}' || c == '\U{205F}'
    || c == '\U{3000}' || c == '\U{FEFF}'
  }

  /** Every character of `s` from position `lo` up to `hi` is whitespace. */
  predicate BlankBetween(s: string, lo: int, hi: int) {
    forall i :: lo <= i < hi && 0 <= i < |s| ==> IsWhitespace(s[i])
  }

  /** Empty, or whitespace only. */
  predicate IsBlank(s: string) {
    BlankBetween(s, 0, |s|)
  }

  /** The number of whitespace characters `s` starts with: everything before
      that position is whitespace, and the character at it (if any) is not. */
  function LeadingBlanks(s: string): (k: nat)
    ensures k <= |s|
    ensures BlankBetween(s, 0, k)
    ensures k == |s| || !IsWhitespace(s[k])
  {
    if |s| > 0 && IsWhitespace(s[0]) then 1 + LeadingBlanks(s[1..]) else 0
  }

  /** The position where the trailing whitespace of `s` starts: everything
      from there on is whitespace, and the character before it (if any) is
      not. */
  function ContentEnd(s: string): (e: nat)
    ensures e <= |s|
    ensures BlankBetween(s, e, |s|)
    ensures e == 0 || !IsWhitespace(s[e - 1])
  {
    if |s| > 0 && IsWhitespace(s[|s| - 1]) then ContentEnd(s[..|s| - 1]) else |s|
  }

  /** String.prototype.trim: `s` is the trimmed text surrounded by whitespace
      only, and the trimmed text neither starts nor ends with whitespace. It
      is empty exactly when `s` is blank. */
  function Trim(s: string): (r: string)
    ensures exists lead :: 0 <= lead <= |s| - |r|
                           && r == s[lead..lead + |r|]
                           && BlankBetween(s, 0, lead) && BlankBetween(s, lead + |r|, |s|)
    ensures r == [] || (!IsWhitespace(r[0]) && !IsWhitespace(r[|r| - 1]))
    ensures r == [] <==> IsBlank(s)
  {
    var lead := LeadingBlanks(s);
    if lead == |s| then
      assert s[|s|..|s|] == [];
      []
    else
      var end := ContentEnd(s);
      assert lead < end;
      s[lead..end]
  }
}
