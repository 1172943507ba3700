/** The whitespace test that guards MainWindowViewModel.AddOrUpdateEmployee. */
module Text {

  /** .NET's char.IsWhiteSpace: the Unicode space, line and paragraph separators
      (categories Zs, Zl, Zp) and the control characters U+0009..U+000D and U+0085. */
  predicate IsWhiteSpace(c: char) {
    || ('\U{0009}' <= c <= '\U{000D}')
    || c == ' '
    || c == '\U{0085}'
    || c == '\U{00A0}'
    || c == '\U{1680}'
    || ('\U{2000}' <= c <= '\U{200A}')
    || c == '\U{2028}'
    || c == '\U{2029}'
    || c == '\U{202F}'
    || c == '\U{205F}'
    || c == '\U{3000}'
  }

  /** The whitespace characters of Latin-1, the range .NET looks up in a table. */
  const Latin1WhiteSpace: seq<char> :=
    ['\U{0009}', '\U{000A}', '\U{000B}', '\U{000C}', '\U{000D}', ' ', '\U{0085}', '\U{00A0}']

  /** Below U+0100, a character is whitespace exactly when it is in that table. */
  lemma Latin1WhiteSpaceTable()
    ensures forall c: char :: c <= '\U{00FF}' ==> (IsWhiteSpace(c) <==> c in Latin1WhiteSpace)
  {
  }

  /** string.IsNullOrWhiteSpace for a non-null string: scans left to right for a
      character that is not whitespace. True exactly when there is none, so the
      empty string is blank. */
  function IsNullOrWhiteSpace(s: string): (blank: bool)
    ensures blank <==> forall i :: 0 <= i < |s| ==> IsWhiteSpace(s[i])
  {
    |s| == 0 || (IsWhiteSpace(s[0]) && IsNullOrWhiteSpace(s[1..]))
  }
}
