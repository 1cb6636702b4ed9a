/**
 * The small part of java.lang and java.util.regex that the account code leans on:
 * null as Option, an SQLException as a Result, String.trim(), String.isBlank(),
 * and the character classes `\s`, `\d` and `.` of java.util.regex.Pattern in its
 * default mode. Each char of a string stands for one Java char; supplementary
 * characters (surrogate pairs) are outside the model.
 */
module JavaLang {

  /** A Java reference that may be null. */
  datatype Option<T> = None | Some(value: T)

  /** The outcome of a JDBC call: a value, or an SQLException raised by the database. */
  datatype Result<T> = Ok(value: T) | SqlError

  /** The text of a possibly-null String field, with null read as "" (the User model does this). */
  function OrEmpty(s: Option<string>): (r: string)
    ensures s.Some? ==> r == s.value
    ensures s.None? ==> r == ""
  {
    match s
    case None => ""
    case Some(v) => v
  }

  // ---------------------------------------------------------------------------
  // String.trim()
  // ---------------------------------------------------------------------------

  /** String.trim() removes every leading and trailing char whose code is at most U+0020. */
  predicate IsTrimmable(c: char) {
    c <= ' '
  }

  /**
   * The two halves of String.trim(). Their facts are lemmas rather than
   * postconditions, so that a proof pays for them only where it asks.
   */
  function TrimLeading(s: string): string {
    if s != [] && IsTrimmable(s[0]) then TrimLeading(s[1..]) else s
  }

  function TrimTrailing(s: string): string {
    if s != [] && IsTrimmable(s[|s| - 1]) then TrimTrailing(s[..|s| - 1]) else s
  }

  /** TrimLeading drops a run of trimmable chars from the front and stops at the first other one. */
  lemma {:induction false} TrimLeadingShape(s: string)
    ensures |TrimLeading(s)| <= |s| && TrimLeading(s) == s[|s| - |TrimLeading(s)|..]
    ensures TrimLeading(s) == [] || !IsTrimmable(TrimLeading(s)[0])
    ensures forall i :: 0 <= i < |s| - |TrimLeading(s)| ==> IsTrimmable(s[i])
  {
    if s != [] && IsTrimmable(s[0]) {
      TrimLeadingShape(s[1..]);
      forall i | 1 <= i < |s| - |TrimLeading(s)| ensures IsTrimmable(s[i]) {
        assert s[i] == s[1..][i - 1];
      }
    }
  }

  /** TrimTrailing drops a run of trimmable chars from the back and stops at the last other one. */
  lemma {:induction false} TrimTrailingShape(s: string)
    ensures |TrimTrailing(s)| <= |s| && TrimTrailing(s) == s[..|TrimTrailing(s)|]
    ensures TrimTrailing(s) == [] || !IsTrimmable(TrimTrailing(s)[|TrimTrailing(s)| - 1])
    ensures forall i :: |TrimTrailing(s)| <= i < |s| ==> IsTrimmable(s[i])
  {
    if s != [] && IsTrimmable(s[|s| - 1]) {
      var init := s[..|s| - 1];
      TrimTrailingShape(init);
      assert TrimTrailing(s) == init[..|TrimTrailing(s)|];
      forall i | |TrimTrailing(s)| <= i < |s| ensures IsTrimmable(s[i]) {
        if i < |s| - 1 {
          assert s[i] == init[i];
        }
      }
    }
  }

  /** java.lang.String.trim() */
  function Trim(s: string): string {
    TrimTrailing(TrimLeading(s))
  }

  /** A trimmed string starts and ends with a char above U+0020. */
  lemma TrimEnds(s: string)
    ensures Trim(s) == [] || (!IsTrimmable(Trim(s)[0]) && !IsTrimmable(Trim(s)[|Trim(s)| - 1]))
  {
    var l := TrimLeading(s);
    TrimLeadingShape(s);
    TrimTrailingShape(l);
  }

  /** `s.trim().isEmpty()` holds exactly when every char of s is at most U+0020. */
  lemma TrimEmptyIff(s: string)
    ensures Trim(s) == [] <==> forall i :: 0 <= i < |s| ==> IsTrimmable(s[i])
  {
    var l := TrimLeading(s);
    TrimLeadingShape(s);
    TrimTrailingShape(l);
    if l != [] {
      assert !IsTrimmable(s[|s| - |l|]);
    }
  }

  /** A string whose ends are not trimmable is its own trim. */
  lemma TrimOfTrimmed(s: string)
    requires s == [] || (!IsTrimmable(s[0]) && !IsTrimmable(s[|s| - 1]))
    ensures Trim(s) == s
  {
  }

  /** Trimming twice is trimming once. */
  lemma TrimIdempotent(s: string)
    ensures Trim(Trim(s)) == Trim(s)
  {
    TrimEnds(s);
    TrimOfTrimmed(Trim(s));
  }

  /** `s == null || s.trim().isEmpty()`: the controllers' test for a missing text field. */
  predicate IsMissing(s: Option<string>) {
    s.None? || Trim(s.value) == []
  }

  // ---------------------------------------------------------------------------
  // String.isBlank(), which uses Character.isWhitespace (not the trim rule)
  // ---------------------------------------------------------------------------

  /**
   * Character.isWhitespace: the Unicode space, line and paragraph separators other
   * than the non-breaking ones (U+00A0, U+2007, U+202F), and U+0009..U+000D, U+001C..U+001F.
   */
  predicate IsJavaWhitespace(c: char) {
    || ('\t' <= c <= '\r')
    || ('\U{1C}' <= c <= ' ')
    || c == '\U{1680}'
    || ('\U{2000}' <= c <= '\U{2006}')
    || ('\U{2008}' <= c <= '\U{200A}')
    || c == '\U{2028}' || c == '\U{2029}'
    || c == '\U{205F}' || c == '\U{3000}'
  }

  /** java.lang.String.isBlank() */
  predicate IsBlank(s: string) {
    forall i :: 0 <= i < |s| ==> IsJavaWhitespace(s[i])
  }

  // ---------------------------------------------------------------------------
  // java.util.regex character classes (default flags)
  // ---------------------------------------------------------------------------

  /** `\d` without UNICODE_CHARACTER_CLASS: [0-9]. */
  predicate IsRegexDigit(c: char) {
    '0' <= c <= '9'
  }

  /** `\s` without UNICODE_CHARACTER_CLASS: [ \t\n\x0B\f\r]. */
  predicate IsRegexSpace(c: char) {
    c == ' ' || ('\t' <= c <= '\r')
  }

  /** The line terminators that `.` refuses to match when DOTALL and UNIX_LINES are off. */
  predicate IsLineTerminator(c: char) {
    c == '\n' || c == '\r' || c == '\U{85}' || c == '\U{2028}' || c == '\U{2029}'
  }

  predicate HasNoLineTerminator(s: string) {
    forall i :: 0 <= i < |s| ==> !IsLineTerminator(s[i])
  }
}
