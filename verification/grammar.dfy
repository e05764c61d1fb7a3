/** The character classes and tokens of the Paradox Script grammar
    (ParadoxNodeParser.cpp, rules `WhitespaceCharacter` to `Key`), and the
    trailing-whitespace trim the `TextValue` action applies. */
module Grammar {
  import opened Wrappers

  /** `WhitespaceCharacter`: space, tab or newline, and nothing else. */
  predicate IsWhitespaceChar(c: char) {
    c == ' ' || c == '\t' || c == '\n'
  }

  /** A character `Text` accepts: anything but a closing brace or a newline. */
  predicate IsTextChar(c: char) {
    c != '}' && c != '\n'
  }

  /** A character `Integer` accepts: an ASCII digit (so no sign). */
  predicate IsDigit(c: char) {
    '0' <= c <= '9'
  }

  /** First character of an ASCII identifier: a letter or an underscore. */
  predicate IsIdentifierFirst(c: char) {
    ('a' <= c <= 'z') || ('A' <= c <= 'Z') || c == '_'
  }

  /** Later characters of an ASCII identifier: a letter, a digit or an underscore. */
  predicate IsIdentifierOther(c: char) {
    IsIdentifierFirst(c) || IsDigit(c)
  }

  /** How the classes separate the tokens of a line: whitespace, digits,
      identifier characters, `=`, `{` and `}` are told apart, a digit cannot
      start a key, and `Text` runs over identifier characters, whitespace
      and `{` but stops at `}` and at the end of the line. */
  lemma CharacterClasses(c: char)
    ensures IsDigit(c) ==> IsIdentifierOther(c) && !IsIdentifierFirst(c) && !IsWhitespaceChar(c)
    ensures IsWhitespaceChar(c) ==> !IsIdentifierOther(c) && IsTextChar(c) == (c != '\n')
    ensures c == '=' || c == '{' || c == '}' || c == '-' || c == '#' ==>
              !IsIdentifierOther(c) && !IsWhitespaceChar(c)
    ensures IsIdentifierOther(c) ==> IsTextChar(c)
    ensures !IsTextChar('}') && !IsTextChar('\n')
    ensures IsTextChar('{') && IsTextChar('=') && IsTextChar('#')
  {
  }

  /** A string the `Key` rule matches in full. */
  predicate IsIdentifier(s: string) {
    |s| > 0 && IsIdentifierFirst(s[0]) && forall i :: 1 <= i < |s| ==> IsIdentifierOther(s[i])
  }

  /** A string the `Integer` rule matches in full: one or more digits. */
  predicate IsIntegerToken(s: string) {
    |s| > 0 && forall i :: 0 <= i < |s| ==> IsDigit(s[i])
  }

  /** A string the `Text` rule matches in full, as it arrives at the
      `TextValue` action of a cleanly read value: the padding before a value
      has already eaten leading whitespace, so the first character is not
      whitespace; and since `Value` tries `Composite` first, whose `{`
      action would already have fired, it does not start with `{`. */
  predicate IsTextToken(s: string) {
    && |s| > 0 && !IsWhitespaceChar(s[0]) && s[0] != '{'
    && forall i :: 0 <= i < |s| ==> IsTextChar(s[i])
  }

  predicate AllWhitespace(s: string) {
    forall i :: 0 <= i < |s| ==> IsWhitespaceChar(s[i])
  }

  /** `find_last_not_of(" \t\n")`: the position of the last character that
      is not whitespace, or `None` (the source's `npos`) when there is none. */
  function LastNotWhitespace(s: string): (r: Option<nat>)
    ensures r.None? <==> AllWhitespace(s)
    ensures r.Some? ==> r.value < |s| && !IsWhitespaceChar(s[r.value])
                        && AllWhitespace(s[r.value + 1..])
  {
    if |s| == 0 then None
    else if !IsWhitespaceChar(s[|s| - 1]) then Some(|s| - 1)
    else LastNotWhitespace(s[..|s| - 1])
  }

  /** The text a `TextValue` action keeps: the input with its trailing
      spaces, tabs and newlines removed. */
  function TrimTrailing(s: string): (r: string)
    ensures r <= s
    ensures r == [] || !IsWhitespaceChar(r[|r| - 1])
    ensures AllWhitespace(s[|r|..])
  {
    match LastNotWhitespace(s)
    case None => []
    case Some(p) => s[..p + 1]
  }

  /** Trimming removes exactly the whitespace tail: it keeps a string that
      does not end in whitespace, and trimming twice is trimming once. */
  lemma TrimTrailingKeepsTrimmed(s: string)
    requires s == [] || !IsWhitespaceChar(s[|s| - 1])
    ensures TrimTrailing(s) == s
  {
  }

  lemma TrimTrailingIdempotent(s: string)
    ensures TrimTrailing(TrimTrailing(s)) == TrimTrailing(s)
  {
    TrimTrailingKeepsTrimmed(TrimTrailing(s));
  }

  /** A text token never trims to nothing: its first character survives. */
  lemma TextTokenTrimsToNonEmpty(s: string)
    requires IsTextToken(s)
    ensures |TrimTrailing(s)| > 0 && TrimTrailing(s)[0] == s[0]
  {
    assert !AllWhitespace(s);
  }
}
