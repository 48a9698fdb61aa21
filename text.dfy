/**
  * The text buffer of the text tool and the brush-size keys: Python's
  * `str.strip`, `str.isprintable`, `s[:-1]`, and the clamped `+`/`-`
  * adjustments, as pure functions with the facts the controller relies on.
  */
module TextInput {

  /** `str.isspace` for one character: the characters Python strips by default. */
  predicate IsSpace(c: char)
    ensures IsSpace(c) ==> !('!' <= c <= '~')
  {
    || c == ' ' || c == '\t' || c == '\n' || c == '\r'
    || c == '\U{000B}' || c == '\U{000C}'
    || ('\U{001C}' <= c <= '\U{001F}')
    || c == '\U{0085}' || c == '\U{00A0}' || c == '\U{1680}'
    || ('\U{2000}' <= c <= '\U{200A}')
    || c == '\U{2028}' || c == '\U{2029}' || c == '\U{202F}' || c == '\U{205F}' || c == '\U{3000}'
  }

  /** Nothing but whitespace (the empty text included). */
  predicate Blank(s: string)
  {
    forall i :: 0 <= i < |s| ==> IsSpace(s[i])
  }

  /** `s.lstrip()`: `s` without its leading whitespace. */
  function TrimStart(s: string): (r: string)
    ensures |r| <= |s| && r == s[|s| - |r|..]
    ensures Blank(s[..|s| - |r|])
    ensures r == [] || !IsSpace(r[0])
    decreases |s|
  {
    if s != [] && IsSpace(s[0]) then
      var r := TrimStart(s[1..]);
      assert s[1..][..|s| - 1 - |r|] == s[1..|s| - |r|];
      assert s[..|s| - |r|] == [s[0]] + s[1..|s| - |r|];
      r
    else s
  }

  /** `s.rstrip()`: `s` without its trailing whitespace. */
  function TrimEnd(s: string): (r: string)
    ensures |r| <= |s| && r == s[..|r|]
    ensures Blank(s[|r|..])
    ensures r == [] || !IsSpace(r[|r| - 1])
    decreases |s|
  {
    if s != [] && IsSpace(s[|s| - 1]) then
      var r := TrimEnd(s[..|s| - 1]);
      assert s[..|s| - 1][..|r|] == s[..|r|];
      assert s[|r|..] == s[..|s| - 1][|r|..] + [s[|s| - 1]];
      r
    else s
  }

  /** `s.strip()`. */
  function Strip(s: string): (r: string)
    ensures |r| <= |s|
    ensures r != [] ==> !IsSpace(r[0]) && !IsSpace(r[|r| - 1])
  {
    TrimEnd(TrimStart(s))
  }

  /** The stripped text is empty exactly when the text is blank, and otherwise
      it is a slice of the text that starts and ends with a non-space. */
  lemma StripEmptyIffBlank(s: string)
    ensures Strip(s) == "" <==> Blank(s)
  {
    var t := TrimStart(s);
    var k := |s| - |t|;
    if Strip(s) == "" {
      // a non-empty `t` starts with a non-space, which `rstrip` would keep
      assert Blank(t[0..]);
      assert t == [];
      assert s[..k] == s;
    }
  }

  /** `str.isprintable` for one character. Exact on Latin-1 (printable ASCII
      and U+00A1..U+00FF except the soft hyphen); above it, the separators,
      the format characters in common use and the private-use area are
      excluded and everything else counts as printable. */
  predicate IsPrintableChar(c: char)
    ensures ' ' <= c <= '~' ==> IsPrintableChar(c)
    ensures c < ' ' ==> !IsPrintableChar(c)
  {
    if c < '\U{0100}' then
      (' ' <= c <= '~') || ('\U{00A1}' <= c && c != '\U{00AD}')
    else
      && !IsSpace(c)
      && !('\U{200B}' <= c <= '\U{200F}')
      && !('\U{202A}' <= c <= '\U{202E}')
      && !('\U{2060}' <= c <= '\U{2064}')
      && c != '\U{FEFF}'
      && !('\U{E000}' <= c <= '\U{F8FF}')
  }

  /** `s.isprintable()`; true of the empty text. */
  predicate AllPrintable(s: string)
  {
    forall i :: 0 <= i < |s| ==> IsPrintableChar(s[i])
  }

  /** The only whitespace character that is printable is the space. */
  lemma PrintableSpaceIsBlank(c: char)
    requires IsPrintableChar(c) && IsSpace(c)
    ensures c == ' '
  {
  }

  /** For a buffer of printable characters, `strip()` is empty exactly when
      every character is a plain space. */
  lemma PrintableBlankIsSpaces(s: string)
    requires AllPrintable(s)
    ensures Strip(s) == "" <==> forall i :: 0 <= i < |s| ==> s[i] == ' '
  {
    StripEmptyIffBlank(s);
    if Strip(s) == "" {
      forall i | 0 <= i < |s|
        ensures s[i] == ' '
      {
        PrintableSpaceIsBlank(s[i]);
      }
    }
  }

  /** `s[:-1]`: drop the last character, if any. */
  function Backspace(s: string): (r: string)
    ensures s == [] ==> r == []
    ensures s != [] ==> r + [s[|s| - 1]] == s
  {
    if s == [] then s else s[..|s| - 1]
  }

  /** The text after a key whose character is `u`: appended when printable. */
  function TypeKey(s: string, u: string): (r: string)
    ensures AllPrintable(u) ==> r == s + u
    ensures !AllPrintable(u) ==> r == s
  {
    if AllPrintable(u) then s + u else s
  }

  /** Backspace removes exactly the character typed last. */
  lemma BackspaceUndoesTyping(s: string, c: char)
    requires IsPrintableChar(c)
    ensures Backspace(TypeKey(s, [c])) == s
  {
    assert TypeKey(s, [c]) == s + [c];
  }

  /** Editing keeps the buffer printable. */
  lemma EditingKeepsPrintable(s: string, u: string)
    requires AllPrintable(s)
    ensures AllPrintable(TypeKey(s, u)) && AllPrintable(Backspace(s))
  {
    if AllPrintable(u) {
      var t := s + u;
      assert forall i :: |s| <= i < |t| ==> t[i] == u[i - |s|];
    }
  }

  /** Brush sizes the keys can reach. */
  const MIN_BRUSH: int := 1
  const MAX_BRUSH: int := 50

  /** `min(50, size + 1)`. */
  function Enlarge(size: int): (r: int)
    ensures r <= MAX_BRUSH && (r == size + 1 || r == MAX_BRUSH)
    ensures size < MAX_BRUSH ==> r == size + 1
  {
    if size + 1 <= MAX_BRUSH then size + 1 else MAX_BRUSH
  }

  /** `max(1, size - 1)`. */
  function Shrink(size: int): (r: int)
    ensures r >= MIN_BRUSH && (r == size - 1 || r == MIN_BRUSH)
    ensures size > MIN_BRUSH ==> r == size - 1
  {
    if MIN_BRUSH <= size - 1 then size - 1 else MIN_BRUSH
  }

  /** The size keys never leave the range [1, 50], stop at its ends, and undo
      each other away from the ends. */
  lemma BrushSizeStaysInRange(size: int)
    requires MIN_BRUSH <= size <= MAX_BRUSH
    ensures MIN_BRUSH <= Enlarge(size) <= MAX_BRUSH && MIN_BRUSH <= Shrink(size) <= MAX_BRUSH
    ensures Enlarge(MAX_BRUSH) == MAX_BRUSH && Shrink(MIN_BRUSH) == MIN_BRUSH
    ensures size < MAX_BRUSH ==> Shrink(Enlarge(size)) == size
    ensures size > MIN_BRUSH ==> Enlarge(Shrink(size)) == size
  {
  }
}
