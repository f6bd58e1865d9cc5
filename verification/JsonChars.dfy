// Byte classes and result codes shared by the JSON parser, generator and tree
// (src/json/js.c, src/json/jsgen.c).  A `char` stands for one byte of JSON text.
module JsonChars {

  /** JSON text: its size is a C int, so it is below 2^31. */
  type Text = s: string | |s| < 0x8000_0000

  const ERROR: nat := 0xFFFF_FFFF
  const EOVERFLOW: nat := 0xFFFF_FFFD
  const ENOMORE: nat := 0xFFFF_FFFC

  const NUL: char := 0 as char
  const BACKSPACE: char := 8 as char
  const FORMFEED: char := 12 as char

  predicate IsDigit(c: char) { '0' <= c <= '9' }
  predicate IsAlpha(c: char) { 'a' <= c <= 'z' || 'A' <= c <= 'Z' }
  predicate IsSpace(c: char) { c == ' ' || c == '\t' || c == '\r' || c == '\n' }
  predicate IsTagBegin(c: char) { IsAlpha(c) || c == '_' }
  predicate IsNumStart(c: char) { IsDigit(c) || c == '-' }
  predicate IsNumChar(c: char) { IsNumStart(c) || c == '.' || c == 'e' || c == 'E' }
  predicate IsWordBegin(c: char) { IsNumChar(c) || IsTagBegin(c) }
  predicate IsWordNonBegin(c: char) { IsNumChar(c) || IsTagBegin(c) || IsDigit(c) }

  predicate IsOpener(c: char) { c == '{' || c == '[' }
  predicate IsCloser(c: char) { c == '}' || c == ']' }
  predicate IsPunct(c: char) { IsOpener(c) || IsCloser(c) || c == ':' || c == ',' }

  /** `t` stands in `s` at offset `i`. */
  ghost predicate At(s: string, i: nat, t: string)
  {
    i + |t| <= |s| && forall k {:trigger t[k]} :: 0 <= k < |t| ==> s[i + k] == t[k]
  }

  /** Offset `i` of `s` is the end of the text or holds a byte that neither
      continues a word nor is a space, so no token reaches past it. */
  predicate Ends(s: string, i: nat)
  {
    i >= |s| || (!IsWordNonBegin(s[i]) && !IsSpace(s[i]))
  }

  /** Splitting an occurrence of a concatenation. */
  lemma AtConcat(s: string, i: nat, a: string, b: string)
    ensures At(s, i, a + b) <==> At(s, i, a) && At(s, i + |a|, b)
  {
    var ab := a + b;
    if At(s, i, ab) {
      forall k | 0 <= k < |a| ensures s[i + k] == a[k] { assert ab[k] == a[k]; }
      forall k | 0 <= k < |b| ensures s[i + |a| + k] == b[k] { assert ab[|a| + k] == b[k]; }
    }
    if At(s, i, a) && At(s, i + |a|, b) {
      forall k | 0 <= k < |ab| ensures s[i + k] == ab[k] {
        if k < |a| { assert ab[k] == a[k]; } else { assert ab[k] == b[k - |a|]; }
      }
    }
  }
}
