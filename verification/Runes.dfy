/** Character classes the lexer and the header scan rely on. A rune is a Dafny `char`
    (a Unicode scalar value), so a `string` is an already decoded rune slice. */
module Runes {

  /** The letters outside ASCII, left unspecified: every result holds whichever they are. */
  const OTHER_LETTERS: set<char>

  predicate IsLetter(r: char) {
    'a' <= r <= 'z' || 'A' <= r <= 'Z' || r in OTHER_LETTERS
  }

  /** unicode.IsSpace: the White_Space characters. */
  predicate IsSpace(r: char) {
    || '\t' <= r <= '\r'
    || r == ' '
    || r == '\U{0085}'
    || r == '\U{00A0}'
    || r == '\U{1680}'
    || '\U{2000}' <= r <= '\U{200A}'
    || r == '\U{2028}'
    || r == '\U{2029}'
    || r == '\U{202F}'
    || r == '\U{205F}'
    || r == '\U{3000}'
  }

  /** The characters a bare value or selector cannot contain unescaped. */
  predicate IsReserved(r: char) {
    || r == '"' || r == '\'' || r == '(' || r == ')' || r == ';' || r == ','
    || r == '=' || r == '!' || r == '~' || r == '<' || r == '>'
  }

  predicate IsSpaces(s: string) {
    forall i | 0 <= i < |s| :: IsSpace(s[i])
  }

  predicate HasReserved(s: string) {
    exists i | 0 <= i < |s| :: IsReserved(s[i])
  }

  /** A text the lexer reads back unchanged when it is written bare. */
  predicate IsBare(s: string) {
    s != "" && forall i | 0 <= i < |s| :: !IsReserved(s[i]) && !IsSpace(s[i]) && s[i] != '\\'
  }
}
