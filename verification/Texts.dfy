/** JavaScript's own text operations that the adapters use. */
module Texts {

  /** What `\s` matches and `trim` removes: the white space and line terminators of ECMA-262. */
  const SPACES: set<char> := {
    '\t', '\n', '\r', ' ', '\U{0B}', '\U{0C}', '\U{A0}', '\U{1680}', '\U{2000}', '\U{2001}', '\U{2002}', '\U{2003}', '\U{2004}', '\U{2005}',
    '\U{2006}', '\U{2007}', '\U{2008}', '\U{2009}', '\U{200A}', '\U{2028}', '\U{2029}', '\U{202F}', '\U{205F}', '\U{3000}', '\U{FEFF}'
  }

  predicate IsLetter(c: char) {
    'a' <= c <= 'z' || 'A' <= c <= 'Z'
  }

  /** What `\w` matches. */
  predicate IsWord(c: char) {
    IsLetter(c) || '0' <= c <= '9' || c == '_'
  }

  /** `s.replaceAll(what, with)`, for a text to find that is not empty. */
  function ReplaceAll(s: string, what: string, with: string): string
    requires what != ""
    decreases |s|
  {
    if s == "" then ""
    else if |s| >= |what| && s[..|what|] == what then with + ReplaceAll(s[|what|..], what, with)
    else [s[0]] + ReplaceAll(s[1..], what, with)
  }

  function TrimLeft(s: string): (t: string)
    ensures |t| <= |s| && s[|s| - |t|..] == t && (t != "" ==> t[0] !in SPACES)
    ensures forall k :: 0 <= k < |s| - |t| ==> s[k] in SPACES
  {
    if s != "" && s[0] in SPACES then TrimLeft(s[1..]) else s
  }

  function TrimRight(s: string): (t: string)
    ensures t <= s && (t != "" ==> t[|t| - 1] !in SPACES)
    ensures forall k :: |t| <= k < |s| ==> s[k] in SPACES
  {
    if s != "" && s[|s| - 1] in SPACES then TrimRight(s[..|s| - 1]) else s
  }

  function Trim(s: string): string {
    TrimRight(TrimLeft(s))
  }
}
