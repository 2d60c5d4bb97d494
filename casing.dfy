/** Go's `strings.ToLower`, as far as deciding whether a string lower-cases
    to an ASCII word such as "update" or "login" needs it.

    Go lower-cases rune by rune with the simple Unicode case mapping. The only
    runes whose simple lower-case form is an ASCII letter are 'A'..'Z',
    U+0130 (LATIN CAPITAL LETTER I WITH DOT ABOVE, mapped to 'i') and U+212A
    (KELVIN SIGN, mapped to 'k'). Every other rune is kept as it is here; Go
    maps some of them to other non-ASCII runes, which never changes whether
    the result equals an ASCII word. */
module Casing {

  const DottedCapitalI: char := '\U{130}'
  const KelvinSign: char := '\U{212A}'

  predicate IsAsciiLower(c: char) { 'a' <= c <= 'z' }

  predicate IsAsciiUpper(c: char) { 'A' <= c <= 'Z' }

  /** `unicode.ToLower` on one rune, restricted as described above. */
  function LowerRune(c: char): (r: char)
    ensures IsAsciiUpper(c) ==> IsAsciiLower(r) && r as int == c as int + 32
    ensures c == DottedCapitalI ==> r == 'i'
    ensures c == KelvinSign ==> r == 'k'
    ensures !IsAsciiUpper(c) && c != DottedCapitalI && c != KelvinSign ==> r == c
  {
    if IsAsciiUpper(c) then (c as int + 32) as char
    else if c == DottedCapitalI then 'i'
    else if c == KelvinSign then 'k'
    else c
  }

  /** `strings.ToLower`: lower-cases every rune and keeps the length. */
  function ToLower(s: string): (r: string)
    ensures |r| == |s|
    ensures forall i :: 0 <= i < |s| ==> r[i] == LowerRune(s[i])
  {
    if s == [] then [] else [LowerRune(s[0])] + ToLower(s[1..])
  }

  /** A word made of lower-case ASCII letters only, like "update". */
  predicate IsLowerWord(word: string)
  {
    forall i :: 0 <= i < |word| ==> IsAsciiLower(word[i])
  }

  /** `c` is one way of writing the lower-case ASCII letter `l`: the letter
      itself, its capital, or the one non-ASCII capital that folds onto it. */
  predicate SpellsLetter(c: char, l: char)
  {
    c == l
    || c as int + 32 == l as int
    || (l == 'i' && c == DottedCapitalI)
    || (l == 'k' && c == KelvinSign)
  }

  /** `s` is `word` written in some mixture of upper and lower case. */
  predicate IsCasingOf(s: string, word: string)
  {
    |s| == |word| && forall i :: 0 <= i < |s| ==> SpellsLetter(s[i], word[i])
  }

  /** A string lower-cases to a lower-case ASCII word exactly when it is that
      word in some casing. */
  lemma ToLowerIsWordIff(s: string, word: string)
    requires IsLowerWord(word)
    ensures ToLower(s) == word <==> IsCasingOf(s, word)
  {
  }

  /** Lower-casing twice is lower-casing once. */
  lemma ToLowerIdempotent(s: string)
    ensures ToLower(ToLower(s)) == ToLower(s)
  {
  }
}
