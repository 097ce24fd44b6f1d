/** The parts of Go's `strings` package the models use. A string is the
    sequence of its runes. */
module Text {

  /** unicode.IsSpace. */
  predicate IsSpace(c: char) {
    || '\U{0009}' <= c <= '\U{000D}' || c == ' ' || c == '\U{0085}' || c == '\U{00A0}' || c == '\U{1680}'
    || '\U{2000}' <= c <= '\U{200A}' || c == '\U{2028}' || c == '\U{2029}' || c == '\U{202F}'
    || c == '\U{205F}' || c == '\U{3000}'
  }

  /** The first position of c in s, or |s| when it is absent. */
  function IndexOf(s: string, c: char): (i: nat)
    ensures i <= |s|
    ensures forall j | 0 <= j < i :: s[j] != c
    ensures i < |s| ==> s[i] == c
  {
    if s == "" || s[0] == c then 0 else 1 + IndexOf(s[1..], c)
  }

  /** The last position of c in s, or -1. */
  function LastIndexOf(s: string, c: char): (i: int)
    ensures -1 <= i < |s|
    ensures forall j | i < j < |s| :: s[j] != c
    ensures i >= 0 ==> s[i] == c
  {
    if s == "" then -1
    else if s[|s| - 1] == c then |s| - 1
    else LastIndexOf(s[..|s| - 1], c)
  }

  /** How many runes s has before its first space. */
  function WordLength(s: string): (n: nat)
    ensures n <= |s|
    ensures forall j | 0 <= j < n :: !IsSpace(s[j])
    ensures n < |s| ==> IsSpace(s[n])
  {
    if s == "" || IsSpace(s[0]) then 0 else 1 + WordLength(s[1..])
  }

  /** strings.Fields. */
  function Fields(s: string): seq<string>
    decreases |s|
  {
    if s == "" then []
    else if IsSpace(s[0]) then Fields(s[1..])
    else [s[..WordLength(s)]] + Fields(s[WordLength(s)..])
  }

  predicate Spaceless(s: string) {
    forall i | 0 <= i < |s| :: !IsSpace(s[i])
  }

  /** A word at the front of a line is its first field. */
  lemma FieldsFirst(word: string, rest: string)
    requires word != "" && Spaceless(word)
    requires rest == "" || IsSpace(rest[0])
    ensures Fields(word + rest) == [word] + Fields(rest)
  {
    var s := word + rest;
    assert s[|word|..] == rest && s[..|word|] == word;
    assert forall i | 0 <= i < |word| :: s[i] == word[i];
    assert |word| < |s| ==> s[|word|] == rest[0];
    assert WordLength(s) == |word|;
    assert !IsSpace(s[0]) by { assert s[0] == word[0]; }
  }

  lemma Associate(a: string, b: string, c: string)
    ensures (a + b) + c == a + (b + c)
  {
  }
}
