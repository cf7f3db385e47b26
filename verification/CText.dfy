/** Text as the C commands see it: a string is its characters up to the terminator. */
module CText {
  datatype Option<+T> = None | Some(value: T) {
    function GetOr(default: T): T {
      if Some? then value else default
    }
  }

  /** Reading the terminator gives NUL. */
  const NUL: char := '\0'

  /** ESC_CHAR, the backslash. */
  const ESC: char := '\\'

  /** The prefix of the variables that qsub builds itself (PBS_O_ENV). */
  const PBS_O_ENV := "PBS_O_"

  /** What *(s + i) reads. */
  function At(s: string, i: nat): char {
    if i < |s| then s[i] else NUL
  }

  /** A place where a token or an entry can end: the end of the text or a comma. */
  predicate AtEnd(t: string) {
    t == "" || t[0] == ','
  }

  /** isspace */
  predicate IsSpace(c: char) {
    c == ' ' || 9 <= c as int <= 13
  }

  function SkipSpace(s: string): (r: string)
    ensures |r| <= |s| && (r == "" || !IsSpace(r[0]))
    ensures s != "" && !IsSpace(s[0]) ==> r == s
  {
    if s != "" && IsSpace(s[0]) then SkipSpace(s[1..]) else s
  }

  predicate IsQuote(c: char) {
    c == '"' || c == '\''
  }

  /** strncmp(s, prefix, strlen(prefix)) == 0 */
  predicate StartsWith(s: string, prefix: string) {
    prefix <= s
  }

  /** Some a is directly followed by b. */
  predicate HasPair(s: string, a: char, b: char) {
    |s| >= 2 && ((s[0] == a && s[1] == b) || HasPair(s[1..], a, b))
  }

  /** Characters that comma_token and copy_env_value treat specially. */
  predicate Special(c: char) {
    c == ',' || IsQuote(c) || c == ESC
  }

  predicate Clean(s: string) {
    forall i :: 0 <= i < |s| ==> !Special(s[i])
  }

  /** Free of quotes and backslashes; commas are allowed. */
  predicate PlainValue(v: string) {
    forall i :: 0 <= i < |v| ==> !IsQuote(v[i]) && v[i] != ESC
  }

  /** The index of the first c in s, or |s|: strchr. */
  function IndexOf(s: string, c: char): (k: nat)
    ensures k <= |s|
    ensures c !in s[..k]
    ensures k < |s| ==> s[k] == c
  {
    if s == "" || s[0] == c then 0
    else
      assert forall k :: 0 <= k <= |s[1..]| ==> s[..k + 1] == [s[0]] + s[1..][..k];
      1 + IndexOf(s[1..], c)
  }

  lemma {:induction false} IndexOfFirst(x: string, c: char, y: string)
    requires c !in x
    ensures IndexOf(x + [c] + y, c) == |x|
  {
    if x != "" {
      assert (x + [c] + y)[1..] == x[1..] + [c] + y;
      IndexOfFirst(x[1..], c, y);
    }
  }

  lemma {:induction false} IndexOfAbsent(x: string, c: char)
    requires c !in x
    ensures IndexOf(x, c) == |x|
  {
  }

  /** One escape unit less: every backslash that escapes a character is dropped. */
  function Unescape(s: string): string {
    if s == "" then ""
    else if s[0] == ESC && |s| > 1 then [s[1]] + Unescape(s[2..])
    else [s[0]] + Unescape(s[1..])
  }
}
