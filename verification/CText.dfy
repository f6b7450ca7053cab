/** Text as the shell sees it: strings without NUL, and the searches it makes in them. */
module CText {

  datatype Option<+T> = None | Some(value: T)

  predicate NulFree(s: string) {
    forall i :: 0 <= i < |s| ==> s[i] != '\0'
  }

  /** The first position from `i` on that holds one of `set`, or the end: strcspn. */
  function SkipTo(s: string, i: nat, stops: string): (k: nat)
    requires i <= |s|
    ensures i <= k <= |s|
    ensures forall j :: i <= j < k ==> s[j] !in stops
    ensures k < |s| ==> s[k] in stops
    decreases |s| - i
  {
    if i == |s| || s[i] in stops then i else SkipTo(s, i + 1, stops)
  }

  // nsh_strchr: the first `ch` from `i` on that is not escaped by a backslash. `quoted`
  // says that the character at `i` is escaped.
  function FindUnescaped(s: string, i: nat, ch: char, quoted: bool): (k: Option<nat>)
    requires i <= |s|
    ensures k.Some? ==> i <= k.value < |s| && s[k.value] == ch
    decreases |s| - i
  {
    if i == |s| then None
    else if s[i] == '\\' && !quoted then FindUnescaped(s, i + 1, ch, true)
    else if s[i] == ch && !quoted then Some(i)
    else FindUnescaped(s, i + 1, ch, false)
  }
}
