/** Strings as C sees them. */
module CStrings {

  const NUL: char := '\0'

  predicate NulFree(s: string) {
    NUL !in s
  }

  /** snprintf into a buffer of cap bytes: the last one is for the terminator. */
  function Clip(s: string, cap: nat): string
    requires cap > 0
  {
    if |s| < cap then s else s[..cap - 1]
  }

  /** It keeps as much of the front as the buffer holds. */
  lemma ClipIsPrefix(s: string, cap: nat)
    requires cap > 0
    ensures Clip(s, cap) <= s && |Clip(s, cap)| == if |s| < cap then |s| else cap - 1
  {
  }
}
