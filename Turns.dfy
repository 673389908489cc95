/** Conversation turns and the "newest n" slice that both the history bound
    (`history[-20:]`) and the request window (`history[-10:]`) are built on. */
module Turns {

  /** One `{"role": ..., "content": ...}` entry of a conversation. The source
      keeps roles as plain strings, and so does the model. */
  datatype Turn = Turn(role: string, content: string)

  const ROLE_SYSTEM: string := "system"
  const ROLE_USER: string := "user"
  const ROLE_ASSISTANT: string := "assistant"

  function Min(a: int, b: int): int { if a <= b then a else b }

  /** Python's `s[-n:]` for n > 0: the whole of `s` when it is short enough,
      otherwise its last `n` elements. */
  function Newest<T>(s: seq<T>, n: nat): (r: seq<T>)
    requires n > 0
    ensures |r| == Min(n, |s|)
  {
    if |s| <= n then s else s[|s| - n..]
  }

  /** What `Newest` keeps: the last `|Newest(s, n)|` elements of `s`, in order. */
  lemma NewestIsSuffix<T>(s: seq<T>, n: nat)
    requires n > 0
    ensures Newest(s, n) == s[|s| - |Newest(s, n)|..]
  {
  }

  /** Truncating and then appending, and truncating again, is the same as
      appending to the untruncated sequence and truncating once: eviction of
      the oldest entries can be postponed. */
  lemma NewestAppend<T>(s: seq<T>, x: T, n: nat)
    requires n > 0
    ensures Newest(Newest(s, n) + [x], n) == Newest(s + [x], n)
  {
    var a := Newest(Newest(s, n) + [x], n);
    var b := Newest(s + [x], n);
    assert |a| == |b|;
    forall i | 0 <= i < |a| ensures a[i] == b[i] {
      if i == |a| - 1 {
      } else {
        assert (Newest(s, n) + [x])[|Newest(s, n) + [x]| - |a| + i] == Newest(s, n)[|Newest(s, n)| + 1 - |a| + i];
      }
    }
  }
}
