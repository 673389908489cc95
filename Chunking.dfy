/** Splitting a long reply into chat messages (bot.py:257-262): a reply
    longer than 4000 characters goes out as its consecutive 4000-character
    slices, a shorter one as a single message. */
module Chunking {

  /** The longest reply sent as one message, and the slice length. */
  const MAX_MESSAGE_LENGTH: nat := 4000

  /** Where the slice starting at `start` ends: Python's `s[start:start+4000]`
      stops at the end of the text. */
  function SliceEnd(start: nat, length: nat): (e: nat)
    requires start <= length
    ensures start <= e <= length && e - start <= MAX_MESSAGE_LENGTH
    ensures e < length ==> e == start + MAX_MESSAGE_LENGTH
  {
    if start + MAX_MESSAGE_LENGTH <= length then start + MAX_MESSAGE_LENGTH else length
  }

  /** The list comprehension `[s[i:i+4000] for i in range(start, len(s), 4000)]`,
      one slice per step of the range. */
  function SlicesFrom(s: string, start: nat): seq<string>
    decreases |s| - start
  {
    if start >= |s| then []
    else [s[start..SliceEnd(start, |s|)]] + SlicesFrom(s, start + MAX_MESSAGE_LENGTH)
  }

  /** The messages a reply is sent as. */
  function ReplyParts(reply: string): seq<string>
  {
    if |reply| > MAX_MESSAGE_LENGTH then SlicesFrom(reply, 0) else [reply]
  }

  /** The messages read one after the other. */
  function Concat(parts: seq<string>): string
  {
    if parts == [] then [] else parts[0] + Concat(parts[1..])
  }

  /** Reading the slices in order gives back the text they were cut from. */
  lemma {:induction false} SlicesFromConcat(s: string, start: nat)
    requires start <= |s|
    ensures Concat(SlicesFrom(s, start)) == s[start..]
    decreases |s| - start
  {
    if start < |s| {
      var end := SliceEnd(start, |s|);
      if end < |s| {
        SlicesFromConcat(s, end);
      }
      assert s[start..] == s[start..end] + s[end..];
    }
  }

  /** The shape of the slices: there are as many as the range has steps, none
      is empty or longer than the limit, and all but the last are exactly as
      long as the limit. */
  lemma {:induction false} SlicesFromShape(s: string, start: nat)
    requires start <= |s|
    ensures var r := SlicesFrom(s, start);
      |r| == (|s| - start + MAX_MESSAGE_LENGTH - 1) / MAX_MESSAGE_LENGTH &&
      (forall k :: 0 <= k < |r| ==> 0 < |r[k]| <= MAX_MESSAGE_LENGTH) &&
      (forall k :: 0 <= k < |r| - 1 ==> |r[k]| == MAX_MESSAGE_LENGTH)
    decreases |s| - start
  {
    if start < |s| {
      var end := SliceEnd(start, |s|);
      var r := SlicesFrom(s, start);
      if end < |s| {
        SlicesFromShape(s, end);
        var rest := SlicesFrom(s, end);
        assert r == [s[start..end]] + rest;
        forall k | 0 <= k < |r| ensures 0 < |r[k]| <= MAX_MESSAGE_LENGTH {
          if k > 0 { assert r[k] == rest[k - 1]; }
        }
        forall k | 0 <= k < |r| - 1 ensures |r[k]| == MAX_MESSAGE_LENGTH {
          if k > 0 { assert r[k] == rest[k - 1]; }
        }
      } else {
        assert SlicesFrom(s, start + MAX_MESSAGE_LENGTH) == [];
      }
    }
  }

  /** Slice `k` is the text from `start + 4000 * k` up to 4000 characters
      further, cut short at the end of the text: the comprehension read
      element by element. */
  lemma {:induction false} SlicesFromAt(s: string, start: nat, k: nat)
    requires k < |SlicesFrom(s, start)|
    ensures start + MAX_MESSAGE_LENGTH * k < |s|
    ensures SlicesFrom(s, start)[k] == s[start + MAX_MESSAGE_LENGTH * k..SliceEnd(start + MAX_MESSAGE_LENGTH * k, |s|)]
    decreases k
  {
    if k > 0 {
      SlicesFromAt(s, start + MAX_MESSAGE_LENGTH, k - 1);
      assert MAX_MESSAGE_LENGTH * k == MAX_MESSAGE_LENGTH + MAX_MESSAGE_LENGTH * (k - 1);
    }
  }

  /** What the user receives for a reply: the parts read in order give back
      the reply; no part exceeds the limit; a reply within the limit is one
      part; a longer one is cut into ⌈length / 4000⌉ parts of which all but
      the last are exactly 4000 characters long. */
  lemma ReplyPartsSpec(reply: string)
    ensures var parts := ReplyParts(reply);
      Concat(parts) == reply &&
      (forall k :: 0 <= k < |parts| ==> |parts[k]| <= MAX_MESSAGE_LENGTH) &&
      (|reply| <= MAX_MESSAGE_LENGTH ==> parts == [reply]) &&
      (|reply| > MAX_MESSAGE_LENGTH ==>
         |parts| == (|reply| + MAX_MESSAGE_LENGTH - 1) / MAX_MESSAGE_LENGTH &&
         forall k :: 0 <= k < |parts| - 1 ==> |parts[k]| == MAX_MESSAGE_LENGTH)
  {
    if |reply| > MAX_MESSAGE_LENGTH {
      SlicesFromConcat(reply, 0);
      SlicesFromShape(reply, 0);
    } else {
      assert Concat([reply]) == reply + Concat([]);
    }
  }

  /** A reply of 9500 characters goes out as three messages of 4000, 4000
      and 1500 characters, in that order. */
  lemma ReplyOf9500(reply: string)
    requires |reply| == 9500
    ensures var parts := ReplyParts(reply);
      |parts| == 3 && parts[0] == reply[..4000] && parts[1] == reply[4000..8000] &&
      parts[2] == reply[8000..] && |parts[2]| == 1500
  {
    SlicesFromShape(reply, 0);
    SlicesFromAt(reply, 0, 0);
    SlicesFromAt(reply, 0, 1);
    SlicesFromAt(reply, 0, 2);
  }
}
