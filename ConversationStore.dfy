/** The process-wide conversation table `user_conversations` (bot.py:41-59):
    user id to an ordered list of turns, created lazily, bounded to the
    newest 20 turns, cleared on request.

    The pure functions over `Conversations` say what each operation does to
    the table; the class `Store` holds the table as a mutable field and its
    methods are proved to act exactly as those functions say. */
module ConversationStore {
  import opened Turns

  /** The code keeps the newest 20 turns per user (bot.py:54-55). */
  const MAX_HISTORY: nat := 20

  type Conversations = map<int, seq<Turn>>

  /** The history of `u`, an absent entry reading as the empty list. */
  function Lookup(m: Conversations, u: int): seq<Turn>
  {
    if u in m then m[u] else []
  }

  /** Every stored history respects the bound. */
  predicate AllBounded(m: Conversations)
  {
    forall u :: u in m ==> |m[u]| <= MAX_HISTORY
  }

  /** The history `add_to_history` leaves behind: the old history with `t`
      appended, cut back to its newest `MAX_HISTORY` turns. The new turn is
      last. */
  function Appended(h: seq<Turn>, t: Turn): (r: seq<Turn>)
    ensures |r| == Min(MAX_HISTORY, |h| + 1)
    ensures r[|r| - 1] == t
  {
    Newest(h + [t], MAX_HISTORY)
  }

  /** The turns an append keeps from the old history are its newest ones,
      in their original order, and the new turn comes after them. */
  lemma AppendedKeepsOrder(h: seq<Turn>, t: Turn)
    ensures var r := Appended(h, t); r == h[|h| - (|r| - 1)..] + [t]
  {
    var r := Appended(h, t);
    NewestIsSuffix(h + [t], MAX_HISTORY);
    assert (h + [t])[|h + [t]| - |r|..] == h[|h| - (|r| - 1)..] + [t];
  }

  /** Two appends in a row: the history gains both turns, in call order,
      and keeps the newest of its earlier turns, in order. */
  lemma AppendedTwice(h: seq<Turn>, a: Turn, b: Turn)
    ensures var r := Appended(Appended(h, a), b);
      |r| == Min(MAX_HISTORY, |h| + 2) && r == h[|h| - (|r| - 2)..] + [a, b]
  {
    NewestAppend(h, a, MAX_HISTORY);
    assert h + [a] + [b] == h + [a, b];
    var r := Appended(Appended(h, a), b);
    assert r == Newest(h + [a, b], MAX_HISTORY);
    NewestIsSuffix(h + [a, b], MAX_HISTORY);
    assert (h + [a, b])[|h| + 2 - |r|..] == h[|h| - (|r| - 2)..] + [a, b];
  }

  /** The history after one append for each of `ts`, in order. */
  function AppendedAll(h: seq<Turn>, ts: seq<Turn>): seq<Turn>
    decreases |ts|
  {
    if ts == [] then h else Appended(AppendedAll(h, ts[..|ts| - 1]), ts[|ts| - 1])
  }

  /** After a run of appends, the history is the newest `MAX_HISTORY` turns
      of the old history followed by all the appended ones, in their
      original order. */
  lemma {:induction false} AppendedAllKeepsNewest(h: seq<Turn>, ts: seq<Turn>)
    requires ts != []
    ensures AppendedAll(h, ts) == Newest(h + ts, MAX_HISTORY)
    decreases |ts|
  {
    var front, x := ts[..|ts| - 1], ts[|ts| - 1];
    assert ts == front + [x];
    if front == [] {
      assert h + ts == h + [x];
    } else {
      AppendedAllKeepsNewest(h, front);
      NewestAppend(h + front, x, MAX_HISTORY);
      assert h + front + [x] == h + ts;
    }
  }

  /** The table after `get_user_history(u)`: an unseen user gets an empty
      entry; a known user's entry, and everything else, stays as it was. */
  function Touched(m: Conversations, u: int): (r: Conversations)
    ensures u in r && r[u] == Lookup(m, u)
    ensures u in m ==> r == m
    ensures forall v :: v != u ==> (v in r <==> v in m) && (v in m ==> r[v] == m[v])
  {
    if u in m then m else m[u := []]
  }

  /** The table after `add_to_history(u, role, content)` with `t` the new
      turn: `u`'s history is `Appended` of its old one; every other entry is
      unchanged. */
  function WithTurn(m: Conversations, u: int, t: Turn): (r: Conversations)
    ensures u in r && r[u] == Appended(Lookup(m, u), t)
    ensures forall v :: v != u ==> (v in r <==> v in m) && (v in m ==> r[v] == m[v])
  {
    Touched(m, u)[u := Appended(Lookup(m, u), t)]
  }

  /** The table after `clear_history(u)`. */
  function Cleared(m: Conversations, u: int): (r: Conversations)
    ensures u in r && r[u] == []
    ensures forall v :: v != u ==> (v in r <==> v in m) && (v in m ==> r[v] == m[v])
  {
    m[u := []]
  }

  /** The table after `add_to_history(u, ...)` has been called once for each
      of `ts`, in order. */
  function WithTurns(m: Conversations, u: int, ts: seq<Turn>): Conversations
    decreases |ts|
  {
    if ts == [] then m else WithTurn(WithTurns(m, u, ts[..|ts| - 1]), u, ts[|ts| - 1])
  }

  /** Reading a history through `get_user_history` is invisible to every
      later read: the inserted empty entry reads like the missing one. */
  lemma TouchedReadsSame(m: Conversations, u: int, v: int)
    ensures Lookup(Touched(m, u), v) == Lookup(m, v)
  {
  }

  /** Adding a turn never breaks the bound on any history, and the history
      it changes is within the bound whatever its length was before. */
  lemma WithTurnPreservesBound(m: Conversations, u: int, t: Turn)
    ensures |Lookup(WithTurn(m, u, t), u)| <= MAX_HISTORY
    ensures AllBounded(m) ==> AllBounded(WithTurn(m, u, t))
  {
    var r := WithTurn(m, u, t);
    if AllBounded(m) {
      forall v | v in r ensures |r[v]| <= MAX_HISTORY {
        if v != u {
          assert v in m;
        }
      }
    }
  }

  /** `/clear` followed by the next `get_user_history`: the read returns the
      empty history and changes nothing in the table, every other user reads
      as before, and the bound still holds everywhere. */
  lemma ClearedEmpties(m: Conversations, u: int, v: int)
    ensures Lookup(Cleared(m, u), u) == []
    ensures Touched(Cleared(m, u), u) == Cleared(m, u)
    ensures v != u ==> Lookup(Cleared(m, u), v) == Lookup(m, v)
    ensures AllBounded(m) ==> AllBounded(Cleared(m, u))
  {
  }

  /** Clearing twice is clearing once. */
  lemma ClearedIdempotent(m: Conversations, u: int)
    ensures Cleared(Cleared(m, u), u) == Cleared(m, u)
  {
  }

  /** `add_to_history` reads the history itself, so an earlier read makes no
      difference to its result. */
  lemma WithTurnAfterTouched(m: Conversations, u: int, t: Turn)
    ensures WithTurn(Touched(m, u), u, t) == WithTurn(m, u, t)
  {
  }

  /** An append to one user's history leaves every other history as it was. */
  lemma WithTurnReadsSameElsewhere(m: Conversations, u: int, t: Turn, v: int)
    requires v != u
    ensures Lookup(WithTurn(m, u, t), v) == Lookup(m, v)
  {
  }

  /** A run of appends through the table does to the user's history what
      `AppendedAll` says, and leaves every other user's history as it was. */
  lemma {:induction false} WithTurnsReadBack(m: Conversations, u: int, ts: seq<Turn>, v: int)
    ensures Lookup(WithTurns(m, u, ts), u) == AppendedAll(Lookup(m, u), ts)
    ensures v != u ==> Lookup(WithTurns(m, u, ts), v) == Lookup(m, v)
    decreases |ts|
  {
    if ts != [] {
      WithTurnsReadBack(m, u, ts[..|ts| - 1], v);
    }
  }

  /** Once at least `MAX_HISTORY` turns have been appended, the history is
      exactly the newest `MAX_HISTORY` of them, in the order they came. */
  lemma LongRunKeepsOnlyNewest(m: Conversations, u: int, ts: seq<Turn>)
    requires |ts| >= MAX_HISTORY
    ensures Lookup(WithTurns(m, u, ts), u) == ts[|ts| - MAX_HISTORY..]
  {
    WithTurnsReadBack(m, u, ts, u);
    AppendedAllKeepsNewest(Lookup(m, u), ts);
    var s := Lookup(m, u) + ts;
    NewestIsSuffix(s, MAX_HISTORY);
    assert s[|s| - MAX_HISTORY..] == ts[|ts| - MAX_HISTORY..];
  }

  /** The in-memory table. Its methods change `conversations` exactly as the
      functions above say. */
  class Store {
    var conversations: Conversations

    /** The module starts with an empty table (bot.py:41). */
    constructor ()
      ensures conversations == map[]
      ensures Valid()
    {
      conversations := map[];
    }

    /** Every history is within the bound. */
    predicate Valid()
      reads this
    {
      AllBounded(conversations)
    }

    /** `get_user_history`: returns the stored list, creating it first if
        the user is unseen. */
    method GetUserHistory(userId: int) returns (history: seq<Turn>)
      modifies this
      ensures history == Lookup(old(conversations), userId)
      ensures conversations == Touched(old(conversations), userId)
    {
      if userId !in conversations {
        conversations := conversations[userId := []];
      }
      history := conversations[userId];
    }

    /** `add_to_history`: appends the turn to the stored list, then replaces
        a list that has grown past the bound by its newest entries. */
    method AddToHistory(userId: int, role: string, content: string)
      modifies this
      ensures conversations == WithTurn(old(conversations), userId, Turn(role, content))
      ensures old(Valid()) ==> Valid()
    {
      ghost var before := conversations;
      var history := GetUserHistory(userId);
      // The list returned above is the one stored in the table, so the
      // append is seen through the table as well.
      history := history + [Turn(role, content)];
      conversations := conversations[userId := history];
      if |history| > MAX_HISTORY {
        conversations := conversations[userId := history[|history| - MAX_HISTORY..]];
      }
      WithTurnPreservesBound(before, userId, Turn(role, content));
    }

    /** `clear_history`: the user's list becomes empty. */
    method ClearHistory(userId: int)
      modifies this
      ensures conversations == Cleared(old(conversations), userId)
      ensures old(Valid()) ==> Valid()
    {
      conversations := conversations[userId := []];
    }
  }
}
