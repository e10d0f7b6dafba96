/** Conversation memory: turns appended under a hard cap, and older ones replaced by a summary. */
module Conversation {
  import opened Json

  const MAX_HISTORY_TURNS := 50
  const COMPACTION_TURN_THRESHOLD := 30
  const COMPACTION_KEEP_RECENT := 10
  const MAX_HISTORY_CHARS := 50000
  const SUMMARY_MAX_CHARS := 2000

  datatype Turn = Turn(role: string, content: string, ts: int, trigger: string)

  /** The agent-state entry: absent, something that is not a dictionary, or a dictionary whose
      `turns` may not be a list. */
  datatype Stored = Missing | NotADict | History(turns: Option<seq<Turn>>, summary: Option<string>)

  function Cut<T>(s: seq<T>, n: nat): (r: seq<T>) { if |s| > n then s[..n] else s }

  /** `s[-n:]`. */
  function LastOf<T>(s: seq<T>, n: nat): (r: seq<T>) { if |s| > n then s[|s| - n..] else s }

  function TurnsOf(st: Stored): (r: seq<Turn>) {
    if st.History? && st.turns.Some? then st.turns.value else []
  }

  predicate IsSuffix<T(==)>(s: seq<T>, t: seq<T>) { |s| <= |t| && t[|t| - |s|..] == s }

  lemma SuffixAppend<T>(s: seq<T>, t: seq<T>, x: T)
    requires IsSuffix(s, t)
    ensures IsSuffix(s + [x], t + [x])
  {
    assert (t + [x])[|t| - |s|..] == t[|t| - |s|..] + [x];
  }

  lemma SuffixOfSuffix<T>(s: seq<T>, t: seq<T>, n: nat)
    requires IsSuffix(s, t)
    ensures IsSuffix(LastOf(s, n), t)
  {
    if |s| > n { assert t[|t| - n..] == t[|t| - |s|..][|s| - n..]; }
  }

  lemma AppendKeepsSuffix<T>(s: seq<T>, t: seq<T>, x: T, n: nat)
    requires IsSuffix(s, t)
    ensures IsSuffix(LastOf(s + [x], n), t + [x])
    ensures |LastOf(s + [x], n)| == |s| + 1 - Excess(s, n)
  {
    SuffixAppend(s, t, x);
    SuffixOfSuffix(s + [x], t + [x], n);
  }

  /** How many turns fall to the cap when one more is appended. */
  function Excess<T>(s: seq<T>, n: nat): (r: nat) { if |s| + 1 > n then |s| + 1 - n else 0 }

  /** How an access to the agent's state goes. A read that fails shows no entry at all, since entries
      that cannot be decrypted are left out; a save that fails is logged; either may raise. */
  datatype Access = Works | Fails | Raises

  /** One agent's memory, over a run of operations one at a time. The ghost fields record the turns
      ever put into the store, how many of them went to a summary, fell to the hard cap or were
      dropped with the entry that held them, and whether some other writer wrote the entry last. */
  class Memory {
    var stored: Stored
    ghost var saved: seq<Turn>
    ghost var compactions: nat
    ghost var summarised: nat
    ghost var capped: nat
    ghost var dropped: nat
    ghost var foreign: bool

    /** Every turn is stored, summarised, capped or dropped, and the stored ones are the latest. */
    ghost predicate Valid()
      reads this
    {
      && (foreign || stored == Missing || (stored.History? && stored.turns.Some?))
      && (foreign || |TurnsOf(stored)| <= MAX_HISTORY_TURNS)
      && IsSuffix(TurnsOf(stored), saved)
      && |saved| == |TurnsOf(stored)| + summarised + capped + dropped
      && summarised >= (COMPACTION_TURN_THRESHOLD - COMPACTION_KEEP_RECENT) * compactions
    }

    constructor ()
      ensures Valid() && stored == Missing && saved == [] && !foreign
      ensures compactions == 0 && summarised == 0 && capped == 0 && dropped == 0
    {
      stored, saved, compactions, summarised, capped, dropped, foreign := Missing, [], 0, 0, 0, 0, false;
    }

    /** `set_state` under the same key by any other caller: it may put anything there. */
    method PutState(st: Stored)
      requires Valid()
      modifies this
      ensures Valid() && foreign && stored == st && saved == old(saved) + TurnsOf(st)
      ensures dropped == old(dropped) + |old(TurnsOf(stored))|
      ensures compactions == old(compactions) && summarised == old(summarised) && capped == old(capped)
    {
      dropped, saved, foreign := dropped + |TurnsOf(stored)|, saved + TurnsOf(st), true;
      stored := st;
    }

    /** What a read shows: an entry that cannot be read, or is no dictionary, is as good as none. */
    function Seen(read: Access): (r: Stored)
      reads this
    {
      if read.Works? && stored.History? then stored else Missing
    }

    /** A turn is saved at the end of the turns that were seen: turns that the read did not show are
        dropped, and with them the summary. */
    method AppendTurn(role: string, content: string, trigger: string, now: int, read: Access, save: Access)
      returns (t: Turn, raised: bool)
      requires Valid()
      modifies this
      ensures Valid()
      ensures t == Turn(role, if |content| > 50000 then content[..50000] else content, now, trigger)
      ensures compactions == old(compactions) && summarised == old(summarised)
      ensures raised == (read.Raises? || save.Raises?)
      ensures read.Raises? || !save.Works? ==> unchanged(this)
      ensures !read.Raises? && save.Works? ==>
                var seen := old(Seen(read));
                && saved == old(saved) + [t] && stored.History? && !foreign
                && TurnsOf(stored) == LastOf(TurnsOf(seen) + [t], 50)
                && stored.summary == (if seen.History? then seen.summary else None)
                && capped == old(capped) + Excess(TurnsOf(seen), MAX_HISTORY_TURNS)
                && dropped == old(dropped) + |old(TurnsOf(stored))| - |TurnsOf(seen)|
    {
      t := Turn(role, Cut(content, MAX_HISTORY_CHARS), now, trigger);
      raised := read.Raises? || save.Raises?;
      if read.Raises? { return; }
      var seen := Seen(read);
      var raw := if seen.History? then seen else History(Some([]), None);
      var turns := if raw.turns.Some? then raw.turns.value else [];
      if save.Works? {
        AppendKeepsSuffix(turns, saved, t, MAX_HISTORY_TURNS);
        capped := capped + Excess(turns, MAX_HISTORY_TURNS);
        dropped := dropped + |TurnsOf(stored)| - |turns|;
        turns := LastOf(turns + [t], MAX_HISTORY_TURNS);
        stored := raw.(turns := Some(turns));
        saved, foreign := saved + [t], false;
      }
    }

    function NeedsCompaction(read: Access): (b: bool)
      reads this
    {
      |TurnsOf(Seen(read))| >= COMPACTION_TURN_THRESHOLD
    }

    /** Summarises all but the recent turns; `chat` is the model's answer, if it gave one. Only the
        turns handed to the model go, and only when the read, the model and the save worked. */
    method CompactHistory(read: Access, chat: Option<string>, save: Access) returns (old_turns: seq<Turn>)
      requires Valid()
      modifies this
      ensures Valid()
      ensures saved == old(saved) && capped == old(capped) && dropped == old(dropped)
      ensures var works := old(NeedsCompaction(read)) && chat.Some? && save.Works?;
              && (!works ==> unchanged(this))
              && (works ==>
                    && old(TurnsOf(stored)) == old_turns + TurnsOf(stored)
                    && |TurnsOf(stored)| == 10 && !foreign && stored.History?
                    && stored.summary == Some(if |chat.value| > 2000 then chat.value[..2000] else chat.value)
                    && compactions == old(compactions) + 1 && summarised == old(summarised) + |old_turns|)
    {
      old_turns := [];
      var raw := Seen(read);
      if !raw.History? { return; }
      if raw.turns.None? || |raw.turns.value| < COMPACTION_TURN_THRESHOLD { return; }
      var turns := raw.turns.value;
      old_turns := turns[..|turns| - COMPACTION_KEEP_RECENT];
      var keep := LastOf(turns, COMPACTION_KEEP_RECENT);
      if chat.None? { return; }
      if save.Works? {
        SuffixOfSuffix(turns, saved, COMPACTION_KEEP_RECENT);
        assert turns == old_turns + keep;
        stored := History(Some(keep), Some(Cut(chat.value, SUMMARY_MAX_CHARS)));
        compactions, foreign := compactions + 1, false;
        summarised := summarised + |old_turns|;
      }
    }

    /** What `_save_chat_turns` does after a reply: both turns, unless the first raises, then a
        compaction if the history as read before them was long enough. While reads work no turn is
        dropped; when nothing fails the hard cap is never reached either, so that every turn not
        stored has been summarised. */
    method SaveChatTurns(user: string, reply: string, now: int, before: Access, read1: Access, save1: Access,
                         read2: Access, save2: Access, read3: Access, chat: Option<string>, save3: Access)
      requires Valid()
      modifies this
      ensures Valid()
      ensures !foreign || unchanged(this)
      ensures !old(foreign) && !read1.Fails? && !read2.Fails? ==> dropped == old(dropped)
      ensures !old(foreign) && old(|TurnsOf(stored)|) <= 31
              && before.Works? && read1.Works? && read2.Works? && read3.Works?
              && save1.Works? && save2.Works? && save3.Works? && chat.Some? ==>
                |TurnsOf(stored)| <= 31 && capped == old(capped) && |saved| == |old(saved)| + 2
    {
      var due := NeedsCompaction(before);
      var _, raised := AppendTurn("user", user, "chat", now, read1, save1);
      if raised { return; }
      var _, raised2 := AppendTurn("assistant", reply, "chat", now, read2, save2);
      if raised2 { return; }
      if due {
        var _ := CompactHistory(read3, chat, save3);
      }
    }
  }
}
