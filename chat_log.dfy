/** The `chats` table: one row per answered message. */
module ChatLog {
  import opened Sequences

  datatype ChatEntry = ChatEntry(userId: string, message: string, reply: string)

  /** `select().from(chats).where(eq(chats.userId, id))`: the rows of `id`,
      in storage order (the query has no ORDER BY; storage order is the model's choice). */
  function History(log: seq<ChatEntry>, id: string): (h: seq<ChatEntry>)
    ensures |h| <= |log|
    ensures forall i :: 0 <= i < |h| ==> h[i].userId == id
  {
    if log == [] then []
    else
      var last := log[|log| - 1];
      History(log[..|log| - 1], id) + (if last.userId == id then [last] else [])
  }

  /** The `reply` column of some rows. */
  function Replies(rows: seq<ChatEntry>): (r: seq<string>)
    ensures |r| == |rows|
    ensures forall i :: 0 <= i < |r| ==> r[i] == rows[i].reply
  {
    seq(|rows|, i requires 0 <= i < |rows| => rows[i].reply)
  }

  /** Appending a row extends exactly the history of that row's user. */
  lemma HistoryAppend(log: seq<ChatEntry>, e: ChatEntry, id: string)
    ensures History(log + [e], id) == History(log, id) + (if e.userId == id then [e] else [])
  {
    assert (log + [e])[..|log|] == log;
  }

  lemma RepliesAppend(rows: seq<ChatEntry>, e: ChatEntry)
    ensures Replies(rows + [e]) == Replies(rows) + [e.reply]
  {
  }

  /** The history holds every row of the user and nothing else. */
  lemma {:induction false} HistoryMembers(log: seq<ChatEntry>, id: string, e: ChatEntry)
    ensures e in History(log, id) <==> e in log && e.userId == id
  {
    if log != [] {
      var init, last := log[..|log| - 1], log[|log| - 1];
      HistoryMembers(init, id, e);
      assert log == init + [last];
    }
  }

  /** The history holds each row of the user as many times as the table does,
      and no row of anyone else. */
  lemma {:induction false} HistoryCount(log: seq<ChatEntry>, id: string)
    ensures forall e :: multiset(History(log, id))[e] == if e.userId == id then multiset(log)[e] else 0
  {
    if log != [] {
      var init, last := log[..|log| - 1], log[|log| - 1];
      HistoryCount(init, id);
      assert log == init + [last];
      assert multiset(log) == multiset(init) + multiset{last};
    }
  }

  /** The history keeps the rows in their storage order. */
  lemma {:induction false} HistoryInOrder(log: seq<ChatEntry>, id: string)
    ensures Subseq(History(log, id), log)
  {
    if log != [] {
      var init, last := log[..|log| - 1], log[|log| - 1];
      HistoryInOrder(init, id);
      assert log == init + [last];
      if last.userId == id {
        SubseqExtendBoth(History(init, id), init, last);
      } else {
        assert History(log, id) == History(init, id);
        SubseqExtendRight(History(init, id), init, last);
      }
    }
  }
}
