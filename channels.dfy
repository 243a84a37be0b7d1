/** Channels of the chat provider, as the `/chat` handler uses them, and how
    their contents relate to the chat log. */
module Channels {
  import opened Sequences
  import opened ChatLog

  datatype Msg = Msg(text: string, user: string)

  /** A channel of type `kind` with the data given at creation and its messages. */
  datatype Channel = Channel(kind: string, name: string, createdBy: string, messages: seq<Msg>)

  /** The fixed identity that owns the channels and writes the replies. */
  const Bot: string := "ai_bot"
  const ChannelKind: string := "messaging"
  const ChannelName: string := "AI Chat"
  const Prefix: string := "chat-"

  /** `'chat-' + userId`. */
  function ChannelId(userId: string): string {
    Prefix + userId
  }

  predicate IsChatChannel(cid: string) {
    |cid| >= |Prefix| && cid[..|Prefix|] == Prefix
  }

  /** The user a chat channel belongs to. */
  function Owner(cid: string): (userId: string)
    requires IsChatChannel(cid)
    ensures Prefix + userId == cid
  {
    assert cid == cid[..|Prefix|] + cid[|Prefix|..];
    cid[|Prefix|..]
  }

  /** A user's channel id names that user back. */
  lemma OwnerOfChannelId(userId: string)
    ensures IsChatChannel(ChannelId(userId)) && Owner(ChannelId(userId)) == userId
  {
    assert (Prefix + userId)[..|Prefix|] == Prefix;
  }

  /** Distinct users get distinct channels. */
  lemma ChannelIdInjective(u1: string, u2: string)
    ensures ChannelId(u1) == ChannelId(u2) ==> u1 == u2
  {
    OwnerOfChannelId(u1);
    OwnerOfChannelId(u2);
  }

  /** `channel('messaging', cid, {name: 'AI Chat', created_by_id: 'ai_bot'}).create()`:
      creates the channel when it does not exist and leaves an existing one as it is. */
  function Create(chs: map<string, Channel>, cid: string): (r: map<string, Channel>)
    ensures cid in r && r - {cid} == chs - {cid}
    ensures cid in chs ==> r[cid] == chs[cid]
    ensures cid !in chs ==> r[cid] == Channel(ChannelKind, ChannelName, Bot, [])
  {
    if cid in chs then chs else chs[cid := Channel(ChannelKind, ChannelName, Bot, [])]
  }

  /** `channel.sendMessage({text, user_id: 'ai_bot'})` on an existing channel. */
  function Send(chs: map<string, Channel>, cid: string, text: string): (r: map<string, Channel>)
    requires cid in chs
    ensures cid in r && r - {cid} == chs - {cid}
    ensures r[cid] == chs[cid].(messages := chs[cid].messages + [Msg(text, Bot)])
  {
    chs[cid := chs[cid].(messages := chs[cid].messages + [Msg(text, Bot)])]
  }

  function Texts(msgs: seq<Msg>): (r: seq<string>)
    ensures |r| == |msgs|
    ensures forall i :: 0 <= i < |r| ==> r[i] == msgs[i].text
  {
    seq(|msgs|, i requires 0 <= i < |msgs| => msgs[i].text)
  }

  /** Every channel is a user's chat channel, written only by the bot, and what it
      shows is, in order, a selection of the replies logged for that user: nothing
      is delivered that was not persisted first. */
  ghost predicate Delivered(chs: map<string, Channel>, log: seq<ChatEntry>) {
    forall cid :: cid in chs ==>
      && IsChatChannel(cid)
      && (forall m :: m in chs[cid].messages ==> m.user == Bot)
      && Subseq(Texts(chs[cid].messages), Replies(History(log, Owner(cid))))
  }

  /** Each delivered message can be traced back to a logged row of the channel's owner. */
  lemma DeliveredWasLogged(chs: map<string, Channel>, log: seq<ChatEntry>, cid: string, i: nat)
    requires Delivered(chs, log) && cid in chs && i < |chs[cid].messages|
    ensures exists e :: e in log && e.userId == Owner(cid) && e.reply == chs[cid].messages[i].text
  {
    var h := History(log, Owner(cid));
    SubseqMembers(Texts(chs[cid].messages), Replies(h), i);
    var j :| 0 <= j < |h| && Replies(h)[j] == chs[cid].messages[i].text;
    HistoryMembers(log, Owner(cid), h[j]);
  }

  /** Persisting a row never breaks the relation. */
  lemma PersistKeepsDelivered(chs: map<string, Channel>, log: seq<ChatEntry>, e: ChatEntry)
    requires Delivered(chs, log)
    ensures Delivered(chs, log + [e])
  {
    forall cid | cid in chs
      ensures Subseq(Texts(chs[cid].messages), Replies(History(log + [e], Owner(cid))))
    {
      var h := History(log, Owner(cid));
      assert Subseq(Texts(chs[cid].messages), Replies(h));
      HistoryAppend(log, e, Owner(cid));
      if e.userId == Owner(cid) {
        assert History(log + [e], Owner(cid)) == h + [e];
        RepliesAppend(h, e);
        SubseqExtendRight(Texts(chs[cid].messages), Replies(h), e.reply);
      } else {
        assert History(log + [e], Owner(cid)) == h;
      }
    }
  }

  /** Creating a user's chat channel never breaks the relation. */
  lemma CreateKeepsDelivered(chs: map<string, Channel>, log: seq<ChatEntry>, userId: string)
    requires Delivered(chs, log)
    ensures Delivered(Create(chs, ChannelId(userId)), log)
  {
    var cid := ChannelId(userId);
    OwnerOfChannelId(userId);
    var r := Create(chs, cid);
    forall c | c in r
      ensures IsChatChannel(c)
      ensures forall m :: m in r[c].messages ==> m.user == Bot
      ensures Subseq(Texts(r[c].messages), Replies(History(log, Owner(c))))
    {
      if c != cid {
        assert c in chs - {cid};
      } else if cid !in chs {
        assert Texts(r[c].messages) == [];
      }
    }
  }

  /** Sending the reply of the row just persisted, to its owner's channel,
      keeps the relation. */
  lemma SendKeepsDelivered(chs: map<string, Channel>, log: seq<ChatEntry>, e: ChatEntry)
    requires ChannelId(e.userId) in chs
    requires Delivered(chs, log)
    ensures Delivered(Send(chs, ChannelId(e.userId), e.reply), log + [e])
  {
    var cid := ChannelId(e.userId);
    OwnerOfChannelId(e.userId);
    var r := Send(chs, cid, e.reply);
    PersistKeepsDelivered(chs, log, e);
    forall c | c in r
      ensures IsChatChannel(c)
      ensures forall m :: m in r[c].messages ==> m.user == Bot
      ensures Subseq(Texts(r[c].messages), Replies(History(log + [e], Owner(c))))
    {
      if c != cid {
        assert c in chs - {cid};
      } else {
        var h := History(log, e.userId);
        HistoryAppend(log, e, e.userId);
        RepliesAppend(h, e);
        assert Texts(r[c].messages) == Texts(chs[c].messages) + [e.reply];
        SubseqExtendBoth(Texts(chs[c].messages), Replies(h), e.reply);
      }
    }
  }
}
