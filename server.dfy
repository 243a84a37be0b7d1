/** The request handlers `/register-user`, `/chat` and `/get-messages`, over the
    state of the external systems they talk to: the chat provider's user directory
    and channels, and the `users` and `chats` tables. Each remote call of a request
    may throw; `failAt` is the position, among the remote calls that request makes,
    of the first one that throws (no call throws when `failAt` is at least the
    number of calls made). A call that throws changes nothing. */
module Server {
  import opened Request
  import opened Sequences
  import opened Identity
  import opened ChatLog
  import opened Channels

  /** A user of the chat provider's directory: `{id, name, email, role}`. */
  datatype UserRec = UserRec(id: string, name: string, email: string, role: string)

  /** A row of the `users` table. */
  datatype Row = Row(userId: string, name: string, email: string)

  /** A remote call issued by a handler. */
  datatype Call =
    | QueryUsers(id: string)
    | UpsertUser(user: UserRec)
    | SelectUsers(userId: string)
    | InsertUser(row: Row)
    | Generate(model: string, contents: string)
    | InsertChat(entry: ChatEntry)
    | CreateChannel(cid: string)
    | SendMessage(cid: string, msg: Msg)
    | SelectChats(key: QueryKey)

  /** JSON bodies of the 200 responses. */
  datatype Body =
    | Registered(userId: string, name: string, email: string)
    | Reply(reply: string)
    | Messages(messages: seq<ChatEntry>)

  /** What the client receives: 200, 400, 404, 500, or nothing at all when the
      handler catches an error and only logs it. */
  datatype Response = Ok(body: Body) | BadRequest | NotFound | Internal | NoResponse

  /** The key `/get-messages` queries with: the body's `userId`, or the object `{}`. */
  datatype QueryKey = Text(s: string) | EmptyObject

  const InferenceModel: string := "gemini-2.0-flash"
  const Fallback: string := "No response from AI"
  const UserRole: string := "user"

  predicate HasUser(table: seq<Row>, id: string) {
    exists i :: 0 <= i < |table| && table[i].userId == id
  }

  /** No two rows share a userId. */
  predicate UniqueRows(table: seq<Row>) {
    forall i, j :: 0 <= i < |table| && 0 <= j < |table| && table[i].userId == table[j].userId ==> i == j
  }

  function Min(a: nat, b: nat): nat {
    if a < b then a else b
  }

  /** The text stored and sent for an inference result: its text when that is
      non-empty, the fallback sentinel otherwise; never empty. */
  function ReplyFor(text: Option<string>): (reply: string)
    ensures reply != ""
  {
    if Present(text) then text.value else Fallback
  }

  /** The model's text is relayed unchanged; the reply is the sentinel exactly
      when there was no text, or the text was the sentinel itself. */
  lemma FallbackSubstitution(text: Option<string>)
    ensures Present(text) ==> ReplyFor(text) == text.value
    ensures ReplyFor(text) == Fallback <==> !Present(text) || text.value == Fallback
  {
  }

  /** JavaScript truthiness of the query key: every object is truthy. */
  predicate KeyTruthy(key: QueryKey) {
    key.EmptyObject? || key.s != ""
  }

  /** The remote calls of a registration's directory step: the query, then the
      upsert only for a user the directory lacks. */
  function DirectoryPlan(user: UserRec, inDirectory: bool): (plan: seq<Call>)
    ensures |plan| == if inDirectory then 1 else 2
  {
    [QueryUsers(user.id)] + (if inDirectory then [] else [UpsertUser(user)])
  }

  /** The remote calls of a registration's table step: the select, then the
      insert only for a user the table lacks. */
  function TablePlan(row: Row, inTable: bool): (plan: seq<Call>)
    ensures |plan| == if inTable then 1 else 2
  {
    [SelectUsers(row.userId)] + (if inTable then [] else [InsertUser(row)])
  }

  /** The remote calls of a registration that runs to the end, in order. */
  function RegisterPlan(userId: string, name: string, email: string, inDirectory: bool, inTable: bool)
    : seq<Call>
  {
    DirectoryPlan(UserRec(userId, name, email, UserRole), inDirectory)
    + TablePlan(Row(userId, name, email), inTable)
  }

  /** The calls made of `a + b` when the first `n` of them are made. */
  lemma PrefixOfConcat<T>(a: seq<T>, b: seq<T>, n: nat)
    requires n <= |a| + |b|
    ensures n <= |a| ==> (a + b)[..n] == a[..n]
    ensures |a| <= n ==> (a + b)[..n] == a + b[..n - |a|]
  {
  }

  /** The remote calls that publish a reply: channel creation, then delivery. */
  function PublishPlan(userId: string, reply: string): seq<Call> {
    [CreateChannel(ChannelId(userId)), SendMessage(ChannelId(userId), Msg(reply, Bot))]
  }

  /** The remote calls of a conversation that runs to the end, in order. */
  function ChatPlan(entry: ChatEntry): (plan: seq<Call>)
    ensures |plan| == 6
  {
    [ QueryUsers(entry.userId), SelectUsers(entry.userId), Generate(InferenceModel, entry.message),
      InsertChat(entry) ] + PublishPlan(entry.userId, entry.reply)
  }

  /** How many calls of the chat plan a conversation makes: it stops at the first
      call that throws and after a failed existence check. */
  function ChatCallsMade(failAt: nat, inDirectory: bool, inTable: bool): (n: nat)
    ensures 1 <= n <= 6
    ensures n > 2 ==> inDirectory && inTable
  {
    if failAt == 0 || !inDirectory then 1
    else if failAt == 1 || !inTable then 2
    else Min(failAt + 1, 6)
  }

  /** In the chat plan, the log row is written before anything reaches a channel,
      and no prefix that stops at an existence check performs inference. */
  lemma ChatPlanOrder(entry: ChatEntry, k: nat)
    requires k <= 6
    ensures |ChatPlan(entry)| == 6
    ensures ChatPlan(entry)[3] == InsertChat(entry)
    ensures forall c :: c in ChatPlan(entry)[..k] && (c.CreateChannel? || c.SendMessage?) ==>
      InsertChat(entry) in ChatPlan(entry)[..k]
    ensures k <= 2 ==> forall c :: c in ChatPlan(entry)[..k] ==> c.QueryUsers? || c.SelectUsers?
  {
    var p := ChatPlan(entry);
    forall c | c in p[..k] && (c.CreateChannel? || c.SendMessage?)
      ensures InsertChat(entry) in p[..k]
    {
      var i :| 0 <= i < k && p[..k][i] == c;
      assert 4 <= i;
      assert p[..k][3] == InsertChat(entry);
    }
  }

  /** What the handlers keep true of the stores: directory entries sit under
      their own id, the table has one row per user, every logged conversation
      belongs to a user of both stores, and channels show only persisted replies. */
  ghost predicate StoresConsistent(directory: map<string, UserRec>, usersTable: seq<Row>,
                                   chatLog: seq<ChatEntry>, channels: map<string, Channel>)
  {
    && (forall id :: id in directory ==> directory[id].id == id)
    && UniqueRows(usersTable)
    && (forall i :: 0 <= i < |chatLog| ==>
          chatLog[i].userId in directory && HasUser(usersTable, chatLog[i].userId))
    && Delivered(channels, chatLog)
  }

  /** Registration writes only what its existence checks found missing, so the
      stores stay consistent whichever of the two writes happen. */
  lemma RegisterKeepsConsistent(directory: map<string, UserRec>, usersTable: seq<Row>,
                                chatLog: seq<ChatEntry>, channels: map<string, Channel>,
                                user: UserRec, row: Row, upsert: bool, insert: bool)
    requires StoresConsistent(directory, usersTable, chatLog, channels)
    requires row.userId == user.id
    requires upsert ==> user.id !in directory
    requires insert ==> !HasUser(usersTable, user.id)
    ensures StoresConsistent(if upsert then directory[user.id := user] else directory,
                             if insert then usersTable + [row] else usersTable, chatLog, channels)
  {
    var dir := if upsert then directory[user.id := user] else directory;
    var table := if insert then usersTable + [row] else usersTable;
    forall i | 0 <= i < |chatLog|
      ensures chatLog[i].userId in dir && HasUser(table, chatLog[i].userId)
    {
      assert HasUser(usersTable, chatLog[i].userId);
      var j :| 0 <= j < |usersTable| && usersTable[j].userId == chatLog[i].userId;
      assert table[j] == usersTable[j];
    }
  }

  /** A conversation of a user of both stores keeps the stores consistent after
      each of its writes: the log row, the channel creation, the delivery. */
  lemma ChatKeepsConsistent(directory: map<string, UserRec>, usersTable: seq<Row>,
                            chatLog: seq<ChatEntry>, channels: map<string, Channel>, entry: ChatEntry)
    requires StoresConsistent(directory, usersTable, chatLog, channels)
    requires entry.userId in directory && HasUser(usersTable, entry.userId)
    ensures StoresConsistent(directory, usersTable, chatLog + [entry], channels)
    ensures StoresConsistent(directory, usersTable, chatLog + [entry], Create(channels, ChannelId(entry.userId)))
    ensures StoresConsistent(directory, usersTable, chatLog + [entry],
                             Send(Create(channels, ChannelId(entry.userId)), ChannelId(entry.userId), entry.reply))
  {
    var cid := ChannelId(entry.userId);
    PersistKeepsDelivered(channels, chatLog, entry);
    CreateKeepsDelivered(channels, chatLog + [entry], entry.userId);
    CreateKeepsDelivered(channels, chatLog, entry.userId);
    SendKeepsDelivered(Create(channels, cid), chatLog, entry);
  }

  class Server {
    /** The chat provider's user directory, by id. */
    var directory: map<string, UserRec>
    /** The `users` table, in storage order. */
    var usersTable: seq<Row>
    /** The `chats` table, in storage order. */
    var chatLog: seq<ChatEntry>
    /** The chat provider's channels, by channel id (all of type "messaging"). */
    var channels: map<string, Channel>
    /** Every remote call the three handlers have issued, in order. */
    var calls: seq<Call>

    constructor (directory: map<string, UserRec>, usersTable: seq<Row>,
                 chatLog: seq<ChatEntry>, channels: map<string, Channel>)
      ensures this.directory == directory && this.usersTable == usersTable
      ensures this.chatLog == chatLog && this.channels == channels && calls == []
    {
      this.directory := directory;
      this.usersTable := usersTable;
      this.chatLog := chatLog;
      this.channels := channels;
      calls := [];
    }

    /** The stores are consistent (see StoresConsistent). */
    ghost predicate Consistent()
      reads this
    {
      StoresConsistent(directory, usersTable, chatLog, channels)
    }

    /** `POST /register-user` with body fields `name` and `email`. */
    method Register(name: Option<string>, email: Option<string>, failAt: nat) returns (r: Response)
      modifies this
      ensures chatLog == old(chatLog) && channels == old(channels)
      // a missing field is rejected before any remote call
      ensures !Present(name) || !Present(email) ==>
        r == BadRequest && directory == old(directory) && usersTable == old(usersTable) && calls == old(calls)
      // an email without '@' makes the derivation throw, before any remote call
      ensures Present(name) && Present(email) && '@' !in email.value ==>
        r == Internal && directory == old(directory) && usersTable == old(usersTable) && calls == old(calls)
      ensures Present(name) && Present(email) && '@' in email.value ==>
        var id := Normalize(email.value).value;
        var inDirectory := id in old(directory);
        var inTable := HasUser(old(usersTable), id);
        var plan := RegisterPlan(id, name.value, email.value, inDirectory, inTable);
        && calls == old(calls) + plan[..Min(failAt + 1, |plan|)]
        && r == (if failAt < |plan| then Internal else Ok(Registered(id, name.value, email.value)))
        && directory == (if !inDirectory && 1 < failAt
                         then old(directory)[id := UserRec(id, name.value, email.value, UserRole)]
                         else old(directory))
        && usersTable == (if !inTable && |plan| <= failAt
                          then old(usersTable) + [Row(id, name.value, email.value)]
                          else old(usersTable))
      // a user already in both stores is registered again without any write
      ensures (Present(name) && Present(email) && '@' in email.value &&
               Normalize(email.value).value in old(directory) &&
               HasUser(old(usersTable), Normalize(email.value).value)) ==>
        directory == old(directory) && usersTable == old(usersTable)
      // success means the user is in both stores
      ensures r.Ok? ==> r.body.userId in directory && HasUser(usersTable, r.body.userId)
      // existing records are never updated
      ensures forall id :: id in old(directory) ==> id in directory && directory[id] == old(directory)[id]
      ensures IsPrefix(old(usersTable), usersTable)
      // no rollback: a failure after the upsert leaves the new directory entry without a row
      ensures r.Internal? && directory != old(directory) ==> usersTable == old(usersTable)
      ensures old(Consistent()) ==> Consistent()
    {
      if !Present(name) || !Present(email) {
        return BadRequest;
      }
      var derived := Normalize(email.value);
      if derived.None? {
        // firstSplit[1] is undefined and `.split` throws
        return Internal;
      }
      var id := derived.value;
      ghost var plan := RegisterPlan(id, name.value, email.value, id in directory, HasUser(usersTable, id));
      if Consistent() {
        RegisterKeepsConsistent(directory, usersTable, chatLog, channels,
                                UserRec(id, name.value, email.value, UserRole), Row(id, name.value, email.value),
                                id !in directory && 1 < failAt, !HasUser(usersTable, id) && |plan| <= failAt);
      }
      r := Provision(id, name.value, email.value, failAt);
    }

    /** The two existence checks and writes of `/register-user`, for the derived id. */
    method Provision(userId: string, name: string, email: string, failAt: nat) returns (r: Response)
      modifies this
      ensures chatLog == old(chatLog) && channels == old(channels)
      ensures calls == old(calls) +
        RegisterPlan(userId, name, email, userId in old(directory), HasUser(old(usersTable), userId))
          [..Min(failAt + 1, |RegisterPlan(userId, name, email, userId in old(directory), HasUser(old(usersTable), userId))|)]
      ensures r == (if failAt < |RegisterPlan(userId, name, email, userId in old(directory), HasUser(old(usersTable), userId))|
                    then Internal else Ok(Registered(userId, name, email)))
      ensures directory == (if userId !in old(directory) && 1 < failAt
                            then old(directory)[userId := UserRec(userId, name, email, UserRole)]
                            else old(directory))
      ensures usersTable ==
        (if !HasUser(old(usersTable), userId) &&
            |RegisterPlan(userId, name, email, userId in old(directory), HasUser(old(usersTable), userId))| <= failAt
         then old(usersTable) + [Row(userId, name, email)]
         else old(usersTable))
      ensures r.Ok? ==> userId in directory && HasUser(usersTable, userId)
    {
      var user := UserRec(userId, name, email, UserRole);
      var row := Row(userId, name, email);
      var dirPlan := DirectoryPlan(user, userId in directory);
      ghost var tablePlan := TablePlan(row, HasUser(usersTable, userId));

      PrefixOfConcat(dirPlan, tablePlan, Min(failAt + 1, |dirPlan + tablePlan|));
      var ok := EnsureInDirectory(user, failAt);
      if !ok {
        return Internal;
      }
      ok := EnsureInTable(row, failAt - |dirPlan|);
      r := if ok then Ok(Registered(userId, name, email)) else Internal;
    }

    /** The directory step of `/register-user`: query the user, upsert when absent.
        `ok` says that no call of the step threw. */
    method EnsureInDirectory(user: UserRec, failAt: nat) returns (ok: bool)
      modifies this`calls, this`directory
      ensures ok <==> |DirectoryPlan(user, user.id in old(directory))| <= failAt
      ensures calls == old(calls) +
        DirectoryPlan(user, user.id in old(directory))[..Min(failAt + 1, |DirectoryPlan(user, user.id in old(directory))|)]
      ensures directory == (if user.id !in old(directory) && 1 < failAt
                            then old(directory)[user.id := user] else old(directory))
    {
      ghost var plan := DirectoryPlan(user, user.id in directory);
      Issue(QueryUsers(user.id));
      if failAt == 0 {
        return false;
      }
      if user.id !in directory {
        Issue(UpsertUser(user));
        if failAt == 1 {
          return false;
        }
        directory := directory[user.id := user];
      }
      assert plan[..Min(failAt + 1, |plan|)] == plan;
      ok := true;
    }

    /** The table step of `/register-user`: select the user's rows, insert when absent.
        `ok` says that no call of the step threw. */
    method EnsureInTable(row: Row, failAt: nat) returns (ok: bool)
      modifies this`calls, this`usersTable
      ensures ok <==> |TablePlan(row, HasUser(old(usersTable), row.userId))| <= failAt
      ensures calls == old(calls) +
        TablePlan(row, HasUser(old(usersTable), row.userId))
          [..Min(failAt + 1, |TablePlan(row, HasUser(old(usersTable), row.userId))|)]
      ensures usersTable == (if !HasUser(old(usersTable), row.userId) && 1 < failAt
                             then old(usersTable) + [row] else old(usersTable))
      ensures ok ==> HasUser(usersTable, row.userId)
    {
      ghost var plan := TablePlan(row, HasUser(usersTable, row.userId));
      Issue(SelectUsers(row.userId));
      if failAt == 0 {
        return false;
      }
      if !HasUser(usersTable, row.userId) {
        Issue(InsertUser(row));
        if failAt == 1 {
          return false;
        }
        usersTable := usersTable + [row];
        assert usersTable[|usersTable| - 1] == row;
      }
      assert plan[..Min(failAt + 1, |plan|)] == plan;
      ok := true;
    }

    /** `POST /chat` with body fields `message` and `userId`; `inference` is the
        `text` of the model's response. */
    method Chat(message: Option<string>, userId: Option<string>, inference: Option<string>, failAt: nat)
      returns (r: Response)
      modifies this
      ensures directory == old(directory) && usersTable == old(usersTable)
      // missing fields are rejected before any remote call
      ensures !Present(message) || !Present(userId) ==>
        r == BadRequest && chatLog == old(chatLog) && channels == old(channels) && calls == old(calls)
      ensures Present(message) && Present(userId) ==>
        var id := userId.value;
        var entry := ChatEntry(id, message.value, ReplyFor(inference));
        var inDirectory := id in old(directory);
        var inTable := HasUser(old(usersTable), id);
        var known := inDirectory && inTable;
        var cid := ChannelId(id);
        && calls == old(calls) + ChatPlan(entry)[..ChatCallsMade(failAt, inDirectory, inTable)]
        && r == (if failAt < ChatCallsMade(failAt, inDirectory, inTable) then NoResponse
                 else if !known then NotFound
                 else Ok(Reply(entry.reply)))
        && chatLog == (if known && 3 < failAt then old(chatLog) + [entry] else old(chatLog))
        && channels == (if known && 5 < failAt then Send(Create(old(channels), cid), cid, entry.reply)
                        else if known && 4 < failAt then Create(old(channels), cid)
                        else old(channels))
      // an unknown user gets 404 with no inference, no log row and no channel change
      ensures r.NotFound? ==>
        && chatLog == old(chatLog) && channels == old(channels)
        && forall c :: c in calls[|old(calls)|..] ==> c.QueryUsers? || c.SelectUsers?
      // every reply is logged exactly once, before it reaches the channel
      ensures r.Ok? ==> |chatLog| == |old(chatLog)| + 1 && chatLog[|chatLog| - 1].reply == r.body.reply
      ensures channels != old(channels) ==> |chatLog| == |old(chatLog)| + 1
      ensures old(Consistent()) ==> Consistent()
    {
      if !Present(message) || !Present(userId) {
        return BadRequest;
      }
      r := Answer(userId.value, message.value, inference, failAt);
    }

    /** `/chat` for a message and user id that are present: the two existence
        checks, then the conversation. */
    method Answer(id: string, message: string, inference: Option<string>, failAt: nat) returns (r: Response)
      requires id != "" && message != ""
      modifies this
      ensures directory == old(directory) && usersTable == old(usersTable)
      ensures calls == old(calls) + ChatPlan(ChatEntry(id, message, ReplyFor(inference)))
                                      [..ChatCallsMade(failAt, id in old(directory), HasUser(old(usersTable), id))]
      ensures r == (if failAt < ChatCallsMade(failAt, id in old(directory), HasUser(old(usersTable), id)) then NoResponse
                    else if id !in old(directory) || !HasUser(old(usersTable), id) then NotFound
                    else Ok(Reply(ReplyFor(inference))))
      ensures chatLog == (if id in old(directory) && HasUser(old(usersTable), id) && 3 < failAt
                          then old(chatLog) + [ChatEntry(id, message, ReplyFor(inference))] else old(chatLog))
      ensures channels ==
        (if id in old(directory) && HasUser(old(usersTable), id) && 5 < failAt
         then Send(Create(old(channels), ChannelId(id)), ChannelId(id), ReplyFor(inference))
         else if id in old(directory) && HasUser(old(usersTable), id) && 4 < failAt
         then Create(old(channels), ChannelId(id))
         else old(channels))
      ensures old(Consistent()) ==> Consistent()
    {
      ghost var calls0 := calls;
      ghost var inDirectory, inTable := id in directory, HasUser(usersTable, id);
      ghost var plan := ChatPlan(ChatEntry(id, message, ReplyFor(inference)));

      Issue(QueryUsers(id));
      assert calls == calls0 + plan[..1];
      if failAt == 0 || id !in directory {
        assert ChatCallsMade(failAt, inDirectory, inTable) == 1;
        return if failAt == 0 then NoResponse else NotFound;
      }
      Issue(SelectUsers(id));
      assert plan[..2] == plan[..1] + [plan[1]];
      if failAt == 1 || !HasUser(usersTable, id) {
        assert ChatCallsMade(failAt, inDirectory, inTable) == 2;
        return if failAt == 1 then NoResponse else NotFound;
      }
      r := Converse(id, message, inference, failAt - 2);
      assert ChatCallsMade(failAt, inDirectory, inTable) == Min(failAt + 1, 6);
      assert plan[..2] + plan[2..Min(failAt + 1, 6)] == plan[..Min(failAt + 1, 6)];
    }

    /** Steps 3 to 6 of `/chat`, for a user both existence checks found: inference,
        the log row, the channel, the delivery. `failAt` counts from the inference call. */
    method Converse(id: string, message: string, inference: Option<string>, failAt: nat)
      returns (r: Response)
      modifies this
      ensures directory == old(directory) && usersTable == old(usersTable)
      ensures calls == old(calls) + ChatPlan(ChatEntry(id, message, ReplyFor(inference)))[2..Min(failAt + 3, 6)]
      ensures r == (if failAt < 4 then NoResponse else Ok(Reply(ReplyFor(inference))))
      ensures chatLog == (if 1 < failAt then old(chatLog) + [ChatEntry(id, message, ReplyFor(inference))]
                          else old(chatLog))
      ensures channels ==
        (if 3 < failAt then Send(Create(old(channels), ChannelId(id)), ChannelId(id), ReplyFor(inference))
         else if 2 < failAt then Create(old(channels), ChannelId(id))
         else old(channels))
      ensures old(Consistent()) && id in directory && HasUser(usersTable, id) ==> Consistent()
    {
      ghost var plan := ChatPlan(ChatEntry(id, message, ReplyFor(inference)));
      Issue(Generate(InferenceModel, message));
      if failAt == 0 {
        return NoResponse;
      }
      var aiMessage: string := "";
      if !Present(inference) {
        aiMessage := Fallback;
      } else {
        aiMessage := inference.value;
      }
      var entry := ChatEntry(id, message, aiMessage);
      assert plan == ChatPlan(entry);
      r := Record(entry, failAt - 1);
      assert plan[2..Min(failAt + 3, 6)] == [plan[2]] + plan[3..Min(failAt + 3, 6)];
    }

    /** Steps 4 to 6 of `/chat`: store the row, then publish its reply. `failAt`
        counts from the insert. */
    method Record(entry: ChatEntry, failAt: nat) returns (r: Response)
      modifies this
      ensures directory == old(directory) && usersTable == old(usersTable)
      ensures calls == old(calls) + ChatPlan(entry)[3..Min(failAt + 4, 6)]
      ensures r == (if failAt < 3 then NoResponse else Ok(Reply(entry.reply)))
      ensures chatLog == (if 0 < failAt then old(chatLog) + [entry] else old(chatLog))
      ensures channels ==
        (if 2 < failAt then Send(Create(old(channels), ChannelId(entry.userId)), ChannelId(entry.userId), entry.reply)
         else if 1 < failAt then Create(old(channels), ChannelId(entry.userId))
         else old(channels))
      ensures old(Consistent()) && entry.userId in directory && HasUser(usersTable, entry.userId) ==> Consistent()
    {
      ghost var plan := ChatPlan(entry);
      if Consistent() && entry.userId in directory && HasUser(usersTable, entry.userId) {
        ChatKeepsConsistent(directory, usersTable, chatLog, channels, entry);
      }
      Issue(InsertChat(entry));
      if failAt == 0 {
        return NoResponse;
      }
      chatLog := chatLog + [entry];
      var published := Publish(entry.userId, entry.reply, failAt - 1);
      assert plan[3..Min(failAt + 4, 6)] == [plan[3]] + PublishPlan(entry.userId, entry.reply)[..Min(failAt, 2)];
      r := if published then Ok(Reply(entry.reply)) else NoResponse;
    }

    /** Steps 5 and 6 of `/chat`: create the user's channel, then post the reply
        as the bot. `ok` says that neither call threw. */
    method Publish(userId: string, reply: string, failAt: nat) returns (ok: bool)
      modifies this`calls, this`channels
      ensures ok <==> 2 <= failAt
      ensures calls == old(calls) + PublishPlan(userId, reply)[..Min(failAt + 1, 2)]
      ensures channels ==
        (if 1 < failAt then Send(Create(old(channels), ChannelId(userId)), ChannelId(userId), reply)
         else if 0 < failAt then Create(old(channels), ChannelId(userId))
         else old(channels))
    {
      var cid := ChannelId(userId);
      Issue(CreateChannel(cid));
      if failAt == 0 {
        return false;
      }
      CreateChannelIfAbsent(cid);
      Issue(SendMessage(cid, Msg(reply, Bot)));
      if failAt == 1 {
        return false;
      }
      PostToChannel(cid, reply);
      ok := true;
    }

    /** Records a remote call. */
    method Issue(c: Call)
      modifies this`calls
      ensures calls == old(calls) + [c]
    {
      calls := calls + [c];
    }

    /** `channel.create()` that succeeded. */
    method CreateChannelIfAbsent(cid: string)
      modifies this`channels
      ensures channels == Create(old(channels), cid)
    {
      if cid !in channels {
        channels := channels[cid := Channel(ChannelKind, ChannelName, Bot, [])];
      }
    }

    /** `channel.sendMessage({text, user_id: 'ai_bot'})` that succeeded. */
    method PostToChannel(cid: string, text: string)
      requires cid in channels
      modifies this`channels
      ensures channels == Send(old(channels), cid, text)
    {
      channels := channels[cid := channels[cid].(messages := channels[cid].messages + [Msg(text, Bot)])];
    }

    /** `POST /get-messages` with body field `userId`; `queryFails` says whether the
        select throws. */
    method GetMessages(userId: Option<string>, queryFails: bool) returns (r: Response)
      modifies this`calls
      ensures calls == old(calls) + [SelectChats(if Present(userId) then Text(userId.value) else EmptyObject)]
      ensures r != BadRequest
      ensures queryFails ==> r == NoResponse
      ensures !queryFails && Present(userId) ==>
        && r.Ok? && r.body.Messages?
        && r.body.messages == History(chatLog, userId.value)
        && (forall e :: e in r.body.messages <==> e in chatLog && e.userId == userId.value)
        && (forall e :: multiset(r.body.messages)[e] == if e.userId == userId.value then multiset(chatLog)[e] else 0)
        && Subseq(r.body.messages, chatLog)
      ensures !queryFails && !Present(userId) ==> r == Ok(Messages([]))
    {
      // `req.body.userId || {}`
      var key := if Present(userId) then Text(userId.value) else EmptyObject;
      if !KeyTruthy(key) {
        return BadRequest;
      }
      Issue(SelectChats(key));
      if queryFails {
        return NoResponse;
      }
      // no stored userId equals the object `{}`
      var rows := if key.Text? then History(chatLog, key.s) else [];
      if key.Text? {
        HistoryInOrder(chatLog, key.s);
        HistoryCount(chatLog, key.s);
        forall e ensures e in rows <==> e in chatLog && e.userId == key.s {
          HistoryMembers(chatLog, key.s, e);
        }
      }
      r := Ok(Messages(rows));
    }
  }

  /** Two registrations with the same fields: once the first has succeeded, the
      second writes to neither store and, unless one of its two queries throws,
      gives the same answer. */
  method RegisterTwice(s: Server, name: Option<string>, email: Option<string>, failAt1: nat, failAt2: nat)
    returns (first: Response, second: Response, ghost directory1: map<string, UserRec>, ghost rows1: seq<Row>)
    modifies s
    ensures first.Ok? ==> s.directory == directory1 && s.usersTable == rows1
    ensures first.Ok? ==> second == if failAt2 < 2 then Internal else first
    ensures first.Ok? ==>
      first.body.Registered? && first.body.userId in s.directory && HasUser(s.usersTable, first.body.userId)
    ensures old(s.Consistent()) ==> s.Consistent() && UniqueRows(s.usersTable)
  {
    first := s.Register(name, email, failAt1);
    directory1, rows1 := s.directory, s.usersTable;
    second := s.Register(name, email, failAt2);
  }

  /** Two `/chat` requests of one user, each with its fields present and no call
      throwing: a user of both stores gets two answers, two log rows in order, and
      one channel whose last two messages are the two replies. */
  method ChatTwice(s: Server, userId: string, m1: string, m2: string, text1: Option<string>, text2: Option<string>)
    returns (first: Response, second: Response)
    requires userId != "" && m1 != "" && m2 != ""
    modifies s
    ensures first.Ok? <==> userId in old(s.directory) && HasUser(old(s.usersTable), userId)
    ensures first.Ok? ==>
      && first.body.Reply? && second.Ok? && second.body.Reply?
      && s.chatLog == old(s.chatLog) + [ChatEntry(userId, m1, first.body.reply), ChatEntry(userId, m2, second.body.reply)]
      && s.channels.Keys == old(s.channels).Keys + {ChannelId(userId)}
      && |s.channels[ChannelId(userId)].messages| >= 2
      && s.channels[ChannelId(userId)].messages[|s.channels[ChannelId(userId)].messages| - 2..]
         == [Msg(first.body.reply, Bot), Msg(second.body.reply, Bot)]
  {
    var cid := ChannelId(userId);
    first := s.Answer(userId, m1, text1, 6);
    ghost var channels1 := s.channels;
    second := s.Answer(userId, m2, text2, 6);
    if first.Ok? {
      assert s.channels[cid].messages == channels1[cid].messages + [Msg(second.body.reply, Bot)];
    }
  }
}
