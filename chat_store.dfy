/**
 * The chats table and the per-user conversation manager over it.
 *
 * A row is `(username, chat_name, messages, updated_at)`. The table is shared
 * by every user; a manager is bound to one username and filters every query
 * by it. The table's operations (select, upsert, update, delete, insert) are
 * the functions below; the manager's methods are the code that issues them.
 */
module ChatStore {
  import opened Wrappers
  import opened Messages

  datatype ChatRow = ChatRow(username: string, chatName: string, messages: seq<StoredMessage>, updatedAt: int)

  predicate IsChat(r: ChatRow, user: string, name: string) {
    r.username == user && r.chatName == name
  }

  /** The table holds a row for `(user, name)`. */
  predicate HasChat(rows: seq<ChatRow>, user: string, name: string) {
    exists r :: r in rows && IsChat(r, user, name)
  }

  /** No two rows share an owner and a chat name. */
  predicate Unique(rows: seq<ChatRow>) {
    forall i, j :: 0 <= i < j < |rows| && rows[i].username == rows[j].username ==>
      rows[i].chatName != rows[j].chatName
  }

  /** The write of `updated_at`, when the table has that column. */
  function Touch(r: ChatRow, stamp: Option<int>): ChatRow {
    if stamp.Some? then r.(updatedAt := stamp.value) else r
  }

  // ---------------------------------------------------------------------------
  // The table operations the manager issues
  // ---------------------------------------------------------------------------

  /** `select ... eq(username) eq(chat_name)`, first row of the response. */
  function Lookup(rows: seq<ChatRow>, user: string, name: string): (r: Option<ChatRow>)
    ensures r.Some? <==> HasChat(rows, user, name)
    ensures r.Some? ==> IsChat(r.value, user, name) && r.value in rows
  {
    if rows == [] then None
    else
      assert rows == [rows[0]] + rows[1..];
      if IsChat(rows[0], user, name) then Some(rows[0]) else Lookup(rows[1..], user, name)
  }

  /** The stored messages of `(user, name)`, or none when there is no such row. */
  function Stored(rows: seq<ChatRow>, user: string, name: string): seq<StoredMessage> {
    match Lookup(rows, user, name)
    case Some(r) => r.messages
    case None => []
  }

  /** `update({messages, updated_at}).eq(username).eq(chat_name)`: the update half of the upsert. */
  function SetMessages(rows: seq<ChatRow>, user: string, name: string, msgs: seq<StoredMessage>, stamp: Option<int>): seq<ChatRow> {
    if rows == [] then []
    else
      var head := if IsChat(rows[0], user, name) then Touch(rows[0].(messages := msgs), stamp) else rows[0];
      [head] + SetMessages(rows[1..], user, name, msgs, stamp)
  }

  /** The upsert on `(username, chat_name)`: replace the messages of the row, or add the row. */
  function Upsert(rows: seq<ChatRow>, user: string, name: string, msgs: seq<StoredMessage>, stamp: Option<int>): seq<ChatRow> {
    if HasChat(rows, user, name) then SetMessages(rows, user, name, msgs, stamp)
    else rows + [ChatRow(user, name, msgs, stamp.GetOr(0))]
  }

  /** `update({chat_name: new, updated_at}).eq(username).eq(chat_name, old)`. */
  function RenameRows(rows: seq<ChatRow>, user: string, oldName: string, newName: string, stamp: Option<int>): seq<ChatRow> {
    if rows == [] then []
    else
      var head := if IsChat(rows[0], user, oldName) then Touch(rows[0].(chatName := newName), stamp) else rows[0];
      [head] + RenameRows(rows[1..], user, oldName, newName, stamp)
  }

  /** `delete().eq(username).eq(chat_name)`. */
  function DeleteRows(rows: seq<ChatRow>, user: string, name: string): seq<ChatRow> {
    if rows == [] then []
    else if IsChat(rows[0], user, name) then DeleteRows(rows[1..], user, name)
    else [rows[0]] + DeleteRows(rows[1..], user, name)
  }

  /** `insert({username, chat_name, messages: [], created_at, updated_at})`. */
  function InsertChat(rows: seq<ChatRow>, user: string, name: string, stamp: Option<int>): seq<ChatRow> {
    rows + [ChatRow(user, name, [], stamp.GetOr(0))]
  }

  /** `select ... eq(username)` in store order. */
  function RowsOf(rows: seq<ChatRow>, user: string): seq<ChatRow> {
    if rows == [] then []
    else if rows[0].username == user then [rows[0]] + RowsOf(rows[1..], user)
    else RowsOf(rows[1..], user)
  }

  function NamesOf(rows: seq<ChatRow>): (names: seq<string>)
    ensures |names| == |rows|
    ensures forall i :: 0 <= i < |rows| ==> names[i] == rows[i].chatName
  {
    if rows == [] then [] else [rows[0].chatName] + NamesOf(rows[1..])
  }

  /** `l` lists the rows of `rows`, each as often, most recently updated first. */
  predicate RecencyOrdered(l: seq<ChatRow>, rows: seq<ChatRow>) {
    multiset(l) == multiset(rows) && NewestFirst(l)
  }

  /** No row of `l` was updated later than a row before it. */
  predicate NewestFirst(l: seq<ChatRow>) {
    forall i, j :: 0 <= i < j < |l| ==> l[i].updatedAt >= l[j].updatedAt
  }

  /** One way of ordering by `updated_at` descending (ties keep store order). */
  function SortByRecency(rows: seq<ChatRow>): seq<ChatRow> {
    if rows == [] then [] else InsertByRecency(rows[0], SortByRecency(rows[1..]))
  }

  function InsertByRecency(r: ChatRow, l: seq<ChatRow>): seq<ChatRow> {
    if l == [] || r.updatedAt >= l[0].updatedAt then [r] + l
    else [l[0]] + InsertByRecency(r, l[1..])
  }

  // ---------------------------------------------------------------------------
  // Lemmas about the table operations
  // ---------------------------------------------------------------------------

  lemma {:induction false} LookupAfterSetMessages(rows: seq<ChatRow>, user: string, name: string, msgs: seq<StoredMessage>, stamp: Option<int>)
    requires HasChat(rows, user, name)
    ensures var l := Lookup(SetMessages(rows, user, name, msgs, stamp), user, name);
      l.Some? && l.value.messages == msgs
  {
    assert rows == [rows[0]] + rows[1..];
    if !IsChat(rows[0], user, name) {
      LookupAfterSetMessages(rows[1..], user, name, msgs, stamp);
    }
  }

  lemma {:induction false} LookupOtherAfterSetMessages(rows: seq<ChatRow>, user: string, name: string, msgs: seq<StoredMessage>, stamp: Option<int>, user2: string, name2: string)
    requires user != user2 || name != name2
    ensures Lookup(SetMessages(rows, user, name, msgs, stamp), user2, name2) == Lookup(rows, user2, name2)
  {
    if rows != [] {
      LookupOtherAfterSetMessages(rows[1..], user, name, msgs, stamp, user2, name2);
    }
  }

  lemma {:induction false} LookupAppend(rows: seq<ChatRow>, r: ChatRow, user: string, name: string)
    ensures Lookup(rows + [r], user, name) ==
      if HasChat(rows, user, name) then Lookup(rows, user, name)
      else if IsChat(r, user, name) then Some(r) else None
  {
    if rows == [] {
      assert rows + [r] == [r];
    } else {
      assert (rows + [r])[1..] == rows[1..] + [r];
      assert rows == [rows[0]] + rows[1..];
      LookupAppend(rows[1..], r, user, name);
    }
  }

  /** After an upsert the row for `(user, name)` holds exactly the new messages. */
  lemma UpsertThenStored(rows: seq<ChatRow>, user: string, name: string, msgs: seq<StoredMessage>, stamp: Option<int>)
    ensures Stored(Upsert(rows, user, name, msgs, stamp), user, name) == msgs
    ensures HasChat(Upsert(rows, user, name, msgs, stamp), user, name)
  {
    if HasChat(rows, user, name) {
      LookupAfterSetMessages(rows, user, name, msgs, stamp);
    } else {
      LookupAppend(rows, ChatRow(user, name, msgs, stamp.GetOr(0)), user, name);
    }
  }

  /**
   * Saving a history and loading it back gives the history again: the same
   * kinds and contents in the same order, non-human messages as AI messages.
   */
  lemma SaveThenLoad(rows: seq<ChatRow>, user: string, name: string, h: seq<Message>, stamp: Option<int>)
    ensures Deserialize(Stored(Upsert(rows, user, name, Serialize(h), stamp), user, name)) == Normalized(h)
  {
    UpsertThenStored(rows, user, name, Serialize(h), stamp);
    RoundTrip(h);
  }

  /** An upsert of `(user, name)` does not change what any other chat loads. */
  lemma UpsertLeavesOtherChats(rows: seq<ChatRow>, user: string, name: string, msgs: seq<StoredMessage>, stamp: Option<int>, user2: string, name2: string)
    requires user != user2 || name != name2
    ensures Lookup(Upsert(rows, user, name, msgs, stamp), user2, name2) == Lookup(rows, user2, name2)
  {
    if HasChat(rows, user, name) {
      LookupOtherAfterSetMessages(rows, user, name, msgs, stamp, user2, name2);
    } else {
      LookupAppend(rows, ChatRow(user, name, msgs, stamp.GetOr(0)), user, name);
      LookupAppend(rows, ChatRow(user, name, msgs, stamp.GetOr(0)), user2, name2);
    }
  }

  lemma {:induction false} SetMessagesKeepsKeys(rows: seq<ChatRow>, user: string, name: string, msgs: seq<StoredMessage>, stamp: Option<int>)
    ensures var r := SetMessages(rows, user, name, msgs, stamp);
      |r| == |rows| &&
      forall i :: 0 <= i < |rows| ==> r[i].username == rows[i].username && r[i].chatName == rows[i].chatName
  {
    if rows != [] {
      SetMessagesKeepsKeys(rows[1..], user, name, msgs, stamp);
    }
  }

  /** The upsert keeps `(username, chat_name)` unique. */
  lemma UpsertKeepsUnique(rows: seq<ChatRow>, user: string, name: string, msgs: seq<StoredMessage>, stamp: Option<int>)
    requires Unique(rows)
    ensures Unique(Upsert(rows, user, name, msgs, stamp))
  {
    if HasChat(rows, user, name) {
      SetMessagesKeepsKeys(rows, user, name, msgs, stamp);
    } else {
      var r := Upsert(rows, user, name, msgs, stamp);
      forall i, j | 0 <= i < j < |r| && r[i].username == r[j].username
        ensures r[i].chatName != r[j].chatName
      {
        if j == |rows| {
          assert rows[i] in rows;
        }
      }
    }
  }

  /** The upsert inserts exactly when the chat is new. */
  lemma UpsertSize(rows: seq<ChatRow>, user: string, name: string, msgs: seq<StoredMessage>, stamp: Option<int>)
    ensures |Upsert(rows, user, name, msgs, stamp)| == if HasChat(rows, user, name) then |rows| else |rows| + 1
  {
    SetMessagesKeepsKeys(rows, user, name, msgs, stamp);
  }

  lemma {:induction false} RowsOfAppend(rows: seq<ChatRow>, extra: seq<ChatRow>, v: string)
    ensures RowsOf(rows + extra, v) == RowsOf(rows, v) + RowsOf(extra, v)
  {
    if rows == [] {
      assert rows + extra == extra;
    } else {
      assert (rows + extra)[1..] == rows[1..] + extra;
      RowsOfAppend(rows[1..], extra, v);
    }
  }

  lemma {:induction false} SetMessagesIsolated(rows: seq<ChatRow>, user: string, name: string, msgs: seq<StoredMessage>, stamp: Option<int>, v: string)
    requires v != user
    ensures RowsOf(SetMessages(rows, user, name, msgs, stamp), v) == RowsOf(rows, v)
  {
    if rows != [] {
      SetMessagesIsolated(rows[1..], user, name, msgs, stamp, v);
    }
  }

  /** Saving one user's chat leaves every other user's rows as they were. */
  lemma UpsertIsolated(rows: seq<ChatRow>, user: string, name: string, msgs: seq<StoredMessage>, stamp: Option<int>, v: string)
    requires v != user
    ensures RowsOf(Upsert(rows, user, name, msgs, stamp), v) == RowsOf(rows, v)
  {
    if HasChat(rows, user, name) {
      SetMessagesIsolated(rows, user, name, msgs, stamp, v);
    } else {
      RowsOfAppend(rows, [ChatRow(user, name, msgs, stamp.GetOr(0))], v);
    }
  }

  /**
   * Renaming changes the name (and the timestamp) of the rows `(user, old)`
   * only; owners and messages stay, and every other row is the same.
   */
  lemma {:induction false} RenameChangesOnlyName(rows: seq<ChatRow>, user: string, oldName: string, newName: string, stamp: Option<int>)
    ensures var r := RenameRows(rows, user, oldName, newName, stamp);
      |r| == |rows| &&
      forall i :: 0 <= i < |rows| ==>
        r[i].username == rows[i].username && r[i].messages == rows[i].messages &&
        (IsChat(rows[i], user, oldName) ==> r[i].chatName == newName) &&
        (!IsChat(rows[i], user, oldName) ==> r[i] == rows[i])
  {
    if rows != [] {
      RenameChangesOnlyName(rows[1..], user, oldName, newName, stamp);
    }
  }

  /** Renaming when there is no row `(user, old)` changes nothing. */
  lemma {:induction false} RenameWithoutSource(rows: seq<ChatRow>, user: string, oldName: string, newName: string, stamp: Option<int>)
    requires !HasChat(rows, user, oldName)
    ensures RenameRows(rows, user, oldName, newName, stamp) == rows
  {
    if rows != [] {
      assert rows[0] in rows;
      assert forall r :: r in rows[1..] ==> r in rows;
      RenameWithoutSource(rows[1..], user, oldName, newName, stamp);
    }
  }

  /**
   * With the new name free, the renamed chat loads what the old one held, and
   * no row with the old name is left.
   */
  lemma {:induction false} RenameMovesHistory(rows: seq<ChatRow>, user: string, oldName: string, newName: string, stamp: Option<int>)
    requires !HasChat(rows, user, newName) && oldName != newName
    ensures var r := RenameRows(rows, user, oldName, newName, stamp);
      Stored(r, user, newName) == Stored(rows, user, oldName) && !HasChat(r, user, oldName)
  {
    if rows != [] {
      assert rows == [rows[0]] + rows[1..];
      assert !HasChat(rows[1..], user, newName);
      RenameMovesHistory(rows[1..], user, oldName, newName, stamp);
      var r := RenameRows(rows, user, oldName, newName, stamp);
      assert r == [r[0]] + RenameRows(rows[1..], user, oldName, newName, stamp);
    }
  }

  /** Renaming to a free name keeps `(username, chat_name)` unique. */
  lemma RenameKeepsUnique(rows: seq<ChatRow>, user: string, oldName: string, newName: string, stamp: Option<int>)
    requires Unique(rows) && !HasChat(rows, user, newName)
    ensures Unique(RenameRows(rows, user, oldName, newName, stamp))
  {
    var r := RenameRows(rows, user, oldName, newName, stamp);
    RenameChangesOnlyName(rows, user, oldName, newName, stamp);
    forall i, j | 0 <= i < j < |r| && r[i].username == r[j].username
      ensures r[i].chatName != r[j].chatName
    {
      assert rows[i] in rows && rows[j] in rows;
    }
  }

  lemma {:induction false} RenameIsolated(rows: seq<ChatRow>, user: string, oldName: string, newName: string, stamp: Option<int>, v: string)
    requires v != user
    ensures RowsOf(RenameRows(rows, user, oldName, newName, stamp), v) == RowsOf(rows, v)
  {
    if rows != [] {
      RenameIsolated(rows[1..], user, oldName, newName, stamp, v);
    }
  }

  /** After deleting, a row is in the table exactly when it was there and is not the chat `(user, name)`. */
  lemma {:induction false} DeleteExact(rows: seq<ChatRow>, user: string, name: string)
    ensures forall r :: r in DeleteRows(rows, user, name) <==> r in rows && !IsChat(r, user, name)
    ensures !HasChat(DeleteRows(rows, user, name), user, name)
    ensures Stored(DeleteRows(rows, user, name), user, name) == []
  {
    if rows != [] {
      DeleteExact(rows[1..], user, name);
      assert rows == [rows[0]] + rows[1..];
    }
  }

  /** Deleting twice is deleting once. */
  lemma {:induction false} DeleteIdempotent(rows: seq<ChatRow>, user: string, name: string)
    ensures DeleteRows(DeleteRows(rows, user, name), user, name) == DeleteRows(rows, user, name)
  {
    if rows != [] {
      DeleteIdempotent(rows[1..], user, name);
    }
  }

  /** Deleting a chat the user does not have leaves the table as it was. */
  lemma {:induction false} DeleteMissingNoOp(rows: seq<ChatRow>, user: string, name: string)
    requires !HasChat(rows, user, name)
    ensures DeleteRows(rows, user, name) == rows
  {
    if rows != [] {
      assert rows[0] in rows;
      assert forall r :: r in rows[1..] ==> r in rows;
      DeleteMissingNoOp(rows[1..], user, name);
      assert rows == [rows[0]] + rows[1..];
    }
  }

  lemma {:induction false} DeleteIsolated(rows: seq<ChatRow>, user: string, name: string, v: string)
    requires v != user
    ensures RowsOf(DeleteRows(rows, user, name), v) == RowsOf(rows, v)
  {
    if rows != [] {
      DeleteIsolated(rows[1..], user, name, v);
    }
  }

  /** Deleting a chat does not change what any other chat loads. */
  lemma {:induction false} DeleteLeavesOtherChats(rows: seq<ChatRow>, user: string, name: string, user2: string, name2: string)
    requires user != user2 || name != name2
    ensures Lookup(DeleteRows(rows, user, name), user2, name2) == Lookup(rows, user2, name2)
  {
    if rows != [] {
      DeleteLeavesOtherChats(rows[1..], user, name, user2, name2);
    }
  }

  lemma {:induction false} DeleteKeepsUnique(rows: seq<ChatRow>, user: string, name: string)
    requires Unique(rows)
    ensures Unique(DeleteRows(rows, user, name))
  {
    if rows != [] {
      assert Unique(rows[1..]);
      DeleteKeepsUnique(rows[1..], user, name);
      DeleteExact(rows[1..], user, name);
      var t := DeleteRows(rows[1..], user, name);
      forall j | 0 <= j < |t| && rows[0].username == t[j].username
        ensures rows[0].chatName != t[j].chatName
      {
        assert t[j] in rows[1..];
        var k :| 0 <= k < |rows[1..]| && rows[1..][k] == t[j];
        assert rows[k + 1] == t[j];
      }
    }
  }

  lemma {:induction false} RowsOfExact(rows: seq<ChatRow>, user: string, name: string)
    ensures HasChat(RowsOf(rows, user), user, name) <==> HasChat(rows, user, name)
    ensures forall r :: r in RowsOf(rows, user) <==> r in rows && r.username == user
  {
    if rows != [] {
      RowsOfExact(rows[1..], user, name);
      assert rows == [rows[0]] + rows[1..];
    }
  }

  /**
   * Creating a chat that does not exist adds exactly one row for the user, an
   * empty one, and keeps the table unique.
   */
  lemma CreateAddsOne(rows: seq<ChatRow>, user: string, name: string, stamp: Option<int>)
    requires !HasChat(rows, user, name)
    ensures var r := InsertChat(rows, user, name, stamp);
      |RowsOf(r, user)| == |RowsOf(rows, user)| + 1 && Stored(r, user, name) == [] &&
      (Unique(rows) ==> Unique(r))
  {
    var row := ChatRow(user, name, [], stamp.GetOr(0));
    RowsOfAppend(rows, [row], user);
    LookupAppend(rows, row, user, name);
    var r := InsertChat(rows, user, name, stamp);
    if Unique(rows) {
      forall i, j | 0 <= i < j < |r| && r[i].username == r[j].username
        ensures r[i].chatName != r[j].chatName
      {
        if j == |rows| {
          assert rows[i] in rows;
        }
      }
    }
  }

  /** After a create the chat exists, so a second identical create is refused. */
  lemma CreatedExists(rows: seq<ChatRow>, user: string, name: string, stamp: Option<int>)
    ensures HasChat(InsertChat(rows, user, name, stamp), user, name)
  {
    var r := InsertChat(rows, user, name, stamp);
    assert r[|rows|] in r;
  }

  lemma {:induction false} CreateIsolated(rows: seq<ChatRow>, user: string, name: string, stamp: Option<int>, v: string)
    requires v != user
    ensures RowsOf(InsertChat(rows, user, name, stamp), v) == RowsOf(rows, v)
  {
    RowsOfAppend(rows, [ChatRow(user, name, [], stamp.GetOr(0))], v);
  }

  /** Inserting adds exactly the one row. */
  lemma {:induction false} InsertByRecencyPerm(r: ChatRow, l: seq<ChatRow>)
    ensures multiset(InsertByRecency(r, l)) == multiset(l) + multiset{r}
  {
    if l != [] && r.updatedAt < l[0].updatedAt {
      InsertByRecencyPerm(r, l[1..]);
      assert l == [l[0]] + l[1..];
    }
  }

  /** Inserting into a list that is newest first keeps it newest first. */
  lemma {:induction false} InsertByRecencySorted(r: ChatRow, l: seq<ChatRow>)
    requires NewestFirst(l)
    ensures NewestFirst(InsertByRecency(r, l))
  {
    if l != [] && r.updatedAt < l[0].updatedAt {
      InsertByRecencySorted(r, l[1..]);
      InsertByRecencyPerm(r, l[1..]);
      var t := InsertByRecency(r, l[1..]);
      forall x | x in t ensures l[0].updatedAt >= x.updatedAt {
        assert x in multiset(t);
        if x != r {
          assert x in multiset(l[1..]);
        }
      }
      NewestFirstCons(l[0], t);
    }
  }

  lemma NewestFirstCons(r: ChatRow, t: seq<ChatRow>)
    requires NewestFirst(t) && forall x :: x in t ==> r.updatedAt >= x.updatedAt
    ensures NewestFirst([r] + t)
  {
    var l := [r] + t;
    forall i, j | 0 <= i < j < |l| ensures l[i].updatedAt >= l[j].updatedAt {
      assert l[j] == t[j - 1];
      if i > 0 {
        assert l[i] == t[i - 1];
      }
    }
  }

  lemma InsertByRecencyOrdered(r: ChatRow, l: seq<ChatRow>)
    requires NewestFirst(l)
    ensures var t := InsertByRecency(r, l);
      multiset(t) == multiset(l) + multiset{r} && NewestFirst(t)
  {
    InsertByRecencyPerm(r, l);
    InsertByRecencySorted(r, l);
  }

  /** Ordering by `updated_at` lists every row once, most recently updated first. */
  lemma {:induction false} SortByRecencyOrdered(rows: seq<ChatRow>)
    ensures RecencyOrdered(SortByRecency(rows), rows)
  {
    if rows != [] {
      SortByRecencyOrdered(rows[1..]);
      InsertByRecencyOrdered(rows[0], SortByRecency(rows[1..]));
      assert rows == [rows[0]] + rows[1..];
    }
  }

  /** A name is listed for the user exactly when the user has a chat by that name. */
  lemma ListedExactly(rows: seq<ChatRow>, user: string, l: seq<ChatRow>)
    requires multiset(l) == multiset(RowsOf(rows, user))
    ensures forall x :: x in NamesOf(l) <==> HasChat(rows, user, x)
  {
    forall x ensures x in NamesOf(l) <==> HasChat(rows, user, x) {
      RowsOfExact(rows, user, x);
      if x in NamesOf(l) {
        var i :| 0 <= i < |l| && NamesOf(l)[i] == x;
        assert l[i] in multiset(RowsOf(rows, user));
      }
      if HasChat(rows, user, x) {
        var r :| r in RowsOf(rows, user) && IsChat(r, user, x);
        assert r in multiset(l);
        var i :| 0 <= i < |l| && l[i] == r;
        assert NamesOf(l)[i] == x;
      }
    }
  }

  // ---------------------------------------------------------------------------
  // The table and the manager
  // ---------------------------------------------------------------------------

  /**
   * The chats table. `online` is false while the store is unreachable, so
   * that every query raises; `hasTimestamps` says whether the table has the
   * `updated_at` column.
   */
  class ChatTable {
    var rows: seq<ChatRow>
    var online: bool
    const hasTimestamps: bool

    constructor (rows: seq<ChatRow>, online: bool, hasTimestamps: bool)
      ensures this.rows == rows && this.online == online && this.hasTimestamps == hasTimestamps
    {
      this.rows := rows;
      this.online := online;
      this.hasTimestamps := hasTimestamps;
    }
  }

  /** Manages the chat histories of one user. */
  class ConversationManager {
    const username: string
    const table: ChatTable

    constructor (username: string, table: ChatTable)
      ensures this.username == username && this.table == table
    {
      this.username := username;
      this.table := table;
    }

    /** The value written to `updated_at`, if the table has one. */
    function Stamp(now: int): Option<int> {
      if table.hasTimestamps then Some(now) else None
    }

    /** The stored history of `chatName`; no row, or a store error, gives `[]`. */
    method LoadHistory(chatName: string) returns (history: seq<Message>)
      ensures !table.online ==> history == []
      ensures table.online ==> history == Deserialize(Stored(table.rows, username, chatName))
      ensures table.online && !HasChat(table.rows, username, chatName) ==> history == []
    {
      if !table.online {
        return [];
      }
      var found := Lookup(table.rows, username, chatName);
      if found.Some? {
        history := Deserialize(found.value.messages);
      } else {
        history := [];
      }
    }

    /** Upserts `history` as the messages of `chatName`; a store error leaves the table as it was. */
    method SaveHistory(chatName: string, history: seq<Message>, now: int)
      modifies table`rows
      ensures table.rows == if table.online then Upsert(old(table.rows), username, chatName, Serialize(history), Stamp(now))
                            else old(table.rows)
      ensures Unique(old(table.rows)) ==> Unique(table.rows)
    {
      if table.online {
        if Unique(table.rows) {
          UpsertKeepsUnique(table.rows, username, chatName, Serialize(history), Stamp(now));
        }
        table.rows := Upsert(table.rows, username, chatName, Serialize(history), Stamp(now));
      }
    }

    /**
     * The names of this user's chats: most recently updated first when the
     * table has `updated_at`, in store order otherwise; `[]` on a store error.
     */
    method GetAvailableChats() returns (names: seq<string>)
      ensures !table.online ==> names == []
      ensures table.online && table.hasTimestamps ==>
        exists l :: RecencyOrdered(l, RowsOf(table.rows, username)) && names == NamesOf(l)
      ensures table.online && !table.hasTimestamps ==> names == NamesOf(RowsOf(table.rows, username))
      ensures table.online ==> forall x :: x in names <==> HasChat(table.rows, username, x)
    {
      if !table.online {
        return [];
      }
      var mine := RowsOf(table.rows, username);
      var listing := mine;
      if table.hasTimestamps {
        SortByRecencyOrdered(mine);
        listing := SortByRecency(mine);
      }
      ListedExactly(table.rows, username, listing);
      names := NamesOf(listing);
    }

    /**
     * Renames `oldName` to `newName`. Refused (false, no change) when the new
     * name is empty or the old one, when this user already has a chat called
     * `newName`, or on a store error. Succeeds even when `oldName` does not
     * exist, in which case no row changes.
     */
    method RenameChat(oldName: string, newName: string, now: int) returns (ok: bool)
      modifies table`rows
      ensures ok <==> newName != "" && newName != oldName && table.online && !HasChat(old(table.rows), username, newName)
      ensures table.rows == if ok then RenameRows(old(table.rows), username, oldName, newName, Stamp(now))
                            else old(table.rows)
      ensures Unique(old(table.rows)) ==> Unique(table.rows)
    {
      if newName == "" || newName == oldName {
        return false;
      }
      if !table.online {
        return false;
      }
      var existing := Lookup(table.rows, username, newName);
      if existing.Some? {
        return false;
      }
      if Unique(table.rows) {
        RenameKeepsUnique(table.rows, username, oldName, newName, Stamp(now));
      }
      table.rows := RenameRows(table.rows, username, oldName, newName, Stamp(now));
      ok := true;
    }

    /** Deletes this user's rows named `chatName`; a store error leaves the table as it was. */
    method DeleteChat(chatName: string)
      modifies table`rows
      ensures table.rows == if table.online then DeleteRows(old(table.rows), username, chatName) else old(table.rows)
      ensures Unique(old(table.rows)) ==> Unique(table.rows)
    {
      if table.online {
        if Unique(table.rows) {
          DeleteKeepsUnique(table.rows, username, chatName);
        }
        table.rows := DeleteRows(table.rows, username, chatName);
      }
    }

    /**
     * Creates an empty chat called `chatName`. Refused (false, no change) when
     * this user already has one, or on a store error.
     */
    method CreateNewChat(chatName: string, now: int) returns (ok: bool)
      modifies table`rows
      ensures ok <==> table.online && !HasChat(old(table.rows), username, chatName)
      ensures table.rows == if ok then InsertChat(old(table.rows), username, chatName, Stamp(now)) else old(table.rows)
      ensures Unique(old(table.rows)) ==> Unique(table.rows)
    {
      if !table.online {
        return false;
      }
      var existing := Lookup(table.rows, username, chatName);
      if existing.Some? {
        return false;
      }
      CreateAddsOne(table.rows, username, chatName, Stamp(now));
      table.rows := InsertChat(table.rows, username, chatName, Stamp(now));
      ok := true;
    }
  }
}
