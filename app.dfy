/**
 * The session-state logic of the chat page: the session keys and their
 * defaults, the sidebar's new-chat and chat-selection blocks, and the chat
 * panel's load-on-switch, rename, delete and chat-turn blocks.
 *
 * What the user does during one render (the selected chat, the typed chat
 * name, the prompt), the clock and the language-model chain are parameters.
 * The chats table is the one of `ChatStore`; the session is a `SessionState`
 * object that every block updates in place.
 */
module App {
  import opened Wrappers
  import opened Strings
  import opened Messages
  import opened ChatStore
  import DocumentStore

  /** `DEFAULT_CHAT_NAME` of the settings. */
  const DefaultChatName: string := "New Chat"

  /** The start of every name the new-chat button makes, before the timestamp. */
  const NewChatPrefix: string := "New Chat "

  /** How many chunks the retriever hands to the chain. */
  const RetrievedChunks: nat := 5

  // ---------------------------------------------------------------------------
  // Session keys
  // ---------------------------------------------------------------------------

  datatype Key = LoggedInKey | UserKey | CurrentChatKey | MessagesKey | PrevChatKey | ChatCounterKey

  /** The keys in the order the defaults are visited. */
  const SessionKeys: seq<Key> := [LoggedInKey, UserKey, CurrentChatKey, MessagesKey, PrevChatKey, ChatCounterKey]

  /** A session value. */
  datatype Val = BoolVal(b: bool) | StrVal(s: string) | MessagesVal(h: seq<Message>) | IntVal(i: int)

  /** The default a key is given when the session does not hold it. */
  function DefaultValue(k: Key): Val {
    match k
    case LoggedInKey => BoolVal(false)
    case UserKey => StrVal("")
    case CurrentChatKey => StrVal(DefaultChatName)
    case MessagesKey => MessagesVal([])
    case PrevChatKey => StrVal("")
    case ChatCounterKey => IntVal(1)
  }

  /** The session of one browser tab. */
  class SessionState {
    var loggedIn: bool
    var username: string
    var currentChat: string
    var messages: seq<Message>
    var prevChat: string
    var chatCounter: int
    /** The keys the session holds. */
    var present: set<Key>

    constructor (loggedIn: bool, username: string, currentChat: string, messages: seq<Message>,
                 prevChat: string, chatCounter: int, present: set<Key>)
      ensures this.loggedIn == loggedIn && this.username == username && this.currentChat == currentChat
      ensures this.messages == messages && this.prevChat == prevChat && this.chatCounter == chatCounter
      ensures this.present == present
    {
      this.loggedIn := loggedIn;
      this.username := username;
      this.currentChat := currentChat;
      this.messages := messages;
      this.prevChat := prevChat;
      this.chatCounter := chatCounter;
      this.present := present;
    }

    /** The value held under a key. */
    function Value(k: Key): Val
      reads this
    {
      match k
      case LoggedInKey => BoolVal(loggedIn)
      case UserKey => StrVal(username)
      case CurrentChatKey => StrVal(currentChat)
      case MessagesKey => MessagesVal(messages)
      case PrevChatKey => StrVal(prevChat)
      case ChatCounterKey => IntVal(chatCounter)
    }

    /** Every message of the session is a human or an AI message. */
    predicate HumanAndAIOnly()
      reads this
    {
      forall i :: 0 <= i < |messages| ==> IsHumanOrAI(messages[i])
    }

    /** The keys no chat block writes keep their values. */
    twostate predicate OthersUnchanged()
      reads this
    {
      loggedIn == old(loggedIn) && username == old(username) &&
      chatCounter == old(chatCounter) && present == old(present)
    }

    /** `st.session_state[k] = default`. */
    method SetToDefault(k: Key)
      modifies this
      ensures Value(k) == DefaultValue(k)
      ensures forall j :: j != k ==> Value(j) == old(Value(j))
      ensures present == old(present)
    {
      match k
      case LoggedInKey => loggedIn := false;
      case UserKey => username := "";
      case CurrentChatKey => currentChat := DefaultChatName;
      case MessagesKey => messages := [];
      case PrevChatKey => prevChat := "";
      case ChatCounterKey => chatCounter := 1;
    }
  }

  // ---------------------------------------------------------------------------
  // The store effects the blocks are specified with
  // ---------------------------------------------------------------------------

  /** The chats table after `save_history(name, h)`: the upsert, or no change on a store error. */
  function Saved(conv: ConversationManager, rows: seq<ChatRow>, name: string, h: seq<Message>, now: int): seq<ChatRow>
    reads conv.table
  {
    if conv.table.online then Upsert(rows, conv.username, name, Serialize(h), conv.Stamp(now)) else rows
  }

  /** The retriever settings: a metadata filter on the username, and how many chunks. */
  datatype RetrieverConfig = RetrieverConfig(filter: map<string, string>, k: nat)

  function RetrieverFor(username: string): RetrieverConfig {
    RetrieverConfig(map[DocumentStore.UsernameKey := username], RetrievedChunks)
  }

  /**
   * The conversational chain: the answer to a prompt, given the retriever and
   * the earlier messages, or `None` when `invoke` raises.
   */
  type Chain = (RetrieverConfig, string, seq<Message>) -> Option<string>

  // ---------------------------------------------------------------------------
  // Unique names for new chats
  // ---------------------------------------------------------------------------

  /** The `k`-th name the new-chat loop tries: the timestamp name, then `{name}_2`, `{name}_3`, ... */
  function Candidate(original: string, k: nat): string {
    if k <= 1 then original else original + "_" + NatToString(k)
  }

  /** `name` is the first candidate not among `taken`. */
  ghost predicate FirstFree(taken: seq<string>, original: string, name: string) {
    exists k :: 1 <= k && name == Candidate(original, k) && name !in taken &&
      forall j :: 1 <= j < k ==> Candidate(original, j) in taken
  }

  /** Different tries give different names, so the loop can only meet each taken name once. */
  lemma CandidatesDistinct(original: string, j: nat, k: nat)
    requires 1 <= j < k
    ensures Candidate(original, j) != Candidate(original, k)
  {
    var p := original + "_";
    assert Candidate(original, k) == p + NatToString(k);
    if j == 1 {
      assert |Candidate(original, k)| > |original|;
    } else {
      NatToStringDistinct(j, k);
      assert Candidate(original, j) == p + NatToString(j);
      assert (p + NatToString(j))[|p|..] == NatToString(j);
      assert (p + NatToString(k))[|p|..] == NatToString(k);
    }
  }

  /** There is one first free name. */
  lemma FirstFreeUnique(taken: seq<string>, original: string, a: string, b: string)
    requires FirstFree(taken, original, a) && FirstFree(taken, original, b)
    ensures a == b
  {
    var ka :| 1 <= ka && a == Candidate(original, ka) && a !in taken &&
      forall j :: 1 <= j < ka ==> Candidate(original, j) in taken;
    var kb :| 1 <= kb && b == Candidate(original, kb) && b !in taken &&
      forall j :: 1 <= j < kb ==> Candidate(original, j) in taken;
  }

  /** When the timestamp name is free, it is the name chosen. */
  lemma FreeTimestampNameKept(taken: seq<string>, original: string, name: string)
    requires original !in taken && FirstFree(taken, original, name)
    ensures name == original
  {
    assert FirstFree(taken, original, original) by {
      assert Candidate(original, 1) == original;
    }
    FirstFreeUnique(taken, original, name, original);
  }

  ghost function Candidates(original: string, m: nat): set<string> {
    if m == 0 then {} else Candidates(original, m - 1) + {Candidate(original, m)}
  }

  lemma {:induction false} CandidatesCard(original: string, m: nat)
    ensures |Candidates(original, m)| == m
    ensures forall j :: m < j ==> Candidate(original, j) !in Candidates(original, m)
    ensures forall x :: x in Candidates(original, m) ==> exists j :: 1 <= j <= m && x == Candidate(original, j)
  {
    if m > 0 {
      CandidatesCard(original, m - 1);
      forall j | m < j ensures Candidate(original, j) != Candidate(original, m) {
        CandidatesDistinct(original, m, j);
      }
    }
  }

  lemma {:induction false} SubsetCard(a: set<string>, b: set<string>)
    requires a <= b
    ensures |a| <= |b|
    decreases a
  {
    if a != {} {
      var x :| x in a;
      SubsetCard(a - {x}, b - {x});
    }
  }

  /** At most as many tries can be taken as there are taken names. */
  lemma TakenTries(original: string, m: nat, pool: set<string>)
    requires forall j :: 1 <= j <= m ==> Candidate(original, j) in pool
    ensures m <= |pool|
  {
    CandidatesCard(original, m);
    SubsetCard(Candidates(original, m), pool);
  }

  /**
   * The new-chat loop: the timestamp name, or else `{name}_{k}` for the
   * smallest `k >= 2` that is not taken.
   */
  method UniqueChatName(available: seq<string>, original: string) returns (name: string)
    ensures name !in available
    ensures FirstFree(available, original, name)
  {
    ghost var pool := set x | x in available;
    var counter := 1;
    name := original;
    while name in available
      invariant 1 <= counter <= |pool| + 1
      invariant name == Candidate(original, counter)
      invariant forall j :: 1 <= j < counter ==> Candidate(original, j) in available
      decreases |pool| + 1 - counter
    {
      TakenTries(original, counter, pool);
      counter := counter + 1;
      name := original + "_" + NatToString(counter);
    }
  }

  /** `available_chats.index(name)`. */
  function IndexOf(s: seq<string>, x: string): (i: nat)
    requires x in s
    ensures i < |s| && s[i] == x
    ensures forall j :: 0 <= j < i ==> s[j] != x
  {
    if s[0] == x then 0 else 1 + IndexOf(s[1..], x)
  }

  // ---------------------------------------------------------------------------
  // Lemmas about saved sessions
  // ---------------------------------------------------------------------------

  /**
   * After a chat turn in a session of human and AI messages, loading the chat
   * gives back the whole session, the new prompt and answer last.
   */
  lemma TurnThenReload(rows: seq<ChatRow>, user: string, name: string, h: seq<Message>,
                       prompt: string, answer: string, stamp: Option<int>)
    requires forall i :: 0 <= i < |h| ==> IsHumanOrAI(h[i])
    ensures var h' := h + [HumanMessage(prompt), AIMessage(answer)];
      Deserialize(Stored(Upsert(rows, user, name, Serialize(h'), stamp), user, name)) == h'
  {
    var h' := h + [HumanMessage(prompt), AIMessage(answer)];
    UpsertThenStored(rows, user, name, Serialize(h'), stamp);
    RoundTripExact(h');
  }

  /** A save under one chat does not change what another chat of the user loads. */
  lemma SaveLeavesOtherLoads(rows: seq<ChatRow>, user: string, saved: string, h: seq<Message>,
                             stamp: Option<int>, other: string)
    requires saved != other
    ensures Stored(Upsert(rows, user, saved, Serialize(h), stamp), user, other) == Stored(rows, user, other)
  {
    UpsertLeavesOtherChats(rows, user, saved, Serialize(h), stamp, user, other);
  }

  // ---------------------------------------------------------------------------
  // The page
  // ---------------------------------------------------------------------------

  class RagAgentUI {
    const state: SessionState

    constructor (state: SessionState)
      ensures this.state == state
    {
      this.state := state;
    }

    /** Every key the session lacks gets its default; keys it holds keep their values. */
    method InitializeSessionState()
      modifies state
      ensures forall k :: k in state.present
      ensures forall k :: state.Value(k) == if k in old(state.present) then old(state.Value(k)) else DefaultValue(k)
    {
      for i := 0 to |SessionKeys|
        invariant forall k :: k in state.present <==> k in old(state.present) || k in SessionKeys[..i]
        invariant forall k ::
          state.Value(k) == if k in old(state.present) || k !in SessionKeys[..i] then old(state.Value(k)) else DefaultValue(k)
      {
        assert SessionKeys[..i + 1] == SessionKeys[..i] + [SessionKeys[i]];
        var key := SessionKeys[i];
        if key !in state.present {
          state.SetToDefault(key);
          state.present := state.present + {key};
        }
      }
      assert forall k :: k in SessionKeys[..|SessionKeys|] by {
        assert SessionKeys[..|SessionKeys|] == SessionKeys;
        forall k ensures k in SessionKeys {
          match k
          case LoggedInKey => assert SessionKeys[0] == k;
          case UserKey => assert SessionKeys[1] == k;
          case CurrentChatKey => assert SessionKeys[2] == k;
          case MessagesKey => assert SessionKeys[3] == k;
          case PrevChatKey => assert SessionKeys[4] == k;
          case ChatCounterKey => assert SessionKeys[5] == k;
        }
      }
    }

    /**
     * The new-chat button: save the current messages if there are any, pick a
     * free name from the timestamp, create the chat and switch to it. When the
     * create is refused the session stays as it was.
     */
    method NewChat(conv: ConversationManager, available: seq<string>, timestamp: string, now: int)
      returns (name: string, created: bool)
      modifies state, conv.table`rows
      ensures FirstFree(available, NewChatPrefix + timestamp, name)
      ensures var saved := if old(state.messages) != [] then Saved(conv, old(conv.table.rows), old(state.currentChat), old(state.messages), now)
                           else old(conv.table.rows);
        (created <==> conv.table.online && !HasChat(saved, conv.username, name)) &&
        conv.table.rows == if created then InsertChat(saved, conv.username, name, conv.Stamp(now)) else saved
      ensures created ==> state.currentChat == name && state.messages == [] && state.prevChat == ""
      ensures !created ==>
        state.currentChat == old(state.currentChat) && state.messages == old(state.messages) && state.prevChat == old(state.prevChat)
      ensures state.OthersUnchanged()
      ensures Unique(old(conv.table.rows)) ==> Unique(conv.table.rows)
      ensures old(state.HumanAndAIOnly()) ==> state.HumanAndAIOnly()
    {
      if state.messages != [] {
        conv.SaveHistory(state.currentChat, state.messages, now);
      }
      ghost var saved := conv.table.rows;
      assert saved == if old(state.messages) != [] then Saved(conv, old(conv.table.rows), old(state.currentChat), old(state.messages), now)
                      else old(conv.table.rows);
      name := UniqueChatName(available, NewChatPrefix + timestamp);
      created := conv.CreateNewChat(name, now);
      if created {
        state.currentChat := name;
        state.messages := [];
        state.prevChat := "";
      }
    }

    /**
     * The chat selector. With chats listed, a current chat that is not among
     * them becomes the first one, and the selector shows the current chat.
     * Picking another chat saves the current messages, if any, under the
     * current chat and switches. With no chats listed, an empty current chat
     * becomes the default name.
     */
    method SelectChat(conv: ConversationManager, available: seq<string>, pick: Option<nat>, now: int)
      returns (idx: nat)
      requires pick.Some? ==> pick.value < |available|
      modifies state, conv.table`rows
      ensures available == [] ==>
        state.currentChat == (if old(state.currentChat) == "" then DefaultChatName else old(state.currentChat)) &&
        state.prevChat == old(state.prevChat) && conv.table.rows == old(conv.table.rows)
      ensures available != [] ==>
        var shown := if old(state.currentChat) in available then old(state.currentChat) else available[0];
        var selected := if pick.Some? then available[pick.value] else shown;
        idx < |available| && available[idx] == shown && (forall j :: 0 <= j < idx ==> available[j] != shown) &&
        state.currentChat == selected && state.currentChat in available &&
        (selected == shown ==> state.prevChat == old(state.prevChat) && conv.table.rows == old(conv.table.rows)) &&
        (selected != shown ==>
          state.prevChat == "" &&
          conv.table.rows == if old(state.messages) != [] && shown != "" then Saved(conv, old(conv.table.rows), shown, old(state.messages), now)
                             else old(conv.table.rows))
      ensures state.messages == old(state.messages)
      ensures state.OthersUnchanged()
      ensures Unique(old(conv.table.rows)) ==> Unique(conv.table.rows)
    {
      if available != [] {
        if state.currentChat !in available {
          state.currentChat := available[0];
        }
        idx := IndexOf(available, state.currentChat);
        var selected := if pick.Some? then available[pick.value] else available[idx];
        if selected != state.currentChat {
          if state.messages != [] && state.currentChat != "" {
            conv.SaveHistory(state.currentChat, state.messages, now);
          }
          state.currentChat := selected;
          state.prevChat := "";
        }
      } else {
        idx := 0;
        if state.currentChat == "" {
          state.currentChat := DefaultChatName;
        }
      }
    }

    /**
     * Load on switch: when the current chat is not the one last loaded, save
     * the messages under the chat last loaded (if both are non-empty), then
     * load the current chat. The load sees the table as it was before that
     * save, since the save is under another name.
     */
    method LoadOnSwitch(conv: ConversationManager, now: int)
      modifies state, conv.table`rows
      ensures state.currentChat == old(state.currentChat) && state.prevChat == state.currentChat
      ensures old(state.prevChat) == old(state.currentChat) ==>
        state.messages == old(state.messages) && conv.table.rows == old(conv.table.rows)
      ensures old(state.prevChat) != old(state.currentChat) ==>
        conv.table.rows == (if old(state.prevChat) != "" && old(state.messages) != []
                            then Saved(conv, old(conv.table.rows), old(state.prevChat), old(state.messages), now)
                            else old(conv.table.rows)) &&
        state.messages == if conv.table.online then Deserialize(Stored(old(conv.table.rows), conv.username, state.currentChat)) else []
      ensures state.OthersUnchanged()
      ensures Unique(old(conv.table.rows)) ==> Unique(conv.table.rows)
      ensures old(state.HumanAndAIOnly()) ==> state.HumanAndAIOnly()
    {
      if state.prevChat != state.currentChat {
        if state.prevChat != "" && state.messages != [] && state.prevChat != state.currentChat {
          SaveLeavesOtherLoads(conv.table.rows, conv.username, state.prevChat, state.messages,
                               conv.Stamp(now), state.currentChat);
          conv.SaveHistory(state.prevChat, state.messages, now);
        }
        var loaded := conv.LoadHistory(state.currentChat);
        DeserializeHumanOrAI(Stored(conv.table.rows, conv.username, state.currentChat));
        state.messages := loaded;
        state.prevChat := state.currentChat;
      }
    }

    /**
     * The chat-name box: when the typed name differs from the current chat
     * and is not blank, rename the current chat to the stripped name and make
     * that the current chat, whatever the rename returned; the next render
     * then loads it without saving under the old name.
     */
    method RenameCurrent(conv: ConversationManager, typed: string, now: int)
      modifies state, conv.table`rows
      ensures var target := Strip(typed);
        typed != old(state.currentChat) && target != "" ==>
          state.currentChat == target && state.prevChat == "" &&
          conv.table.rows == if target != old(state.currentChat) && conv.table.online && !HasChat(old(conv.table.rows), conv.username, target)
                             then RenameRows(old(conv.table.rows), conv.username, old(state.currentChat), target, conv.Stamp(now))
                             else old(conv.table.rows)
      ensures typed == old(state.currentChat) || Strip(typed) == "" ==>
        state.currentChat == old(state.currentChat) && state.prevChat == old(state.prevChat) &&
        conv.table.rows == old(conv.table.rows)
      ensures state.messages == old(state.messages)
      ensures state.OthersUnchanged()
      ensures Unique(old(conv.table.rows)) ==> Unique(conv.table.rows)
    {
      var target := Strip(typed);
      if typed != state.currentChat && target != "" {
        var _ := conv.RenameChat(state.currentChat, target, now);
        state.currentChat := target;
        state.prevChat := "";
      }
    }

    /** The chat-name box as the page has it: `prev_chat` keeps the old name. */
    method RenameCurrentAsWritten(conv: ConversationManager, typed: string, now: int)
      modifies state, conv.table`rows
      ensures var target := Strip(typed);
        typed != old(state.currentChat) && target != "" ==>
          state.currentChat == target && state.prevChat == old(state.prevChat) &&
          conv.table.rows == if target != old(state.currentChat) && conv.table.online && !HasChat(old(conv.table.rows), conv.username, target)
                             then RenameRows(old(conv.table.rows), conv.username, old(state.currentChat), target, conv.Stamp(now))
                             else old(conv.table.rows)
      ensures typed == old(state.currentChat) || Strip(typed) == "" ==>
        state.currentChat == old(state.currentChat) && state.prevChat == old(state.prevChat) &&
        conv.table.rows == old(conv.table.rows)
      ensures state.messages == old(state.messages)
      ensures state.OthersUnchanged()
    {
      var target := Strip(typed);
      if typed != state.currentChat && target != "" {
        var _ := conv.RenameChat(state.currentChat, target, now);
        state.currentChat := target;
      }
    }

    /** The delete button: delete the current chat and reset to an empty default chat. */
    method DeleteCurrent(conv: ConversationManager)
      modifies state, conv.table`rows
      ensures conv.table.rows == if conv.table.online then DeleteRows(old(conv.table.rows), conv.username, old(state.currentChat))
                                 else old(conv.table.rows)
      ensures state.currentChat == DefaultChatName && state.messages == [] && state.prevChat == ""
      ensures state.OthersUnchanged()
      ensures Unique(old(conv.table.rows)) ==> Unique(conv.table.rows)
    {
      conv.DeleteChat(state.currentChat);
      state.currentChat := DefaultChatName;
      state.messages := [];
      state.prevChat := "";
    }

    /**
     * One chat turn: append the prompt, ask the chain with the earlier
     * messages and a retriever restricted to this user's documents, append
     * the answer, and save the whole history under the current chat. An
     * empty prompt does nothing. When the chain raises, the prompt stays
     * appended and neither an answer nor a save follows.
     */
    method ChatTurn(conv: ConversationManager, prompt: string, chain: Chain, now: int)
      requires conv.username == state.username
      modifies state, conv.table`rows
      ensures prompt == "" ==> state.messages == old(state.messages) && conv.table.rows == old(conv.table.rows)
      ensures prompt != "" ==>
        match chain(RetrieverFor(state.username), prompt, old(state.messages))
        case Some(answer) =>
          state.messages == old(state.messages) + [HumanMessage(prompt), AIMessage(answer)] &&
          conv.table.rows == Saved(conv, old(conv.table.rows), state.currentChat, state.messages, now)
        case None =>
          state.messages == old(state.messages) + [HumanMessage(prompt)] &&
          conv.table.rows == old(conv.table.rows)
      ensures state.currentChat == old(state.currentChat) && state.prevChat == old(state.prevChat)
      ensures state.OthersUnchanged()
      ensures Unique(old(conv.table.rows)) ==> Unique(conv.table.rows)
      ensures old(state.HumanAndAIOnly()) ==> state.HumanAndAIOnly()
    {
      if prompt != "" {
        state.messages := state.messages + [HumanMessage(prompt)];
        var retriever := RetrieverFor(state.username);
        var response := chain(retriever, prompt, state.messages[..|state.messages| - 1]);
        match response {
          case None =>
            return;
          case Some(answer) =>
            state.messages := state.messages + [AIMessage(answer)];
            conv.SaveHistory(state.currentChat, state.messages, now);
        }
      }
    }

    /**
     * Renaming the loaded chat (which holds messages) to a free name with the
     * chat-name box as written, then the next render with the selector left
     * alone: the load-on-switch block saves the messages under the old name,
     * so the user has a chat under the old name again, beside the new one.
     */
    method RenameThenRenderAsWritten(conv: ConversationManager, typed: string, nowRename: int, nowSave: int)
      requires conv.table.online && state.prevChat == state.currentChat && state.messages != [] && state.currentChat != ""
      requires HasChat(conv.table.rows, conv.username, state.currentChat)
      requires Strip(typed) == typed && typed != "" && typed != state.currentChat
      requires !HasChat(conv.table.rows, conv.username, typed)
      modifies state, conv.table`rows
      ensures HasChat(conv.table.rows, conv.username, old(state.currentChat))
      ensures HasChat(conv.table.rows, conv.username, typed)
    {
      ghost var oldName, rows0 := state.currentChat, conv.table.rows;
      RenameCurrentAsWritten(conv, typed, nowRename);
      ghost var rows1 := conv.table.rows;
      RenameMovesHistory(rows0, conv.username, oldName, typed, conv.Stamp(nowRename));
      RenamedListed(rows0, conv.username, oldName, typed, conv.Stamp(nowRename));
      ghost var h := state.messages;
      RenderAfterRename(conv, nowSave);
      UpsertThenStored(rows1, conv.username, oldName, Serialize(h), conv.Stamp(nowSave));
      UpsertLeavesOtherChats(rows1, conv.username, oldName, Serialize(h), conv.Stamp(nowSave), conv.username, typed);
    }

    /** The same steps with the corrected rename: only the new name is left. */
    method RenameThenRender(conv: ConversationManager, typed: string, nowRename: int, nowSave: int)
      requires conv.table.online && state.prevChat == state.currentChat && state.messages != []
      requires HasChat(conv.table.rows, conv.username, state.currentChat)
      requires Strip(typed) == typed && typed != "" && typed != state.currentChat
      requires !HasChat(conv.table.rows, conv.username, typed)
      modifies state, conv.table`rows
      ensures !HasChat(conv.table.rows, conv.username, old(state.currentChat))
      ensures HasChat(conv.table.rows, conv.username, typed)
    {
      ghost var oldName, rows0 := state.currentChat, conv.table.rows;
      RenameCurrent(conv, typed, nowRename);
      RenameMovesHistory(rows0, conv.username, oldName, typed, conv.Stamp(nowRename));
      RenamedListed(rows0, conv.username, oldName, typed, conv.Stamp(nowRename));
      RenderAfterRename(conv, nowSave);
    }

    /**
     * The next render after a rename to `currentChat`, which is listed: the
     * selector, left alone, changes nothing; then load on switch.
     */
    method RenderAfterRename(conv: ConversationManager, now: int)
      requires conv.table.online && HasChat(conv.table.rows, conv.username, state.currentChat)
      requires state.prevChat != state.currentChat
      modifies state, conv.table`rows
      ensures conv.table.rows == if old(state.prevChat) != "" && old(state.messages) != []
                                 then Saved(conv, old(conv.table.rows), old(state.prevChat), old(state.messages), now)
                                 else old(conv.table.rows)
    {
      var available := conv.GetAvailableChats();
      var _ := SelectChat(conv, available, None, now);
      LoadOnSwitch(conv, now);
    }
  }

  // ---------------------------------------------------------------------------
  // Renaming and the next render
  // ---------------------------------------------------------------------------

  /** A rename whose source exists lists the new name. */
  lemma RenamedListed(rows: seq<ChatRow>, user: string, oldName: string, newName: string, stamp: Option<int>)
    requires HasChat(rows, user, oldName)
    ensures HasChat(RenameRows(rows, user, oldName, newName, stamp), user, newName)
  {
    RenameChangesOnlyName(rows, user, oldName, newName, stamp);
    var r :| r in rows && IsChat(r, user, oldName);
    var i :| 0 <= i < |rows| && rows[i] == r;
    assert RenameRows(rows, user, oldName, newName, stamp)[i] in RenameRows(rows, user, oldName, newName, stamp);
  }

  /** The table of the two scenarios: `u` has one chat `A`. */
  lemma ScenarioTable(row: ChatRow)
    requires row.username == "u" && row.chatName == "A"
    ensures HasChat([row], "u", "A") && !HasChat([row], "u", "B")
  {
    assert row in [row];
    assert forall r :: r in [row] ==> r == row;
  }

  lemma StripB()
    ensures Strip("B") == "B"
  {
    assert !IsSpace('B');
  }

  /**
   * The session of both scenarios: user `u` has one chat `A` holding one
   * message, and that chat is loaded.
   */
  method Scenario() returns (ui: RagAgentUI, conv: ConversationManager)
    ensures fresh(ui) && fresh(ui.state) && fresh(conv) && fresh(conv.table)
    ensures conv.table.online && conv.username == "u"
    ensures ui.state.currentChat == "A" && ui.state.prevChat == "A" && ui.state.messages != []
    ensures HasChat(conv.table.rows, "u", "A") && !HasChat(conv.table.rows, "u", "B")
  {
    var row := ChatRow("u", "A", [StoredMessage(HumanKind, "hi")], 0);
    var table := new ChatTable([row], true, false);
    conv := new ConversationManager("u", table);
    var state := new SessionState(true, "u", "A", [HumanMessage("hi")], "A", 1,
      {LoggedInKey, UserKey, CurrentChatKey, MessagesKey, PrevChatKey, ChatCounterKey});
    ui := new RagAgentUI(state);
    ScenarioTable(row);
  }

  /**
   * Renaming `A` to `B` with the chat-name box as written, then rendering
   * again with the chat selector left alone, leaves `u` with both `A` and `B`.
   */
  method RenameAsWrittenKeepsOldName() returns (names: seq<string>)
    ensures "A" in names && "B" in names
  {
    var ui, conv := Scenario();
    StripB();
    ui.RenameThenRenderAsWritten(conv, "B", 1, 2);
    names := conv.GetAvailableChats();
  }

  /** The same steps with the rename resetting `prev_chat`: only `B` is left. */
  method RenameKeepsOneChat() returns (names: seq<string>)
    ensures "B" in names && "A" !in names
  {
    var ui, conv := Scenario();
    StripB();
    ui.RenameThenRender(conv, "B", 1, 2);
    names := conv.GetAvailableChats();
  }
}
