# RAG chat agent: conversation store, knowledge store, ingestion and session logic

This project is a Dafny model of the core of a Streamlit chat application. The
application answers questions from a user's own uploaded documents (retrieval-
augmented generation) and keeps that user's named chat sessions in a Supabase
database. The model covers these parts:

- **Messages** (`messages.dfy`). Human and AI messages, and their stored JSON form
  `{type, content}`.
- **ChatStore** (`chat_store.dfy`). The shared `chats` table and the
  `ConversationManager` class bound to one username. It loads, saves (upsert),
  lists, renames, deletes and creates chats.
- **DocumentStore** (`document_store.dfy`). The shared `documents` table and the
  `VectorStoreManager` class. It tags chunks with the user, lists the user's
  source file names and deletes a document's chunks.
- **Ingest** (`ingest.dfy`). `process_uploaded_files`: each uploaded file is
  written to a temporary path, classified by its suffix, loaded when supported
  and removed again.
- **App** (`app.dfy`). The session state of a browser tab and the page blocks
  that change it:
  - session defaults;
  - the new-chat button, with its unique-name loop;
  - the chat selector;
  - load on switch;
  - the chat-name box;
  - the delete button;
  - one chat turn.
- **Strings** (`strings.dfy`) and **Wrappers** (`wrappers.dfy`). The Python
  string operations the code relies on, and an `Option` type:
  - `os.path.basename`, `str.strip`, ASCII `str.lower`, `str(int)`;
  - substring `LIKE '%f%'`;
  - `sorted` on strings.

How outside effects are modelled:

- **Store errors.** Each table is a class with an `online` flag. When it is false,
  every query on that table raises. Every `try`/`except` in the source is then an
  explicit branch.
- **The `updated_at` column.** A table has it or not (`hasTimestamps`), which
  selects between the source's two query variants.
- **The clock.** A `now` parameter.
- **Outside collaborators.** The text splitter, the file loaders, the
  language-model chain and the outcome of the vector store's write are
  function-valued parameters. A loader or the chain gives `None` when it
  raises.
- **The local file system.** A map from path to bytes.
- **What the user does during one render.** Parameters: the typed chat name, the
  selector pick and the prompt.

## Model

| member | source | states |
|---|---|---|
| Messages.ToStored | components/conversation_manager.py:41-45 | The stored record of one message: type 'human' for a human message and 'ai' for every other, with the content kept. |
| Messages.FromStored | components/conversation_manager.py:27-31 | The message of one stored record: a human message for type 'human' and an AI message for every other type, with the content kept. |
| Messages.Serialize | components/conversation_manager.py:41-45 | The JSON list written by a save: one record per message, in order. |
| Messages.Deserialize | components/conversation_manager.py:27-31 | The history given by a load: one message per stored record, in order. |
| Messages.RoundTrip | components/conversation_manager.py:27-31 | Storing a history and loading it back keeps its length, order and every content. Human messages stay human, every other message comes back as an AI message. |
| Messages.RoundTripExact | components/conversation_manager.py:41-45 | A history of human and AI messages is given back exactly by store-then-load. |
| Messages.StoredRoundTrip | components/conversation_manager.py:27-31 | Loading stored records and storing them again changes only a record's type: a type other than 'human' becomes 'ai'. The contents and order are kept. |
| Messages.DeserializeHumanOrAI | components/conversation_manager.py:27-31 | Loading produces only human and AI messages. |
| Messages.SerializeAppend | components/conversation_manager.py:41-45 | Storing commutes with appending messages. |
| ChatStore.Stored | components/conversation_manager.py:19-26 | The `messages` field of the first row with that username and chat name, or `[]` when there is none. |
| ChatStore.SetMessages | components/conversation_manager.py:50-62 | The update half of the upsert: every row of that chat gets the new messages, and `updated_at` when the column exists. Other rows are kept. |
| ChatStore.Upsert | components/conversation_manager.py:50-62 | The upsert merged on (username, chat name): the update when the chat exists, otherwise one new row appended. |
| ChatStore.RenameRows | components/conversation_manager.py:109-123 | The rename update: every row of the user with the old name gets the new name, and `updated_at` when the column exists. |
| ChatStore.DeleteRows | components/conversation_manager.py:133-137 | The delete filtered on username and chat name: the rows of that chat are dropped, the others kept in order. |
| ChatStore.InsertChat | components/conversation_manager.py:158-172 | The insert: one row for the user and name with no messages, appended. |
| ChatStore.RowsOf | components/conversation_manager.py:72-82 | The select filtered on username: that user's rows in store order. |
| ChatStore.NamesOf | components/conversation_manager.py:84 | The `chat_name` of each row, in order, one per row. |
| ChatStore.SortByRecency | components/conversation_manager.py:72-76 | The reference order for `.order("updated_at", desc=True)`: an insertion sort, newest first. |
| ChatStore.Lookup | components/conversation_manager.py:19-26 | The select by username and chat name finds a row exactly when the user has a chat of that name. The row it finds has that owner and that name. |
| ChatStore.LookupAfterSetMessages | components/conversation_manager.py:50-55 | After the update half of the upsert, the chat's row holds the new messages. |
| ChatStore.LookupOtherAfterSetMessages | components/conversation_manager.py:50-55 | The update half of the upsert does not change the lookup of any other (user, name) pair. |
| ChatStore.LookupAppend | components/conversation_manager.py:158-164 | A lookup after appending a row finds the earlier row if there is one, else the new row if it matches. |
| ChatStore.UpsertThenStored | components/conversation_manager.py:50-62 | After an upsert the chat exists and holds exactly the saved messages. |
| ChatStore.SaveThenLoad | components/conversation_manager.py:16-62 | After a save, a load of the chat gives back the saved history, with non-human messages normalised to AI messages. |
| ChatStore.UpsertLeavesOtherChats | components/conversation_manager.py:50-62 | An upsert does not change what any other (user, name) pair loads. |
| ChatStore.SetMessagesKeepsKeys | components/conversation_manager.py:50-55 | Updating the messages keeps every row's owner and chat name, and the row count. |
| ChatStore.UpsertKeepsUnique | components/conversation_manager.py:50-62 | An upsert keeps the (owner, chat name) pairs unique. |
| ChatStore.UpsertSize | components/conversation_manager.py:50-62 | An upsert adds one row exactly when the chat did not exist, and otherwise keeps the row count. |
| ChatStore.RowsOfAppend | components/conversation_manager.py:72-82 | A user's rows from a concatenated table are that user's rows from each part, in order. |
| ChatStore.SetMessagesIsolated | components/conversation_manager.py:50-55 | Updating one user's chat leaves every other user's rows unchanged. |
| ChatStore.UpsertIsolated | components/conversation_manager.py:50-62 | One user's save leaves every other user's rows unchanged. |
| ChatStore.RenameChangesOnlyName | components/conversation_manager.py:109-123 | A rename changes only the chat name (and possibly `updated_at`) of the matching rows. It keeps every owner and message list, and leaves other rows equal. |
| ChatStore.RenameWithoutSource | components/conversation_manager.py:109-125 | Renaming a chat that does not exist changes no row. |
| ChatStore.RenameMovesHistory | components/conversation_manager.py:89-125 | When the new name is free, the new name loads what the old name held, and no chat under the old name is left. |
| ChatStore.RenameKeepsUnique | components/conversation_manager.py:96-125 | A rename to a free name keeps (owner, chat name) unique. |
| ChatStore.RenameIsolated | components/conversation_manager.py:109-123 | A rename leaves every other user's rows unchanged. |
| ChatStore.DeleteExact | components/conversation_manager.py:130-137 | After a delete the table holds exactly the other rows. The chat is gone and loads as empty. |
| ChatStore.DeleteIdempotent | components/conversation_manager.py:130-137 | Deleting twice is deleting once. |
| ChatStore.DeleteMissingNoOp | components/conversation_manager.py:130-137 | Deleting a chat the user does not have leaves the table unchanged. |
| ChatStore.DeleteIsolated | components/conversation_manager.py:130-137 | A delete leaves every other user's rows unchanged. |
| ChatStore.DeleteLeavesOtherChats | components/conversation_manager.py:130-137 | A delete does not change what any other (user, name) pair loads. |
| ChatStore.DeleteKeepsUnique | components/conversation_manager.py:130-137 | A delete keeps (owner, chat name) unique. |
| ChatStore.RowsOfExact | components/conversation_manager.py:72-82 | The user-filtered select holds exactly the user's rows, so it has a chat exactly when the table has it for that user. |
| ChatStore.CreateAddsOne | components/conversation_manager.py:141-175 | Creating a free name adds one row for the user, holding no messages, and keeps uniqueness. |
| ChatStore.CreatedExists | components/conversation_manager.py:158-172 | After the insert the chat exists. |
| ChatStore.CreateIsolated | components/conversation_manager.py:158-172 | A create leaves every other user's rows unchanged. |
| ChatStore.InsertByRecencyPerm | components/conversation_manager.py:75 | One step of ordering by `updated_at` adds exactly the one row. |
| ChatStore.InsertByRecencySorted | components/conversation_manager.py:75 | One step of ordering by `updated_at` keeps the list newest first. |
| ChatStore.InsertByRecencyOrdered | components/conversation_manager.py:75 | One step of ordering by `updated_at`: the result is the list plus the row, newest first. |
| ChatStore.SortByRecencyOrdered | components/conversation_manager.py:72-76 | Ordering by `updated_at` descending is a permutation of the rows and is newest first. |
| ChatStore.ListedExactly | components/conversation_manager.py:84 | Any permutation of the user's rows lists each of the user's chat names and no other name. |
| ChatStore.ConversationManager.LoadHistory | components/conversation_manager.py:16-35 | On success the load gives the stored history of the chat, or `[]` when there is no such chat. A store error gives `[]`. |
| ChatStore.ConversationManager.SaveHistory | components/conversation_manager.py:37-65 | The save makes the table the upsert of the stored history, writing `updated_at` only when the column exists. A store error is swallowed and leaves the table unchanged. Uniqueness is kept. |
| ChatStore.ConversationManager.GetAvailableChats | components/conversation_manager.py:67-87 | The names of exactly this user's chats. With `updated_at` they come newest first (a permutation of the user's rows). Without it they come in store order. A store error gives `[]`. |
| ChatStore.ConversationManager.RenameChat | components/conversation_manager.py:89-128 | The rename is refused exactly when the new name is empty or unchanged, when the user already has it, or on a store error. Otherwise it is the rename update. Uniqueness is kept. |
| ChatStore.ConversationManager.DeleteChat | components/conversation_manager.py:130-139 | The delete removes the user's rows of that chat. A store error is swallowed and leaves the table unchanged. |
| ChatStore.ConversationManager.CreateNewChat | components/conversation_manager.py:141-179 | The create succeeds exactly when the store is reachable and the name is free, and it then inserts an empty chat. Otherwise nothing changes. Uniqueness is kept. |
| DocumentStore.Tagged | components/vector_store.py:45-48 | One chunk after the tagging loop: its metadata, or `{}` when it had none, with `username` set to the user. |
| DocumentStore.TagAll | components/vector_store.py:45-48 | Every chunk tagged, in order, one per chunk. |
| DocumentStore.ToRows | components/vector_store.py:50-51 | The rows the vector store writes: each chunk's text and metadata, in order, one per chunk. |
| DocumentStore.Owns | components/vector_store.py:67-75 | The row's metadata has `username` equal to the user, which is both what the `contains` filter selects and what the Python re-check accepts. |
| DocumentStore.SourcesOf | components/vector_store.py:65-80 | The set built by the loop: the basename of every non-empty source of the user's rows. |
| DocumentStore.OwnedRows | components/vector_store.py:65-68 | The select filtered on the owner: the user's rows in store order. |
| DocumentStore.RemoveMatching | components/vector_store.py:92-96 | The delete: the user's rows whose source contains the file name are dropped, the others kept in order. |
| DocumentStore.TagAllAt | components/vector_store.py:45-48 | Each chunk after tagging is that chunk with `username` set, and its metadata is created when it is missing. |
| DocumentStore.TaggingOwns | components/vector_store.py:45-48 | Every tagged chunk carries the user's name and keeps its other metadata keys and its text. |
| DocumentStore.ToRowsAt | components/vector_store.py:50-51 | The write stores each chunk's text and metadata in order. |
| DocumentStore.TaggedRowsOwned | components/vector_store.py:45-51 | Every row written by `add_documents` is owned by the adding user. |
| DocumentStore.SourcesOfAppend | components/vector_store.py:72-79 | The source set of a concatenated table is the union of the parts' source sets. |
| DocumentStore.SourcesOfExact | components/vector_store.py:65-80 | A name is listed exactly when some row of the user, with a non-empty source, has that name as the basename of its source. |
| DocumentStore.SourcesIgnoreOthers | components/vector_store.py:65-75 | Rows the user does not own never change the user's source list. |
| DocumentStore.AddIsolated | components/vector_store.py:45-51 | Documents added by another user never change this user's source list. |
| DocumentStore.AddedSourceListed | components/vector_store.py:45-80 | After an add, the basename of every added chunk's non-empty source is listed for the adding user. |
| DocumentStore.OwnedSources | components/vector_store.py:65-75 | Filtering by owner in the query and again in Python gives the same sources as the table as a whole. |
| DocumentStore.OwnedRowsExact | components/vector_store.py:65-68 | The owner-filtered select holds exactly the user's rows. |
| DocumentStore.RemoveMatchingExact | components/vector_store.py:92-96 | After the delete, the table holds exactly the rows that are not this user's with a source containing the file name. |
| DocumentStore.RemoveIsolated | components/vector_store.py:92-96 | A delete leaves every other user's rows unchanged. |
| DocumentStore.RemoveIdempotent | components/vector_store.py:92-96 | Deleting twice is deleting once. |
| DocumentStore.RemoveMissingNoOp | components/vector_store.py:92-96 | Deleting a file name that none of the user's rows matches leaves the table unchanged. |
| DocumentStore.DeletedNotListed | components/vector_store.py:58-102 | After deleting a file name, no listed source of the user contains it. |
| DocumentStore.VectorStoreManager.TagSplits | components/vector_store.py:45-48 | The tagging loop leaves the chunk array equal to the tagged chunks, in place. |
| DocumentStore.VectorStoreManager.AddDocuments | components/vector_store.py:35-56 | No documents means nothing happens. Otherwise the call succeeds exactly when the table is reachable and the vector store writes every row, and then the tagged chunks are appended in order. An unreachable table writes nothing. When the vector store raises after writing some rows (none when the embedding call fails), exactly that prefix of the tagged rows stays in the table. |
| DocumentStore.PartialAddIsolated | components/vector_store.py:45-51 | A partly written upload by another user leaves this user's source list unchanged. |
| DocumentStore.VectorStoreManager.GetDocumentSources | components/vector_store.py:58-84 | The result is strictly sorted (so without duplicates) and holds exactly the user's source basenames. A store error gives `[]`. |
| DocumentStore.VectorStoreManager.DeleteDocument | components/vector_store.py:86-102 | The delete succeeds exactly when the store is reachable, and it then removes the user's chunks whose source contains the name. A failure changes nothing. |
| Ingest.TempPath | components/document_processor.py:13 | The temporary path `temp_<name>` (pathlib drops the leading `./`). |
| Ingest.PathName | components/document_processor.py:17 | pathlib's `name`: the final path component, ignoring trailing '/' and '.' components. |
| Ingest.Classify | components/document_processor.py:17-28 | The loader chosen for a path: by the lower-cased suffix of its final component, pdf, txt, docx, or unsupported. |
| Ingest.LoadOne | components/document_processor.py:17-30 | What one file contributes when its loader does not raise: the loader's documents, or nothing when unsupported. |
| Ingest.Loaded | components/document_processor.py:11-32 | The documents of a batch in which no loader raises: each file's contribution, in input order. |
| Ingest.Fails | components/document_processor.py:17-30 | A file fails when it is supported and its loader raises on its temporary path and bytes; an unsupported file never reaches a loader. |
| Ingest.FirstFailureUnique | components/document_processor.py:12-30 | There is at most one file that is the first whose loader raises. |
| Ingest.FirstFailureExists | components/document_processor.py:12-30 | When some loader raises, some file is the first whose loader raises. |
| Ingest.LastDot | components/document_processor.py:17 | The index of the last '.', or none when there is no '.'. |
| Ingest.Suffix | components/document_processor.py:17 | A non-empty suffix is an ending of the name that starts with '.', is at least two characters long and is not the whole name. |
| Ingest.LoadedAppend | components/document_processor.py:11-32 | Loading a concatenation of batches concatenates their documents, so input order is kept. |
| Ingest.OnlySupportedContribute | components/document_processor.py:25-30 | The documents of all files are the documents of the supported files alone. |
| Ingest.NothingSupportedNothingLoaded | components/document_processor.py:25-28 | A batch without a supported file, the empty batch included, gives no documents. |
| Ingest.TempPathName | components/document_processor.py:13 | For a name without '/', the temporary path's final component is `temp_` followed by the name. |
| Ingest.ClassifiedByEnding | components/document_processor.py:13-24 | For a name without '/', the file goes to the pdf, txt or docx loader exactly when its name ends with that extension in some mix of upper and lower case. |
| Ingest.ClassifiedIfEnding | components/document_processor.py:17-24 | A name ending in a known extension, in any case, goes to that extension's loader. |
| Ingest.EndingIfClassified | components/document_processor.py:17-24 | A file sent to a loader has a name ending in that loader's extension, in some case. |
| Ingest.SuffixOfEnding | components/document_processor.py:13-17 | A name ending in an extension, in any case, has that ending as its suffix. |
| Ingest.TempSuffixEnding | components/document_processor.py:13-17 | The suffix of a temporary path is an ending of the uploaded file's name. |
| Ingest.NoSuffixSkipped | components/document_processor.py:25-28 | A name without '.' has no suffix and the file is skipped. |
| Ingest.UpperCasePdf | components/document_processor.py:17-20 | `A.PDF` goes to the PDF loader. |
| Ingest.CsvSkipped | components/document_processor.py:25-28 | `data.csv` is skipped. |
| Ingest.NotesTxt | components/document_processor.py:21-22 | `notes.txt` goes to the text loader. |
| Ingest.SkippedThenLoaded | components/document_processor.py:25-30 | An unsupported file followed by a text file whose loader succeeds gives exactly the text loader's documents for the text file. |
| Ingest.CsvSkippedTxtLoaded | components/document_processor.py:11-32 | Uploading `data.csv` then `notes.txt`, when the text loader succeeds, gives exactly the documents of `notes.txt`. |
| Ingest.WriteThenRemove | components/document_processor.py:14-15 | Writing a path and removing it again is the same as removing it from the file system before the write. |
| Ingest.ProcessUploadedFiles | components/document_processor.py:9-32 | The call returns exactly when no loader raises. It then gives each supported file's documents in input order, and the file system ends as it began, less the temporary paths. When a loader raises, the batch stops at the first such file: no documents come back, the earlier temporary files are removed, and that file's temporary copy stays on disk. |
| Strings.Strip | app.py:173 | `str.strip()`: the whitespace prefix and suffix removed. |
| Strings.Contains | components/vector_store.py:95 | Python's `f in s`: `f` occurs in the string as a contiguous substring. It stands for the `LIKE '%f%'` test without wildcards. |
| Strings.Less | components/vector_store.py:80 | The order `sorted` uses on strings: code point by code point, a proper prefix first. |
| Strings.Basename | components/vector_store.py:79 | The basename is an ending of the path that holds no '/', and follows the last '/'. |
| Strings.BasenameAppend | components/vector_store.py:79 | Appending a part without '/' to a path appends it to the basename. |
| Strings.BasenameContains | components/vector_store.py:79-95 | Whatever a basename contains, the full path contains. |
| Strings.StripLeft | app.py:173 | Removes exactly a whitespace prefix, and what remains does not start with whitespace. |
| Strings.StripRight | app.py:173 | Removes exactly a whitespace suffix, and what remains does not end with whitespace. |
| Strings.StripIsTrimmedInfix | app.py:173-175 | `strip()` gives the part of the string between a whitespace prefix and a whitespace suffix. That part starts and ends with non-space. |
| Strings.StripEmptyIff | app.py:173 | `strip()` is empty exactly when the string is all whitespace. |
| Strings.Lower | components/document_processor.py:17 | Lowering keeps the length and lowers every character on its own. |
| Strings.LowerSuffix | components/document_processor.py:17 | Lowering commutes with taking an ending. |
| Strings.NatToString | app.py:105 | `str(n)` is non-empty, is one digit exactly for `n < 10`, and ends in the digit of `n % 10`. |
| Strings.NatToStringDistinct | app.py:103-105 | Different numbers have different decimal strings. |
| Strings.LessIrreflexive | components/vector_store.py:80 | No string sorts before itself. |
| Strings.LessTransitive | components/vector_store.py:80 | String order is transitive. |
| Strings.LessTotal | components/vector_store.py:80 | Of two different strings, one sorts before the other. |
| Strings.InsertSorted | components/vector_store.py:80 | Inserting into a strictly sorted list keeps it strictly sorted and adds exactly the element. |
| Strings.SortedList | components/vector_store.py:80 | `sorted(list(s))` is strictly sorted and holds exactly the elements of `s`. |
| App.RagAgentUI.InitializeSessionState | app.py:21-32 | Afterwards every session key is present. A key that was present keeps its value, and every other key gets its default. |
| App.SessionState.SetToDefault | app.py:30-32 | Setting a key to its default changes that key only. |
| App.Candidate | app.py:98-105 | The name tried on the k-th pass of the new-chat loop: the timestamp name on the first pass, then the timestamp name with `_k` appended. |
| App.FirstFree | app.py:101-105 | The name is a candidate not among the available chats, and every earlier candidate is among them. |
| App.Saved | app.py:160-163 | The table after `save_history` of a history under a chat: the upsert of its stored form, or unchanged on a store error. |
| App.RetrieverFor | app.py:201-206 | The retriever settings for a user: the filter on `username` and `k = 5`. |
| App.CandidatesDistinct | app.py:101-105 | Different tries of the new-chat loop give different names. |
| App.FirstFreeUnique | app.py:101-105 | There is at most one first free name. |
| App.FreeTimestampNameKept | app.py:98-103 | When the timestamp name is free, that name is chosen. |
| App.CandidatesCard | app.py:101-105 | The first `m` tries are `m` different names. |
| App.TakenTries | app.py:101-105 | The loop can only try as many taken names as there are taken names. |
| App.UniqueChatName | app.py:98-105 | The loop ends with a name that is not among the available chats, and it is the first free one of the timestamp name, `name_2`, `name_3`, and so on. |
| App.IndexOf | app.py:126 | `list.index`: the first position of the element. |
| App.TurnThenReload | app.py:192-216 | After a chat turn on a session of human and AI messages, loading the chat gives back the whole session, with the prompt and answer last. |
| App.SaveLeavesOtherLoads | app.py:160-166 | The save under the chat last loaded does not change what the current chat loads. |
| App.RagAgentUI.NewChat | app.py:90-117 | The button's effects: the messages are saved first when there are any; the name chosen is the first free one; the chat is created exactly when the store is reachable and the name is free, and the session then switches to the empty new chat; a refused create leaves the session as it was. Uniqueness and the human/AI-only session are kept. |
| App.RagAgentUI.SelectChat | app.py:119-150 | A current chat that is not listed becomes the first listed one. The selector shows the current chat's first position. Picking another chat saves non-empty messages under a non-empty current chat, switches and resets `prev_chat`. With no chats listed, an empty current chat becomes the default name. |
| App.RagAgentUI.LoadOnSwitch | app.py:159-167 | When the chat last loaded is not the current chat: save the messages under the chat last loaded if both are non-empty, then load the current chat from the table as it was before (a store error gives `[]`), and mark it loaded. Otherwise nothing changes. |
| App.RagAgentUI.RenameCurrent | app.py:172-176 | For a typed name other than the current chat that is not blank: the store rename to the stripped name is issued, the current chat becomes the stripped name and `prev_chat` is reset. Otherwise nothing changes. Corrected form, see Findings. |
| App.RagAgentUI.RenameCurrentAsWritten | app.py:172-176 | The same block as written: `prev_chat` keeps the old name. |
| App.RagAgentUI.DeleteCurrent | app.py:179-184 | The current chat is deleted in the store (swallowed on a store error), and the session becomes the empty default chat with `prev_chat` reset. |
| App.RagAgentUI.ChatTurn | app.py:192-216 | A non-empty prompt appends the prompt and then the chain's answer. The answer is computed from the earlier messages and a retriever filtered on the session's user with `k = 5`, and the whole history is saved under the current chat for that same user. When the chain raises, the prompt stays appended with no answer and nothing is saved. An empty prompt does nothing. |
| App.RagAgentUI.RenameThenRenderAsWritten | app.py:160-176 | With the rename as written, renaming the loaded chat with messages to a free name, then rendering again, leaves chats under both the old and the new name. |
| App.RagAgentUI.RenameThenRender | app.py:160-176 | With the corrected rename, the same steps leave only the new name. |
| App.RagAgentUI.RenderAfterRename | app.py:119-167 | The render after a rename to a listed chat: the selector changes nothing, and load on switch saves under the chat last loaded. |
| App.RenamedListed | components/conversation_manager.py:109-116 | Renaming an existing chat makes the new name exist. |
| App.RenameAsWrittenKeepsOldName | app.py:160-176 | User `u` with one loaded chat `A` renames it to `B` with the block as written: afterwards both `A` and `B` are listed. |
| App.RenameKeepsOneChat | app.py:160-176 | The same steps with the corrected block: `B` is listed and `A` is not. |

## Left out

- Login, sign-up and logout (app.py:34-60, 152-156), the page layout, and every `st.*` display call: these are rendering and authentication, not state logic. The username is a field of the session.
- Embeddings, similarity search, the text splitter's chunking, the file loaders' text extraction and the language-model call are outside code. The splitter, the loaders, the chain and the outcome of the vector store's write (`split`, `Loader`, `Chain`, `store`) are function-valued parameters. The embedding vectors and the similarity search are not modelled; the retriever is modelled by its settings (filter, `k`).
- `LLMHandler` (components/llm_handler.py) is not part of this model.
- The `created_at` column is not stored: nothing in the code reads it.
- ChatStore.ConversationManager.CreateNewChat: one `hasTimestamps` flag stands for both `created_at` and `updated_at`. The first insert (components/conversation_manager.py:158-164) writes both columns. A table with `updated_at` but no `created_at` therefore takes the fallback insert without `updated_at` (:165-172), and the new row gets no time. The model writes the time whenever `updated_at` exists.
- DocumentStore.VectorStoreManager.GetDocumentSources: selects are modelled as unpaged, so every matching row is returned. The store returns at most its row cap, 1000 rows by default. `get_document_sources` selects one row per chunk, so a user with more chunks than that can have sources missing from the list. The same holds for the chat selects, which return one row per chat.
- ChatStore.Upsert: the chats table's primary key is taken to be (username, chat_name), which is what `upsert` without `on_conflict` merges on. Under another key, a save would add a duplicate row or be refused. `SaveThenLoad`, `UpsertThenStored`, `UpsertKeepsUnique`, `UpsertSize` and every uniqueness result rest on this.
- Only `updated_at` is stored, as an integer time from `now`. The ISO text form is not modelled.
- DocumentStore.VectorStoreManager.DeleteDocument, DocumentStore.RemoveMatching, Strings.Contains: the `LIKE` pattern `%name%` is modelled as a plain substring test (`DocumentStore.RemoveMatching`). A `%` or `_` inside the file name is a wildcard in the real store and can match more rows. Every stored source starts with `temp_`, so `_` is common in the names.
- `st.cache_resource` and the `_cached_sources` attribute: these are performance caches and do not change any result.
- The `print` and `st.warning`/`st.error` messages: logging only.
- Concurrency: two sessions racing between an existence check and an insert or update. Every operation is modelled as one atomic step, so the check-then-act race is not captured.
- A stored record without a `type` or `content` key: the source then raises `KeyError` and the load returns `[]`. Records are modelled as always having both fields.
- Ingest.ProcessUploadedFiles: a failure to write or remove the temporary file is not modelled. In the source it aborts the whole batch. A loader that raises is modelled (`Loader` gives `None`).
- Ingest.Classify: only part of pathlib's path handling is modelled: a trailing '/' and a final '.' component. Names with '/' inside go through the same function, but the classification lemmas are stated only for names without '/'.
- Strings.Lower: ASCII letters only. Python's `str.lower` also lowers other letters, but no non-ASCII letter lowers onto one of the characters of `.pdf`, `.txt` or `.docx`.
- ChatStore.ConversationManager.GetAvailableChats: with `updated_at`, the contract says only that the names come in some newest-first permutation of the rows. The database's order among rows with equal `updated_at` is not fixed.
- App.RagAgentUI.SelectChat: the `except (ValueError, IndexError)` branch (app.py:127-129) is not modelled, because it cannot run. Once the current chat is made a member of a non-empty list, `index` finds it.
- App.RagAgentUI.SelectChat: the Streamlit selectbox is the `pick` parameter. `None` means the user left it alone, so it shows the current chat.
- App.RagAgentUI.NewChat: one `now` stands for the clock during the whole block. The save and the create get the same time, and the timestamp name is a parameter.
- The `chat_counter` session key is only initialised; nothing reads or writes it.
- `save_history` and `delete_chat` only print a store error, and an exception while loading a temporary file escapes `process_uploaded_files`. The model follows the code: `SaveHistory` and `DeleteChat` return nothing, their errors leave the table as it was, and `ProcessUploadedFiles` returns `None` for the escaping exception.

## Findings

| source | as written | input that shows it | evidently intended | confidence | as-written member | corrected member |
|---|---|---|---|---|---|---|
| app.py:172-176 | The rename sets `current_chat` to the new name but leaves `prev_chat` at the old name. On the next render, load on switch (app.py:160-163) sees `prev_chat != current_chat` and saves the messages under the old name, which re-creates a chat under the old name. | User `u` has one chat `A` with one message, and it is loaded (`prev_chat == current_chat == "A"`). The user types `B` in the chat-name box, and the page renders again with the selector left alone. | Reset `prev_chat` to `""` as the new-chat, selector and delete blocks do, so that the renamed chat is loaded and only `B` remains. | medium; not executed | App.RagAgentUI.RenameCurrentAsWritten, App.RagAgentUI.RenameThenRenderAsWritten, App.RenameAsWrittenKeepsOldName | App.RagAgentUI.RenameCurrent, App.RagAgentUI.RenameThenRender, App.RenameKeepsOneChat |
