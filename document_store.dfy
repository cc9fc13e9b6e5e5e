/**
 * The documents table and the per-user vector store manager over it.
 *
 * A row holds a chunk's text and its metadata map; the embedding column is
 * not modelled. Ownership is the metadata entry 'username': it is written
 * when chunks are added and every read or delete filters on it.
 */
module DocumentStore {
  import opened Wrappers
  import opened Strings

  type Metadata = map<string, string>

  /** A loaded document or a chunk of one: its text and its metadata, which may be missing. */
  datatype Document = Document(pageContent: string, metadata: Option<Metadata>)

  /** A row of the documents table. */
  datatype DocRow = DocRow(content: string, metadata: Metadata)

  const UsernameKey: string := "username"

  /**
   * What the vector store's `add_documents` does with the rows handed to it:
   * writes them all, or raises after the first `written` rows went in.
   */
  datatype StoreOutcome = AllWritten | RaisedAfter(written: nat)

  function Min(a: nat, b: nat): nat {
    if a <= b then a else b
  }
  const SourceKey: string := "source"

  function MetadataOf(d: Document): Metadata {
    d.metadata.GetOr(map[])
  }

  /** One pass of the tagging loop: missing metadata becomes `{}`, then 'username' is set. */
  function Tagged(d: Document, user: string): Document {
    d.(metadata := Some(MetadataOf(d)[UsernameKey := user]))
  }

  function TagAll(ds: seq<Document>, user: string): (r: seq<Document>)
    ensures |r| == |ds|
  {
    if ds == [] then [] else [Tagged(ds[0], user)] + TagAll(ds[1..], user)
  }

  /** The rows the vector store writes for a list of chunks. */
  function ToRows(ds: seq<Document>): (rs: seq<DocRow>)
    ensures |rs| == |ds|
  {
    if ds == [] then [] else [DocRow(ds[0].pageContent, MetadataOf(ds[0]))] + ToRows(ds[1..])
  }

  /** `contains("metadata", {"username": user})`, and the same check made again in Python. */
  predicate Owns(r: DocRow, user: string) {
    UsernameKey in r.metadata && r.metadata[UsernameKey] == user
  }

  /** `metadata.get("source")` is truthy. */
  predicate HasSource(r: DocRow) {
    SourceKey in r.metadata && r.metadata[SourceKey] != ""
  }

  /** `r` is `user`'s and its source has basename `x`. */
  predicate Contributes(r: DocRow, user: string, x: string) {
    Owns(r, user) && HasSource(r) && Basename(r.metadata[SourceKey]) == x
  }

  /** What one row adds to `user`'s source list. */
  function Contribution(r: DocRow, user: string): set<string> {
    if Owns(r, user) && HasSource(r) then {Basename(r.metadata[SourceKey])} else {}
  }

  /** The basenames of the sources of `user`'s rows. */
  function SourcesOf(rows: seq<DocRow>, user: string): set<string> {
    if rows == [] then {} else SourcesOf(rows[..|rows| - 1], user) + Contribution(rows[|rows| - 1], user)
  }

  /** One more row adds its contribution. */
  lemma SourcesOfStep(rows: seq<DocRow>, i: nat, user: string)
    requires i < |rows|
    ensures SourcesOf(rows[..i + 1], user) == SourcesOf(rows[..i], user) + Contribution(rows[i], user)
  {
    assert rows[..i + 1][..i] == rows[..i];
  }

  /** The rows of `user`, in store order. */
  function OwnedRows(rows: seq<DocRow>, user: string): seq<DocRow> {
    if rows == [] then []
    else if Owns(rows[0], user) then [rows[0]] + OwnedRows(rows[1..], user)
    else OwnedRows(rows[1..], user)
  }

  /** The rows that do not belong to `user`, in store order. */
  function OthersRows(rows: seq<DocRow>, user: string): seq<DocRow> {
    if rows == [] then []
    else if Owns(rows[0], user) then OthersRows(rows[1..], user)
    else [rows[0]] + OthersRows(rows[1..], user)
  }

  /** A row `delete_document(f)` removes: `user`'s, with a source that contains `f`. */
  predicate Doomed(r: DocRow, user: string, f: string) {
    Owns(r, user) && SourceKey in r.metadata && Contains(r.metadata[SourceKey], f)
  }

  /** `delete().contains(metadata, {username}).like(metadata->source, '%f%')`. */
  function RemoveMatching(rows: seq<DocRow>, user: string, f: string): seq<DocRow> {
    if rows == [] then []
    else if Doomed(rows[0], user, f) then RemoveMatching(rows[1..], user, f)
    else [rows[0]] + RemoveMatching(rows[1..], user, f)
  }

  // ---------------------------------------------------------------------------
  // Lemmas
  // ---------------------------------------------------------------------------

  lemma {:induction false} TagAllAt(ds: seq<Document>, user: string, i: nat)
    requires i < |ds|
    ensures TagAll(ds, user)[i] == Tagged(ds[i], user)
  {
    if i > 0 {
      TagAllAt(ds[1..], user, i - 1);
    }
  }

  /**
   * After tagging, every chunk has metadata, its 'username' is `user`, its
   * text and every other metadata entry are kept, and a chunk that had no
   * metadata has exactly `{'username': user}`.
   */
  lemma TaggingOwns(ds: seq<Document>, user: string)
    ensures var t := TagAll(ds, user);
      forall i :: 0 <= i < |ds| ==>
        t[i].metadata.Some? && UsernameKey in t[i].metadata.value && t[i].metadata.value[UsernameKey] == user &&
        t[i].pageContent == ds[i].pageContent &&
        (ds[i].metadata.None? ==> t[i].metadata.value == map[UsernameKey := user]) &&
        (ds[i].metadata.Some? ==>
          t[i].metadata.value.Keys == ds[i].metadata.value.Keys + {UsernameKey} &&
          forall k :: k in ds[i].metadata.value && k != UsernameKey ==> t[i].metadata.value[k] == ds[i].metadata.value[k])
  {
    forall i | 0 <= i < |ds| {
      TagAllAt(ds, user, i);
    }
  }

  lemma {:induction false} ToRowsAt(ds: seq<Document>, i: nat)
    requires i < |ds|
    ensures ToRows(ds)[i] == DocRow(ds[i].pageContent, MetadataOf(ds[i]))
  {
    if i > 0 {
      ToRowsAt(ds[1..], i - 1);
    }
  }

  /** Every row written for tagged chunks belongs to the tagging user. */
  lemma TaggedRowsOwned(ds: seq<Document>, user: string)
    ensures forall r :: r in ToRows(TagAll(ds, user)) ==> Owns(r, user)
  {
    var t := TagAll(ds, user);
    forall r | r in ToRows(t) ensures Owns(r, user) {
      var i :| 0 <= i < |ToRows(t)| && ToRows(t)[i] == r;
      ToRowsAt(t, i);
      TagAllAt(ds, user, i);
    }
  }

  lemma {:induction false} SourcesOfAppend(rows: seq<DocRow>, extra: seq<DocRow>, user: string)
    ensures SourcesOf(rows + extra, user) == SourcesOf(rows, user) + SourcesOf(extra, user)
    decreases |extra|
  {
    if extra == [] {
      assert rows + extra == rows;
    } else {
      var e := extra[..|extra| - 1];
      assert (rows + extra)[..|rows + extra| - 1] == rows + e;
      SourcesOfAppend(rows, e, user);
    }
  }

  /** A basename is listed for `user` exactly when one of `user`'s rows has a source with that basename. */
  lemma {:induction false} SourcesOfExact(rows: seq<DocRow>, user: string)
    ensures forall x :: x in SourcesOf(rows, user) <==> exists r :: r in rows && Contributes(r, user, x)
  {
    if rows != [] {
      var init, last := rows[..|rows| - 1], rows[|rows| - 1];
      SourcesOfExact(init, user);
      assert rows == init + [last];
      forall x ensures x in SourcesOf(rows, user) <==> exists r :: r in rows && Contributes(r, user, x) {
        if x in SourcesOf(init, user) {
          var r :| r in init && Contributes(r, user, x);
          assert r in rows;
        } else if x in Contribution(last, user) {
          assert Contributes(last, user, x);
        }
      }
    }
  }

  /** Rows that are not `user`'s do not change `user`'s source list. */
  lemma SourcesIgnoreOthers(rows: seq<DocRow>, extra: seq<DocRow>, user: string)
    requires forall r :: r in extra ==> !Owns(r, user)
    ensures SourcesOf(rows + extra, user) == SourcesOf(rows, user)
  {
    SourcesOfAppend(rows, extra, user);
    SourcesOfExact(extra, user);
  }

  /** Chunks another user adds never show in `user`'s source list. */
  lemma AddIsolated(rows: seq<DocRow>, ds: seq<Document>, user: string, other: string)
    requires user != other
    ensures SourcesOf(rows + ToRows(TagAll(ds, other)), user) == SourcesOf(rows, user)
  {
    TaggedRowsOwned(ds, other);
    SourcesIgnoreOthers(rows, ToRows(TagAll(ds, other)), user);
  }

  /** A batch that another user's upload wrote only in part still leaves `user`'s list unchanged. */
  lemma PartialAddIsolated(rows: seq<DocRow>, ds: seq<Document>, user: string, other: string, n: nat)
    requires user != other && n <= |ds|
    ensures SourcesOf(rows + ToRows(TagAll(ds, other))[..n], user) == SourcesOf(rows, user)
  {
    var all := ToRows(TagAll(ds, other));
    TaggedRowsOwned(ds, other);
    assert forall r :: r in all[..n] ==> r in all;
    SourcesIgnoreOthers(rows, all[..n], user);
  }

  /** Once `user` has added a chunk with a source, its basename is listed for `user`. */
  lemma AddedSourceListed(rows: seq<DocRow>, ds: seq<Document>, user: string, i: nat)
    requires i < |ds| && SourceKey in MetadataOf(ds[i]) && MetadataOf(ds[i])[SourceKey] != ""
    ensures Basename(MetadataOf(ds[i])[SourceKey]) in SourcesOf(rows + ToRows(TagAll(ds, user)), user)
  {
    var t := TagAll(ds, user);
    TagAllAt(ds, user, i);
    ToRowsAt(t, i);
    var r := ToRows(t)[i];
    assert r.metadata[SourceKey] == MetadataOf(ds[i])[SourceKey];
    assert r in rows + ToRows(t);
    SourcesOfExact(rows + ToRows(t), user);
    assert Contributes(r, user, Basename(MetadataOf(ds[i])[SourceKey]));
  }

  /** Filtering on the owner first does not change the source list. */
  lemma OwnedSources(rows: seq<DocRow>, user: string)
    ensures SourcesOf(OwnedRows(rows, user), user) == SourcesOf(rows, user)
  {
    OwnedRowsExact(rows, user);
    SourcesOfExact(OwnedRows(rows, user), user);
    SourcesOfExact(rows, user);
  }

  lemma {:induction false} OwnedRowsExact(rows: seq<DocRow>, user: string)
    ensures forall r :: r in OwnedRows(rows, user) <==> r in rows && Owns(r, user)
  {
    if rows != [] {
      OwnedRowsExact(rows[1..], user);
      assert rows == [rows[0]] + rows[1..];
    }
  }

  /** After deleting, a row is in the table exactly when it was there and is not doomed. */
  lemma {:induction false} RemoveMatchingExact(rows: seq<DocRow>, user: string, f: string)
    ensures forall r :: r in RemoveMatching(rows, user, f) <==> r in rows && !Doomed(r, user, f)
  {
    if rows != [] {
      RemoveMatchingExact(rows[1..], user, f);
      assert rows == [rows[0]] + rows[1..];
    }
  }

  /** Deleting leaves every row of every other user untouched and in order. */
  lemma {:induction false} RemoveIsolated(rows: seq<DocRow>, user: string, f: string)
    ensures OthersRows(RemoveMatching(rows, user, f), user) == OthersRows(rows, user)
  {
    if rows != [] {
      RemoveIsolated(rows[1..], user, f);
    }
  }

  /** Deleting twice is deleting once. */
  lemma {:induction false} RemoveIdempotent(rows: seq<DocRow>, user: string, f: string)
    ensures RemoveMatching(RemoveMatching(rows, user, f), user, f) == RemoveMatching(rows, user, f)
  {
    if rows != [] {
      RemoveIdempotent(rows[1..], user, f);
    }
  }

  /** Deleting a file name that no row of the user matches leaves the table as it was. */
  lemma {:induction false} RemoveMissingNoOp(rows: seq<DocRow>, user: string, f: string)
    requires forall r :: r in rows ==> !Doomed(r, user, f)
    ensures RemoveMatching(rows, user, f) == rows
  {
    if rows != [] {
      assert rows[0] in rows;
      RemoveMissingNoOp(rows[1..], user, f);
      assert rows == [rows[0]] + rows[1..];
    }
  }

  /** After `delete_document(f)` no listed source of the user contains `f`. */
  lemma DeletedNotListed(rows: seq<DocRow>, user: string, f: string)
    ensures forall x :: x in SourcesOf(RemoveMatching(rows, user, f), user) ==> !Contains(x, f)
  {
    RemoveMatchingExact(rows, user, f);
    SourcesOfExact(RemoveMatching(rows, user, f), user);
    forall x | x in SourcesOf(RemoveMatching(rows, user, f), user) ensures !Contains(x, f) {
      var r :| r in RemoveMatching(rows, user, f) && Contributes(r, user, x);
      if Contains(x, f) {
        BasenameContains(r.metadata[SourceKey], f);
      }
    }
  }

  // ---------------------------------------------------------------------------
  // The table and the manager
  // ---------------------------------------------------------------------------

  /** The documents table; `online` is false while the store is unreachable. */
  class DocumentTable {
    var rows: seq<DocRow>
    var online: bool

    constructor (rows: seq<DocRow>, online: bool)
      ensures this.rows == rows && this.online == online
    {
      this.rows := rows;
      this.online := online;
    }
  }

  /** Manages the document chunks of one user. */
  class VectorStoreManager {
    const username: string
    const table: DocumentTable

    constructor (username: string, table: DocumentTable)
      ensures this.username == username && this.table == table
    {
      this.username := username;
      this.table := table;
    }

    /** The tagging loop: every chunk's metadata gets 'username', created if missing. */
    method TagSplits(splits: array<Document>)
      modifies splits
      ensures splits[..] == TagAll(old(splits[..]), username)
    {
      for i := 0 to splits.Length
        invariant forall k :: 0 <= k < i ==> splits[k] == Tagged(old(splits[k]), username)
        invariant forall k :: i <= k < splits.Length ==> splits[k] == old(splits[k])
      {
        var split := splits[i];
        if split.metadata.None? {
          split := split.(metadata := Some(map[]));
        }
        split := split.(metadata := Some(split.metadata.value[UsernameKey := username]));
        splits[i] := split;
      }
      forall k | 0 <= k < splits.Length ensures splits[..][k] == TagAll(old(splits[..]), username)[k] {
        TagAllAt(old(splits[..]), username, k);
      }
    }

    /**
     * Splits `docs` with `split`, tags every chunk with this user and hands
     * the rows to the vector store, whose outcome `store` gives: every row
     * written, or an exception after the first `n` rows went in (`n == 0`
     * for a failed embedding call). No documents: nothing happens. An
     * unreachable table raises before anything is written. An exception
     * reaches the caller (`ok` false).
     */
    method AddDocuments(docs: seq<Document>, split: seq<Document> -> seq<Document>, store: seq<DocRow> -> StoreOutcome)
      returns (ok: bool)
      modifies table`rows
      ensures docs == [] ==> ok && table.rows == old(table.rows)
      ensures docs != [] ==>
        var rs := ToRows(TagAll(split(docs), username));
        (ok <==> table.online && store(rs).AllWritten?) &&
        (ok ==> table.rows == old(table.rows) + rs) &&
        (!table.online ==> table.rows == old(table.rows)) &&
        (table.online && store(rs).RaisedAfter? ==>
           table.rows == old(table.rows) + rs[..Min(store(rs).written, |rs|)])
    {
      if docs == [] {
        return true;
      }
      var chunks := split(docs);
      var splits := new Document[|chunks|](i requires 0 <= i < |chunks| => chunks[i]);
      assert splits[..] == chunks;
      TagSplits(splits);
      if !table.online {
        return false;
      }
      var rs := ToRows(splits[..]);
      match store(rs) {
        case AllWritten =>
          table.rows := table.rows + rs;
          ok := true;
        case RaisedAfter(n) =>
          table.rows := table.rows + rs[..Min(n, |rs|)];
          ok := false;
      }
    }

    /**
     * The basenames of the sources of this user's chunks, without
     * duplicates, sorted; `[]` on a store error.
     */
    method GetDocumentSources() returns (sources: seq<string>)
      ensures !table.online ==> sources == []
      ensures table.online ==> StrictlySorted(sources)
      ensures table.online ==> forall x :: x in sources <==> x in SourcesOf(table.rows, username)
    {
      if !table.online {
        return [];
      }
      var data := OwnedRows(table.rows, username);
      var found: set<string> := {};
      for i := 0 to |data|
        invariant found == SourcesOf(data[..i], username)
      {
        SourcesOfStep(data, i, username);
        var metadata := data[i].metadata;
        if UsernameKey in metadata && metadata[UsernameKey] == username {
          if SourceKey in metadata && metadata[SourceKey] != "" {
            found := found + {Basename(metadata[SourceKey])};
          }
        }
      }
      assert data[..|data|] == data;
      OwnedSources(table.rows, username);
      assert found == SourcesOf(table.rows, username);
      sources := SortedList(found);
    }

    /**
     * Deletes this user's chunks whose source contains `sourceFilename`;
     * true on success, false (nothing deleted) on a store error.
     */
    method DeleteDocument(sourceFilename: string) returns (ok: bool)
      modifies table`rows
      ensures ok == old(table.online)
      ensures table.rows == if ok then RemoveMatching(old(table.rows), username, sourceFilename) else old(table.rows)
    {
      if !table.online {
        return false;
      }
      table.rows := RemoveMatching(table.rows, username, sourceFilename);
      ok := true;
    }
  }
}
