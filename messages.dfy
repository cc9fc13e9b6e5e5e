/**
 * Chat messages and their stored form. A history is kept in memory as a
 * sequence of message objects and stored in the `messages` column of the
 * chats table as a sequence of `{type, content}` records.
 */
module Messages {

  /** A message in memory: the two kinds the application creates, and any other kind. */
  datatype Message =
    | HumanMessage(content: string)
    | AIMessage(content: string)
    | OtherMessage(role: string, content: string)

  /** A stored message: the `type` and `content` fields of one JSON record. */
  datatype StoredMessage = StoredMessage(kind: string, content: string)

  const HumanKind: string := "human"
  const AiKind: string := "ai"

  /** A human message is stored as 'human'; every other kind as 'ai'. */
  function ToStored(m: Message): StoredMessage {
    if m.HumanMessage? then StoredMessage(HumanKind, m.content) else StoredMessage(AiKind, m.content)
  }

  /** A record whose type is 'human' becomes a human message; every other record an AI message. */
  function FromStored(r: StoredMessage): Message {
    if r.kind == HumanKind then HumanMessage(r.content) else AIMessage(r.content)
  }

  /** The JSON form of a history, in the same order. */
  function Serialize(h: seq<Message>): (r: seq<StoredMessage>)
    ensures |r| == |h|
  {
    if h == [] then [] else [ToStored(h[0])] + Serialize(h[1..])
  }

  /** The messages of a stored history, in the same order. */
  function Deserialize(rs: seq<StoredMessage>): (h: seq<Message>)
    ensures |h| == |rs|
  {
    if rs == [] then [] else [FromStored(rs[0])] + Deserialize(rs[1..])
  }

  /** What a message becomes once stored and read back: any non-human message is an AI message. */
  function Normal(m: Message): Message {
    if m.HumanMessage? then m else AIMessage(m.content)
  }

  function Normalized(h: seq<Message>): (r: seq<Message>)
    ensures |r| == |h|
  {
    if h == [] then [] else [Normal(h[0])] + Normalized(h[1..])
  }

  /** The two kinds the application itself creates. */
  predicate IsHumanOrAI(m: Message) {
    m.HumanMessage? || m.AIMessage?
  }

  /**
   * Storing a history and reading it back gives the same kinds and contents in
   * the same order, each non-human message coming back as an AI message.
   */
  lemma {:induction false} RoundTrip(h: seq<Message>)
    ensures Deserialize(Serialize(h)) == Normalized(h)
    ensures forall i :: 0 <= i < |h| ==>
      Deserialize(Serialize(h))[i].content == h[i].content &&
      (Deserialize(Serialize(h))[i].HumanMessage? <==> h[i].HumanMessage?)
  {
    if h != [] {
      RoundTrip(h[1..]);
      assert Deserialize(Serialize(h)) == [Normal(h[0])] + Deserialize(Serialize(h[1..]));
      forall i | 0 < i < |h|
        ensures Deserialize(Serialize(h))[i] == Deserialize(Serialize(h[1..]))[i - 1]
      {
      }
    }
  }

  /** A history of human and AI messages only is given back exactly. */
  lemma {:induction false} RoundTripExact(h: seq<Message>)
    requires forall i :: 0 <= i < |h| ==> IsHumanOrAI(h[i])
    ensures Deserialize(Serialize(h)) == h
  {
    if h != [] {
      RoundTripExact(h[1..]);
      assert Deserialize(Serialize(h)) == [Normal(h[0])] + Deserialize(Serialize(h[1..]));
      assert h == [h[0]] + h[1..];
    }
  }

  /**
   * Reading a stored history and storing it again changes every record whose
   * type is not 'human' to type 'ai' and keeps everything else.
   */
  lemma {:induction false} StoredRoundTrip(rs: seq<StoredMessage>)
    ensures var back := Serialize(Deserialize(rs));
      |back| == |rs| &&
      forall i :: 0 <= i < |rs| ==>
        back[i].content == rs[i].content &&
        back[i].kind == (if rs[i].kind == HumanKind then HumanKind else AiKind)
  {
    if rs != [] {
      StoredRoundTrip(rs[1..]);
      var back := Serialize(Deserialize(rs));
      assert back == [ToStored(FromStored(rs[0]))] + Serialize(Deserialize(rs[1..]));
      forall i | 0 < i < |rs|
        ensures back[i] == Serialize(Deserialize(rs[1..]))[i - 1]
      {
      }
    }
  }

  /** Loading only ever produces human and AI messages. */
  lemma {:induction false} DeserializeHumanOrAI(rs: seq<StoredMessage>)
    ensures forall i :: 0 <= i < |rs| ==> IsHumanOrAI(Deserialize(rs)[i])
  {
    if rs != [] {
      DeserializeHumanOrAI(rs[1..]);
      assert forall i :: 0 < i < |rs| ==> Deserialize(rs)[i] == Deserialize(rs[1..])[i - 1];
    }
  }

  /** Storing commutes with appending, so a longer history extends the stored one. */
  lemma {:induction false} SerializeAppend(a: seq<Message>, b: seq<Message>)
    ensures Serialize(a + b) == Serialize(a) + Serialize(b)
  {
    if a != [] {
      assert (a + b)[1..] == a[1..] + b;
      SerializeAppend(a[1..], b);
    } else {
      assert a + b == b;
    }
  }
}
