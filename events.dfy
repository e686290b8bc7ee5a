/** What the server's handlers send: the socket.io events they emit, where
    they address them, and the room name that `acceptVideoCall` builds. */
module Events {
  import opened Directory

  /** An opaque client payload (a session description, an ICE candidate, a
      chat message), carried as its serialised text and never interpreted. */
  datatype Opaque = Opaque(text: string)

  /** The argument of `offer`, `answer` and `candidate`: the addressee `to`
      and the payload under the field named after the event. */
  datatype Signal = Signal(to: SocketId, body: Opaque)

  /** Which of the three forwarding handlers a signal came through. */
  datatype SignalKind = OfferKind | AnswerKind | CandidateKind

  /** `socket.emit(...)` addresses the handler's own socket; `io.to(name).emit(...)`
      addresses the room `name` (every socket is in the room named by its id). */
  datatype Target = Direct(socket: SocketId) | Room(name: string)

  /** One emitted event and its argument. */
  datatype Message =
    | SearchResult(ids: seq<SocketId>)                         // 'searchResult', an array of ids
    | IncomingCall(caller: SocketId)                           // 'startVideoCall', the caller's id
    | CallAccepted(callee: SocketId)                           // 'callAccepted', the callee's id
    | Forward(kind: SignalKind, body: Opaque, from: SocketId)  // { offer | answer | candidate, from }
    | Chat(message: Opaque)                                    // 'chatMessage', the message as sent

  datatype Emission = Emission(target: Target, message: Message)

  /** The template literal `${socket.id}-${callerId}` of `acceptVideoCall`.
      It always contains the separator, so it is never the empty (falsy)
      string. */
  function RoomKey(self: SocketId, caller: SocketId): (key: string)
    ensures key != ""
    ensures '-' in key
  {
    self + "-" + caller
  }

  /** For ids without a dash the room key determines both ids. */
  lemma RoomKeyInjective(a: SocketId, b: SocketId, c: SocketId, d: SocketId)
    requires '-' !in a && '-' !in b && '-' !in c && '-' !in d
    requires RoomKey(a, b) == RoomKey(c, d)
    ensures a == c && b == d
  {
    var key := RoomKey(a, b);
    assert key[|a|] == '-';
    assert key[|c|] == '-';
    assert |a| == |c|;
    assert a == key[..|a|] && c == key[..|c|];
    assert b == key[|a| + 1..] && d == key[|c| + 1..];
  }

  /** The key is ordered: the accepting socket's id comes first, so the two
      sides of one call name different rooms. */
  lemma RoomKeyOrdered(a: SocketId, b: SocketId)
    requires '-' !in a && '-' !in b && a != b
    ensures RoomKey(a, b) != RoomKey(b, a)
  {
    if RoomKey(a, b) == RoomKey(b, a) {
      RoomKeyInjective(a, b, b, a);
    }
  }

  /** Socket ids may themselves contain '-', and then two different pairs
      share one room key. */
  lemma RoomKeyCollision()
    ensures RoomKey("a-b", "c") == RoomKey("a", "b-c")
  {
  }
}
