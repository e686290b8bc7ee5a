/** The connection handlers of the signalling server. Node runs one event at
    a time, so each handler is one atomic method on the shared state: the
    keyword table, the `chatRoom` field of each socket, and the outbox of
    everything emitted so far. */
module Switchboard {
  import opened Directory
  import opened Events

  class Server {
    /** `userKeywords`, in key order. */
    var table: seq<Entry>
    /** `socket.chatRoom` of every socket on which it has been set. */
    var chatRoom: map<SocketId, string>
    /** Every `socket.emit` and `io.to(...).emit`, oldest first. */
    var outbox: seq<Emission>

    /** The table has each key once, and a room that is set is never the
        empty string, so `if (socket.chatRoom)` holds exactly when it is set. */
    ghost predicate Valid()
      reads this
    {
      && UniqueIds(table)
      && forall s :: s in chatRoom ==> chatRoom[s] != ""
    }

    constructor ()
      ensures Valid()
      ensures table == [] && chatRoom == map[] && outbox == []
    {
      table := [];
      chatRoom := map[];
      outbox := [];
    }

    /** `setKeyword`: last write wins; the key keeps its place if present. */
    method SetKeyword(socket: SocketId, keyword: Keyword)
      requires Valid()
      modifies this`table
      ensures Valid()
      ensures table == Put(old(table), socket, keyword)
      ensures Lookup(table, socket) == Some(keyword)
      ensures Ids(table) == if socket in Ids(old(table)) then Ids(old(table)) else Ids(old(table)) + [socket]
    {
      PutUnique(table, socket, keyword);
      PutLookup(table, socket, keyword, socket);
      PutIds(table, socket, keyword);
      table := Put(table, socket, keyword);
    }

    /** `searchUsers`: answers the searcher with every other id whose keyword
        is `keyword`, in key order; nothing else changes. */
    method SearchUsers(socket: SocketId, keyword: Keyword)
      requires Valid()
      modifies this`outbox
      ensures Valid()
      ensures outbox == old(outbox) + [Emission(Direct(socket), SearchResult(Search(table, keyword, socket)))]
    {
      var matchingUsers := Search(table, keyword, socket);
      outbox := outbox + [Emission(Direct(socket), SearchResult(matchingUsers))];
    }

    /** `offer`, `answer` and `candidate`: forward the payload to the
        signal's `to`, tagged with the sender, with no check on rooms. */
    method Relay(kind: SignalKind, socket: SocketId, signal: Signal)
      requires Valid()
      modifies this`outbox
      ensures Valid()
      ensures outbox == old(outbox) + [Emission(Room(signal.to), Forward(kind, signal.body, socket))]
    {
      outbox := outbox + [Emission(Room(signal.to), Forward(kind, signal.body, socket))];
    }

    /** `chatMessage`: sent unchanged to the sender's room when it has one,
        and dropped otherwise. */
    method ChatMessage(socket: SocketId, message: Opaque)
      requires Valid()
      modifies this`outbox
      ensures Valid()
      ensures socket in chatRoom ==> outbox == old(outbox) + [Emission(Room(chatRoom[socket]), Chat(message))]
      ensures socket !in chatRoom ==> outbox == old(outbox)
    {
      if socket in chatRoom && chatRoom[socket] != "" {
        outbox := outbox + [Emission(Room(chatRoom[socket]), Chat(message))];
      }
    }

    /** `startVideoCall`: picks the head of the list `searchUsers` would
        return. With a (truthy) pick it answers the caller with that one id
        and notifies the pick; otherwise it answers with the empty list. */
    method StartVideoCall(socket: SocketId, keyword: Keyword)
      requires Valid()
      modifies this`outbox
      ensures Valid()
      ensures var found := Search(table, keyword, socket);
              if found != [] && found[0] != "" then
                outbox == old(outbox) + [Emission(Direct(socket), SearchResult([found[0]])),
                                         Emission(Room(found[0]), IncomingCall(socket))]
              else
                outbox == old(outbox) + [Emission(Direct(socket), SearchResult([]))]
    {
      FindFirstIsHeadOfSearch(table, keyword, socket);
      var matchingUsers := FindFirst(table, keyword, socket);
      if matchingUsers.Some? && matchingUsers.value != "" {
        outbox := outbox + [Emission(Direct(socket), SearchResult([matchingUsers.value]))];
        outbox := outbox + [Emission(Room(matchingUsers.value), IncomingCall(socket))];
      } else {
        outbox := outbox + [Emission(Direct(socket), SearchResult([]))];
      }
    }

    /** `acceptVideoCall`: with no check that `callerId` ever called, sets
        the room of the accepting socket and tells the caller. */
    method AcceptVideoCall(socket: SocketId, callerId: SocketId)
      requires Valid()
      modifies this`chatRoom, this`outbox
      ensures Valid()
      ensures chatRoom == old(chatRoom)[socket := RoomKey(socket, callerId)]
      ensures outbox == old(outbox) + [Emission(Room(callerId), CallAccepted(socket))]
    {
      chatRoom := chatRoom[socket := RoomKey(socket, callerId)];
      outbox := outbox + [Emission(Room(callerId), CallAccepted(socket))];
    }

    /** `disconnect`: deletes the socket's keyword; other entries keep their
        order. No room is torn down and no one is told. */
    method Disconnect(socket: SocketId)
      requires Valid()
      modifies this`table
      ensures Valid()
      ensures table == Remove(old(table), socket)
      ensures Lookup(table, socket).None?
      ensures IsSubsequence(Ids(table), Ids(old(table)))
    {
      RemoveUnique(table, socket);
      RemoveIds(table, socket);
      RemoveLookup(table, socket, socket);
      table := Remove(table, socket);
    }
  }

  // -----------------------------------------------------------------------
  // Whole conversations

  /** Round trip on a fresh server where `x` and `y` are the only sockets:
      both declare the same keyword, `y` searches for it and is told about
      `x` alone. */
  method SearchFindsPeer(x: SocketId, y: SocketId, k: Keyword) returns (reply: seq<Emission>)
    requires x != y
    ensures reply == [Emission(Direct(y), SearchResult([x]))]
  {
    var server := new Server();
    server.SetKeyword(x, k);
    server.SetKeyword(y, k);
    server.SearchUsers(y, k);
    reply := server.outbox;
  }

  /** On a fresh server where `x` is the only socket with keyword `k`: `y`
      calls by `k` and `x` accepts; `y` learns of `x`, `x` is notified, `y`
      hears of the acceptance, and `x`'s room is "x-y". A chat message from
      `x` then goes to that room. */
  method CallAcceptChat(x: SocketId, y: SocketId, k: Keyword, text: Opaque)
    returns (sent: seq<Emission>, room: string)
    requires x != y && x != ""
    ensures room == RoomKey(x, y)
    ensures sent == [Emission(Direct(y), SearchResult([x])),
                     Emission(Room(x), IncomingCall(y)),
                     Emission(Room(y), CallAccepted(x)),
                     Emission(Room(room), Chat(text))]
  {
    var server := new Server();
    server.SetKeyword(x, k);
    server.StartVideoCall(y, k);
    server.AcceptVideoCall(x, y);
    server.ChatMessage(x, text);
    sent := server.outbox;
    room := server.chatRoom[x];
  }

  /** On any server, `x` accepting a call from `y` gives `y` no room: if `y`
      had none before, `y`'s chat message afterwards is dropped, and the
      acceptance notice is all that is sent. */
  method CallerChatDropped(server: Server, x: SocketId, y: SocketId, text: Opaque)
    requires server.Valid() && x != y && y !in server.chatRoom
    modifies server`chatRoom, server`outbox
    ensures server.Valid()
    ensures y !in server.chatRoom
    ensures server.outbox == old(server.outbox) + [Emission(Room(y), CallAccepted(x))]
  {
    server.AcceptVideoCall(x, y);
    server.ChatMessage(y, text);
  }

  /** Accepting a call nobody made (on a fresh server) still opens a room
      and notifies the named "caller". */
  method StrayAccept(x: SocketId, c: SocketId) returns (sent: seq<Emission>, room: string)
    ensures room == RoomKey(x, c)
    ensures sent == [Emission(Room(c), CallAccepted(x))]
  {
    var server := new Server();
    server.AcceptVideoCall(x, c);
    sent := server.outbox;
    room := server.chatRoom[x];
  }

  /** On any server, after `x` disconnects a call request by anyone names
      `x` nowhere: `x` is not reported as a match and is sent no
      incoming-call notice. */
  method DisconnectedPeerNotCalled(server: Server, x: SocketId, y: SocketId, k: Keyword)
    requires server.Valid()
    modifies server`table, server`outbox
    ensures server.Valid()
    ensures server.table == Remove(old(server.table), x)
    ensures |server.outbox| > |old(server.outbox)|
    ensures server.outbox[..|old(server.outbox)|] == old(server.outbox)
    ensures forall i :: |old(server.outbox)| <= i < |server.outbox| ==>
              server.outbox[i].target != Room(x) && server.outbox[i].message != SearchResult([x])
  {
    server.Disconnect(x);
    RemovedNeverFound(old(server.table), x, k, y);
    server.StartVideoCall(y, k);
  }
}
