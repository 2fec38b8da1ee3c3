/** The socket layer of server.js: the module-level `userSocketMap`, which
    a connection's handshake fills and its disconnect empties, and the
    events the server pushes. An emission is recorded in `emitted` instead
    of being sent. */
module Server {

  import opened Common
  import opened MessageModel

  /** A socket.io connection id; the transport never issues an empty one,
      so a stored id is always truthy. */
  type SocketId = s: string | s != "" witness "socket"

  /** One connection: its id and the `userId` query parameter of its
      handshake, `None` when the client sent none. */
  datatype Connection = Connection(socketId: SocketId, userId: Option<string>)

  /** The payloads the server emits: `getOnlineUsers` with the keys of the
      map, `newMessage` with the stored message and both parties' ids, and
      `messageDeleted` with the message id. */
  datatype Event =
    | GetOnlineUsers(online: set<string>)
    | NewMessage(messageId: MessageId, message: Message, senderId: UserId, receiverId: UserId)
    | MessageDeleted(deletedId: MessageId)

  /** `io.emit(...)` goes to every connected socket, `io.to(s).emit(...)` to one. */
  datatype Emission = ToAll(event: Event) | ToSocket(target: SocketId, event: Event)

  type SocketMap = map<string, SocketId>

  /** The property `delete userSocketMap[userId]` removes. A handshake
      without the parameter leaves `userId` undefined, and JavaScript turns
      an undefined key into the property name "undefined". */
  function DisconnectKey(c: Connection): string {
    if c.userId.Some? then c.userId.value else "undefined"
  }

  /** The connection callback: `if (userId) userSocketMap[userId] = socket.id`.
      A truthy id takes the new socket, replacing whatever socket that user
      had; no other entry changes. */
  function AfterConnect(m: SocketMap, c: Connection): (r: SocketMap)
    ensures Truthy(c.userId) ==> c.userId.value in r && r[c.userId.value] == c.socketId
    ensures Truthy(c.userId) ==>
      forall u :: u != c.userId.value ==> (u in r <==> u in m) && (u in m ==> r[u] == m[u])
    ensures !Truthy(c.userId) ==> r == m
  {
    if Truthy(c.userId) then m[c.userId.value := c.socketId] else m
  }

  /** The disconnect callback: `delete userSocketMap[userId]`. The entry
      goes whatever socket it holds, even one of a later connection; every
      other entry stays. */
  function AfterDisconnect(m: SocketMap, c: Connection): (r: SocketMap)
    ensures DisconnectKey(c) !in r
    ensures forall u :: u != DisconnectKey(c) ==> (u in r <==> u in m) && (u in m ==> r[u] == m[u])
  {
    m - {DisconnectKey(c)}
  }

  /** `const s = userSocketMap[user]; if (s) io.to(s).emit(...)`: one
      emission to the user's socket when the user is in the map, none
      otherwise. */
  function Notify(m: SocketMap, user: UserId, e: Event): (r: seq<Emission>)
    ensures |r| <= 1
    ensures r != [] <==> user in m
    ensures user in m ==> r == [ToSocket(m[user], e)]
  {
    if user in m then [ToSocket(m[user], e)] else []
  }

  class SocketServer {
    var userSocketMap: SocketMap
    var emitted: seq<Emission>

    constructor ()
      ensures userSocketMap == map[] && emitted == []
    {
      userSocketMap, emitted := map[], [];
    }

    /** `io.on("connection", ...)`: record the handshake's user, then
        broadcast the online users. */
    method OnConnection(c: Connection)
      modifies this
      ensures userSocketMap == AfterConnect(old(userSocketMap), c)
      ensures emitted == old(emitted) + [ToAll(GetOnlineUsers(userSocketMap.Keys))]
    {
      if Truthy(c.userId) {
        userSocketMap := userSocketMap[c.userId.value := c.socketId];
      }
      emitted := emitted + [ToAll(GetOnlineUsers(userSocketMap.Keys))];
    }

    /** `socket.on("disconnect", ...)`: drop the entry of the user that
        connection announced, then broadcast the online users. */
    method OnDisconnect(c: Connection)
      modifies this
      ensures userSocketMap == AfterDisconnect(old(userSocketMap), c)
      ensures emitted == old(emitted) + [ToAll(GetOnlineUsers(userSocketMap.Keys))]
    {
      userSocketMap := userSocketMap - {DisconnectKey(c)};
      emitted := emitted + [ToAll(GetOnlineUsers(userSocketMap.Keys))];
    }

    /** The handlers' delivery step: emit `e` to `user`'s socket if the map
        has one. */
    method NotifyUser(user: UserId, e: Event)
      modifies this`emitted
      ensures emitted == old(emitted) + Notify(userSocketMap, user, e)
    {
      var socketId := if user in userSocketMap then Some(userSocketMap[user]) else None;
      if socketId.Some? {
        emitted := emitted + [ToSocket(socketId.value, e)];
      }
    }

    /** A run of the server: the callbacks of `trace` fire one after the
        other. The map ends as `Replay` says and the broadcasts are
        `Broadcasts`, so the lemmas about those two hold of the callbacks
        themselves. */
    method Run(trace: seq<SocketEvent>)
      modifies this
      ensures userSocketMap == Replay(old(userSocketMap), trace)
      ensures emitted == old(emitted) + Broadcasts(old(userSocketMap), trace)
    {
      var i := 0;
      while i < |trace|
        invariant 0 <= i <= |trace|
        invariant Replay(userSocketMap, trace[i..]) == Replay(old(userSocketMap), trace)
        invariant emitted + Broadcasts(userSocketMap, trace[i..])
                  == old(emitted) + Broadcasts(old(userSocketMap), trace)
      {
        assert trace[i..][0] == trace[i] && trace[i..][1..] == trace[i + 1..];
        match trace[i] {
          case Connect(c) => OnConnection(c);
          case Disconnect(c) => OnDisconnect(c);
        }
        i := i + 1;
      }
      assert trace[i..] == [];
    }
  }

  /** A run of the socket layer as a sequence of connection callbacks. */
  datatype SocketEvent = Connect(conn: Connection) | Disconnect(conn: Connection)

  function Step(m: SocketMap, e: SocketEvent): SocketMap {
    match e
    case Connect(c) => AfterConnect(m, c)
    case Disconnect(c) => AfterDisconnect(m, c)
  }

  /** The map after the whole run. */
  function Replay(m: SocketMap, trace: seq<SocketEvent>): SocketMap
    decreases |trace|
  {
    if trace == [] then m else Replay(Step(m, trace[0]), trace[1..])
  }

  /** What the run broadcasts: each callback ends with one `getOnlineUsers`. */
  function Broadcasts(m: SocketMap, trace: seq<SocketEvent>): seq<Emission>
    decreases |trace|
  {
    if trace == [] then []
    else [ToAll(GetOnlineUsers(Step(m, trace[0]).Keys))] + Broadcasts(Step(m, trace[0]), trace[1..])
  }

  /** The run's map after its first `n` events. */
  lemma {:induction false} ReplayPrefix(m: SocketMap, trace: seq<SocketEvent>, n: nat)
    requires 0 < n <= |trace|
    ensures Replay(m, trace[..n]) == Replay(Step(m, trace[0]), trace[1..][..n - 1])
  {
    assert trace[..n][0] == trace[0];
    assert trace[..n][1..] == trace[1..][..n - 1];
  }

  /** Every callback of a run emits exactly one broadcast, and the i-th one
      carries the keys of the map as that callback left it. */
  lemma {:induction false} OneBroadcastPerCallback(m: SocketMap, trace: seq<SocketEvent>)
    ensures |Broadcasts(m, trace)| == |trace|
    ensures forall i :: 0 <= i < |trace| ==>
      Broadcasts(m, trace)[i] == ToAll(GetOnlineUsers(Replay(m, trace[..i + 1]).Keys))
    decreases |trace|
  {
    if trace != [] {
      var m' := Step(m, trace[0]);
      OneBroadcastPerCallback(m', trace[1..]);
      forall i | 0 <= i < |trace|
        ensures Broadcasts(m, trace)[i] == ToAll(GetOnlineUsers(Replay(m, trace[..i + 1]).Keys))
      {
        ReplayPrefix(m, trace, i + 1);
        if i == 0 {
          assert trace[1..][..0] == [];
        }
      }
    }
  }

  /** The map only ever holds users some handshake of the run announced
      (or that it held before), and never the empty id: a user is absent or
      mapped to exactly one socket. */
  lemma {:induction false} KeysComeFromHandshakes(m: SocketMap, trace: seq<SocketEvent>, u: string)
    requires u in Replay(m, trace)
    ensures u in m || exists i :: 0 <= i < |trace| && trace[i].Connect? && trace[i].conn.userId == Some(u)
    ensures u == "" ==> u in m
    decreases |trace|
  {
    if trace != [] {
      var m' := Step(m, trace[0]);
      KeysComeFromHandshakes(m', trace[1..], u);
      if u !in m {
        if u in m' {
          assert trace[0].Connect? && trace[0].conn.userId == Some(u);
        } else {
          var i :| 0 <= i < |trace[1..]| && trace[1..][i].Connect? && trace[1..][i].conn.userId == Some(u);
          assert trace[i + 1] == trace[1..][i];
        }
      }
    }
  }

  /** The stale-disconnect race of the code as written: user `u` connects
      on `s1`, reconnects on `s2`, and then `s1`'s disconnect callback
      fires. The map held `s2` for `u`, but the late disconnect removes the
      entry, so `u` is reported offline while `s2` is still connected. */
  lemma StaleDisconnectErasesNewerEntry(m: SocketMap, u: string, s1: SocketId, s2: SocketId)
    requires u != "" && s1 != s2
    ensures var reconnected := AfterConnect(AfterConnect(m, Connection(s1, Some(u))), Connection(s2, Some(u)));
            u in reconnected && reconnected[u] == s2
            && u !in AfterDisconnect(reconnected, Connection(s1, Some(u)))
  {
  }
}
