/// The server's session state as a sequential state machine: the presence
/// registry (Server.onlineMap), the broadcast relay (Server.message and
/// ListenMessager), and per-user mailboxes (User.ch) and connections
/// (User.conn). Each method is one atomic step of the Go program.
module Chat {
  import opened Protocol

  /** The lines a mailbox drain writes for the queued messages msgs:
      each message followed by '\n', in order. */
  function WithNewlines(msgs: seq<string>): (lines: seq<string>)
    ensures |lines| == |msgs|
    ensures forall i :: 0 <= i < |msgs| ==> lines[i] == msgs[i] + "\n"
  {
    if msgs == [] then [] else [msgs[0] + "\n"] + WithNewlines(msgs[1..])
  }

  /** A session's public chat line consisting of the online marker reaches
      every mailbox drain as exactly that session's "who" entry: a reader of
      the connection cannot tell the listing from chat. */
  lemma PublicLineMimicsWhoEntry(addr: string, name: string)
    ensures WithNewlines([BroadcastLine(addr, name, WhoMarker)]) == [WhoLine(addr, name)]
  {
    assert ":" + WhoMarker + "\n" == ":在线...\n";
    assert BroadcastLine(addr, name, WhoMarker) + "\n" == "[" + addr + "]" + name + (":" + WhoMarker + "\n");
  }

  /** order lists every key of keys exactly once. */
  ghost predicate Enumerates(order: seq<string>, keys: set<string>)
  {
    && (forall i, j :: 0 <= i < j < |order| ==> order[i] != order[j])
    && (forall k :: k in keys <==> k in order)
  }

  /** Visiting one more, unvisited, key extends an enumeration by that key. */
  lemma EnumeratesSnoc(order: seq<string>, keys: set<string>, k: string)
    requires Enumerates(order, keys) && k !in keys
    ensures Enumerates(order + [k], keys + {k})
  {
    forall i, j | 0 <= i < j < |order| + 1
      ensures (order + [k])[i] != (order + [k])[j]
    {
      if j == |order| {
        assert order[i] in keys;
      }
    }
  }

  /** The state of the "who" loop over m: order lists, each once, the keys
      already visited, and left holds the rest. */
  ghost predicate Visited(m: map<string, User>, order: seq<string>, left: set<string>)
  {
    && left <= m.Keys
    && Enumerates(order, m.Keys - left)
    && (forall i :: 0 <= i < |order| ==> order[i] in m)
  }

  /** Visiting a key k of left moves it to the end of order and appends
      exactly its entry to the reply. */
  lemma VisitStep(m: map<string, User>, order: seq<string>, left: set<string>, k: string)
    requires Visited(m, order, left) && k in left
    ensures Visited(m, order + [k], left - {k})
    ensures OnlineLines(m, order + [k]) == OnlineLines(m, order) + [WhoLine(m[k].addr, k)]
  {
    EnumeratesSnoc(order, m.Keys - left, k);
    assert m.Keys - (left - {k}) == (m.Keys - left) + {k};
    OnlineLinesSnoc(m, order, k);
  }

  /** The reply to "who" when the registry m is visited in the given order. */
  function OnlineLines(m: map<string, User>, order: seq<string>): (lines: seq<string>)
    requires forall i :: 0 <= i < |order| ==> order[i] in m
    ensures |lines| == |order|
    ensures forall i :: 0 <= i < |order| ==> lines[i] == WhoLine(m[order[i]].addr, order[i])
  {
    if order == [] then []
    else [WhoLine(m[order[0]].addr, order[0])] + OnlineLines(m, order[1..])
  }

  class User {
    var name: string
    const addr: string
    /** Messages waiting in the mailbox channel Ch, oldest first. */
    var ch: seq<string>
    /** Everything written to this user's connection, oldest first. */
    var conn: seq<string>
    /** False once the server has closed the connection. */
    var open: bool
    /** True while the session's reader goroutine runs; it returns after a
        read of zero bytes, and no line of this session is handled again. */
    var reading: bool

    /** NewUser: name and address both start as the remote address. */
    constructor (remoteAddr: string)
      ensures name == remoteAddr && addr == remoteAddr
      ensures ch == [] && conn == [] && open && reading
    {
      name := remoteAddr;
      addr := remoteAddr;
      ch := [];
      conn := [];
      open := true;
      reading := true;
    }

    /** SendMsg: one write to the connection; a write to a connection the
        server has closed is lost. */
    method SendMsg(msg: string)
      modifies this`conn
      ensures conn == if open then old(conn) + [msg] else old(conn)
    {
      if open {
        conn := conn + [msg];
      }
    }

    /** ListenMessage: take every queued mailbox message, oldest first, and
        write it to the connection followed by '\n'. */
    method ListenMessage()
      modifies this`ch, this`conn
      ensures ch == []
      ensures conn == old(conn) + if open then WithNewlines(old(ch)) else []
    {
      ghost var done := [];
      while ch != []
        invariant old(ch) == done + ch
        invariant conn == old(conn) + if open then WithNewlines(done) else []
        decreases |ch|
      {
        var msg := ch[0];
        ch := ch[1..];
        SendMsg(msg + "\n");
        done := done + [msg];
      }
    }

    /** Online: register under the current name (replacing any entry already
        there) and announce the arrival. */
    method Online(srv: Server)
      requires srv.Valid() && open
      modifies srv`onlineMap, srv`message
      ensures srv.Valid()
      ensures srv.onlineMap == old(srv.onlineMap)[name := this]
      ensures srv.message == old(srv.message) + [BroadcastLine(addr, name, OnlineNotice)]
    {
      srv.onlineMap := srv.onlineMap[name := this];
      srv.BroadCast(this, OnlineNotice);
    }

    /** Offline: remove the entry under the current name (whoever it maps to;
        nothing if there is none) and announce the departure. */
    method Offline(srv: Server)
      requires srv.Valid()
      modifies srv`onlineMap, srv`message
      ensures srv.Valid()
      ensures srv.onlineMap == old(srv.onlineMap) - {name}
      ensures srv.message == old(srv.message) + [BroadcastLine(addr, name, OfflineNotice)]
    {
      srv.onlineMap := srv.onlineMap - {name};
      srv.BroadCast(this, OfflineNotice);
    }

    /** The "who" branch: one WhoLine per registry entry, in the map's
        iteration order, which the contract leaves open. */
    method SendOnlineList(srv: Server) returns (ghost order: seq<string>)
      requires srv.Valid() && open
      modifies this`conn
      ensures Enumerates(order, srv.onlineMap.Keys)
      ensures conn == old(conn) + OnlineLines(srv.onlineMap, order)
    {
      var m := srv.onlineMap;
      var left := m.Keys;
      order := [];
      while left != {}
        invariant Visited(m, order, left)
        invariant forall k :: k in m ==> m[k].name == k
        invariant conn == old(conn) + OnlineLines(m, order)
        decreases left
      {
        var k :| k in left;
        var u := m[k];
        SendMsg(WhoLine(u.addr, u.name));
        VisitStep(m, order, left, k);
        order := order + [k];
        left := left - {k};
      }
      assert m.Keys - left == m.Keys;
    }

    /** HandleMessage: classify one line and carry out the command. crashed
        reports the Go runtime panic of indexing a missing third segment. */
    method HandleMessage(srv: Server, msg: string) returns (crashed: bool)
      requires srv.Valid() && open
      modifies this`name, this`conn, srv`onlineMap, srv`message, srv.onlineMap.Values`conn
      ensures srv.Valid()
      ensures Dispatched(srv, this, old(srv.onlineMap), old(name), msg, crashed)
    {
      crashed := false;
      match Parse(msg)
      case Who =>
        ghost var order := SendOnlineList(srv);
        assert Enumerates(order, srv.onlineMap.Keys) && conn == old(conn) + OnlineLines(srv.onlineMap, order);
      case Rename(newName) =>
        if newName in srv.onlineMap {
          SendMsg(NameInUse);
        } else {
          srv.onlineMap := (srv.onlineMap - {name})[newName := this];
          name := newName;
          SendMsg(RenamedReply(name));
        }
      case To(target, content) =>
        if target == "" {
          SendMsg(FormatError);
        } else if target !in srv.onlineMap {
          SendMsg(NoSuchUser);
        } else if content.None? {
          crashed := true;
        } else if content.value == "" {
          SendMsg(EmptyMessage);
        } else {
          var remote := srv.onlineMap[target];
          remote.SendMsg(PrivateLine(name, content.value));
          SendMsg(Sent);
        }
      case Public(text) =>
        srv.BroadCast(this, text);
    }
  }

  /** Appending one key to the visiting order appends its WhoLine. */
  lemma {:induction false} OnlineLinesSnoc(m: map<string, User>, order: seq<string>, k: string)
    requires forall i :: 0 <= i < |order| ==> order[i] in m
    requires k in m
    ensures OnlineLines(m, order + [k]) == OnlineLines(m, order) + [WhoLine(m[k].addr, k)]
  {
    var lhs, rhs := OnlineLines(m, order + [k]), OnlineLines(m, order) + [WhoLine(m[k].addr, k)];
    assert |lhs| == |rhs|;
    forall i | 0 <= i < |lhs| ensures lhs[i] == rhs[i] {
      if i < |order| {
        assert (order + [k])[i] == order[i];
      }
    }
  }

  /** Every registry entry has its line in a "who" reply, whatever the
      visiting order. */
  lemma ListedEntry(m: map<string, User>, order: seq<string>, k: string) returns (i: nat)
    requires Enumerates(order, m.Keys) && k in m
    ensures i < |order| && order[i] == k
    ensures OnlineLines(m, order)[i] == WhoLine(m[k].addr, k)
  {
    assert k in order;
    i :| 0 <= i < |order| && order[i] == k;
  }

  /** Under the registry invariant a registered session sits under its own
      current name and under no other key: so a rename to one's own name
      finds it taken, Offline removes one's own entry, and the relay reaches
      each session once. */
  lemma RegisteredUnderOwnName(srv: Server, u: User)
    requires srv.Valid() && u in srv.onlineMap.Values
    ensures u.name in srv.onlineMap && srv.onlineMap[u.name] == u
    ensures forall k :: k in srv.onlineMap && srv.onlineMap[k] == u ==> k == u.name
  {
    var k :| k in srv.onlineMap && srv.onlineMap[k] == u;
  }

  /** The recipient of a private message that HandleMessage delivers, if any. */
  ghost function Recipient(m: map<string, User>, msg: string): Option<User>
  {
    match Parse(msg)
    case To(t, Some(c)) => if t != "" && t in m && c != "" then Some(m[t]) else None
    case _ => None
  }

  /** The effect of HandleMessage(msg) by user, for the registry m0 and
      caller name name0 before the call. */
  twostate predicate Dispatched(srv: Server, user: User, m0: map<string, User>, name0: string,
                                msg: string, crashed: bool)
    reads srv, user, m0.Values
  {
    // The panic happens exactly on a "to|" line whose target exists but
    // which has no third segment.
    && (crashed <==> Parse(msg).To? && Parse(msg).target != "" && Parse(msg).target in m0
                     && Parse(msg).content.None?)
    // Only the caller and the recipient of a private message get output.
    && (forall u :: u in m0.Values && u != user && Some(u) != Recipient(m0, msg) ==>
          u.conn == old(u.conn))
    && (Parse(msg) == Who ==> Listed(srv, user, m0, name0))
    && (Parse(msg).Rename? ==> Renamed(srv, user, m0, name0, Parse(msg).newName))
    && (Parse(msg).To? ==> Messaged(srv, user, m0, name0, Parse(msg).target, Parse(msg).content))
    && (Parse(msg).Public? ==> Published(srv, user, m0, name0, Parse(msg).text))
  }

  /** "who": one entry per registry key, in some order; nothing else changes. */
  twostate predicate Listed(srv: Server, user: User, m0: map<string, User>, name0: string)
    reads srv, user
  {
    && srv.onlineMap == m0 && user.name == name0 && srv.message == old(srv.message)
    && exists order :: Enumerates(order, m0.Keys) && user.conn == old(user.conn) + OnlineLines(m0, order)
  }

  /** "rename|n": refused when n is a key (the caller's own name included),
      otherwise the caller's key moves from name0 to n. */
  twostate predicate Renamed(srv: Server, user: User, m0: map<string, User>, name0: string, n: string)
    reads srv, user
  {
    && srv.message == old(srv.message)
    && if n in m0 then
         user.name == name0 && srv.onlineMap == m0 && user.conn == old(user.conn) + [NameInUse]
       else
         && user.name == n && srv.onlineMap == (m0 - {name0})[n := user]
         && user.conn == old(user.conn) + [RenamedReply(n)]
  }

  /** "to|t|c": the three refusals, the panic, and the delivery. */
  twostate predicate Messaged(srv: Server, user: User, m0: map<string, User>, name0: string,
                          t: string, c: Option<string>)
    reads srv, user, m0.Values
  {
    && srv.onlineMap == m0 && user.name == name0 && srv.message == old(srv.message)
    && if t == "" then user.conn == old(user.conn) + [FormatError]
       else if t !in m0 then user.conn == old(user.conn) + [NoSuchUser]
       else if c.None? then user.conn == old(user.conn)
       else if c.value == "" then user.conn == old(user.conn) + [EmptyMessage]
       else
         var r := m0[t];
         if r == user then user.conn == old(user.conn) + [PrivateLine(name0, c.value), Sent]
         else r.conn == old(r.conn) + [PrivateLine(name0, c.value)] && user.conn == old(user.conn) + [Sent]
  }

  /** Public chat: one broadcast line with the caller's name; nothing else. */
  twostate predicate Published(srv: Server, user: User, m0: map<string, User>, name0: string, text: string)
    reads srv, user
  {
    && srv.onlineMap == m0 && user.name == name0 && user.conn == old(user.conn)
    && srv.message == old(srv.message) + [BroadcastLine(user.addr, name0, text)]
  }

  class Server {
    const ip: string
    const port: int
    /** The presence registry: display name to session. */
    var onlineMap: map<string, User>
    /** Lines sent on the broadcast channel Message and not yet relayed. */
    var message: seq<string>

    /** Every key names a session whose display name is that key and whose
        connection is still open. */
    ghost predicate Valid()
      reads this`onlineMap, onlineMap.Values`name, onlineMap.Values`open
    {
      forall k :: k in onlineMap ==> onlineMap[k].name == k && onlineMap[k].open
    }

    /** NewServer: an empty registry and an empty broadcast channel. */
    constructor (ip: string, port: int)
      ensures this.ip == ip && this.port == port
      ensures onlineMap == map[] && message == []
      ensures Valid()
    {
      this.ip := ip;
      this.port := port;
      onlineMap := map[];
      message := [];
    }

    /** BroadCast: send "[addr]name:msg" with the sender's current name to
        the relay. */
    method BroadCast(user: User, msg: string)
      modifies this`message
      ensures message == old(message) + [BroadcastLine(user.addr, user.name, msg)]
    {
      message := message + [BroadcastLine(user.addr, user.name, msg)];
    }

    /** One pass of the relay loop: the oldest line on the channel goes once
        into the mailbox of every registered session, and nowhere else. */
    method RelayOne()
      requires Valid() && message != []
      modifies this`message, onlineMap.Values`ch
      ensures Valid()
      ensures message == old(message)[1..]
      ensures forall u :: u in onlineMap.Values ==> u.ch == old(u.ch) + [old(message)[0]]
    {
      var msg := message[0];
      message := message[1..];
      var left := onlineMap.Keys;
      while left != {}
        invariant message == old(message)[1..]
        invariant left <= onlineMap.Keys
        invariant forall k :: k in onlineMap && k !in left ==> onlineMap[k].ch == old(onlineMap[k].ch) + [msg]
        invariant forall k :: k in left ==> onlineMap[k].ch == old(onlineMap[k].ch)
        decreases left
      {
        var k :| k in left;
        var cli := onlineMap[k];
        cli.ch := cli.ch + [msg];
        left := left - {k};
      }
      forall u | u in onlineMap.Values ensures u.ch == old(u.ch) + [msg] {
        var k :| k in onlineMap && onlineMap[k] == u;
      }
    }

    /** ListenMessager: relay every line on the channel in arrival order, so
        each registered session's mailbox gains them all, in that order. */
    method ListenMessager()
      requires Valid()
      modifies this`message, onlineMap.Values`ch
      ensures Valid()
      ensures message == []
      ensures forall u :: u in onlineMap.Values ==> u.ch == old(u.ch) + old(message)
    {
      ghost var relayed := [];
      while message != []
        invariant Valid()
        invariant old(message) == relayed + message
        invariant forall u :: u in onlineMap.Values ==> u.ch == old(u.ch) + relayed
        decreases |message|
      {
        ghost var head := message[0];
        RelayOne();
        relayed := relayed + [head];
      }
    }

    /** Handler on a new connection: NewUser, then Online. */
    method Accept(remoteAddr: string) returns (user: User)
      requires Valid()
      modifies this`onlineMap, this`message
      ensures Valid()
      ensures fresh(user)
      ensures user.name == remoteAddr && user.addr == remoteAddr && user.open && user.reading
      ensures user.ch == [] && user.conn == []
      ensures onlineMap == old(onlineMap)[remoteAddr := user]
      ensures message == old(message) + [BroadcastLine(remoteAddr, remoteAddr, OnlineNotice)]
    {
      user := new User(remoteAddr);
      user.Online(this);
    }

    /** One read of the handler's loop. A read of zero bytes takes the user
        offline and dispatches nothing; otherwise the chunk minus its last
        byte is handled as one line. A closed connection reads zero bytes.
        After a zero-byte read the reader has returned and reads no more. */
    method Receive(user: User, chunk: string) returns (crashed: bool)
      requires Valid()
      requires user.reading && (user.open || chunk == [])
      modifies user`name, user`conn, user`reading, this`onlineMap, this`message, onlineMap.Values`conn
      ensures Valid()
      ensures user.reading <==> chunk != []
      ensures chunk == [] ==>
        && !crashed && user.name == old(user.name) && user.conn == old(user.conn)
        && onlineMap == old(onlineMap) - {user.name}
        && message == old(message) + [BroadcastLine(user.addr, user.name, OfflineNotice)]
        && (forall u :: u in old(onlineMap).Values ==> u.conn == old(u.conn))
      ensures chunk != [] ==>
        Dispatched(this, user, old(onlineMap), old(user.name), StripLast(chunk), crashed)
    {
      if chunk == [] {
        user.Offline(this);
        user.reading := false;
        crashed := false;
      } else {
        crashed := user.HandleMessage(this, StripLast(chunk));
      }
    }

    /** The idle-timeout branch of the handler: write the kick notice, delete
        the entry under the user's current name, close the connection. No
        departure is announced here; that comes from Offline once the read
        returns zero bytes. */
    method Evict(user: User)
      requires Valid() && user.open
      modifies user`conn, user`open, this`onlineMap
      ensures Valid()
      ensures user.conn == old(user.conn) + [KickNotice] && !user.open
      ensures onlineMap == old(onlineMap) - {user.name}
      ensures user !in onlineMap.Values && message == old(message)
    {
      user.SendMsg(KickNotice);
      onlineMap := onlineMap - {user.name};
      user.open := false;
    }
  }
}

/// Runs of the state machine that follow from the step contracts alone.
module Scenarios {
  import opened Protocol
  import opened Chat

  /** A joins and its join line reaches every registered mailbox, its own
      included; B joins later and its mailbox holds only its own. */
  method JoinAnnouncements(addrA: string, addrB: string)
    requires addrA != addrB
  {
    var srv := new Server("127.0.0.1", 8888);
    var a := srv.Accept(addrA);
    assert srv.onlineMap.Keys == {addrA};
    srv.ListenMessager();
    assert a.ch == [BroadcastLine(addrA, addrA, OnlineNotice)];
    var b := srv.Accept(addrB);
    assert srv.onlineMap[addrA] == a && srv.onlineMap[addrB] == b;
    srv.ListenMessager();
    assert b.ch == [BroadcastLine(addrB, addrB, OnlineNotice)];
    assert a.ch == [BroadcastLine(addrA, addrA, OnlineNotice), BroadcastLine(addrB, addrB, OnlineNotice)];
  }

  /** A renames itself to a free name: A's key moves, B's stays. */
  method RenameToFreeName(addrA: string, addrB: string, newName: string)
    requires addrA != addrB && newName != addrA && newName != addrB
    requires newName != [] && Sep !in newName
  {
    var srv := new Server("127.0.0.1", 8888);
    var a := srv.Accept(addrA);
    var b := srv.Accept(addrB);
    assert srv.onlineMap == map[addrA := a, addrB := b];
    ghost var m0 := srv.onlineMap;
    assert m0 - {addrA} == map[addrB := b];
    var chunk := RenamePrefix + newName + "\n";
    ClientRenameLine(newName);
    var crashed := srv.Receive(a, chunk);
    assert !crashed && a.name == newName && a.conn == [RenamedReply(newName)];
    assert srv.onlineMap == map[addrB := b][newName := a];
  }

  /** "who" from B lists both sessions. */
  method WhoListsEverySession(addrA: string, addrB: string)
    requires addrA != addrB
  {
    var srv := new Server("127.0.0.1", 8888);
    var a := srv.Accept(addrA);
    var b := srv.Accept(addrB);
    assert srv.onlineMap == map[addrA := a, addrB := b];

    ghost var m0 := srv.onlineMap;
    assert StripLast("who\n") == "who" && Parse("who") == Who;
    var crashed := srv.Receive(b, "who\n");
    ghost var order :| Enumerates(order, m0.Keys) && b.conn == OnlineLines(m0, order);
    ghost var i := ListedEntry(m0, order, addrA);
    ghost var j := ListedEntry(m0, order, addrB);
    assert b.conn[i] == WhoLine(addrA, addrA) && b.conn[j] == WhoLine(addrB, addrB);
  }

  /** A private message from B reaches A with one '\n' of the client's
      "\n\n" still attached. */
  method PrivateMessage(addrA: string, addrB: string, text: string)
    requires addrA != addrB && addrA != [] && Sep !in addrA && Sep !in text && text != []
  {
    var srv := new Server("127.0.0.1", 8888);
    var a := srv.Accept(addrA);
    var b := srv.Accept(addrB);
    assert srv.onlineMap == map[addrA := a, addrB := b];

    var chunk := ToPrefix + addrA + [Sep] + text + "\n\n";
    ClientPrivateLine(addrA, text);
    var crashed := srv.Receive(b, chunk);
    assert a.conn == [PrivateLine(addrB, text + "\n")] && b.conn == [Sent];
  }

  /** A private message to a name nobody has is refused and delivered to
      nobody. */
  method PrivateMessageToUnknown(addrA: string, addrB: string, target: string, text: string)
    requires addrA != addrB && target != addrA && target != addrB && target != []
    requires Sep !in target && Sep !in text
  {
    var srv := new Server("127.0.0.1", 8888);
    var a := srv.Accept(addrA);
    var b := srv.Accept(addrB);
    assert srv.onlineMap == map[addrA := a, addrB := b];

    var chunk := ToPrefix + target + [Sep] + text + "\n\n";
    ClientPrivateLine(target, text);
    var crashed := srv.Receive(b, chunk);
    assert !crashed && a.conn == [] && b.conn == [NoSuchUser];
  }

  /** The eviction of A, then B renaming itself to A's old name, then A's
      connection reading zero bytes: Offline deletes by name, so B loses
      its registry entry while its connection stays open. */
  method OfflineAfterEvictionDropsNamesake(addrA: string, addrB: string)
    requires addrA != addrB && addrA != [] && Sep !in addrA
  {
    var srv := new Server("127.0.0.1", 8888);
    var a := srv.Accept(addrA);
    var b := srv.Accept(addrB);
    srv.Evict(a);
    assert srv.onlineMap == map[addrB := b];

    var chunk := RenamePrefix + addrA + "\n";
    ClientRenameLine(addrA);
    assert Parse(StripLast(chunk)) == Rename(addrA) && addrA !in srv.onlineMap;
    var crashed := srv.Receive(b, chunk);
    assert map[addrB := b] - {addrB} == map[];
    assert b.name == addrA && srv.onlineMap == map[][addrA := b];

    crashed := srv.Receive(a, "");
    assert srv.onlineMap == map[] && b.open;
  }
}
