/**
 * The socket server's presence bookkeeping: `onlineUsers` maps a socket id to
 * the user id it identified with, `userSockets` maps a user id to the list of
 * that user's socket ids (several tabs or devices). The connection handler
 * and the disconnect handler are pure updates of these two tables, each
 * followed by an `onlineUsers` broadcast of `Object.values(onlineUsers)`.
 * Room joins and leaves are socket.io's own bookkeeping and are not modelled.
 */
module SessionRegistry {
  import opened Wrappers
  import opened Text
  import opened Seqs
  import opened ObjectMap

  type SocketId = string
  type UserId = string

  datatype Registry = Registry(onlineUsers: Entries, userSockets: map<UserId, seq<SocketId>>)

  /** Both tables start as empty objects. */
  const Empty := Registry([], map[])

  /** A handler's effect: the new tables and the `onlineUsers` broadcast, when one is emitted. */
  datatype Step = Step(reg: Registry, broadcast: Option<seq<UserId>>)

  /** The payload of every `onlineUsers` broadcast. */
  function OnlineList(reg: Registry): seq<UserId> {
    Values(reg.onlineUsers)
  }

  /** `userSockets[u] || []`. */
  function SocketsOf(reg: Registry, u: UserId): seq<SocketId> {
    if u in reg.userSockets then reg.userSockets[u] else []
  }

  /** `if (userId)`: the handshake carried a non-empty user id. */
  predicate Identified(userId: Option<UserId>) {
    userId.Some? && Truthy(userId.value)
  }

  /**
   * The connection handler. With a user id, the socket is recorded under it in
   * both tables and the online list is broadcast; without one nothing happens.
   */
  function Connect(reg: Registry, sid: SocketId, userId: Option<UserId>): (r: Step)
    ensures !Identified(userId) ==> r == Step(reg, None)
    ensures Identified(userId) ==>
              && Get(r.reg.onlineUsers, sid) == Some(userId.value)
              && (forall s :: s != sid ==> Get(r.reg.onlineUsers, s) == Get(reg.onlineUsers, s))
              && r.reg.userSockets.Keys == reg.userSockets.Keys + {userId.value}
              && r.reg.userSockets[userId.value] == SocketsOf(reg, userId.value) + [sid]
              && (forall w :: w in reg.userSockets && w != userId.value ==>
                                r.reg.userSockets[w] == reg.userSockets[w])
              && r.broadcast == Some(OnlineList(r.reg))
  {
    if Identified(userId) then
      var u := userId.value;
      var online := Set(reg.onlineUsers, sid, u);
      assert Get(online, sid) == Some(u) by {
        SetGet(reg.onlineUsers, sid, u, sid);
      }
      assert forall s :: s != sid ==> Get(online, s) == Get(reg.onlineUsers, s) by {
        forall s | s != sid ensures Get(online, s) == Get(reg.onlineUsers, s) {
          SetGet(reg.onlineUsers, sid, u, s);
        }
      }
      var next := Registry(online, reg.userSockets[u := SocketsOf(reg, u) + [sid]]);
      Step(next, Some(OnlineList(next)))
    else
      Step(reg, None)
  }

  /**
   * The disconnect handler. The socket always leaves `onlineUsers`; when it
   * belonged to a user it also leaves that user's list, and a list that becomes
   * empty is deleted. The online list is broadcast afterwards. If the user had
   * no list (impossible in a consistent registry) `.filter` throws after the
   * `delete`, so the handler stops without broadcasting.
   */
  function Disconnect(reg: Registry, sid: SocketId): (r: Step)
    ensures Get(r.reg.onlineUsers, sid).None?
    ensures forall s :: s != sid ==> Get(r.reg.onlineUsers, s) == Get(reg.onlineUsers, s)
    ensures Get(reg.onlineUsers, sid).None? ==> r == Step(reg, Some(OnlineList(reg)))
    ensures r.broadcast.Some? ==> r.broadcast.value == OnlineList(r.reg)
    ensures r.broadcast.None? <==>
              Identified(Get(reg.onlineUsers, sid)) && Get(reg.onlineUsers, sid).value !in reg.userSockets
    ensures !Identified(Get(reg.onlineUsers, sid)) ==> r.reg.userSockets == reg.userSockets
    ensures Identified(Get(reg.onlineUsers, sid)) ==>
              var u := Get(reg.onlineUsers, sid).value;
              && sid !in SocketsOf(r.reg, u)
              && (forall s :: s in SocketsOf(r.reg, u) <==> s in SocketsOf(reg, u) && s != sid)
              && (forall w :: w != u ==> SocketsOf(r.reg, w) == SocketsOf(reg, w))
              && (forall w :: w != u ==> (w in r.reg.userSockets <==> w in reg.userSockets))
    ensures (forall w :: w in reg.userSockets ==> reg.userSockets[w] != []) ==>
              forall w :: w in r.reg.userSockets ==> r.reg.userSockets[w] != []
  {
    var uid := Get(reg.onlineUsers, sid);
    var online := Delete(reg.onlineUsers, sid);
    assert Get(online, sid).None? by {
      DeleteGet(reg.onlineUsers, sid, sid);
    }
    assert forall s :: s != sid ==> Get(online, s) == Get(reg.onlineUsers, s) by {
      forall s | s != sid ensures Get(online, s) == Get(reg.onlineUsers, s) {
        DeleteGet(reg.onlineUsers, sid, s);
      }
    }
    assert uid.None? ==> online == reg.onlineUsers by {
      if uid.None? {
        DeleteAbsent(reg.onlineUsers, sid);
      }
    }
    if Identified(uid) then
      var u := uid.value;
      if u !in reg.userSockets then
        Step(Registry(online, reg.userSockets), None)
      else
        var next := Removed(reg, sid, u);
        RemovedSockets(reg, sid, u);
        Step(next, Some(OnlineList(next)))
    else
      Step(Registry(online, reg.userSockets), Some(Values(online)))
  }

  /** Every entry of `onlineUsers` has a non-empty user id whose list holds the socket. */
  predicate EntriesListed(reg: Registry) {
    forall i :: 0 <= i < |reg.onlineUsers| ==>
      && Truthy(reg.onlineUsers[i].1)
      && reg.onlineUsers[i].1 in reg.userSockets
      && reg.onlineUsers[i].0 in reg.userSockets[reg.onlineUsers[i].1]
  }

  /** Every socket in a user's list maps back to that user in `onlineUsers`. */
  predicate ListsMapBack(reg: Registry) {
    forall u, s :: u in reg.userSockets && s in reg.userSockets[u] ==> Get(reg.onlineUsers, s) == Some(u)
  }

  /** Lists are non-empty and duplicate-free, and a user occurs in the online list once per socket. */
  predicate ListsCounted(reg: Registry) {
    forall u :: u in reg.userSockets ==>
      && reg.userSockets[u] != []
      && NoDup(reg.userSockets[u])
      && multiset(OnlineList(reg))[u] == |reg.userSockets[u]|
  }

  /** The two tables agree with each other. */
  predicate Consistent(reg: Registry) {
    UniqueKeys(reg.onlineUsers) && EntriesListed(reg) && ListsMapBack(reg) && ListsCounted(reg)
  }

  lemma EntryIndex(e: Entries, p: (string, string)) returns (i: nat)
    requires p in e
    ensures i < |e| && e[i] == p
  {
    i :| 0 <= i < |e| && e[i] == p;
  }

  /** In a consistent registry, `onlineUsers[s] === u` exactly when `s` is in `userSockets[u]`. */
  lemma ConsistentIff(reg: Registry, s: SocketId, u: UserId)
    requires Consistent(reg)
    ensures Get(reg.onlineUsers, s) == Some(u) <==> u in reg.userSockets && s in reg.userSockets[u]
  {
    if Get(reg.onlineUsers, s) == Some(u) {
      var i := EntryIndex(reg.onlineUsers, (s, u));
    }
  }

  /** A user is in the broadcast online list exactly when they have at least one socket. */
  lemma PresenceIffSockets(reg: Registry, u: UserId)
    requires EntriesListed(reg) && ListsCounted(reg)
    ensures u in OnlineList(reg) <==> SocketsOf(reg, u) != []
    ensures multiset(OnlineList(reg))[u] == |SocketsOf(reg, u)|
  {
    if u in OnlineList(reg) {
      var i :| 0 <= i < |OnlineList(reg)| && OnlineList(reg)[i] == u;
      assert reg.onlineUsers[i].1 == u;
    }
  }

  /** The tables after the connection handler records a fresh socket for user `u`. */
  function Added(reg: Registry, sid: SocketId, u: UserId): Registry {
    Registry(reg.onlineUsers + [(sid, u)], reg.userSockets[u := SocketsOf(reg, u) + [sid]])
  }

  lemma AddedEntriesListed(reg: Registry, sid: SocketId, u: UserId)
    requires EntriesListed(reg) && Truthy(u)
    ensures EntriesListed(Added(reg, sid, u))
  {
    var next := Added(reg, sid, u);
    forall i | 0 <= i < |next.onlineUsers|
      ensures && Truthy(next.onlineUsers[i].1)
              && next.onlineUsers[i].1 in next.userSockets
              && next.onlineUsers[i].0 in next.userSockets[next.onlineUsers[i].1]
    {
      if i < |reg.onlineUsers| {
        assert next.onlineUsers[i] == reg.onlineUsers[i];
      }
    }
  }

  lemma AddedMapsBack(reg: Registry, sid: SocketId, u: UserId)
    requires ListsMapBack(reg) && Get(reg.onlineUsers, sid).None?
    ensures ListsMapBack(Added(reg, sid, u))
  {
    var next := Added(reg, sid, u);
    SetFresh(reg.onlineUsers, sid, u);
    forall w, s | w in next.userSockets && s in next.userSockets[w]
      ensures Get(next.onlineUsers, s) == Some(w)
    {
      SetGet(reg.onlineUsers, sid, u, s);
      if s != sid {
        assert w in reg.userSockets && s in reg.userSockets[w];
      }
    }
  }

  /** A socket id missing from `onlineUsers` is in nobody's list. */
  lemma FreshNotListed(reg: Registry, sid: SocketId, u: UserId)
    requires ListsMapBack(reg) && Get(reg.onlineUsers, sid).None?
    ensures sid !in SocketsOf(reg, u)
  {
  }

  lemma AddedCounted(reg: Registry, sid: SocketId, u: UserId)
    requires EntriesListed(reg) && ListsCounted(reg)
    requires sid !in SocketsOf(reg, u)
    ensures ListsCounted(Added(reg, sid, u))
  {
    var next := Added(reg, sid, u);
    var old_ := SocketsOf(reg, u);
    assert OnlineList(next) == OnlineList(reg) + [u];
    assert NoDup(old_);
    AppendNoDup(old_, sid);
    PresenceIffSockets(reg, u);
    forall w | w in next.userSockets
      ensures && next.userSockets[w] != []
              && NoDup(next.userSockets[w])
              && multiset(OnlineList(next))[w] == |next.userSockets[w]|
    {
      if w == u {
        assert next.userSockets[w] == old_ + [sid];
      } else {
        assert next.userSockets[w] == reg.userSockets[w];
        assert multiset(OnlineList(next))[w] == multiset(OnlineList(reg))[w];
      }
    }
  }

  /** Connecting a socket id that is not yet registered keeps the tables consistent. */
  lemma ConnectKeepsConsistent(reg: Registry, sid: SocketId, userId: Option<UserId>)
    requires Consistent(reg) && Get(reg.onlineUsers, sid).None?
    ensures Consistent(Connect(reg, sid, userId).reg)
  {
    if Identified(userId) {
      var u := userId.value;
      SetFresh(reg.onlineUsers, sid, u);
      SetUnique(reg.onlineUsers, sid, u);
      assert Connect(reg, sid, userId).reg == Added(reg, sid, u);
      AddedEntriesListed(reg, sid, u);
      AddedMapsBack(reg, sid, u);
      FreshNotListed(reg, sid, u);
      AddedCounted(reg, sid, u);
    }
  }

  /** The tables after the disconnect handler removes socket `sid` of user `u`. */
  function Removed(reg: Registry, sid: SocketId, u: UserId): Registry
    requires u in reg.userSockets
  {
    var rest := RemoveAll(reg.userSockets[u], sid);
    Registry(Delete(reg.onlineUsers, sid),
             if rest == [] then reg.userSockets - {u} else reg.userSockets[u := rest])
  }

  /** The socket lists after the removal: `sid` leaves `u`'s list, no other list changes, and no list becomes empty. */
  lemma RemovedSockets(reg: Registry, sid: SocketId, u: UserId)
    requires u in reg.userSockets
    ensures var next := Removed(reg, sid, u);
            && next.onlineUsers == Delete(reg.onlineUsers, sid)
            && sid !in SocketsOf(next, u)
            && (forall s :: s in SocketsOf(next, u) <==> s in SocketsOf(reg, u) && s != sid)
            && (forall w :: w != u ==> SocketsOf(next, w) == SocketsOf(reg, w))
            && (forall w :: w != u ==> (w in next.userSockets <==> w in reg.userSockets))
            && (forall w :: w in next.userSockets ==> next.userSockets[w] != [] || reg.userSockets[w] == [])
  {
    var rest := RemoveAll(reg.userSockets[u], sid);
    forall s ensures s in rest <==> s in reg.userSockets[u] && s != sid {
      if s in reg.userSockets[u] && s != sid {
        var k :| 0 <= k < |reg.userSockets[u]| && reg.userSockets[u][k] == s;
      }
    }
  }

  lemma RemovedEntriesListed(reg: Registry, sid: SocketId, u: UserId)
    requires EntriesListed(reg) && u in reg.userSockets
    ensures EntriesListed(Removed(reg, sid, u))
  {
    var next := Removed(reg, sid, u);
    var rest := RemoveAll(reg.userSockets[u], sid);
    forall j | 0 <= j < |next.onlineUsers|
      ensures && Truthy(next.onlineUsers[j].1)
              && next.onlineUsers[j].1 in next.userSockets
              && next.onlineUsers[j].0 in next.userSockets[next.onlineUsers[j].1]
    {
      var p := next.onlineUsers[j];
      DeleteEntries(reg.onlineUsers, sid, p);
      var k := EntryIndex(reg.onlineUsers, p);
      if p.1 == u {
        assert p.0 in reg.userSockets[u];
        assert p.0 in rest;
      }
    }
  }

  lemma RemovedMapsBack(reg: Registry, sid: SocketId, u: UserId)
    requires ListsMapBack(reg) && u in reg.userSockets && Get(reg.onlineUsers, sid) == Some(u)
    ensures ListsMapBack(Removed(reg, sid, u))
  {
    var next := Removed(reg, sid, u);
    var rest := RemoveAll(reg.userSockets[u], sid);
    forall w, s | w in next.userSockets && s in next.userSockets[w]
      ensures Get(next.onlineUsers, s) == Some(w)
    {
      DeleteGet(reg.onlineUsers, sid, s);
      if w == u {
        assert s in rest;
      } else {
        assert s in reg.userSockets[w];
      }
    }
  }

  lemma RemovedCounted(reg: Registry, sid: SocketId, u: UserId)
    requires UniqueKeys(reg.onlineUsers) && ListsCounted(reg)
    requires u in reg.userSockets && sid in reg.userSockets[u] && Get(reg.onlineUsers, sid) == Some(u)
    ensures ListsCounted(Removed(reg, sid, u))
  {
    var next := Removed(reg, sid, u);
    DeleteValues(reg.onlineUsers, sid, u);
    RemoveAllOnce(reg.userSockets[u], sid);
    RemoveAllNoDup(reg.userSockets[u], sid);
    forall w | w in next.userSockets
      ensures && next.userSockets[w] != []
              && NoDup(next.userSockets[w])
              && multiset(OnlineList(next))[w] == |next.userSockets[w]|
    {
      RemovedCountedAt(reg, sid, u, w);
    }
  }

  /** One user's count after the removal: the owner lost one socket and one entry, the others nothing. */
  lemma RemovedCountedAt(reg: Registry, sid: SocketId, u: UserId, w: UserId)
    requires ListsCounted(reg) && u in reg.userSockets
    requires multiset(OnlineList(Removed(reg, sid, u))) == multiset(OnlineList(reg)) - multiset{u}
    requires |RemoveAll(reg.userSockets[u], sid)| == |reg.userSockets[u]| - 1
    requires NoDup(RemoveAll(reg.userSockets[u], sid))
    requires w in Removed(reg, sid, u).userSockets
    ensures var next := Removed(reg, sid, u);
            && next.userSockets[w] != []
            && NoDup(next.userSockets[w])
            && multiset(OnlineList(next))[w] == |next.userSockets[w]|
  {
    if w == u {
      RemovedCountedOwner(reg, sid, u);
    } else {
      RemovedCountedOther(reg, sid, u, w);
    }
  }

  lemma RemovedCountedOwner(reg: Registry, sid: SocketId, u: UserId)
    requires ListsCounted(reg) && u in reg.userSockets
    requires multiset(OnlineList(Removed(reg, sid, u))) == multiset(OnlineList(reg)) - multiset{u}
    requires |RemoveAll(reg.userSockets[u], sid)| == |reg.userSockets[u]| - 1
    requires NoDup(RemoveAll(reg.userSockets[u], sid))
    requires u in Removed(reg, sid, u).userSockets
    ensures var next := Removed(reg, sid, u);
            && next.userSockets[u] != []
            && NoDup(next.userSockets[u])
            && multiset(OnlineList(next))[u] == |next.userSockets[u]|
  {
    assert Removed(reg, sid, u).userSockets[u] == RemoveAll(reg.userSockets[u], sid);
  }

  lemma RemovedCountedOther(reg: Registry, sid: SocketId, u: UserId, w: UserId)
    requires ListsCounted(reg) && u in reg.userSockets && w != u
    requires multiset(OnlineList(Removed(reg, sid, u))) == multiset(OnlineList(reg)) - multiset{u}
    requires w in Removed(reg, sid, u).userSockets
    ensures var next := Removed(reg, sid, u);
            && next.userSockets[w] != []
            && NoDup(next.userSockets[w])
            && multiset(OnlineList(next))[w] == |next.userSockets[w]|
  {
    var next := Removed(reg, sid, u);
    assert next.userSockets[w] == reg.userSockets[w];
    MinusOther(multiset(OnlineList(reg)), u, w);
  }

  /** Taking one `u` out of a multiset leaves the count of every other element alone. */
  lemma MinusOther<T>(m: multiset<T>, u: T, w: T)
    requires w != u
    ensures (m - multiset{u})[w] == m[w]
  {
  }

  /** Disconnecting any socket, known or not, keeps the tables consistent. */
  lemma DisconnectKeepsConsistent(reg: Registry, sid: SocketId)
    requires Consistent(reg)
    ensures Consistent(Disconnect(reg, sid).reg)
  {
    var uid := Get(reg.onlineUsers, sid);
    if uid.Some? {
      var u := uid.value;
      var i := EntryIndex(reg.onlineUsers, (sid, u));
      assert Identified(uid) && u in reg.userSockets && sid in reg.userSockets[u];
      assert Disconnect(reg, sid).reg == Removed(reg, sid, u);
      DeleteUnique(reg.onlineUsers, sid);
      RemovedEntriesListed(reg, sid, u);
      RemovedMapsBack(reg, sid, u);
      RemovedCounted(reg, sid, u);
    } else {
      DeleteAbsent(reg.onlineUsers, sid);
    }
  }

  /** The two socket events, as the server sees them. */
  datatype Event = Connection(sid: SocketId, userId: Option<UserId>) | Disconnection(sid: SocketId)

  /** The handler socket.io runs for an event. */
  function Handle(reg: Registry, ev: Event): (r: Step)
    ensures ev.Connection? && !Identified(ev.userId) ==> r == Step(reg, None)
    ensures ev.Connection? && Identified(ev.userId) ==> Get(r.reg.onlineUsers, ev.sid) == ev.userId
    ensures ev.Disconnection? ==> Get(r.reg.onlineUsers, ev.sid).None?
    ensures r.broadcast.Some? ==> r.broadcast.value == OnlineList(r.reg)
  {
    match ev
    case Connection(sid, userId) => Connect(reg, sid, userId)
    case Disconnection(sid) => Disconnect(reg, sid)
  }

  /** The tables after a sequence of events. */
  function Replay(reg: Registry, evs: seq<Event>): Registry
    decreases |evs|
  {
    if evs == [] then reg else Replay(Handle(reg, evs[0]).reg, evs[1..])
  }

  /** socket.io never reuses a live socket id: each connection brings an id not currently registered. */
  predicate FreshIds(reg: Registry, evs: seq<Event>)
    decreases |evs|
  {
    evs == [] ||
    ((evs[0].Connection? ==> Get(reg.onlineUsers, evs[0].sid).None?)
     && FreshIds(Handle(reg, evs[0]).reg, evs[1..]))
  }

  /** One event from a consistent registry leaves it consistent. */
  lemma HandleKeepsConsistent(reg: Registry, ev: Event)
    requires Consistent(reg)
    requires ev.Connection? ==> Get(reg.onlineUsers, ev.sid).None?
    ensures Consistent(Handle(reg, ev).reg)
  {
    match ev {
      case Connection(sid, userId) => ConnectKeepsConsistent(reg, sid, userId);
      case Disconnection(sid) => DisconnectKeepsConsistent(reg, sid);
    }
  }

  /**
   * Any run of connections and disconnections from consistent tables, with
   * fresh socket ids, leaves the tables consistent: `onlineUsers[s] === u`
   * iff `s` is in `userSockets[u]`, no user has an empty list, and the online
   * list holds each user once per open socket.
   */
  lemma {:induction false} ReplayConsistent(reg: Registry, evs: seq<Event>)
    requires Consistent(reg) && FreshIds(reg, evs)
    ensures Consistent(Replay(reg, evs))
    decreases |evs|
  {
    if evs != [] {
      HandleKeepsConsistent(reg, evs[0]);
      ReplayConsistent(Handle(reg, evs[0]).reg, evs[1..]);
    }
  }

  /**
   * Every broadcast from a consistent registry names each online user once per
   * open socket, and names exactly the users that still have a socket; the
   * disconnect handler always broadcasts.
   */
  lemma BroadcastReflectsSockets(reg: Registry, ev: Event)
    requires Consistent(reg)
    requires ev.Connection? ==> Get(reg.onlineUsers, ev.sid).None?
    ensures ev.Disconnection? ==> Handle(reg, ev).broadcast.Some?
    ensures var r := Handle(reg, ev);
            r.broadcast.Some? ==>
              forall u :: && multiset(r.broadcast.value)[u] == |SocketsOf(r.reg, u)|
                          && (u in r.broadcast.value <==> u in r.reg.userSockets)
  {
    var r := Handle(reg, ev);
    HandleKeepsConsistent(reg, ev);
    if ev.Disconnection? {
      var uid := Get(reg.onlineUsers, ev.sid);
      if uid.Some? {
        var i := EntryIndex(reg.onlineUsers, (ev.sid, uid.value));
      }
    }
    if r.broadcast.Some? {
      assert r.broadcast.value == OnlineList(r.reg);
      forall u ensures && multiset(r.broadcast.value)[u] == |SocketsOf(r.reg, u)|
                       && (u in r.broadcast.value <==> u in r.reg.userSockets)
      {
        PresenceIffSockets(r.reg, u);
      }
    }
  }

  /** The server starts with both tables empty, which is consistent. */
  lemma EmptyConsistent()
    ensures Consistent(Empty)
  {
  }

  /**
   * From server start, any run of connections and disconnections with fresh
   * socket ids leaves the tables consistent.
   */
  lemma ReplayFromStart(evs: seq<Event>)
    requires FreshIds(Empty, evs)
    ensures Consistent(Replay(Empty, evs))
  {
    EmptyConsistent();
    ReplayConsistent(Empty, evs);
  }
}
