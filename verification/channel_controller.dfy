/**
 * The channel HTTP handlers over the channel collection: create a channel
 * with a unique name, list all channels newest first, join, leave, and read
 * one channel. Each handler answers with an HTTP status; the collection is
 * the sequence of channel documents in insertion order.
 */
module ChannelController {
  import opened Wrappers
  import opened Text
  import opened Seqs
  import opened Sorting
  import opened ChannelModel

  /** A handler's effect: the collection afterwards, the status, and the channel it sends back, if any. */
  datatype Response = Response(store: seq<Channel>, status: int, channel: Option<Channel>)

  /** `Channel.findById(id)`: the position of the channel with that id, if any. */
  function FindIndex(store: seq<Channel>, id: Id): (r: Option<nat>)
    ensures r.None? <==> !IdTaken(store, id)
    ensures r.Some? ==> r.value < |store| && store[r.value].id == id
    ensures r.Some? ==> forall k :: 0 <= k < r.value ==> store[k].id != id
  {
    if store == [] then None
    else if store[0].id == id then Some(0)
    else
      match FindIndex(store[1..], id)
      case None =>
        assert forall k :: 1 <= k < |store| ==> store[k] == store[1..][k - 1];
        None
      case Some(i) => Some(i + 1)
  }

  /**
   * `createChannel`: 400 when a channel already has the (trimmed) name, 500
   * when the schema refuses the document (a name that trims to nothing),
   * otherwise 201 with the new channel, whose only member is its creator.
   */
  function CreateChannel(store: seq<Channel>, name: string, requester: Id, newId: Id, now: int): (r: Response)
    ensures r.status == 400 <==> NameTaken(store, Trim(name))
    ensures r.status == 500 <==> !NameTaken(store, Trim(name)) && Trim(name) == ""
    ensures r.status == 201 <==> !NameTaken(store, Trim(name)) && Trim(name) != ""
    ensures r.status != 201 ==> r.store == store && r.channel.None?
    ensures r.status == 201 ==>
              && r.channel == Some(Channel(newId, Trim(name), requester, [requester], now))
              && r.store == store + [r.channel.value]
  {
    if NameTaken(store, Trim(name)) then Response(store, 400, None)
    else
      match ChannelModel.Insert(store, name, Some(requester), [requester], newId, now)
      case Refused(_) => Response(store, 500, None)
      case Inserted(s, c) => Response(s, 201, Some(c))
  }

  /** The sort key of `.sort({ createdAt: -1 })`: smaller means newer. */
  function Recency(c: Channel): int {
    -c.createdAt
  }

  /** `getChannels`: every channel, newest first. */
  function GetChannels(store: seq<Channel>): (r: seq<Channel>)
    ensures forall i, j :: 0 <= i < j < |r| ==> r[i].createdAt >= r[j].createdAt
    ensures multiset(r) == multiset(store)
  {
    var r := SortBy(store, Recency);
    assert forall i, j :: 0 <= i < j < |r| ==> Recency(r[i]) <= Recency(r[j]);
    r
  }

  /**
   * `joinChannel`: 404 for an unknown channel, 400 when the user is already
   * a member, otherwise 200 with the user appended to the member list.
   */
  function JoinChannel(store: seq<Channel>, channelId: Id, userId: Id): (r: Response)
    ensures r.status == 404 <==> !IdTaken(store, channelId)
    ensures r.status == 400 <==>
              IdTaken(store, channelId) && userId in store[FindIndex(store, channelId).value].members
    ensures r.status in {200, 400, 404}
    ensures r.status != 200 ==> r.store == store
    ensures r.status == 200 ==>
              var i := FindIndex(store, channelId).value;
              && |r.store| == |store|
              && r.store[i] == store[i].(members := store[i].members + [userId])
              && (forall k :: 0 <= k < |store| && k != i ==> r.store[k] == store[k])
              && r.channel == Some(r.store[i])
  {
    match FindIndex(store, channelId)
    case None => Response(store, 404, None)
    case Some(i) =>
      if userId in store[i].members then Response(store, 400, None)
      else
        var c := store[i].(members := store[i].members + [userId]);
        Response(store[i := c], 200, Some(c))
  }

  /**
   * `leaveChannel`: 404 for an unknown channel, otherwise 200 with every
   * occurrence of the user filtered out of the member list (also when the
   * user was not a member).
   */
  function LeaveChannel(store: seq<Channel>, channelId: Id, userId: Id): (r: Response)
    ensures r.status == 404 <==> !IdTaken(store, channelId)
    ensures r.status in {200, 404}
    ensures r.status == 404 ==> r.store == store
    ensures r.status == 200 ==>
              var i := FindIndex(store, channelId).value;
              && |r.store| == |store|
              && r.store[i].members == RemoveAll(store[i].members, userId)
              && r.store[i] == store[i].(members := r.store[i].members)
              && (forall k :: 0 <= k < |store| && k != i ==> r.store[k] == store[k])
    ensures r.channel.None?
  {
    match FindIndex(store, channelId)
    case None => Response(store, 404, None)
    case Some(i) =>
      Response(store[i := store[i].(members := RemoveAll(store[i].members, userId))], 200, None)
  }

  /** `getChannelInfo`: 404 for an unknown channel, otherwise 200 with it. */
  function GetChannelInfo(store: seq<Channel>, channelId: Id): (r: Response)
    ensures r.store == store
    ensures r.status == 404 <==> !IdTaken(store, channelId)
    ensures r.status == 200 <==> IdTaken(store, channelId)
    ensures r.channel.Some? <==> r.status == 200
    ensures r.channel.Some? ==> r.channel.value in store && r.channel.value.id == channelId
  {
    match FindIndex(store, channelId)
    case None => Response(store, 404, None)
    case Some(i) => Response(store, 200, Some(store[i]))
  }

  /** A successful create keeps the collection valid, given the database assigns a fresh id. */
  lemma CreateKeepsValid(store: seq<Channel>, name: string, requester: Id, newId: Id, now: int)
    requires ValidStore(store) && !IdTaken(store, newId)
    ensures ValidStore(CreateChannel(store, name, requester, newId, now).store)
  {
    InsertKeepsValid(store, name, Some(requester), [requester], newId, now);
  }

  /** Once a channel is created, a second create with a name that trims to the same is refused with 400. */
  lemma CreateTwiceRefused(store: seq<Channel>, name: string, name': string, requester: Id,
                           requester': Id, newId: Id, newId': Id, now: int, now': int)
    requires Trim(name') == Trim(name)
    ensures var r := CreateChannel(store, name, requester, newId, now);
            r.status == 201 ==>
              var r' := CreateChannel(r.store, name', requester', newId', now');
              r'.status == 400 && r'.store == r.store
  {
    var r := CreateChannel(store, name, requester, newId, now);
    if r.status == 201 {
      assert r.store[|store|].name == Trim(name');
    }
  }

  /**
   * A channel created later than every existing one heads the newest-first
   * listing, in front of the unchanged listing of the others.
   */
  lemma CreatedListedFirst(store: seq<Channel>, name: string, requester: Id, newId: Id, now: int)
    requires forall k :: 0 <= k < |store| ==> store[k].createdAt < now
    ensures var r := CreateChannel(store, name, requester, newId, now);
            r.status == 201 ==> GetChannels(r.store) == [r.channel.value] + GetChannels(store)
  {
    var r := CreateChannel(store, name, requester, newId, now);
    if r.status == 201 {
      NewestListedFirst(store, r.channel.value, now);
    }
  }

  /** A channel newer than every stored one is listed first. */
  lemma NewestListedFirst(store: seq<Channel>, c: Channel, now: int)
    requires c.createdAt == now
    requires forall k :: 0 <= k < |store| ==> store[k].createdAt < now
    ensures GetChannels(store + [c]) == [c] + GetChannels(store)
  {
    SortByAppendSmallest(store, c, Recency);
  }

  /** Changing one channel's member list to a duplicate-free one keeps the collection valid. */
  lemma UpdateMembersKeepsValid(store: seq<Channel>, i: nat, members: seq<Id>)
    requires ValidStore(store) && i < |store| && NoDup(members)
    ensures ValidStore(store[i := store[i].(members := members)])
  {
    var s := store[i := store[i].(members := members)];
    assert forall k :: 0 <= k < |s| ==> s[k].id == store[k].id && s[k].name == store[k].name;
  }

  /** Joining keeps member lists duplicate-free and the collection valid. */
  lemma JoinKeepsValid(store: seq<Channel>, channelId: Id, userId: Id)
    requires ValidStore(store)
    ensures ValidStore(JoinChannel(store, channelId, userId).store)
  {
    var r := JoinChannel(store, channelId, userId);
    if r.status == 200 {
      var i := FindIndex(store, channelId).value;
      AppendNoDup(store[i].members, userId);
      UpdateMembersKeepsValid(store, i, store[i].members + [userId]);
      assert r.store == store[i := store[i].(members := store[i].members + [userId])];
    }
  }

  /** Leaving keeps the collection valid. */
  lemma LeaveKeepsValid(store: seq<Channel>, channelId: Id, userId: Id)
    requires ValidStore(store)
    ensures ValidStore(LeaveChannel(store, channelId, userId).store)
  {
    var r := LeaveChannel(store, channelId, userId);
    if r.status == 200 {
      var i := FindIndex(store, channelId).value;
      RemoveAllNoDup(store[i].members, userId);
      UpdateMembersKeepsValid(store, i, RemoveAll(store[i].members, userId));
      assert r.store == store[i := store[i].(members := RemoveAll(store[i].members, userId))];
    }
  }

  /** Joining twice: the second join is refused with 400 and changes nothing. */
  lemma JoinTwiceRefused(store: seq<Channel>, channelId: Id, userId: Id)
    ensures var r := JoinChannel(store, channelId, userId);
            r.status == 200 ==>
              var r' := JoinChannel(r.store, channelId, userId);
              r'.status == 400 && r'.store == r.store
  {
    var r := JoinChannel(store, channelId, userId);
    if r.status == 200 {
      var i := FindIndex(store, channelId).value;
      JoinedStillFound(store, channelId, userId);
      assert r.store[i].members == store[i].members + [userId];
      assert userId in r.store[i].members;
    }
  }

  /** A successful join followed by a leave of the same user restores the collection. */
  lemma JoinThenLeaveRestores(store: seq<Channel>, channelId: Id, userId: Id)
    ensures var r := JoinChannel(store, channelId, userId);
            r.status == 200 ==> LeaveChannel(r.store, channelId, userId).store == store
  {
    var r := JoinChannel(store, channelId, userId);
    if r.status == 200 {
      var i := FindIndex(store, channelId).value;
      var ms := store[i].members;
      JoinedStillFound(store, channelId, userId);
      assert RemoveAll(ms + [userId], userId) == ms by {
        RemoveAllConcat(ms, [userId], userId);
        RemoveAllAbsent(ms, userId);
        assert RemoveAll([userId], userId) == [];
      }
      var s' := LeaveChannel(r.store, channelId, userId).store;
      assert s' == r.store[i := store[i]];
    }
  }

  /** After a successful join the channel is found at the same position. */
  lemma JoinedStillFound(store: seq<Channel>, channelId: Id, userId: Id)
    requires JoinChannel(store, channelId, userId).status == 200
    ensures FindIndex(JoinChannel(store, channelId, userId).store, channelId) == FindIndex(store, channelId)
  {
    var r := JoinChannel(store, channelId, userId);
    var i := FindIndex(store, channelId).value;
    assert r.store[i].id == channelId;
    assert forall k :: 0 <= k < i ==> r.store[k] == store[k];
  }

  /** After a successful join, reading the channel returns it with the new member, as the join answered. */
  lemma JoinedInfo(store: seq<Channel>, channelId: Id, userId: Id)
    ensures var r := JoinChannel(store, channelId, userId);
            r.status == 200 ==>
              && GetChannelInfo(r.store, channelId) == Response(r.store, 200, r.channel)
              && userId in r.channel.value.members
  {
    var r := JoinChannel(store, channelId, userId);
    if r.status == 200 {
      JoinedStillFound(store, channelId, userId);
    }
  }

  /** Leaving a channel one is not a member of succeeds and changes nothing. */
  lemma LeaveAsNonMember(store: seq<Channel>, channelId: Id, userId: Id)
    requires IdTaken(store, channelId)
    requires userId !in store[FindIndex(store, channelId).value].members
    ensures LeaveChannel(store, channelId, userId) == Response(store, 200, None)
  {
    var i := FindIndex(store, channelId).value;
    RemoveAllAbsent(store[i].members, userId);
    assert store[i := store[i]] == store;
  }

  /** After leaving, the user is not a member of that channel, and no other channel changed. */
  lemma LeaveRemovesMembership(store: seq<Channel>, channelId: Id, userId: Id)
    requires IdTaken(store, channelId)
    ensures var r := LeaveChannel(store, channelId, userId);
            var i := FindIndex(store, channelId).value;
            && r.status == 200
            && userId !in r.store[i].members
            && r.store[i].id == channelId
            && (forall m :: m in store[i].members && m != userId ==> m in r.store[i].members)
  {
    var i := FindIndex(store, channelId).value;
    var ms := store[i].members;
    forall m | m in ms && m != userId ensures m in RemoveAll(ms, userId) {
      var k :| 0 <= k < |ms| && ms[k] == m;
    }
  }
}
