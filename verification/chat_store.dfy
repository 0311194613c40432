/**
 * The client's chat store: the selected channel, the messages loaded for it,
 * the next history page to ask for, whether more history is expected, and
 * whether a history request is in flight. `getMessages` is split at its
 * `await` into `BeginFetch` (the guard and the request) and `CompleteFetch` /
 * `FailFetch` (the response), so that what happens between the two can be
 * stated.
 */
module ChatStore {
  import opened Wrappers
  import opened Text
  import opened MessageModel

  /** `const limit = 50` in `getMessages`. */
  const PageSize := 50

  /** The parts of a selected channel document the client uses. */
  datatype ChannelRef = ChannelRef(id: Id, name: string, members: seq<Id>)

  datatype State = State(
    selected: Option<ChannelRef>,
    messages: seq<Message>,
    page: int,          // `messagesPage`: the next page `loadOlderMessages` asks for
    hasMore: bool,      // `hasMoreMessages`
    loading: bool)      // `isMessagesLoading`

  /** The store as it is created. */
  const Initial := State(None, [], 1, true, false)

  /** What the client emits on its socket. */
  datatype Emit = JoinRoom(channelId: Id) | LeaveRoom(channelId: Id)

  /** A history request `GET /messages/:channelId?page=..&limit=50`. */
  datatype Fetch = Fetch(channelId: Id, page: int)

  datatype Selection = Selection(state: State, emitted: seq<Emit>)

  /** `channel?._id` is truthy. */
  predicate HasId(c: Option<ChannelRef>) {
    c.Some? && Truthy(c.value.id)
  }

  /**
   * `setSelectedChannel(channel)`: leave the previous channel's room, reset
   * the message list and paging, join the new channel's room. The in-flight
   * flag is left as it was. `socket` says whether a socket is connected.
   */
  function Select(s: State, channel: Option<ChannelRef>, socket: bool): (r: Selection)
    ensures r.state.selected == channel
    ensures r.state.messages == [] && r.state.page == 1 && r.state.hasMore
    ensures r.state.loading == s.loading
    ensures HasId(s.selected) && socket ==> LeaveRoom(s.selected.value.id) in r.emitted
    ensures HasId(channel) && socket ==> JoinRoom(channel.value.id) in r.emitted
    ensures forall e :: e in r.emitted && e.LeaveRoom? ==> HasId(s.selected) && e.channelId == s.selected.value.id
    ensures forall e :: e in r.emitted && e.JoinRoom? ==> HasId(channel) && e.channelId == channel.value.id
    ensures |r.emitted| == (if HasId(s.selected) && socket then 1 else 0) + (if HasId(channel) && socket then 1 else 0)
    ensures |r.emitted| == 2 ==> r.emitted[0].LeaveRoom? && r.emitted[1].JoinRoom?
  {
    var leave := if HasId(s.selected) && socket then [LeaveRoom(s.selected.value.id)] else [];
    var join := if HasId(channel) && socket then [JoinRoom(channel.value.id)] else [];
    Selection(State(channel, [], 1, true, s.loading), leave + join)
  }

  /**
   * The synchronous half of `getMessages(channelId, page)`: `None` when the
   * guard returns early (a request is in flight, or an older page is asked
   * for after the end of history); otherwise the flagged state and the
   * request sent.
   */
  function BeginFetch(s: State, channelId: Id, page: int): (r: Option<(State, Fetch)>)
    ensures r.None? <==> s.loading || (page > 1 && !s.hasMore)
    ensures r.Some? ==> r.value.0.loading && r.value.1 == Fetch(channelId, page)
    ensures r.Some? ==> r.value.0.(loading := false) == s
  {
    if s.loading || (page > 1 && !s.hasMore) then None
    else Some((s.(loading := true), Fetch(channelId, page)))
  }

  /**
   * The response to a request for `page`: page 1 replaces the messages, a
   * later page is put in front of them; the next page is `page + 1`; more
   * history is expected exactly when a full page came back.
   */
  function CompleteFetch(s: State, page: int, fetched: seq<Message>): (r: State)
    ensures r.selected == s.selected && !r.loading
    ensures r.page == page + 1
    ensures r.hasMore <==> |fetched| == PageSize
    ensures page == 1 ==> r.messages == fetched
    ensures page != 1 ==> |r.messages| == |fetched| + |s.messages|
    ensures page != 1 ==> r.messages[..|fetched|] == fetched && r.messages[|fetched|..] == s.messages
    ensures multiset(r.messages) == multiset(fetched) + (if page == 1 then multiset{} else multiset(s.messages))
  {
    var ms := if page == 1 then fetched else fetched + s.messages;
    s.(messages := ms, page := page + 1, hasMore := |fetched| == PageSize, loading := false)
  }

  /** A request that throws: only the in-flight flag is cleared. */
  function FailFetch(s: State): (r: State)
    ensures !r.loading
    ensures r.(loading := s.loading) == s
  {
    s.(loading := false)
  }

  /** `loadOlderMessages`: ask for page `page` of the selected channel, if one with an id is selected. */
  function LoadOlder(s: State): (r: Option<(State, Fetch)>)
    ensures r.Some? <==> HasId(s.selected) && !s.loading && (s.page <= 1 || s.hasMore)
    ensures r.Some? ==> r.value.1 == Fetch(s.selected.value.id, s.page) && r.value.0 == s.(loading := true)
  {
    if HasId(s.selected) then BeginFetch(s, s.selected.value.id, s.page) else None
  }

  /** The `newMessage` listener: append the message iff it belongs to the selected channel. */
  function LiveMessage(s: State, m: Message): (r: State)
    ensures s.selected.Some? && m.channelId == s.selected.value.id ==> r.messages == s.messages + [m]
    ensures !(s.selected.Some? && m.channelId == s.selected.value.id) ==> r == s
    ensures r.selected == s.selected && r.page == s.page && r.hasMore == s.hasMore && r.loading == s.loading
  {
    if s.selected.Some? && m.channelId == s.selected.value.id then s.(messages := s.messages + [m])
    else s
  }

  /** Selecting the same channel again yields the same state: selection resets rather than accumulates. */
  lemma SelectIdempotent(s: State, channel: Option<ChannelRef>, socket: bool, socket': bool)
    ensures Select(Select(s, channel, socket).state, channel, socket').state == Select(s, channel, socket).state
  {
  }

  /** While a request is in flight every further request is refused, so at most one is ever in flight. */
  lemma AtMostOneInFlight(s: State, channelId: Id, page: int, channelId': Id, page': int)
    ensures var r := BeginFetch(s, channelId, page);
            r.Some? ==> BeginFetch(r.value.0, channelId', page').None?
  {
  }

  /** A request that starts and then fails leaves the store as it found it. */
  lemma BeginThenFailRestores(s: State, channelId: Id, page: int)
    ensures var r := BeginFetch(s, channelId, page);
            r.Some? ==> FailFetch(r.value.0) == s
  {
  }

  /**
   * After the end of history is reached, asking for an older page is
   * refused until a new selection resets paging.
   */
  lemma EndOfHistoryIsFinal(s: State, page: int, fetched: seq<Message>, page': int)
    requires |fetched| != PageSize && page >= 1 && page' > 1
    ensures LoadOlder(CompleteFetch(s, page, fetched)).None?
    ensures forall c :: BeginFetch(CompleteFetch(s, page, fetched), c, page').None?
  {
  }

  /** A live message for another channel, or with nothing selected, changes nothing. */
  lemma LiveMessageIgnoresOthers(s: State, m: Message)
    ensures LiveMessage(s, m) == s <==> !(s.selected.Some? && m.channelId == s.selected.value.id)
  {
    if s.selected.Some? && m.channelId == s.selected.value.id {
      assert |LiveMessage(s, m).messages| == |s.messages| + 1;
    }
  }
}
