/**
 * What the chat panel shows for a given client state: a placeholder with no
 * channel selected, a join prompt for a non-member, a skeleton while the
 * first page loads, and otherwise the conversation in chronological order
 * with the history sentinel and banners. Also the two effects that ask the
 * store for history: the channel-change effect and the top-sentinel observer.
 */
module ChatView {
  import opened Wrappers
  import opened Text
  import opened Sorting
  import opened MessageModel
  import opened ChatStore

  /** One rendered message: whether it is the viewer's own and whether its sender is online. */
  datatype Bubble = Bubble(message: Message, mine: bool, online: bool)

  datatype Screen =
    | Placeholder                 // "Select a channel to start chatting"
    | JoinPrompt(name: string)    // "Join #name"
    | Skeleton                    // header and message skeleton
    | Conversation(
        sentinel: bool,           // the 1px top sentinel the observer watches
        loadingBanner: bool,      // "Loading history..."
        endBanner: bool,          // "End of channel history"
        bubbles: seq<Bubble>)

  /** The sort key of the chronological sort: older first. */
  function Age(m: Message): int {
    m.createdAt
  }

  /** `[...messages].sort(...)`: a sorted copy; the store's own array is not reordered. */
  function Chronological(ms: seq<Message>): (r: seq<Message>)
    ensures forall i, j :: 0 <= i < j < |r| ==> r[i].createdAt <= r[j].createdAt
    ensures multiset(r) == multiset(ms)
  {
    var r := SortBy(ms, Age);
    assert forall i, j :: 0 <= i < j < |r| ==> Age(r[i]) <= Age(r[j]);
    r
  }

  /** Annotates each message with "mine" and "online". */
  function Bubbles(ms: seq<Message>, me: Id, onlineUsers: seq<Id>): (r: seq<Bubble>)
    ensures |r| == |ms|
    ensures forall i :: 0 <= i < |ms| ==>
              && r[i].message == ms[i]
              && (r[i].mine <==> ms[i].senderId == me)
              && (r[i].online <==> ms[i].senderId in onlineUsers)
  {
    if ms == [] then []
    else [Bubble(ms[0], ms[0].senderId == me, ms[0].senderId in onlineUsers)] + Bubbles(ms[1..], me, onlineUsers)
  }

  /** The panel for state `s`, viewer `me` and the server's online list. */
  function Render(s: State, me: Id, onlineUsers: seq<Id>): (r: Screen)
    ensures r.Placeholder? <==> s.selected.None?
    ensures r.JoinPrompt? <==> s.selected.Some? && me !in s.selected.value.members
    ensures r.Skeleton? <==> s.selected.Some? && me in s.selected.value.members && s.loading && s.messages == []
    ensures r.Conversation? ==>
              && (r.sentinel <==> s.hasMore)
              && (r.loadingBanner <==> s.loading && s.hasMore)
              && (r.endBanner <==> !s.hasMore && s.messages != [])
              && |r.bubbles| == |s.messages|
              && (forall i, j :: 0 <= i < j < |r.bubbles| ==>
                    r.bubbles[i].message.createdAt <= r.bubbles[j].message.createdAt)
  {
    if s.selected.None? then Placeholder
    else if me !in s.selected.value.members then JoinPrompt(s.selected.value.name)
    else if s.loading && s.messages == [] then Skeleton
    else
      var sorted := Chronological(s.messages);
      Conversation(s.hasMore, s.loading && s.hasMore, !s.hasMore && s.messages != [],
                   Bubbles(sorted, me, onlineUsers))
  }

  /** The messages a screen shows, in display order. */
  function Shown(r: Screen): seq<Message> {
    if r.Conversation? then Messages(r.bubbles) else []
  }

  function Messages(bs: seq<Bubble>): (r: seq<Message>)
    ensures |r| == |bs| && forall i :: 0 <= i < |bs| ==> r[i] == bs[i].message
  {
    if bs == [] then [] else [bs[0].message] + Messages(bs[1..])
  }

  /**
   * A member's conversation shows every loaded message exactly as often as
   * it is loaded, and nothing else.
   */
  lemma ShownIsPermutation(s: State, me: Id, onlineUsers: seq<Id>)
    ensures var r := Render(s, me, onlineUsers);
            r.Conversation? ==> multiset(Shown(r)) == multiset(s.messages)
  {
    var r := Render(s, me, onlineUsers);
    if r.Conversation? {
      var sorted := Chronological(s.messages);
      assert Shown(r) == sorted;
    }
  }

  /** Only a member with a selected channel ever sees messages. */
  lemma ShownOnlyToMembers(s: State, me: Id, onlineUsers: seq<Id>)
    requires s.selected.None? || me !in s.selected.value.members
    ensures Shown(Render(s, me, onlineUsers)) == []
  {
  }

  /**
   * The top-sentinel observer: it exists only while the sentinel is rendered,
   * and its callback asks for older messages when the sentinel is in view and
   * nothing is loading.
   */
  predicate SentinelFires(s: State, me: Id, onlineUsers: seq<Id>, intersecting: bool)
    ensures SentinelFires(s, me, onlineUsers, intersecting) <==>
              && s.selected.Some? && me in s.selected.value.members
              && s.hasMore && intersecting && !s.loading
  {
    var r := Render(s, me, onlineUsers);
    r.Conversation? && r.sentinel && intersecting && !s.loading
  }

  /**
   * An older-page load is triggered only while more history is expected and
   * nothing is in flight, and then the store never refuses it: it asks for
   * the next page of the selected channel.
   */
  lemma SentinelLoadsNextPage(s: State, me: Id, onlineUsers: seq<Id>, intersecting: bool)
    requires HasId(s.selected)
    ensures SentinelFires(s, me, onlineUsers, intersecting) ==> s.hasMore && !s.loading
    ensures SentinelFires(s, me, onlineUsers, intersecting) ==>
              LoadOlder(s) == Some((s.(loading := true), Fetch(s.selected.value.id, s.page)))
  {
  }

  /**
   * The channel-change effect: when the selected channel's id changes to a
   * truthy one, ask for page 1 of it.
   */
  function ChannelEffect(before: Option<ChannelRef>, after: Option<ChannelRef>): (r: Option<Fetch>)
    ensures r.Some? <==> HasId(after) && (before.None? || before.value.id != after.value.id)
    ensures r.Some? ==> r.value == Fetch(after.value.id, 1)
  {
    var changed := before.None? || after.None? || before.value.id != after.value.id;
    if changed && HasId(after) then Some(Fetch(after.value.id, 1)) else None
  }

  /**
   * Selecting a different channel and running its effect starts a first-page
   * request, unless an earlier request is still in flight: selection does
   * not clear the in-flight flag, so then the first page is never requested.
   */
  lemma SelectThenFetch(s: State, channel: ChannelRef, socket: bool)
    requires Truthy(channel.id)
    requires s.selected.None? || s.selected.value.id != channel.id
    ensures var sel := Select(s, Some(channel), socket).state;
            var f := ChannelEffect(s.selected, Some(channel));
            && f == Some(Fetch(channel.id, 1))
            && (BeginFetch(sel, channel.id, 1).Some? <==> !s.loading)
  {
  }

  /** The store as created has no channel selected, so the panel shows the placeholder. */
  lemma InitialShowsPlaceholder(me: Id, onlineUsers: seq<Id>)
    ensures Render(Initial, me, onlineUsers) == Placeholder
  {
  }
}
