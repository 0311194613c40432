/**
 * The client store driven against the server's `getMessages` over a
 * collection: opening a channel loads page 1, each older-history load asks
 * for the next page and puts it in front. Over a collection that does not
 * change, the loaded messages are the newest ones; when the collection grows
 * between loads, the offset-based paging and the absence of any
 * de-duplication by id make a message appear twice.
 */
module History {
  import opened Wrappers
  import opened Text
  import opened Seqs
  import opened MessageModel
  import opened MessageController
  import opened ChatStore
  import ChatView

  /** The server's answer to a client request, against the collection `store`. */
  function Serve(store: seq<Message>, f: Fetch): (r: seq<Message>)
    requires f.page >= 1
    ensures r == PageOf(Timeline(store, f.channelId), f.page, PageSize)
  {
    var r := GetMessages(store, f.channelId, Some(f.page), Some(PageSize));
    var t := Timeline(store, f.channelId);
    assert Skip(f.page, PageSize) >= |t| ==> PageOf(t, f.page, PageSize) == [];
    r
  }

  /**
   * `setSelectedChannel(ch)` followed by the channel-change effect's
   * `getMessages(ch._id, 1)` and its response.
   */
  function Open(store: seq<Message>, s: State, ch: ChannelRef, socket: bool): (r: State)
    ensures r.selected == Some(ch) && r.page >= 1
    ensures !s.loading ==> !r.loading
    ensures ChatView.ChannelEffect(s.selected, Some(ch)).None? ==> r == Select(s, Some(ch), socket).state
  {
    var sel := Select(s, Some(ch), socket).state;
    match ChatView.ChannelEffect(s.selected, Some(ch))
    case None => sel
    case Some(first) =>
      match BeginFetch(sel, first.channelId, first.page)
      case None => sel
      case Some((busy, f)) => CompleteFetch(busy, f.page, Serve(store, f))
  }

  /** `loadOlderMessages()` and its response. */
  function Older(store: seq<Message>, s: State): (r: State)
    requires s.page >= 1
    ensures r.page >= 1
    ensures r.selected == s.selected
    ensures !s.loading ==> !r.loading
    ensures LoadOlder(s).None? ==> r == s
  {
    match LoadOlder(s)
    case None => s
    case Some((busy, f)) => CompleteFetch(busy, f.page, Serve(store, f))
  }

  /** `k` older-history loads in a row. */
  function OlderTimes(store: seq<Message>, s: State, k: nat): (r: State)
    requires s.page >= 1
    ensures r.page >= 1
  {
    if k == 0 then s else Older(store, OlderTimes(store, s, k - 1))
  }

  /** The store's message array after pages 1..p were loaded in order: each older page is put in front. */
  function Loaded(t: seq<Message>, p: nat): seq<Message> {
    if p == 0 then [] else PageOf(t, p, PageSize) + Loaded(t, p - 1)
  }

  /**
   * The client state after pages 1..p of channel `ch` were loaded and no
   * request is in flight.
   */
  predicate HasLoaded(t: seq<Message>, ch: ChannelRef, s: State, p: nat) {
    && p >= 1
    && Truthy(ch.id)
    && s.selected == Some(ch)
    && !s.loading
    && s.page == p + 1
    && s.messages == Loaded(t, p)
    && (s.hasMore <==> Skip(p + 1, PageSize) <= |t|)
  }

  /** A page is full exactly when the next page's offset is still within the list. */
  lemma FullPage(t: seq<Message>, p: int)
    requires p >= 1
    ensures |PageOf(t, p, PageSize)| == PageSize <==> Skip(p + 1, PageSize) <= |t|
  {
    assert Skip(p + 1, PageSize) == Skip(p, PageSize) + PageSize;
  }

  /** Opening a channel, with nothing in flight, loads its first page. */
  lemma OpenLoadsFirstPage(store: seq<Message>, s: State, ch: ChannelRef, socket: bool)
    requires !s.loading && Truthy(ch.id)
    requires s.selected.None? || s.selected.value.id != ch.id
    ensures HasLoaded(Timeline(store, ch.id), ch, Open(store, s, ch, socket), 1)
  {
    var t := Timeline(store, ch.id);
    FullPage(t, 1);
    assert Loaded(t, 1) == PageOf(t, 1, PageSize);
  }

  /** An older-history load advances by one page while more is expected, and otherwise does nothing. */
  lemma OlderAdvances(store: seq<Message>, ch: ChannelRef, s: State, p: nat)
    requires HasLoaded(Timeline(store, ch.id), ch, s, p)
    ensures s.hasMore ==> HasLoaded(Timeline(store, ch.id), ch, Older(store, s), p + 1)
    ensures !s.hasMore ==> Older(store, s) == s
  {
    if s.hasMore {
      OlderLoadsNextPage(store, ch, s, p);
    } else {
      assert LoadOlder(s).None?;
    }
  }

  lemma OlderLoadsNextPage(store: seq<Message>, ch: ChannelRef, s: State, p: nat)
    requires HasLoaded(Timeline(store, ch.id), ch, s, p) && s.hasMore
    ensures HasLoaded(Timeline(store, ch.id), ch, Older(store, s), p + 1)
  {
    var f := Fetch(ch.id, p + 1);
    assert LoadOlder(s) == Some((s.(loading := true), f));
    CompleteNextPage(Timeline(store, ch.id), ch, s, p, Serve(store, f));
  }

  /** The response to the request for page p + 1 extends what is loaded by that page. */
  lemma CompleteNextPage(t: seq<Message>, ch: ChannelRef, s: State, p: nat, fetched: seq<Message>)
    requires HasLoaded(t, ch, s, p) && fetched == PageOf(t, p + 1, PageSize)
    ensures HasLoaded(t, ch, CompleteFetch(s.(loading := true), p + 1, fetched), p + 1)
  {
    var r := CompleteFetch(s.(loading := true), p + 1, fetched);
    assert r.messages == Loaded(t, p + 1);
    FullPage(t, p + 1);
  }

  /**
   * After `k` older loads from a channel whose first page is loaded, pages
   * 1..p are loaded, and fewer than k + 1 only when history ran out.
   */
  lemma {:induction false} LoadsReach(store: seq<Message>, ch: ChannelRef, s0: State, k: nat)
    returns (p: nat)
    requires HasLoaded(Timeline(store, ch.id), ch, s0, 1)
    ensures 1 <= p <= k + 1
    ensures HasLoaded(Timeline(store, ch.id), ch, OlderTimes(store, s0, k), p)
    ensures p < k + 1 ==> !OlderTimes(store, s0, k).hasMore
  {
    if k == 0 {
      p := 1;
    } else {
      var q := LoadsReach(store, ch, s0, k - 1);
      var prev := OlderTimes(store, s0, k - 1);
      OlderAdvances(store, ch, prev, q);
      assert OlderTimes(store, s0, k) == Older(store, prev);
      p := if prev.hasMore then q + 1 else q;
    }
  }

  /** The pages loaded so far hold, as a multiset, the newest entries of the list. */
  lemma {:induction false} LoadedIsNewest(t: seq<Message>, p: nat)
    ensures multiset(Loaded(t, p)) == multiset(t[..Min(Skip(p + 1, PageSize), |t|)])
  {
    LoadedIsPages(t, p);
    PagesArePrefix(t, p, PageSize);
  }

  lemma {:induction false} LoadedIsPages(t: seq<Message>, p: nat)
    ensures multiset(Loaded(t, p)) == multiset(Pages(t, p, PageSize))
  {
    if p > 0 {
      LoadedIsPages(t, p - 1);
      var page := PageOf(t, p, PageSize);
      assert multiset(Loaded(t, p)) == multiset(page) + multiset(Loaded(t, p - 1));
      assert multiset(Pages(t, p, PageSize)) == multiset(Pages(t, p - 1, PageSize)) + multiset(page);
    }
  }

  /**
   * Pages 1..p loaded, with p short of k + 1 only when history ran out, is
   * the newest `(k + 1) * 50` entries of the list.
   */
  lemma LoadedUpTo(t: seq<Message>, ch: ChannelRef, r: State, p: nat, k: nat)
    requires HasLoaded(t, ch, r, p) && p <= k + 1 && (p < k + 1 ==> !r.hasMore)
    ensures multiset(r.messages) == multiset(t[..Min((k + 1) * PageSize, |t|)])
    ensures r.hasMore <==> (k + 1) * PageSize <= |t|
  {
    var n := (k + 1) * PageSize;
    assert Skip(k + 2, PageSize) == n by {
      SkipIsProduct(k + 2, PageSize);
    }
    assert (r.hasMore <==> n <= |t|) && Min(Skip(p + 1, PageSize), |t|) == Min(n, |t|) by {
      if p < k + 1 {
        SkipMonotone(p + 1, k + 2, PageSize);
      }
    }
    LoadedIsNewest(t, p);
  }

  /**
   * Over a collection that does not change, opening a channel and loading
   * older history `k` times leaves exactly the newest `(k + 1) * 50` visible
   * messages of the channel loaded (all of them, if there are fewer), and
   * more history is expected exactly when the channel has at least that many.
   */
  lemma HistoryIsNewest(store: seq<Message>, s: State, ch: ChannelRef, socket: bool, k: nat)
    requires !s.loading && Truthy(ch.id)
    requires s.selected.None? || s.selected.value.id != ch.id
    ensures var r := OlderTimes(store, Open(store, s, ch, socket), k);
            var t := Timeline(store, ch.id);
            && multiset(r.messages) == multiset(t[..Min((k + 1) * PageSize, |t|)])
            && (r.hasMore <==> (k + 1) * PageSize <= |t|)
            && !r.loading
            && r.selected == Some(ch)
  {
    OpenLoadsFirstPage(store, s, ch, socket);
    var p := LoadsReach(store, ch, Open(store, s, ch, socket), k);
    LoadedUpTo(Timeline(store, ch.id), ch, OlderTimes(store, Open(store, s, ch, socket), k), p, k);
  }

  /** No two entries share a creation time, so newest-first is strict. */
  predicate StrictlyNewestFirst(t: seq<Message>) {
    forall i, j :: 0 <= i < j < |t| ==> t[i].createdAt > t[j].createdAt
  }

  /**
   * When no two visible messages share a creation time, the newest-first
   * order is determined: any arrangement a query may return is the model's
   * timeline, so the paging results below hold for every query.
   */
  lemma QueryOrderDetermined(store: seq<Message>, channelId: Id, t: seq<Message>)
    requires StrictlyNewestFirst(t)
    requires multiset(t) == multiset(Visible(store, channelId))
    ensures t == Timeline(store, channelId)
  {
    StrictOrderUnique(t, Timeline(store, channelId));
  }

  /** A strictly newest-first list and a newest-first list with the same elements are equal. */
  lemma {:induction false} StrictOrderUnique(a: seq<Message>, b: seq<Message>)
    requires StrictlyNewestFirst(a)
    requires forall i, j :: 0 <= i < j < |b| ==> b[i].createdAt >= b[j].createdAt
    requires multiset(a) == multiset(b)
    ensures a == b
  {
    assert |a| == |multiset(a)| == |multiset(b)| == |b|;
    if a != [] {
      SameNewest(a, b);
      assert a == [a[0]] + a[1..] && b == [b[0]] + b[1..];
      assert multiset(a) == multiset{a[0]} + multiset(a[1..]);
      assert multiset(b) == multiset{a[0]} + multiset(b[1..]);
      CancelOne(a[0], multiset(a[1..]), multiset(b[1..]));
      StrictOrderUnique(a[1..], b[1..]);
    }
  }

  /** Both lists start with the same message: the newest one. */
  lemma SameNewest(a: seq<Message>, b: seq<Message>)
    requires StrictlyNewestFirst(a)
    requires forall i, j :: 0 <= i < j < |b| ==> b[i].createdAt >= b[j].createdAt
    requires multiset(a) == multiset(b) && |a| == |b| > 0
    ensures a[0] == b[0]
  {
    assert a[0] in multiset(b) && b[0] in multiset(a);
    var i :| 0 <= i < |b| && b[i] == a[0];
    var k :| 0 <= k < |a| && a[k] == b[0];
    assert b[0].createdAt >= b[i].createdAt;
    assert a[k].createdAt >= a[0].createdAt;
    assert k == 0;
  }

  lemma CancelOne<T>(x: T, m: multiset<T>, n: multiset<T>)
    requires multiset{x} + m == multiset{x} + n
    ensures m == n
  {
    assert m == (multiset{x} + m) - multiset{x};
  }

  /** With two pages loaded from a strictly newest-first list of more than one page, the array is in neither order. */
  lemma TwoPagesUnordered(t: seq<Message>, ch: ChannelRef, r: State, p: nat)
    requires HasLoaded(t, ch, r, p) && p <= 2 && (p < 2 ==> !r.hasMore)
    requires |t| > PageSize
    requires StrictlyNewestFirst(t)
    ensures exists i, j :: 0 <= i < j < |r.messages| && r.messages[i].createdAt < r.messages[j].createdAt
    ensures exists i, j :: 0 <= i < j < |r.messages| && r.messages[i].createdAt > r.messages[j].createdAt
  {
    var ms := r.messages;
    assert p == 2 by {
      FullPage(t, 1);
    }
    var older := PageOf(t, 2, PageSize);
    assert Loaded(t, 1) == PageOf(t, 1, PageSize) + Loaded(t, 0);
    assert ms == older + Loaded(t, 1);
    assert ms[0] == t[PageSize];
    assert ms[|older|] == t[0] && ms[|older| + 1] == t[1];
  }

  /**
   * The store's array is in neither order: after the first and second page
   * are loaded it holds the older page in front of the newer one, each
   * newest-first, when the channel has more than one page of messages with
   * distinct creation times. Only the view sorts.
   */
  lemma NotChronological(store: seq<Message>, s: State, ch: ChannelRef, socket: bool)
    requires !s.loading && Truthy(ch.id)
    requires s.selected.None? || s.selected.value.id != ch.id
    requires |Timeline(store, ch.id)| > PageSize
    requires StrictlyNewestFirst(Timeline(store, ch.id))
    ensures var ms := OlderTimes(store, Open(store, s, ch, socket), 1).messages;
            && (exists i, j :: 0 <= i < j < |ms| && ms[i].createdAt < ms[j].createdAt)
            && (exists i, j :: 0 <= i < j < |ms| && ms[i].createdAt > ms[j].createdAt)
  {
    OpenLoadsFirstPage(store, s, ch, socket);
    var p := LoadsReach(store, ch, Open(store, s, ch, socket), 1);
    TwoPagesUnordered(Timeline(store, ch.id), ch, OlderTimes(store, Open(store, s, ch, socket), 1), p);
  }

  /**
   * The first page loaded, a live message appended, then page 2 of the list
   * with one newer entry in front: the last message of page 1 is fetched again.
   */
  lemma ShiftedPageRepeats(t: seq<Message>, ch: ChannelRef, s: State, m: Message)
    requires HasLoaded(t, ch, s, 1) && |t| >= PageSize
    ensures var live := s.(messages := s.messages + [m]);
            var ms := CompleteFetch(live.(loading := true), 2, PageOf([m] + t, 2, PageSize)).messages;
            && |ms| >= PageSize + 2
            && ms[0] == t[PageSize - 1] && ms[|ms| - 2] == t[PageSize - 1]
            && !NoDup(ms)
  {
    var live := s.(messages := s.messages + [m]);
    var fetched := PageOf([m] + t, 2, PageSize);
    var ms := CompleteFetch(live.(loading := true), 2, fetched).messages;
    assert Loaded(t, 1) == PageOf(t, 1, PageSize) + Loaded(t, 0);
    assert s.messages == PageOf(t, 1, PageSize) + [];
    assert ms == fetched + live.messages;
    assert ms[0] == t[PageSize - 1];
    assert ms[|fetched| + PageSize - 1] == t[PageSize - 1];
  }

  /**
   * Nothing de-duplicates by id: open a channel with a full first page, let
   * another client send a newer message to it (which arrives live and is
   * appended), then load older history. The offset of page 2 now counts the
   * new message, so the oldest message of page 1 comes back again: it heads
   * the store and is still second to last, before the live message.
   */
  lemma LiveThenOlderDuplicates(store: seq<Message>, s: State, ch: ChannelRef, socket: bool,
                                senderId: Id, text: Option<string>, image: Option<string>, env: Env)
    requires !s.loading && Truthy(ch.id)
    requires s.selected.None? || s.selected.value.id != ch.id
    requires |Timeline(store, ch.id)| >= PageSize
    requires forall k :: 0 <= k < |store| ==> store[k].createdAt < env.now
    requires SendMessage(store, ch.id, senderId, text, image, env).status == 201
    ensures var first := Open(store, s, ch, socket);
            var sent := SendMessage(store, ch.id, senderId, text, image, env);
            var live := LiveMessage(first, sent.emitted[0].message);
            var ms := Older(sent.store, live).messages;
            && |ms| >= PageSize + 2
            && ms[0] == Timeline(store, ch.id)[PageSize - 1]
            && ms[|ms| - 2] == Timeline(store, ch.id)[PageSize - 1]
            && !NoDup(ms)
  {
    var first := Open(store, s, ch, socket);
    var sent := SendMessage(store, ch.id, senderId, text, image, env);
    var m := sent.emitted[0].message;
    OpenLoadsFirstPage(store, s, ch, socket);
    assert sent.store == store + [m];
    AppendedIsNewest(store, m, ch.id, env.now);
    var live := LiveMessage(first, m);
    assert live == first.(messages := first.messages + [m]);
    assert LoadOlder(live) == Some((live.(loading := true), Fetch(ch.id, 2)));
    ShiftedPageRepeats(Timeline(store, ch.id), ch, first, m);
  }
}
