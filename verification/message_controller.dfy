/**
 * The message HTTP handlers over an in-memory message collection:
 * `getMessages` pages through a channel's visible messages newest-first, and
 * `sendMessage` persists a message and then broadcasts it to the channel's
 * room. The collection is the sequence of documents in insertion order; the
 * image upload and the database's failures are inputs.
 */
module MessageController {
  import opened Wrappers
  import opened Text
  import opened Seqs
  import opened Sorting
  import opened MessageModel

  /** `const { page = 1, limit = 50 } = req.query`. */
  const DefaultPage := 1
  const DefaultLimit := 50

  function Min(a: int, b: int): int {
    if a <= b then a else b
  }

  /** The query filter `{ channelId, isDeleted: false }`. */
  predicate Matches(m: Message, channelId: Id) {
    m.channelId == channelId && !m.isDeleted
  }

  /** The documents the filter selects, in collection order. */
  function Visible(store: seq<Message>, channelId: Id): (r: seq<Message>)
    ensures forall i :: 0 <= i < |r| ==> Matches(r[i], channelId)
    ensures |r| <= |store|
    decreases |store|
  {
    if store == [] then []
    else
      var init := store[..|store| - 1];
      var last := store[|store| - 1];
      Visible(init, channelId) + (if Matches(last, channelId) then [last] else [])
  }

  /** The filter keeps every matching document as often as it is stored, and nothing else. */
  lemma {:induction false} VisibleCount(store: seq<Message>, channelId: Id, m: Message)
    ensures multiset(Visible(store, channelId))[m] == if Matches(m, channelId) then multiset(store)[m] else 0
    decreases |store|
  {
    if store != [] {
      var init := store[..|store| - 1];
      var last := store[|store| - 1];
      assert store == init + [last];
      VisibleCount(init, channelId, m);
    }
  }

  /** The sort key of `.sort({ createdAt: -1 })`: smaller means newer. */
  function Newness(m: Message): int {
    -m.createdAt
  }

  /** A channel's visible messages, newest first. */
  function Timeline(store: seq<Message>, channelId: Id): (r: seq<Message>)
    ensures forall i, j :: 0 <= i < j < |r| ==> r[i].createdAt >= r[j].createdAt
    ensures multiset(r) == multiset(Visible(store, channelId))
  {
    var r := SortBy(Visible(store, channelId), Newness);
    assert forall i, j :: 0 <= i < j < |r| ==> Newness(r[i]) <= Newness(r[j]);
    r
  }

  /**
   * `(page - 1) * limit`, the offset of a page, written as repeated addition
   * so that the solver never faces a product of two unknowns.
   */
  function Skip(page: int, limit: int): (r: int)
    requires page >= 1 && limit >= 1
    ensures r >= 0
    decreases page
  {
    if page == 1 then 0 else Skip(page - 1, limit) + limit
  }

  /** The offset is the product the handler computes. */
  lemma {:induction false} SkipIsProduct(page: int, limit: int)
    requires page >= 1 && limit >= 1
    ensures Skip(page, limit) == (page - 1) * limit
    decreases page
  {
    if page > 1 {
      SkipIsProduct(page - 1, limit);
      assert (page - 1) * limit == (page - 2) * limit + limit;
    }
  }

  /** Later pages start further on. */
  lemma {:induction false} SkipMonotone(p: int, q: int, limit: int)
    requires 1 <= p <= q && limit >= 1
    ensures Skip(p, limit) <= Skip(q, limit)
    ensures p < q ==> Skip(p, limit) + limit <= Skip(q, limit)
    decreases q
  {
    if p < q {
      SkipMonotone(p, q - 1, limit);
    }
  }

  /** `.skip(skip).limit(limit)` over an already ordered result. */
  function PageOf(t: seq<Message>, page: int, limit: int): (r: seq<Message>)
    requires page >= 1 && limit >= 1
    ensures |r| <= limit
    ensures |r| == 0 <==> Skip(page, limit) >= |t|
  {
    t[Min(Skip(page, limit), |t|)..Min(Skip(page, limit) + limit, |t|)]
  }

  /**
   * `getMessages`: the messages of one channel that are not soft-deleted,
   * newest first, skipping `(page - 1) * limit` and returning at most
   * `limit`. Page 1 starts at offset 0; a page past the end is empty.
   */
  function GetMessages(store: seq<Message>, channelId: Id, page: Option<int>, limit: Option<int>): (r: seq<Message>)
    requires page.GetOr(DefaultPage) >= 1 && limit.GetOr(DefaultLimit) >= 1
    ensures |r| <= limit.GetOr(DefaultLimit)
    ensures forall i :: 0 <= i < |r| ==> r[i] in store && Matches(r[i], channelId)
    ensures forall i, j :: 0 <= i < j < |r| ==> r[i].createdAt >= r[j].createdAt
    ensures var t := Timeline(store, channelId);
            var skip := Skip(page.GetOr(DefaultPage), limit.GetOr(DefaultLimit));
            && (skip <= |t| ==> r == t[skip..Min(skip + limit.GetOr(DefaultLimit), |t|)])
            && (skip >= |t| ==> r == [])
  {
    var p := page.GetOr(DefaultPage);
    var l := limit.GetOr(DefaultLimit);
    PageIsSlice(Timeline(store, channelId), p, l);
    PageInStore(store, channelId, p, l);
    PageOrdered(Timeline(store, channelId), p, l);
    PageOf(Timeline(store, channelId), p, l)
  }

  /** A page is the slice at its offset, or empty past the end, and never longer than the limit. */
  lemma PageIsSlice(t: seq<Message>, page: int, limit: int)
    requires page >= 1 && limit >= 1
    ensures var r := PageOf(t, page, limit);
            var skip := Skip(page, limit);
            && |r| <= limit
            && (skip <= |t| ==> r == t[skip..Min(skip + limit, |t|)])
            && (skip >= |t| ==> r == [])
  {
    var skip := Skip(page, limit);
    var r := PageOf(t, page, limit);
    assert r == t[Min(skip, |t|)..Min(skip + limit, |t|)];
    if skip >= |t| {
      assert |r| == 0;
    }
  }

  /** Every message on a page is a stored message of the channel that is not deleted. */
  lemma PageInStore(store: seq<Message>, channelId: Id, page: int, limit: int)
    requires page >= 1 && limit >= 1
    ensures var r := PageOf(Timeline(store, channelId), page, limit);
            forall i :: 0 <= i < |r| ==> r[i] in store && Matches(r[i], channelId)
  {
    var t := Timeline(store, channelId);
    var r := PageOf(t, page, limit);
    PageWithin(t, page, limit);
    forall i | 0 <= i < |r| ensures r[i] in store && Matches(r[i], channelId) {
      InTimeline(store, channelId, r[i]);
    }
  }

  /** A page holds only elements of the list it is cut from. */
  lemma PageWithin(t: seq<Message>, page: int, limit: int)
    requires page >= 1 && limit >= 1
    ensures var r := PageOf(t, page, limit);
            forall i :: 0 <= i < |r| ==> r[i] in t
  {
    var lo := Min(Skip(page, limit), |t|);
    var r := PageOf(t, page, limit);
    forall i | 0 <= i < |r| ensures r[i] in t {
      assert r[i] == t[lo + i];
    }
  }

  /** A page of a newest-first list is newest-first. */
  lemma PageOrdered(t: seq<Message>, page: int, limit: int)
    requires page >= 1 && limit >= 1
    requires forall i, j :: 0 <= i < j < |t| ==> t[i].createdAt >= t[j].createdAt
    ensures var r := PageOf(t, page, limit);
            forall i, j :: 0 <= i < j < |r| ==> r[i].createdAt >= r[j].createdAt
  {
    var lo := Min(Skip(page, limit), |t|);
    var r := PageOf(t, page, limit);
    forall i, j | 0 <= i < j < |r| ensures r[i].createdAt >= r[j].createdAt {
      assert r[i] == t[lo + i] && r[j] == t[lo + j];
    }
  }

  /** Everything on the timeline is a stored, matching message. */
  lemma InTimeline(store: seq<Message>, channelId: Id, m: Message)
    requires m in Timeline(store, channelId)
    ensures m in store && Matches(m, channelId)
  {
    assert m in multiset(Timeline(store, channelId));
    VisibleCount(store, channelId, m);
    assert multiset(Visible(store, channelId))[m] > 0;
    assert m in multiset(store);
  }

  /** The first `k` pages, concatenated in page order. */
  function Pages(t: seq<Message>, k: nat, limit: int): seq<Message>
    requires limit >= 1
  {
    if k == 0 then [] else Pages(t, k - 1, limit) + PageOf(t, k, limit)
  }

  /**
   * Pages 1..k together are exactly the newest `k * limit` entries of the
   * ordered list (`Skip(k + 1, limit)` is `k * limit`).
   */
  lemma {:induction false} PagesArePrefix(t: seq<Message>, k: nat, limit: int)
    requires limit >= 1
    ensures Pages(t, k, limit) == t[..Min(Skip(k + 1, limit), |t|)]
  {
    if k > 0 {
      PagesArePrefix(t, k - 1, limit);
      var a := Min(Skip(k, limit), |t|);
      var b := Min(Skip(k + 1, limit), |t|);
      assert t[..a] + t[a..b] == t[..b];
    }
  }

  /** Page `p + 1` starts exactly where page `p` ends. */
  lemma PagesAdjacent(t: seq<Message>, p: int, limit: int)
    requires p >= 1 && limit >= 1
    ensures PageOf(t, p, limit) + PageOf(t, p + 1, limit)
            == t[Min(Skip(p, limit), |t|)..Min(Skip(p + 1, limit) + limit, |t|)]
  {
    var a := Min(Skip(p, limit), |t|);
    var b := Min(Skip(p + 1, limit), |t|);
    var c := Min(Skip(p + 1, limit) + limit, |t|);
    assert t[a..b] + t[b..c] == t[a..c];
  }

  /** In a collection without repeated documents, no message is on two different pages. */
  lemma PagesDisjoint(store: seq<Message>, channelId: Id, p: int, q: int, limit: int)
    requires NoDup(store) && 1 <= p < q && limit >= 1
    ensures forall m :: m in GetMessages(store, channelId, Some(p), Some(limit)) ==>
                        m !in GetMessages(store, channelId, Some(q), Some(limit))
  {
    var t := Timeline(store, channelId);
    TimelineNoDup(store, channelId);
    SkipMonotone(p, q, limit);
    SlicesDisjoint(t, Min(Skip(p, limit), |t|), Min(Skip(p, limit) + limit, |t|),
                   Min(Skip(q, limit), |t|), Min(Skip(q, limit) + limit, |t|));
  }

  /** Two non-overlapping slices of a sequence without repeats share no element. */
  lemma SlicesDisjoint(t: seq<Message>, a: int, b: int, c: int, d: int)
    requires NoDup(t) && 0 <= a <= b <= c <= d <= |t|
    ensures forall m :: m in t[a..b] ==> m !in t[c..d]
  {
    forall m | m in t[a..b] ensures m !in t[c..d] {
      var i :| 0 <= i < b - a && t[a..b][i] == m;
      assert t[a + i] == m;
    }
  }

  /** A collection without repeated documents gives a timeline without repeats. */
  lemma TimelineNoDup(store: seq<Message>, channelId: Id)
    requires NoDup(store)
    ensures NoDup(Timeline(store, channelId))
  {
    var v := Visible(store, channelId);
    NoDupIffMultiset(store);
    forall x ensures multiset(v)[x] <= 1 {
      VisibleCount(store, channelId, x);
    }
    NoDupIffMultiset(v);
    PermutationNoDup(v, Timeline(store, channelId));
  }

  /** A message appended to the collection lands at the end of the filtered list, if it matches. */
  lemma VisibleAppend(store: seq<Message>, m: Message, channelId: Id)
    ensures Visible(store + [m], channelId)
            == Visible(store, channelId) + (if Matches(m, channelId) then [m] else [])
  {
    assert (store + [m])[..|store|] == store;
  }

  /** The external services `sendMessage` waits on, as inputs. */
  datatype Env = Env(
    uploadUrl: Option<string>,   // `secure_url` of the upload, `None` when the upload throws
    createOk: bool,              // `Message.create` resolves
    populateOk: bool,            // `populate` resolves
    newId: Id,                   // id the database assigns
    now: int)                    // creation time

  /** A socket.io event `io.to(room).emit("newMessage", message)`. */
  datatype Broadcast = NewMessage(room: Id, message: Message)

  datatype SendResult = SendResult(store: seq<Message>, emitted: seq<Broadcast>, status: int)

  /** `if (image)`: the body carried a non-empty image. */
  predicate HasImage(image: Option<string>) {
    image.Some? && Truthy(image.value)
  }

  /** `text || ""`. */
  function TextOrEmpty(text: Option<string>): string {
    if text.Some? && Truthy(text.value) then text.value else ""
  }

  /**
   * `sendMessage`: upload the image if there is one, create the message,
   * populate it, broadcast it to the channel's room, answer 201. Any failure
   * answers 500 and broadcasts nothing; a failure after the create leaves the
   * message stored.
   */
  function SendMessage(store: seq<Message>, channelId: Id, senderId: Id,
                       text: Option<string>, image: Option<string>, env: Env): (r: SendResult)
    ensures r.status == 201 || r.status == 500
    ensures r.status == 201 <==> r.emitted != []
    ensures r.status == 201 <==> env.createOk && env.populateOk && (HasImage(image) ==> env.uploadUrl.Some?)
    ensures r.store == store || (|r.store| == |store| + 1 && r.store == store + [r.store[|store|]])
    ensures |r.store| == |store| + 1 <==> env.createOk && (HasImage(image) ==> env.uploadUrl.Some?)
    ensures r.emitted != [] ==>
              |r.store| == |store| + 1 && r.emitted == [NewMessage(channelId, r.store[|store|])]
    ensures |r.store| == |store| + 1 ==>
              var m := r.store[|store|];
              && m.id == env.newId
              && m.senderId == senderId
              && m.channelId == channelId
              && m.text == Trim(TextOrEmpty(text))
              && m.image == (if HasImage(image) then env.uploadUrl.value else "")
              && !m.isDeleted
              && m.createdAt == env.now
  {
    if HasImage(image) && env.uploadUrl.None? then
      SendResult(store, [], 500)
    else
      var imageUrl := if HasImage(image) then env.uploadUrl.value else "";
      var draft := Draft(Some(senderId), Some(channelId), Some(TextOrEmpty(text)), Some(imageUrl));
      var m := Create(draft, env.newId, env.now).value;
      if !env.createOk then SendResult(store, [], 500)
      else
        assert (store + [m])[..|store|] == store;
        if !env.populateOk then SendResult(store + [m], [], 500)
        else SendResult(store + [m], [NewMessage(channelId, m)], 201)
  }

  /** A matching message appended to the collection is on its channel's timeline. */
  lemma AppendedIsVisible(store: seq<Message>, m: Message, channelId: Id)
    requires Matches(m, channelId)
    ensures m in Timeline(store + [m], channelId)
  {
    VisibleAppend(store, m, channelId);
    assert m in multiset(Visible(store + [m], channelId));
  }

  /**
   * A matching message newer than everything already stored becomes the head
   * of the timeline, in front of the unchanged rest.
   */
  lemma AppendedIsNewest(store: seq<Message>, m: Message, channelId: Id, now: int)
    requires Matches(m, channelId) && m.createdAt == now
    requires forall k :: 0 <= k < |store| ==> store[k].createdAt < now
    ensures Timeline(store + [m], channelId) == [m] + Timeline(store, channelId)
  {
    var v := Visible(store, channelId);
    VisibleAppend(store, m, channelId);
    forall k | 0 <= k < |v| ensures Newness(m) < Newness(v[k]) {
      assert v[k] in multiset(v);
      VisibleCount(store, channelId, v[k]);
      assert v[k] in multiset(store);
      assert v[k] in store;
    }
    SortByAppendSmallest(v, m, Newness);
  }

  /** A stored message is visible to paging in its channel: `isDeleted` starts out false. */
  lemma SentIsVisible(store: seq<Message>, channelId: Id, senderId: Id,
                      text: Option<string>, image: Option<string>, env: Env)
    ensures var r := SendMessage(store, channelId, senderId, text, image, env);
            |r.store| == |store| + 1 ==> r.store[|store|] in Timeline(r.store, channelId)
  {
    var r := SendMessage(store, channelId, senderId, text, image, env);
    if |r.store| == |store| + 1 {
      AppendedIsVisible(store, r.store[|store|], channelId);
    }
  }

  /**
   * A message stored later than everything else in the collection becomes
   * the head of its channel's newest-first timeline, and the rest of the
   * timeline is unchanged.
   */
  lemma SentIsNewest(store: seq<Message>, channelId: Id, senderId: Id,
                     text: Option<string>, image: Option<string>, env: Env)
    requires forall k :: 0 <= k < |store| ==> store[k].createdAt < env.now
    ensures var r := SendMessage(store, channelId, senderId, text, image, env);
            |r.store| == |store| + 1 ==>
              Timeline(r.store, channelId) == [r.store[|store|]] + Timeline(store, channelId)
  {
    var r := SendMessage(store, channelId, senderId, text, image, env);
    if |r.store| == |store| + 1 {
      var m := r.store[|store|];
      assert r.store == store + [m];
      assert Matches(m, channelId) && m.createdAt == env.now;
      AppendedIsNewest(store, m, channelId, env.now);
    }
  }
}
