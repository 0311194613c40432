/**
 * The `Channel` schema: a required, trimmed, unique `name`, a required
 * `createdBy`, an ordered `members` list of user ids and a `createdAt`
 * timestamp. The collection is the sequence of its documents in insertion
 * order.
 */
module ChannelModel {
  import opened Wrappers
  import opened Text
  import opened Seqs

  type Id = string

  datatype Channel = Channel(id: Id, name: string, createdBy: Id, members: seq<Id>, createdAt: int)

  /** Why the database refused to insert a channel document. */
  datatype InsertError = ValidationError | DuplicateKey

  datatype InsertResult = Inserted(store: seq<Channel>, channel: Channel) | Refused(error: InsertError)

  /** Some stored channel has this name. */
  predicate NameTaken(store: seq<Channel>, name: string) {
    exists i :: 0 <= i < |store| && store[i].name == name
  }

  /** Some stored channel has this id. */
  predicate IdTaken(store: seq<Channel>, id: Id) {
    exists i :: 0 <= i < |store| && store[i].id == id
  }

  /**
   * What the schema and its unique index guarantee of every stored channel,
   * plus the duplicate-free member lists the controller maintains.
   */
  predicate ValidStore(store: seq<Channel>) {
    && (forall i, j :: 0 <= i < j < |store| ==> store[i].id != store[j].id)
    && (forall i, j :: 0 <= i < j < |store| ==> store[i].name != store[j].name)
    && (forall i :: 0 <= i < |store| ==> store[i].name != "" && Trimmed(store[i].name))
    && (forall i :: 0 <= i < |store| ==> NoDup(store[i].members))
  }

  /**
   * `Channel.create(...)`: the `name` is trimmed and must then be non-empty
   * (Mongoose's `required` refuses the empty string), `createdBy` must be
   * present, and the unique index refuses a second channel with the same
   * name. The new document goes at the end of the collection.
   */
  function Insert(store: seq<Channel>, name: string, createdBy: Option<Id>, members: seq<Id>,
                  id: Id, now: int): (r: InsertResult)
    ensures r.Refused? && r.error == ValidationError <==> Trim(name) == "" || createdBy.None?
    ensures r.Refused? && r.error == DuplicateKey <==>
              Trim(name) != "" && createdBy.Some? && NameTaken(store, Trim(name))
    ensures r.Inserted? ==>
              && r.store == store + [r.channel]
              && r.channel == Channel(id, Trim(name), createdBy.value, members, now)
  {
    var t := Trim(name);
    if t == "" || createdBy.None? then Refused(ValidationError)
    else if NameTaken(store, t) then Refused(DuplicateKey)
    else
      var c := Channel(id, t, createdBy.value, members, now);
      Inserted(store + [c], c)
  }

  /** Every accepted insert of a fresh id and a duplicate-free member list keeps the collection valid. */
  lemma InsertKeepsValid(store: seq<Channel>, name: string, createdBy: Option<Id>, members: seq<Id>,
                         id: Id, now: int)
    requires ValidStore(store) && !IdTaken(store, id) && NoDup(members)
    ensures var r := Insert(store, name, createdBy, members, id, now);
            r.Inserted? ==> ValidStore(r.store)
  {
    var r := Insert(store, name, createdBy, members, id, now);
    if r.Inserted? {
      var s := r.store;
      assert s[|store|] == r.channel;
      forall i, j | 0 <= i < j < |s| ensures s[i].name != s[j].name && s[i].id != s[j].id {
        if j == |store| {
          assert s[i] == store[i];
        }
      }
    }
  }
}
