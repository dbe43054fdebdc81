/** The `Todos` table: items keyed by the partition key `userId` and the sort key `todoId`,
    and the four commands the handlers send to it. */
module Store {
  import opened Wrappers

  type UserId = string
  type TodoId = string

  /** The primary key `(userId, todoId)`. */
  type Key = (UserId, TodoId)

  /** A stored item. Attributes an upsert may leave unset are optional. */
  datatype Item = Item(
    userId: UserId,
    todoId: TodoId,
    title: Option<string>,
    completed: Option<bool>,
    createdAt: Option<string>,
    updatedAt: string)

  function KeyOf(item: Item): Key {
    (item.userId, item.todoId)
  }

  /** Every item sits under its own key. */
  predicate WellKeyed(m: map<Key, Item>) {
    forall k | k in m :: KeyOf(m[k]) == k
  }

  /** Outside the partition of `owner` (everywhere, when there is no owner) `m` and `m'` hold
      the same keys with the same items. */
  ghost predicate OtherOwnersUntouched(m: map<Key, Item>, m': map<Key, Item>, owner: Option<UserId>) {
    forall k | k in m || k in m' ::
      (owner.None? || k.0 != owner.value) ==> k in m && k in m' && m[k] == m'[k]
  }

  /** `PutCommand`: writes the whole item under its key, replacing any item there. */
  function PutItem(m: map<Key, Item>, item: Item): (r: map<Key, Item>)
    ensures r.Keys == m.Keys + {KeyOf(item)}
    ensures r[KeyOf(item)] == item
    ensures forall k | k in m && k != KeyOf(item) :: r[k] == m[k]
  {
    m[KeyOf(item) := item]
  }

  /** `QueryCommand` with `userId = :userId`: the items whose partition key is `owner`. */
  function QueryPartition(m: map<Key, Item>, owner: UserId): (r: set<Item>)
    ensures forall k | k in m && k.0 == owner :: m[k] in r
    ensures forall it | it in r :: exists k | k in m :: k.0 == owner && m[k] == it
  {
    set k | k in m && k.0 == owner :: m[k]
  }

  /** `UpdateCommand` with `set title, completed, updatedAt`: overwrites those three attributes on
      `key`, creating an item with only the key and those attributes when none is there. */
  function UpdateAttributes(m: map<Key, Item>, key: Key, title: Option<string>,
                            completed: Option<bool>, updatedAt: string): (r: map<Key, Item>)
    ensures r.Keys == m.Keys + {key}
    ensures r[key].title == title && r[key].completed == completed && r[key].updatedAt == updatedAt
    ensures key in m ==>
      && r[key].userId == m[key].userId && r[key].todoId == m[key].todoId
      && r[key].createdAt == m[key].createdAt
    ensures key !in m ==> KeyOf(r[key]) == key && r[key].createdAt == None
    ensures forall k | k in m && k != key :: r[k] == m[k]
  {
    var base := if key in m then m[key] else Item(key.0, key.1, None, None, None, updatedAt);
    m[key := base.(title := title, completed := completed, updatedAt := updatedAt)]
  }

  /** `DeleteCommand`: removes `key`, whether or not an item is there. */
  function DeleteKey(m: map<Key, Item>, key: Key): (r: map<Key, Item>)
    ensures r.Keys == m.Keys - {key}
    ensures forall k | k in r :: r[k] == m[k]
  {
    m - {key}
  }

  /** The three writes keep every item under its own key (the item a put writes is keyed by its
      own attributes; an update keeps the stored key attributes). */
  lemma WritesKeepWellKeyed(m: map<Key, Item>, item: Item, key: Key, title: Option<string>,
                            completed: Option<bool>, updatedAt: string)
    requires WellKeyed(m)
    ensures WellKeyed(PutItem(m, item))
    ensures WellKeyed(UpdateAttributes(m, key, title, completed, updatedAt))
    ensures WellKeyed(DeleteKey(m, key))
  {
  }

  /** A write under a key of `owner` leaves every other owner's partition as it was. */
  lemma WritesStayInPartition(m: map<Key, Item>, owner: UserId, todoId: TodoId, item: Item,
                              title: Option<string>, completed: Option<bool>, updatedAt: string)
    requires item.userId == owner
    ensures OtherOwnersUntouched(m, PutItem(m, item), Some(owner))
    ensures OtherOwnersUntouched(m, UpdateAttributes(m, (owner, todoId), title, completed, updatedAt), Some(owner))
    ensures OtherOwnersUntouched(m, DeleteKey(m, (owner, todoId)), Some(owner))
  {
  }

  /** So what another owner's query sees is unaffected by such a write. */
  lemma QueryIsolated(m: map<Key, Item>, m': map<Key, Item>, owner: UserId, other: UserId)
    requires OtherOwnersUntouched(m, m', Some(owner)) && other != owner
    ensures QueryPartition(m', other) == QueryPartition(m, other)
  {
  }

  /** In a well-keyed table a query returns only items of the owner asked for. */
  lemma QueryOnlyOwner(m: map<Key, Item>, owner: UserId)
    requires WellKeyed(m)
    ensures forall it | it in QueryPartition(m, owner) :: it.userId == owner
  {
  }

  /** An owner with no items gets the empty result, not a failure. */
  lemma QueryEmpty(m: map<Key, Item>, owner: UserId)
    requires forall k | k in m :: k.0 != owner
    ensures QueryPartition(m, owner) == {}
  {
  }

  /** Putting an item under a fresh key adds exactly that entry: the table grows by one and the
      owner's query gains exactly that item. */
  lemma PutFresh(m: map<Key, Item>, item: Item)
    requires KeyOf(item) !in m
    ensures |PutItem(m, item)| == |m| + 1
    ensures QueryPartition(PutItem(m, item), item.userId) == QueryPartition(m, item.userId) + {item}
  {
  }

  /** Deleting is idempotent: a second delete of the same key changes nothing. */
  lemma DeleteIdempotent(m: map<Key, Item>, key: Key)
    ensures DeleteKey(DeleteKey(m, key), key) == DeleteKey(m, key)
  {
  }

  /** The store client the handlers hold; its commands change `items` in place. */
  class Table {
    var items: map<Key, Item>

    /** A client over the table's current contents. */
    constructor (init: map<Key, Item>)
      ensures items == init
      ensures WellKeyed(init) ==> WellKeyed(items)
    {
      items := init;
    }

    method Put(item: Item)
      modifies this
      ensures items == PutItem(old(items), item)
      ensures WellKeyed(old(items)) ==> WellKeyed(items)
    {
      items := items[KeyOf(item) := item];
    }

    method Update(key: Key, title: Option<string>, completed: Option<bool>, updatedAt: string)
      modifies this
      ensures items == UpdateAttributes(old(items), key, title, completed, updatedAt)
      ensures WellKeyed(old(items)) ==> WellKeyed(items)
    {
      items := UpdateAttributes(items, key, title, completed, updatedAt);
    }

    method Delete(key: Key)
      modifies this
      ensures items == DeleteKey(old(items), key)
      ensures WellKeyed(old(items)) ==> WellKeyed(items)
    {
      items := items - {key};
    }
  }
}
