/** The meetings table as a database session sees it: the committed rows
    by primary key, and the key the auto-incrementing column hands out
    next.  Every route reads and writes meetings through this store. */
module MeetingStore {
  import opened Optional
  import opened MeetingModel

  /** Rows are stored under their own ids; ids are positive and below the
      next key to be handed out. */
  predicate WellKeyed(rows: map<int, Meeting>, nextId: int) {
    nextId >= 1 &&
    forall id | id in rows :: rows[id].id == id && 1 <= id < nextId
  }

  /** Every row has its candidate columns. */
  predicate AllHaveCandidateInfo(rows: map<int, Meeting>) {
    forall id | id in rows :: HasCandidateInfo(rows[id])
  }

  /** `query(Meeting).filter(Meeting.id == id).first()` on a table. */
  function FindIn(rows: map<int, Meeting>, id: int): (r: Option<Meeting>)
    ensures r.None? <==> id !in rows
    ensures r.Some? ==> id in rows && r.value == rows[id]
  {
    if id in rows then Some(rows[id]) else None
  }

  class Store {
    var rows: map<int, Meeting>
    var nextId: int

    ghost predicate Valid()
      reads this
    {
      WellKeyed(rows, nextId)
    }

    /** An empty table whose first key will be 1. */
    constructor()
      ensures Valid() && rows == map[] && nextId == 1
    {
      rows := map[];
      nextId := 1;
    }

    /** The row with primary key `id`, if there is one. */
    function Find(id: int): (r: Option<Meeting>)
      reads this
      ensures r == FindIn(rows, id)
    {
      FindIn(rows, id)
    }

    /** `db.add(row); db.commit()`: the row is stored under a fresh key,
        which is returned, and no other row changes. */
    method Insert(row: Meeting) returns (id: int)
      requires Valid()
      modifies this
      ensures Valid()
      ensures id == old(nextId) && id !in old(rows)
      ensures rows == old(rows)[id := row.(id := id)]
      ensures nextId == old(nextId) + 1
    {
      id := nextId;
      rows := rows[id := row.(id := id)];
      nextId := nextId + 1;
    }

    /** Committing a changed copy of a stored row. */
    method Write(m: Meeting)
      requires Valid() && m.id in rows
      modifies this
      ensures Valid()
      ensures rows == old(rows)[m.id := m] && nextId == old(nextId)
    {
      rows := rows[m.id := m];
    }
  }

  /** Keys are never reused: an insert's key differs from every key stored
      before it, and from the key of any later insert. */
  lemma InsertKeysDistinct(rows: map<int, Meeting>, nextId: int, row: Meeting)
    requires WellKeyed(rows, nextId)
    ensures nextId !in rows
    ensures WellKeyed(rows[nextId := row.(id := nextId)], nextId + 1)
  {
  }
}
