/** The routes of lib/routes/entries.js: the earlier revision of
    `POST /entries/daily/new`, which writes the updates only when the payload
    has them and does not record the entry id on tag rows, and the empty
    `PUT/PATCH /entries/{id}`. */
module Entries {
  import opened Seqs
  import opened Store
  import opened DailyCreate

  /** POST /entries/daily/new in this revision: BEGIN; the entry; the
      updates and their tags when `updates` is present; COMMIT, or on any
      failure ROLLBACK and an Internal error. A missing `updates` creates the
      entry alone. */
  method CreateEntry(db: Database, userid: nat, p: EntryPayload) returns (r: Response<nat>)
    requires Valid(db.State())
    modifies db
    ensures Valid(db.State())
    ensures r.Ok? <==> db.Accepts(old(db.executed), 1 + Statements(UpdatesOf(p)))
    ensures r.Ok? ==> r.value == old(db.nextId) && db.State() == Created(old(db.State()), userid, p, false)
    ensures !r.Ok? ==> r == Internal && SameRows(db.State(), old(db.State()))
  {
    ghost var s0 := db.State();
    ghost var e0 := db.executed;
    var snapshot := db.Begin();
    var entryid := db.InsertDailyEntry(userid, p.dateString, p.moodScore, p.moodReason);
    db.AcceptsSplit(e0, 1, Statements(UpdatesOf(p)));
    if entryid.None? {
      db.Rollback(snapshot);
      return Internal;
    }
    if p.updates.Some? {
      var ok := InsertUpdates(db, userid, entryid.value, None, p.dateString, p.updates.value);
      if !ok {
        db.Rollback(snapshot);
        return Internal;
      }
    }
    CreatedValid(s0, userid, p, false);
    return Ok(entryid.value);
  }

  /** PUT/PATCH /entries/{id}: the handler body is empty. */
  method UpdateEntry(db: Database, userid: nat, id: nat)
    ensures db.State() == old(db.State())
  {
  }
}
