/** The routes of lib/routes/entries-daily.js: the daily read
    `GET /entries/daily`, the create `POST /entries/daily/new` (the revision
    that iterates `updates` unguarded and records the entry id on tag rows),
    and the empty `PUT/PATCH /entries/{id}`. */
module EntriesDaily {
  import opened Seqs
  import opened Order
  import opened Store
  import opened DailyCreate

  /** One row of the read: an entry LEFT JOIN its updates LEFT JOIN their
      tags; the update and tag columns are NULL (None) where nothing joined. */
  datatype DailyRow = DailyRow(
    entryid: nat, dateString: string, moodScore: int, moodReason: string,
    updateid: Option<nat>, body: Option<string>, tagid: Option<nat>, tag: Option<string>)

  /** ORDER BY de.date_string, du.id, dt.tag */
  function DailyKey(r: DailyRow): SortKey
  {
    SortKey(r.dateString, r.updateid, r.tag)
  }

  /** WHERE de.userid = $1 and de.date_string between $2 and $3 */
  predicate EntryInRange(e: DailyEntry, userid: nat, lo: string, hi: string)
  {
    e.userid == userid && Between(e.dateString, lo, hi)
  }

  // The join, row by row, the way it is evaluated.

  function NullUpdateRow(e: DailyEntry): DailyRow
  {
    DailyRow(e.id, e.dateString, e.moodScore, e.moodReason, None, None, None, None)
  }

  function TagRow(e: DailyEntry, u: DailyUpdate, t: DailyTag): DailyRow
  {
    DailyRow(e.id, e.dateString, e.moodScore, e.moodReason, Some(u.id), Some(u.body), Some(t.id), Some(t.tag))
  }

  function NullTagRow(e: DailyEntry, u: DailyUpdate): DailyRow
  {
    DailyRow(e.id, e.dateString, e.moodScore, e.moodReason, Some(u.id), Some(u.body), None, None)
  }

  function JoinTags(e: DailyEntry, u: DailyUpdate, tags: seq<DailyTag>): seq<DailyRow>
  {
    var ts := Filter(tags, (t: DailyTag) => t.updateid == u.id);
    if ts == [] then [NullTagRow(e, u)]
    else seq(|ts|, i requires 0 <= i < |ts| => TagRow(e, u, ts[i]))
  }

  function JoinUpdates(e: DailyEntry, updates: seq<DailyUpdate>, tags: seq<DailyTag>): seq<DailyRow>
  {
    if updates == [] then []
    else JoinUpdates(e, updates[..|updates| - 1], tags) + JoinTags(e, updates[|updates| - 1], tags)
  }

  function JoinEntry(s: Store, e: DailyEntry): seq<DailyRow>
  {
    var us := Filter(s.dailyUpdates, (u: DailyUpdate) => u.entryid == e.id);
    if us == [] then [NullUpdateRow(e)] else JoinUpdates(e, us, s.dailyTags)
  }

  function JoinEntries(s: Store, entries: seq<DailyEntry>): seq<DailyRow>
  {
    if entries == [] then []
    else JoinEntries(s, entries[..|entries| - 1]) + JoinEntry(s, entries[|entries| - 1])
  }

  /** The rows of the query before ORDER BY. */
  function DailyJoin(s: Store, userid: nat, lo: string, hi: string): seq<DailyRow>
  {
    JoinEntries(s, Filter(s.dailyEntries, e => EntryInRange(e, userid, lo, hi)))
  }

  /** GET /entries/daily: BadRequest without both dates, otherwise the
      joined rows, returned flat and as the query orders them. */
  function ReadDaily(s: Store, userid: nat, q: Query): (r: Response<seq<DailyRow>>)
    ensures r.BadRequest? <==> !HasRange(q)
    ensures r.Ok? <==> HasRange(q)
    ensures r.Ok? ==> Sorted(r.value, DailyKey)
    ensures r.Ok? ==> multiset(r.value) == multiset(DailyJoin(s, userid, q.startDate.value, q.endDate.value))
  {
    if !HasRange(q) then BadRequest
    else Ok(Sort(DailyJoin(s, userid, q.startDate.value, q.endDate.value), DailyKey))
  }

  // The join as a relation, independent of how it is evaluated.

  /** `r` is a row the tags of update `u` of entry `e` contribute: one per
      tag, or a single row with NULL tag columns when `u` has no tag. */
  predicate UpdateJoined(tags: seq<DailyTag>, e: DailyEntry, u: DailyUpdate, r: DailyRow)
  {
    (r == NullTagRow(e, u) && forall t :: t in tags ==> t.updateid != u.id)
    || exists t :: t in tags && t.updateid == u.id && r == TagRow(e, u, t)
  }

  /** `r` is a row entry `e` contributes to the LEFT JOIN. */
  predicate EntryJoined(s: Store, e: DailyEntry, r: DailyRow)
  {
    (r == NullUpdateRow(e) && forall u :: u in s.dailyUpdates ==> u.entryid != e.id)
    || exists u :: u in s.dailyUpdates && u.entryid == e.id && UpdateJoined(s.dailyTags, e, u, r)
  }

  lemma JoinTagsRows(e: DailyEntry, u: DailyUpdate, tags: seq<DailyTag>, r: DailyRow)
    ensures r in JoinTags(e, u, tags) <==> UpdateJoined(tags, e, u, r)
  {
    var ts := Filter(tags, (t: DailyTag) => t.updateid == u.id);
    if ts == [] {
      assert forall t :: t in tags ==> t.updateid != u.id;
    } else {
      if r in JoinTags(e, u, tags) {
        var i :| 0 <= i < |ts| && JoinTags(e, u, tags)[i] == r;
        assert ts[i] in ts;
      }
      if exists t :: t in tags && t.updateid == u.id && r == TagRow(e, u, t) {
        var t :| t in tags && t.updateid == u.id && r == TagRow(e, u, t);
        assert t in ts;
        var i :| 0 <= i < |ts| && ts[i] == t;
        assert JoinTags(e, u, tags)[i] == r;
      }
      assert ts[0] in tags;
    }
  }

  lemma {:induction false} JoinUpdatesRows(e: DailyEntry, updates: seq<DailyUpdate>, tags: seq<DailyTag>, r: DailyRow)
    ensures r in JoinUpdates(e, updates, tags) <==> exists u :: u in updates && r in JoinTags(e, u, tags)
  {
    if updates != [] {
      var pre := updates[..|updates| - 1];
      var last := updates[|updates| - 1];
      JoinUpdatesRows(e, pre, tags, r);
      if exists u :: u in updates && r in JoinTags(e, u, tags) {
        var u :| u in updates && r in JoinTags(e, u, tags);
        InSnoc(updates, u);
      }
      if exists u :: u in pre && r in JoinTags(e, u, tags) {
        var u :| u in pre && r in JoinTags(e, u, tags);
        InSnoc(updates, u);
      }
      InSnoc(updates, last);
    }
  }

  lemma JoinEntryRows(s: Store, e: DailyEntry, r: DailyRow)
    ensures r in JoinEntry(s, e) <==> EntryJoined(s, e, r)
  {
    var us := Filter(s.dailyUpdates, (u: DailyUpdate) => u.entryid == e.id);
    if us == [] {
      assert forall u :: u in s.dailyUpdates ==> u.entryid != e.id;
    } else {
      JoinUpdatesRows(e, us, s.dailyTags, r);
      forall u | u in us ensures r in JoinTags(e, u, s.dailyTags) <==> UpdateJoined(s.dailyTags, e, u, r) {
        JoinTagsRows(e, u, s.dailyTags, r);
      }
      assert us[0] in s.dailyUpdates;
      if EntryJoined(s, e, r) {
        var u :| u in s.dailyUpdates && u.entryid == e.id && UpdateJoined(s.dailyTags, e, u, r);
        assert u in us;
      }
    }
  }

  lemma {:induction false} JoinEntriesRows(s: Store, entries: seq<DailyEntry>, r: DailyRow)
    ensures r in JoinEntries(s, entries) <==> exists e :: e in entries && r in JoinEntry(s, e)
  {
    if entries != [] {
      var pre := entries[..|entries| - 1];
      var last := entries[|entries| - 1];
      JoinEntriesRows(s, pre, r);
      if exists e :: e in entries && r in JoinEntry(s, e) {
        var e :| e in entries && r in JoinEntry(s, e);
        InSnoc(entries, e);
      }
      if exists e :: e in pre && r in JoinEntry(s, e) {
        var e :| e in pre && r in JoinEntry(s, e);
        InSnoc(entries, e);
      }
      InSnoc(entries, last);
    }
  }

  /** The read returns exactly the LEFT JOIN rows of the caller's entries
      whose date_string lies in [startDate, endDate]: each such entry
      appears, with a NULL update row when it has no update and a NULL tag
      row for each update without tags, and no row of anything else. */
  lemma ReadDailyRows(s: Store, userid: nat, q: Query, r: DailyRow)
    requires HasRange(q)
    ensures r in ReadDaily(s, userid, q).value <==>
      exists e :: e in s.dailyEntries && EntryInRange(e, userid, q.startDate.value, q.endDate.value) && EntryJoined(s, e, r)
  {
    var lo, hi := q.startDate.value, q.endDate.value;
    var es := Filter(s.dailyEntries, e => EntryInRange(e, userid, lo, hi));
    var rows := ReadDaily(s, userid, q).value;
    assert r in rows <==> r in multiset(rows);
    assert r in DailyJoin(s, userid, lo, hi) <==> r in multiset(DailyJoin(s, userid, lo, hi));
    JoinEntriesRows(s, es, r);
    forall e | e in es ensures r in JoinEntry(s, e) <==> EntryJoined(s, e, r) {
      JoinEntryRows(s, e, r);
    }
    if exists e :: e in s.dailyEntries && EntryInRange(e, userid, lo, hi) && EntryJoined(s, e, r) {
      var e :| e in s.dailyEntries && EntryInRange(e, userid, lo, hi) && EntryJoined(s, e, r);
      assert e in es;
    }
  }

  // A create, read back through the range read.

  /** The entry row a create writes. */
  function NewEntry(s: Store, userid: nat, p: EntryPayload): DailyEntry
  {
    DailyEntry(s.nextId, userid, p.dateString, p.moodScore, p.moodReason)
  }

  /** The row a create writes for payload update `i`. */
  function NewUpdate(s: Store, userid: nat, p: EntryPayload, i: nat): DailyUpdate
    requires i < |UpdatesOf(p)|
  {
    DailyUpdate(UpdateIdAt(s.nextId + 1, UpdatesOf(p), i), userid, s.nextId, p.dateString, UpdatesOf(p)[i].body)
  }

  /** `r` carries the columns of the entry a create with payload `p` writes
      into `s`. */
  predicate EntryColumns(s: Store, p: EntryPayload, r: DailyRow)
  {
    r.entryid == s.nextId && r.dateString == p.dateString && r.moodScore == p.moodScore && r.moodReason == p.moodReason
  }

  /** `r` carries the id and body of payload update `i`, followed by the id
      and text of one of its tags, or by NULL tag columns when it has none. */
  predicate CreatedUpdateRow(s: Store, p: EntryPayload, i: nat, r: DailyRow)
    requires i < |UpdatesOf(p)|
  {
    var u := UpdatesOf(p)[i];
    var id := UpdateIdAt(s.nextId + 1, UpdatesOf(p), i);
    r.updateid == Some(id) && r.body == Some(u.body) &&
    ((u.tags == [] && r.tagid == None && r.tag == None) ||
     exists k :: 0 <= k < |u.tags| && r.tagid == Some(id + 1 + k) && r.tag == Some(u.tags[k]))
  }

  /** `r` is a row the read returns for the entry a create with payload `p`
      writes into `s`: the entry's columns, then NULL update columns when
      the payload has no update, or else the columns of one payload update
      and of one of its tags. */
  predicate CreatedRow(s: Store, p: EntryPayload, r: DailyRow)
  {
    var us := UpdatesOf(p);
    EntryColumns(s, p, r) &&
    ((us == [] && r.updateid == None && r.body == None && r.tagid == None && r.tag == None) ||
     exists i :: 0 <= i < |us| && CreatedUpdateRow(s, p, i, r))
  }

  /** The columns of `r` are those of entry `e` and update `u`. */
  predicate UpdateColumns(e: DailyEntry, u: DailyUpdate, r: DailyRow)
  {
    r.entryid == e.id && r.dateString == e.dateString && r.moodScore == e.moodScore && r.moodReason == e.moodReason &&
    r.updateid == Some(u.id) && r.body == Some(u.body)
  }

  lemma TagRowColumns(e: DailyEntry, u: DailyUpdate, t: DailyTag, r: DailyRow)
    ensures r == TagRow(e, u, t) <==> UpdateColumns(e, u, r) && r.tagid == Some(t.id) && r.tag == Some(t.tag)
  {
  }

  lemma NullTagRowColumns(e: DailyEntry, u: DailyUpdate, r: DailyRow)
    ensures r == NullTagRow(e, u) <==> UpdateColumns(e, u, r) && r.tagid == None && r.tag == None
  {
  }

  /** `t` is the tag row written for the `k`-th text of `texts` after
      update `u`, for some `k`. */
  predicate TagOf(u: DailyUpdate, tagEntry: Option<nat>, texts: seq<string>, t: DailyTag)
  {
    exists k :: 0 <= k < |texts| && t == DailyTag(u.id + 1 + k, u.userid, tagEntry, u.id, u.dateString, texts[k])
  }

  /** The tag columns of `r` are those of the `k`-th text after update `u`,
      for some `k`. */
  predicate TagColumns(u: DailyUpdate, texts: seq<string>, r: DailyRow)
  {
    exists k :: 0 <= k < |texts| && r.tagid == Some(u.id + 1 + k) && r.tag == Some(texts[k])
  }

  lemma TagOfColumns(e: DailyEntry, u: DailyUpdate, tagEntry: Option<nat>, texts: seq<string>, t: DailyTag, r: DailyRow)
    requires TagOf(u, tagEntry, texts, t) && r == TagRow(e, u, t)
    ensures UpdateColumns(e, u, r) && TagColumns(u, texts, r)
  {
    TagRowColumns(e, u, t, r);
    var k :| 0 <= k < |texts| && t == DailyTag(u.id + 1 + k, u.userid, tagEntry, u.id, u.dateString, texts[k]);
    assert r.tagid == Some(u.id + 1 + k) && r.tag == Some(texts[k]);
  }

  lemma ColumnsTagOf(e: DailyEntry, u: DailyUpdate, tagEntry: Option<nat>, texts: seq<string>, r: DailyRow) returns (t: DailyTag)
    requires UpdateColumns(e, u, r) && TagColumns(u, texts, r)
    ensures TagOf(u, tagEntry, texts, t) && r == TagRow(e, u, t)
  {
    var k :| 0 <= k < |texts| && r.tagid == Some(u.id + 1 + k) && r.tag == Some(texts[k]);
    t := DailyTag(u.id + 1 + k, u.userid, tagEntry, u.id, u.dateString, texts[k]);
    TagRowColumns(e, u, t, r);
  }

  /** When the tags pointing at `u` are exactly one row per text of
      `texts`, with ids following `u`'s, joining `u` with the tags yields a
      row per text, or the NULL tag row when there is none. */
  lemma UpdateJoinedTags(tags: seq<DailyTag>, e: DailyEntry, u: DailyUpdate, texts: seq<string>, tagEntry: Option<nat>, r: DailyRow)
    requires forall t :: t in tags && t.updateid == u.id <==> TagOf(u, tagEntry, texts, t)
    ensures UpdateJoined(tags, e, u, r) <==>
      UpdateColumns(e, u, r) && ((texts == [] && r.tagid == None && r.tag == None) || TagColumns(u, texts, r))
  {
    NullTagRowColumns(e, u, r);
    if texts == [] {
      assert forall t :: t in tags ==> t.updateid != u.id;
      assert !TagColumns(u, texts, r);
    } else {
      var t0 := DailyTag(u.id + 1, u.userid, tagEntry, u.id, u.dateString, texts[0]);
      assert TagOf(u, tagEntry, texts, t0);
      if exists t :: t in tags && t.updateid == u.id && r == TagRow(e, u, t) {
        var t :| t in tags && t.updateid == u.id && r == TagRow(e, u, t);
        TagOfColumns(e, u, tagEntry, texts, t, r);
      }
      if UpdateColumns(e, u, r) && TagColumns(u, texts, r) {
        var t := ColumnsTagOf(e, u, tagEntry, texts, r);
      }
    }
  }

  lemma CreatedColumns(s: Store, userid: nat, p: EntryPayload, i: nat, r: DailyRow)
    requires i < |UpdatesOf(p)|
    ensures var u := NewUpdate(s, userid, p, i);
      var texts := UpdatesOf(p)[i].tags;
      UpdateColumns(NewEntry(s, userid, p), u, r) && ((texts == [] && r.tagid == None && r.tag == None) || TagColumns(u, texts, r)) <==>
      EntryColumns(s, p, r) && CreatedUpdateRow(s, p, i, r)
  {
  }

  /** Joining the row of payload update `i` with the tags after a create
      yields exactly that update's rows. */
  lemma UpdateJoinedCreated(s: Store, userid: nat, p: EntryPayload, withEntryId: bool, i: nat, r: DailyRow)
    requires Valid(s) && i < |UpdatesOf(p)|
    ensures UpdateJoined(Created(s, userid, p, withEntryId).dailyTags, NewEntry(s, userid, p), NewUpdate(s, userid, p, i), r) <==>
      EntryColumns(s, p, r) && CreatedUpdateRow(s, p, i, r)
  {
    var tags := Created(s, userid, p, withEntryId).dailyTags;
    var u := NewUpdate(s, userid, p, i);
    var tagEntry := if withEntryId then Some(s.nextId) else None;
    var texts := UpdatesOf(p)[i].tags;
    forall t ensures t in tags && t.updateid == u.id <==> TagOf(u, tagEntry, texts, t) {
      CreatedTagsOfUpdate(s, userid, p, withEntryId, i, t);
    }
    UpdateJoinedTags(tags, NewEntry(s, userid, p), u, texts, tagEntry, r);
    CreatedColumns(s, userid, p, i, r);
  }

  /** When the updates pointing at `e` are exactly those of `news`, the
      LEFT JOIN of `e` yields the NULL update row when `news` is empty and
      otherwise the rows of the updates of `news`. */
  lemma EntryJoinedUpdates(st: Store, e: DailyEntry, news: seq<DailyUpdate>, r: DailyRow)
    requires forall u :: u in st.dailyUpdates && u.entryid == e.id <==> u in news
    ensures EntryJoined(st, e, r) <==>
      (news == [] && r == NullUpdateRow(e)) || exists u :: u in news && UpdateJoined(st.dailyTags, e, u, r)
  {
    if news != [] {
      assert news[0] in st.dailyUpdates;
    }
  }

  /** The update rows a create writes, in payload order. */
  function NewUpdates(s: Store, userid: nat, p: EntryPayload): seq<DailyUpdate>
  {
    seq(|UpdatesOf(p)|, i requires 0 <= i < |UpdatesOf(p)| => NewUpdate(s, userid, p, i))
  }

  /** After a create, the updates pointing at the new entry are exactly the
      update rows it wrote. */
  lemma CreatedUpdatesOfNewEntry(s: Store, userid: nat, p: EntryPayload, withEntryId: bool, u: DailyUpdate)
    requires Valid(s)
    ensures u in Created(s, userid, p, withEntryId).dailyUpdates && u.entryid == s.nextId <==> u in NewUpdates(s, userid, p)
  {
    var us := UpdatesOf(p);
    var news := NewUpdates(s, userid, p);
    CreatedUpdatesOfEntry(s, userid, p, withEntryId, u);
    if NewUpdateRow(s.nextId + 1, userid, s.nextId, p.dateString, us, u) {
      var i :| 0 <= i < |us| && u == DailyUpdate(UpdateIdAt(s.nextId + 1, us, i), userid, s.nextId, p.dateString, us[i].body);
      assert u == news[i];
    }
    if u in news {
      var i :| 0 <= i < |news| && news[i] == u;
      assert u == DailyUpdate(UpdateIdAt(s.nextId + 1, us, i), userid, s.nextId, p.dateString, us[i].body);
    }
  }

  /** In any store where the updates of the new entry are the ones a create
      writes and each joins to the rows built from its payload update, the
      LEFT JOIN of the new entry yields exactly the rows built from the
      payload. */
  lemma EntryJoinedNew(c: Store, s: Store, userid: nat, p: EntryPayload, r: DailyRow)
    requires forall u :: u in c.dailyUpdates && u.entryid == s.nextId <==> u in NewUpdates(s, userid, p)
    requires forall i | 0 <= i < |UpdatesOf(p)| ::
      UpdateJoined(c.dailyTags, NewEntry(s, userid, p), NewUpdate(s, userid, p, i), r) <==>
      EntryColumns(s, p, r) && CreatedUpdateRow(s, p, i, r)
    ensures EntryJoined(c, NewEntry(s, userid, p), r) <==> CreatedRow(s, p, r)
  {
    var e0 := NewEntry(s, userid, p);
    var us := UpdatesOf(p);
    var news := NewUpdates(s, userid, p);
    EntryJoinedUpdates(c, e0, news, r);
    if exists u :: u in news && UpdateJoined(c.dailyTags, e0, u, r) {
      var u :| u in news && UpdateJoined(c.dailyTags, e0, u, r);
      var i :| 0 <= i < |news| && news[i] == u;
      assert CreatedUpdateRow(s, p, i, r);
    }
    if EntryColumns(s, p, r) && exists i :: 0 <= i < |us| && CreatedUpdateRow(s, p, i, r) {
      var i :| 0 <= i < |us| && CreatedUpdateRow(s, p, i, r);
      assert news[i] in news;
    }
    if CreatedRow(s, p, r) && us == [] {
      assert r == NullUpdateRow(e0);
    }
  }

  /** The LEFT JOIN of the new entry after a create yields exactly the rows
      built from the payload. */
  lemma EntryJoinedCreated(s: Store, userid: nat, p: EntryPayload, withEntryId: bool, r: DailyRow)
    requires Valid(s)
    ensures EntryJoined(Created(s, userid, p, withEntryId), NewEntry(s, userid, p), r) <==> CreatedRow(s, p, r)
  {
    var c := Created(s, userid, p, withEntryId);
    forall u ensures u in c.dailyUpdates && u.entryid == s.nextId <==> u in NewUpdates(s, userid, p) {
      CreatedUpdatesOfNewEntry(s, userid, p, withEntryId, u);
    }
    forall i | 0 <= i < |UpdatesOf(p)|
      ensures UpdateJoined(c.dailyTags, NewEntry(s, userid, p), NewUpdate(s, userid, p, i), r) <==>
        EntryColumns(s, p, r) && CreatedUpdateRow(s, p, i, r)
    {
      UpdateJoinedCreated(s, userid, p, withEntryId, i, r);
    }
    EntryJoinedNew(c, s, userid, p, r);
  }

  /** Every row an entry contributes carries the entry's id. */
  lemma EntryJoinedId(s: Store, e: DailyEntry, r: DailyRow)
    ensures EntryJoined(s, e, r) ==> r.entryid == e.id
  {
    if exists u :: u in s.dailyUpdates && u.entryid == e.id && UpdateJoined(s.dailyTags, e, u, r) {
      var u :| u in s.dailyUpdates && u.entryid == e.id && UpdateJoined(s.dailyTags, e, u, r);
      if exists t :: t in s.dailyTags && t.updateid == u.id && r == TagRow(e, u, t) {
        var t :| t in s.dailyTags && t.updateid == u.id && r == TagRow(e, u, t);
      }
    }
  }

  /** When `e0` is the only entry with its id and lies in the range, the
      read returns, among the rows carrying that id, exactly those `e0`
      contributes to the join. */
  lemma ReadOneEntry(c: Store, e0: DailyEntry, userid: nat, q: Query, r: DailyRow)
    requires HasRange(q) && e0 in c.dailyEntries && EntryInRange(e0, userid, q.startDate.value, q.endDate.value)
    requires forall e :: e in c.dailyEntries && e.id == e0.id ==> e == e0
    requires r.entryid == e0.id
    ensures r in ReadDaily(c, userid, q).value <==> EntryJoined(c, e0, r)
  {
    var lo, hi := q.startDate.value, q.endDate.value;
    ReadDailyRows(c, userid, q, r);
    if exists e :: e in c.dailyEntries && EntryInRange(e, userid, lo, hi) && EntryJoined(c, e, r) {
      var e :| e in c.dailyEntries && EntryInRange(e, userid, lo, hi) && EntryJoined(c, e, r);
      EntryJoinedId(c, e, r);
    }
  }

  /** Creating an entry and then reading a range that holds its date gives
      back, for the new entry, exactly the rows built from the payload: one
      per tag of each update, a NULL tag row for an update without tags,
      and a NULL update row when the payload has no update. */
  lemma CreateThenRead(s: Store, userid: nat, p: EntryPayload, withEntryId: bool, q: Query, r: DailyRow)
    requires Valid(s) && HasRange(q) && Between(p.dateString, q.startDate.value, q.endDate.value)
    requires r.entryid == s.nextId
    ensures r in ReadDaily(Created(s, userid, p, withEntryId), userid, q).value <==> CreatedRow(s, p, r)
  {
    var c := Created(s, userid, p, withEntryId);
    var e0 := NewEntry(s, userid, p);
    assert c.dailyEntries == s.dailyEntries + [e0];
    ReadOneEntry(c, e0, userid, q, r);
    EntryJoinedCreated(s, userid, p, withEntryId, r);
  }

  /** POST /entries/daily/new in this revision: BEGIN; the entry; then the
      updates loop, which throws when `updates` is missing; COMMIT, or on any
      failure ROLLBACK and an Internal error. Tag rows record the entry id. */
  method CreateEntry(db: Database, userid: nat, p: EntryPayload) returns (r: Response<nat>)
    requires Valid(db.State())
    modifies db
    ensures Valid(db.State())
    ensures r.Ok? <==> p.updates.Some? && db.Accepts(old(db.executed), 1 + Statements(p.updates.value))
    ensures r.Ok? ==> r.value == old(db.nextId) && db.State() == Created(old(db.State()), userid, p, true)
    ensures !r.Ok? ==> r == Internal && SameRows(db.State(), old(db.State()))
  {
    ghost var s0 := db.State();
    ghost var e0 := db.executed;
    var snapshot := db.Begin();
    var entryid := db.InsertDailyEntry(userid, p.dateString, p.moodScore, p.moodReason);
    if entryid.None? {
      db.Rollback(snapshot);
      return Internal;
    }
    if p.updates.None? {
      // `for (let update of p.updates)` throws on a missing field
      db.Rollback(snapshot);
      return Internal;
    }
    var us := p.updates.value;
    var ok := InsertUpdates(db, userid, entryid.value, Some(entryid.value), p.dateString, us);
    db.AcceptsSplit(e0, 1, Statements(us));
    if !ok {
      db.Rollback(snapshot);
      return Internal;
    }
    CreatedValid(s0, userid, p, true);
    return Ok(entryid.value);
  }

  /** PUT/PATCH /entries/{id}: the handler body is empty. */
  method UpdateEntry(db: Database, userid: nat, id: nat)
    ensures db.State() == old(db.State())
  {
  }
}
