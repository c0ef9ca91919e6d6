/** What creating a daily entry writes, shared by the two revisions of the
    `POST /entries/daily/new` handler: one `daily_entries` row, then per
    payload update one `daily_updates` row followed by one `daily_tags` row
    per tag of that update. Children copy the user id and the entry's
    date_string and point to the ids their parents were given. The revisions
    differ only in whether a tag row records the entry id. */
module DailyCreate {
  import opened Seqs
  import opened Store

  datatype UpdatePayload = UpdatePayload(body: string, tags: seq<string>)

  /** The request body; `updates` is None when the field is missing. */
  datatype EntryPayload = EntryPayload(dateString: string, moodScore: int, moodReason: string, updates: Option<seq<UpdatePayload>>)

  /** The updates a create writes: none when the field is missing. */
  function UpdatesOf(p: EntryPayload): seq<UpdatePayload>
  {
    if p.updates.Some? then p.updates.value else []
  }

  /** The number of tags over all updates. */
  function TagTotal(us: seq<UpdatePayload>): nat
  {
    if us == [] then 0 else TagTotal(us[..|us| - 1]) + |us[|us| - 1].tags|
  }

  /** The data statements that write `us`: one per update and one per tag. */
  function Statements(us: seq<UpdatePayload>): nat
  {
    |us| + TagTotal(us)
  }

  lemma {:induction false} TagTotalMono(us: seq<UpdatePayload>, k: nat)
    requires k <= |us|
    ensures TagTotal(us[..k]) <= TagTotal(us)
  {
    if k < |us| {
      TagTotalMono(us[..|us| - 1], k);
      assert us[..|us| - 1][..k] == us[..k];
    } else {
      assert us[..k] == us;
    }
  }

  /** The statements for the updates before `i`, for update `i` and for its
      tags all come before the end of the whole run. */
  lemma StatementsBefore(us: seq<UpdatePayload>, i: nat)
    requires i < |us|
    ensures Statements(us[..i]) + 1 + |us[i].tags| <= Statements(us)
    ensures Statements(us[..i + 1]) == Statements(us[..i]) + 1 + |us[i].tags|
  {
    assert us[..i + 1][..i] == us[..i];
    TagTotalMono(us, i + 1);
  }

  /** The tag texts of the rows of `tags` that belong to update `updateid`,
      in row order. */
  function TagsOf(tags: seq<DailyTag>, updateid: nat): seq<string>
  {
    if tags == [] then []
    else
      var t := tags[|tags| - 1];
      TagsOf(tags[..|tags| - 1], updateid) + (if t.updateid == updateid then [t.tag] else [])
  }

  lemma {:induction false} TagsOfConcat(a: seq<DailyTag>, b: seq<DailyTag>, updateid: nat)
    ensures TagsOf(a + b, updateid) == TagsOf(a, updateid) + TagsOf(b, updateid)
  {
    if b == [] {
      assert a + b == a;
    } else {
      assert (a + b)[..|a + b| - 1] == a + b[..|b| - 1];
      TagsOfConcat(a, b[..|b| - 1], updateid);
    }
  }

  lemma {:induction false} TagsOfNone(tags: seq<DailyTag>, updateid: nat)
    requires forall t :: t in tags ==> t.updateid != updateid
    ensures TagsOf(tags, updateid) == []
  {
    if tags != [] {
      assert forall t :: t in tags[..|tags| - 1] ==> t in tags;
      TagsOfNone(tags[..|tags| - 1], updateid);
    }
  }

  /** Rows that all belong to `updateid` give back their tags in order. */
  lemma {:induction false} TagsOfUniform(rows: seq<DailyTag>, updateid: nat, tags: seq<string>)
    requires |rows| == |tags|
    requires forall j :: 0 <= j < |rows| ==> rows[j].updateid == updateid && rows[j].tag == tags[j]
    ensures TagsOf(rows, updateid) == tags
  {
    if rows != [] {
      TagsOfUniform(rows[..|rows| - 1], updateid, tags[..|tags| - 1]);
    }
  }

  /** The content stored under entry `entryid`: its updates in table order,
      each with the texts of its tags, in the shape of the request payload. */
  function EntryContent(s: Store, entryid: nat): seq<UpdatePayload>
  {
    ContentOf(s.dailyUpdates, s.dailyTags, entryid)
  }

  function ContentOf(updates: seq<DailyUpdate>, tags: seq<DailyTag>, entryid: nat): seq<UpdatePayload>
  {
    if updates == [] then []
    else
      var u := updates[|updates| - 1];
      ContentOf(updates[..|updates| - 1], tags, entryid) +
      (if u.entryid == entryid then [UpdatePayload(u.body, TagsOf(tags, u.id))] else [])
  }

  lemma {:induction false} ContentOfNone(updates: seq<DailyUpdate>, tags: seq<DailyTag>, entryid: nat)
    requires forall u :: u in updates ==> u.entryid != entryid
    ensures ContentOf(updates, tags, entryid) == []
  {
    if updates != [] {
      assert forall u :: u in updates[..|updates| - 1] ==> u in updates;
      ContentOfNone(updates[..|updates| - 1], tags, entryid);
    }
  }

  /** Tag rows that belong to none of `updates` do not change their content. */
  lemma {:induction false} ContentOfMoreTags(updates: seq<DailyUpdate>, tags: seq<DailyTag>, more: seq<DailyTag>, entryid: nat)
    requires forall u, t :: u in updates && t in more ==> t.updateid != u.id
    ensures ContentOf(updates, tags + more, entryid) == ContentOf(updates, tags, entryid)
  {
    if updates != [] {
      var pre := updates[..|updates| - 1];
      var u := updates[|updates| - 1];
      forall v, t | v in pre && t in more ensures t.updateid != v.id {
        assert v in updates;
      }
      ContentOfMoreTags(pre, tags, more, entryid);
      assert u in updates;
      TagsOfNone(more, u.id);
      TagsOfConcat(tags, more, u.id);
      assert TagsOf(tags + more, u.id) == TagsOf(tags, u.id);
    }
  }

  // The store after each step of a successful create.

  /** The tag rows of one update, inserted in order. */
  function AddTags(s: Store, userid: nat, entryid: Option<nat>, updateid: nat, dateString: string, tags: seq<string>): (r: Store)
    ensures r.nextId == s.nextId + |tags|
    ensures r.dailyEntries == s.dailyEntries && r.dailyUpdates == s.dailyUpdates
    ensures r.weeklyUpdates == s.weeklyUpdates && r.weeklyTags == s.weeklyTags
    ensures |r.dailyTags| == |s.dailyTags| + |tags|
  {
    if tags == [] then s
    else
      var r := AddTags(s, userid, entryid, updateid, dateString, tags[..|tags| - 1]);
      AddDailyTag(r, userid, entryid, updateid, dateString, tags[|tags| - 1])
  }

  lemma AddTagsSnoc(s: Store, userid: nat, entryid: Option<nat>, updateid: nat, dateString: string, tags: seq<string>, j: nat)
    requires j < |tags|
    ensures AddTags(s, userid, entryid, updateid, dateString, tags[..j + 1]) ==
      AddDailyTag(AddTags(s, userid, entryid, updateid, dateString, tags[..j]), userid, entryid, updateid, dateString, tags[j])
  {
    assert tags[..j + 1][..j] == tags[..j];
  }

  /** One update row followed by its tag rows. */
  function AddUpdate(s: Store, userid: nat, entryid: nat, tagEntry: Option<nat>, dateString: string, u: UpdatePayload): Store
  {
    AddTags(AddDailyUpdate(s, userid, entryid, dateString, u.body), userid, tagEntry, s.nextId, dateString, u.tags)
  }

  /** Every update of `us`, in payload order, each followed by its tags. */
  function AddUpdates(s: Store, userid: nat, entryid: nat, tagEntry: Option<nat>, dateString: string, us: seq<UpdatePayload>): (r: Store)
    ensures r.nextId == s.nextId + Statements(us)
    ensures r.dailyEntries == s.dailyEntries
    ensures r.weeklyUpdates == s.weeklyUpdates && r.weeklyTags == s.weeklyTags
  {
    if us == [] then s
    else
      var r := AddUpdates(s, userid, entryid, tagEntry, dateString, us[..|us| - 1]);
      AddUpdate(r, userid, entryid, tagEntry, dateString, us[|us| - 1])
  }

  /** The store after a successful create; the new entry's id is `s.nextId`.
      `withEntryId` says whether tag rows record that id. */
  function Created(s: Store, userid: nat, p: EntryPayload, withEntryId: bool): (r: Store)
    ensures r.nextId == s.nextId + 1 + Statements(UpdatesOf(p))
  {
    AddUpdates(AddDailyEntry(s, userid, p.dateString, p.moodScore, p.moodReason),
      userid, s.nextId, if withEntryId then Some(s.nextId) else None, p.dateString, UpdatesOf(p))
  }

  // A create only stores ids the counter has issued.

  lemma {:induction false} AddTagsValid(s: Store, userid: nat, entryid: Option<nat>, updateid: nat, dateString: string, tags: seq<string>)
    requires Valid(s) && updateid < s.nextId && (entryid.Some? ==> entryid.value < s.nextId)
    ensures Valid(AddTags(s, userid, entryid, updateid, dateString, tags))
  {
    if tags != [] {
      AddTagsValid(s, userid, entryid, updateid, dateString, tags[..|tags| - 1]);
    }
  }

  lemma {:induction false} AddUpdatesValid(s: Store, userid: nat, entryid: nat, tagEntry: Option<nat>, dateString: string, us: seq<UpdatePayload>)
    requires Valid(s) && entryid < s.nextId && (tagEntry.Some? ==> tagEntry.value < s.nextId)
    ensures Valid(AddUpdates(s, userid, entryid, tagEntry, dateString, us))
  {
    if us != [] {
      var n := |us| - 1;
      AddUpdatesValid(s, userid, entryid, tagEntry, dateString, us[..n]);
      var r := AddUpdates(s, userid, entryid, tagEntry, dateString, us[..n]);
      AddTagsValid(AddDailyUpdate(r, userid, entryid, dateString, us[n].body), userid, tagEntry, r.nextId, dateString, us[n].tags);
    }
  }

  /** A successful create keeps every stored id below the counter. */
  lemma CreatedValid(s: Store, userid: nat, p: EntryPayload, withEntryId: bool)
    requires Valid(s)
    ensures Valid(Created(s, userid, p, withEntryId))
  {
    var e := AddDailyEntry(s, userid, p.dateString, p.moodScore, p.moodReason);
    AddUpdatesValid(e, userid, s.nextId, if withEntryId then Some(s.nextId) else None, p.dateString, UpdatesOf(p));
  }

  // What a successful create adds.

  /** The update rows `added` record the payload updates `us` in order. */
  predicate UpdateRowsFor(added: seq<DailyUpdate>, userid: nat, entryid: nat, dateString: string, us: seq<UpdatePayload>)
  {
    |added| == |us| &&
    forall i :: 0 <= i < |us| ==>
      added[i].userid == userid && added[i].entryid == entryid &&
      added[i].dateString == dateString && added[i].body == us[i].body
  }

  lemma UpdateRowsForSnoc(added: seq<DailyUpdate>, row: DailyUpdate, userid: nat, entryid: nat, dateString: string, us: seq<UpdatePayload>, x: UpdatePayload)
    requires UpdateRowsFor(added, userid, entryid, dateString, us)
    requires row.userid == userid && row.entryid == entryid && row.dateString == dateString && row.body == x.body
    ensures UpdateRowsFor(added + [row], userid, entryid, dateString, us + [x])
  {
  }

  /** Adding one update appends exactly its row to `daily_updates`. */
  lemma AddUpdateUpdateRow(s: Store, userid: nat, entryid: nat, tagEntry: Option<nat>, dateString: string, x: UpdatePayload)
    ensures AddUpdate(s, userid, entryid, tagEntry, dateString, x).dailyUpdates ==
      s.dailyUpdates + [DailyUpdate(s.nextId, userid, entryid, dateString, x.body)]
  {
  }

  lemma {:induction false} AddUpdatesUpdateRows(s: Store, userid: nat, entryid: nat, tagEntry: Option<nat>, dateString: string, us: seq<UpdatePayload>)
    ensures var r := AddUpdates(s, userid, entryid, tagEntry, dateString, us);
      |s.dailyUpdates| <= |r.dailyUpdates| && r.dailyUpdates[..|s.dailyUpdates|] == s.dailyUpdates &&
      UpdateRowsFor(r.dailyUpdates[|s.dailyUpdates|..], userid, entryid, dateString, us)
  {
    if us != [] {
      var n := |us| - 1;
      var r' := AddUpdates(s, userid, entryid, tagEntry, dateString, us[..n]);
      AddUpdatesUpdateRows(s, userid, entryid, tagEntry, dateString, us[..n]);
      AddUpdateUpdateRow(r', userid, entryid, tagEntry, dateString, us[n]);
      var row := DailyUpdate(r'.nextId, userid, entryid, dateString, us[n].body);
      var before := r'.dailyUpdates[|s.dailyUpdates|..];
      UpdateRowsForSnoc(before, row, userid, entryid, dateString, us[..n], us[n]);
      assert us == us[..n] + [us[n]];
      SliceAppend(r'.dailyUpdates, |s.dailyUpdates|, [row]);
    }
  }

  /** Every tag row of `added` carries the given user id, entry id column
      and date_string. */
  predicate TagRowsFor(added: seq<DailyTag>, userid: nat, tagEntry: Option<nat>, dateString: string)
  {
    forall t :: t in added ==> t.userid == userid && t.entryid == tagEntry && t.dateString == dateString
  }

  /** The rows `AddTags` appends: the k-th holds the k-th tag under id
      `start + k`. */
  function TagRows(start: nat, userid: nat, entryid: Option<nat>, updateid: nat, dateString: string, tags: seq<string>): seq<DailyTag>
  {
    seq(|tags|, k requires 0 <= k < |tags| => DailyTag(start + k, userid, entryid, updateid, dateString, tags[k]))
  }

  lemma {:induction false} AddTagsRows(s: Store, userid: nat, entryid: Option<nat>, updateid: nat, dateString: string, tags: seq<string>)
    ensures AddTags(s, userid, entryid, updateid, dateString, tags).dailyTags ==
      s.dailyTags + TagRows(s.nextId, userid, entryid, updateid, dateString, tags)
  {
    if tags != [] {
      var n := |tags| - 1;
      AddTagsRows(s, userid, entryid, updateid, dateString, tags[..n]);
      var all := TagRows(s.nextId, userid, entryid, updateid, dateString, tags);
      var pre := TagRows(s.nextId, userid, entryid, updateid, dateString, tags[..n]);
      assert all == pre + [all[n]];
    }
  }

  /** The rows `AddTags` appends all belong to `updateid`, carry the given
      columns, and hold the tags in order. */
  lemma AddTagsAdded(s: Store, userid: nat, entryid: Option<nat>, updateid: nat, dateString: string, tags: seq<string>)
    ensures var r := AddTags(s, userid, entryid, updateid, dateString, tags);
      var added := r.dailyTags[|s.dailyTags|..];
      r.dailyTags == s.dailyTags + added &&
      TagRowsFor(added, userid, entryid, dateString) &&
      (forall t :: t in added ==> t.updateid == updateid) &&
      TagsOf(added, updateid) == tags
  {
    var rows := TagRows(s.nextId, userid, entryid, updateid, dateString, tags);
    AddTagsRows(s, userid, entryid, updateid, dateString, tags);
    assert AddTags(s, userid, entryid, updateid, dateString, tags).dailyTags[|s.dailyTags|..] == rows;
    TagsOfUniform(rows, updateid, tags);
  }

  /** Adding one update appends one tag row per tag of it to `daily_tags`. */
  lemma AddUpdateTagRows(s: Store, userid: nat, entryid: nat, tagEntry: Option<nat>, dateString: string, x: UpdatePayload)
    ensures var r := AddUpdate(s, userid, entryid, tagEntry, dateString, x);
      |r.dailyTags| == |s.dailyTags| + |x.tags| && r.dailyTags[..|s.dailyTags|] == s.dailyTags &&
      TagRowsFor(r.dailyTags[|s.dailyTags|..], userid, tagEntry, dateString)
  {
    var s1 := AddDailyUpdate(s, userid, entryid, dateString, x.body);
    AddTagsAdded(s1, userid, tagEntry, s.nextId, dateString, x.tags);
  }

  lemma {:induction false} AddUpdatesTagRows(s: Store, userid: nat, entryid: nat, tagEntry: Option<nat>, dateString: string, us: seq<UpdatePayload>)
    ensures var r := AddUpdates(s, userid, entryid, tagEntry, dateString, us);
      |r.dailyTags| == |s.dailyTags| + TagTotal(us) && r.dailyTags[..|s.dailyTags|] == s.dailyTags &&
      TagRowsFor(r.dailyTags[|s.dailyTags|..], userid, tagEntry, dateString)
  {
    if us != [] {
      var n := |us| - 1;
      var r' := AddUpdates(s, userid, entryid, tagEntry, dateString, us[..n]);
      AddUpdatesTagRows(s, userid, entryid, tagEntry, dateString, us[..n]);
      AddUpdateTagRows(r', userid, entryid, tagEntry, dateString, us[n]);
      var r := AddUpdate(r', userid, entryid, tagEntry, dateString, us[n]);
      var added := r.dailyTags[|r'.dailyTags|..];
      assert r.dailyTags == r'.dailyTags + added;
      SliceAppend(r'.dailyTags, |s.dailyTags|, added);
    }
  }

  /** A successful create appends exactly one entry row, one update row per
      payload update (in payload order, carrying the user id, the new entry
      id and the date_string), and one tag row per tag (carrying the user id
      and the date_string, and the entry id exactly when `withEntryId`);
      every weekly row is left alone. */
  lemma CreatedRows(s: Store, userid: nat, p: EntryPayload, withEntryId: bool)
    ensures var r := Created(s, userid, p, withEntryId);
      var us := UpdatesOf(p);
      r.dailyEntries == s.dailyEntries + [DailyEntry(s.nextId, userid, p.dateString, p.moodScore, p.moodReason)] &&
      r.weeklyUpdates == s.weeklyUpdates && r.weeklyTags == s.weeklyTags &&
      |s.dailyUpdates| <= |r.dailyUpdates| && r.dailyUpdates[..|s.dailyUpdates|] == s.dailyUpdates &&
      UpdateRowsFor(r.dailyUpdates[|s.dailyUpdates|..], userid, s.nextId, p.dateString, us) &&
      |r.dailyTags| == |s.dailyTags| + TagTotal(us) && r.dailyTags[..|s.dailyTags|] == s.dailyTags &&
      TagRowsFor(r.dailyTags[|s.dailyTags|..], userid, if withEntryId then Some(s.nextId) else None, p.dateString)
  {
    var e := AddDailyEntry(s, userid, p.dateString, p.moodScore, p.moodReason);
    var tagEntry := if withEntryId then Some(s.nextId) else None;
    AddUpdatesUpdateRows(e, userid, s.nextId, tagEntry, p.dateString, UpdatesOf(p));
    AddUpdatesTagRows(e, userid, s.nextId, tagEntry, p.dateString, UpdatesOf(p));
  }

  lemma ContentOfSnoc(updates: seq<DailyUpdate>, u: DailyUpdate, tags: seq<DailyTag>, entryid: nat)
    ensures ContentOf(updates + [u], tags, entryid) == ContentOf(updates, tags, entryid) +
      (if u.entryid == entryid then [UpdatePayload(u.body, TagsOf(tags, u.id))] else [])
  {
    assert (updates + [u])[..|updates|] == updates;
  }

  lemma AddUpdateContent(s: Store, userid: nat, entryid: nat, tagEntry: Option<nat>, dateString: string, x: UpdatePayload)
    requires Valid(s)
    ensures EntryContent(AddUpdate(s, userid, entryid, tagEntry, dateString, x), entryid) == EntryContent(s, entryid) + [x]
  {
    var s1 := AddDailyUpdate(s, userid, entryid, dateString, x.body);
    var r := AddTags(s1, userid, tagEntry, s.nextId, dateString, x.tags);
    AddTagsAdded(s1, userid, tagEntry, s.nextId, dateString, x.tags);
    var more := r.dailyTags[|s.dailyTags|..];
    var u := DailyUpdate(s.nextId, userid, entryid, dateString, x.body);
    assert r.dailyUpdates == s.dailyUpdates + [u];
    assert r.dailyTags == s.dailyTags + more;
    assert forall v :: v in s.dailyUpdates ==> v.id < s.nextId;
    assert forall t :: t in s.dailyTags ==> t.updateid < s.nextId;
    ContentOfMoreTags(s.dailyUpdates, s.dailyTags, more, entryid);
    TagsOfConcat(s.dailyTags, more, s.nextId);
    TagsOfNone(s.dailyTags, s.nextId);
    ContentOfSnoc(s.dailyUpdates, u, r.dailyTags, entryid);
    assert r == AddUpdate(s, userid, entryid, tagEntry, dateString, x);
    assert TagsOf(r.dailyTags, s.nextId) == x.tags;
    assert ContentOf(s.dailyUpdates, r.dailyTags, entryid) == ContentOf(s.dailyUpdates, s.dailyTags, entryid);
    calc {
      EntryContent(r, entryid);
      ContentOf(s.dailyUpdates + [u], r.dailyTags, entryid);
      ContentOf(s.dailyUpdates, r.dailyTags, entryid) + [UpdatePayload(x.body, TagsOf(r.dailyTags, s.nextId))];
      ContentOf(s.dailyUpdates, s.dailyTags, entryid) + [UpdatePayload(x.body, x.tags)];
    }
  }

  lemma {:induction false} AddUpdatesContent(s: Store, userid: nat, entryid: nat, tagEntry: Option<nat>, dateString: string, us: seq<UpdatePayload>)
    requires Valid(s) && entryid < s.nextId && (tagEntry.Some? ==> tagEntry.value < s.nextId)
    ensures EntryContent(AddUpdates(s, userid, entryid, tagEntry, dateString, us), entryid) == EntryContent(s, entryid) + us
  {
    if us != [] {
      var n := |us| - 1;
      AddUpdatesContent(s, userid, entryid, tagEntry, dateString, us[..n]);
      var r' := AddUpdates(s, userid, entryid, tagEntry, dateString, us[..n]);
      AddUpdatesValid(s, userid, entryid, tagEntry, dateString, us[..n]);
      AddUpdateContent(r', userid, entryid, tagEntry, dateString, us[n]);
      assert AddUpdates(s, userid, entryid, tagEntry, dateString, us) == AddUpdate(r', userid, entryid, tagEntry, dateString, us[n]);
      AppendLast(EntryContent(s, entryid), us);
    }
  }

  /** Read back by entry id, the store after a create holds exactly the
      payload's updates in order, each with exactly its own tags in order. */
  lemma CreatedContent(s: Store, userid: nat, p: EntryPayload, withEntryId: bool)
    requires Valid(s)
    ensures EntryContent(Created(s, userid, p, withEntryId), s.nextId) == UpdatesOf(p)
  {
    var e := AddDailyEntry(s, userid, p.dateString, p.moodScore, p.moodReason);
    ContentOfNone(e.dailyUpdates, e.dailyTags, s.nextId);
    AddUpdatesContent(e, userid, s.nextId, if withEntryId then Some(s.nextId) else None, p.dateString, UpdatesOf(p));
  }

  // The ids a create hands out.

  /** The id update `i` of `us` receives when the updates are written with
      the counter at `start`; its tag rows take the ids right after it. */
  function UpdateIdAt(start: nat, us: seq<UpdatePayload>, i: nat): nat
    requires i <= |us|
  {
    start + Statements(us[..i])
  }

  /** A later update receives a larger id than an earlier one and all of
      the earlier one's tags. */
  lemma UpdateIdAtMono(start: nat, us: seq<UpdatePayload>, i: nat, j: nat)
    requires i < j <= |us|
    ensures UpdateIdAt(start, us, i) + 1 + |us[i].tags| <= UpdateIdAt(start, us, j)
  {
    StatementsBefore(us[..j], i);
    assert us[..j][..i] == us[..i];
  }

  /** `u` is the row written for one of the updates of `us`. */
  predicate NewUpdateRow(start: nat, userid: nat, entryid: nat, dateString: string, us: seq<UpdatePayload>, u: DailyUpdate)
  {
    exists i :: 0 <= i < |us| && u == DailyUpdate(UpdateIdAt(start, us, i), userid, entryid, dateString, us[i].body)
  }

  /** `t` is the row written for one tag of one of the updates of `us`. */
  predicate NewTagRow(start: nat, userid: nat, tagEntry: Option<nat>, dateString: string, us: seq<UpdatePayload>, t: DailyTag)
  {
    exists i, k :: 0 <= i < |us| && 0 <= k < |us[i].tags| &&
      t == DailyTag(UpdateIdAt(start, us, i) + 1 + k, userid, tagEntry, UpdateIdAt(start, us, i), dateString, us[i].tags[k])
  }

  /** The update rows for `us` are those for all but its last update and
      the row for the last one. */
  lemma NewUpdateRowSnoc(start: nat, userid: nat, entryid: nat, dateString: string, us: seq<UpdatePayload>, u: DailyUpdate)
    requires us != []
    ensures NewUpdateRow(start, userid, entryid, dateString, us, u) <==>
      NewUpdateRow(start, userid, entryid, dateString, us[..|us| - 1], u) ||
      u == DailyUpdate(UpdateIdAt(start, us, |us| - 1), userid, entryid, dateString, us[|us| - 1].body)
  {
    var n := |us| - 1;
    var pre := us[..n];
    if NewUpdateRow(start, userid, entryid, dateString, us, u) {
      var i :| 0 <= i < |us| && u == DailyUpdate(UpdateIdAt(start, us, i), userid, entryid, dateString, us[i].body);
      if i < n {
        UpdateIdAtPrefix(start, us, n, i);
        assert u == DailyUpdate(UpdateIdAt(start, pre, i), userid, entryid, dateString, pre[i].body);
      }
    }
    if NewUpdateRow(start, userid, entryid, dateString, pre, u) {
      var i :| 0 <= i < |pre| && u == DailyUpdate(UpdateIdAt(start, pre, i), userid, entryid, dateString, pre[i].body);
      UpdateIdAtPrefix(start, us, n, i);
      assert u == DailyUpdate(UpdateIdAt(start, us, i), userid, entryid, dateString, us[i].body);
    }
  }

  lemma {:induction false} AddUpdatesUpdatesMember(s: Store, userid: nat, entryid: nat, tagEntry: Option<nat>, dateString: string, us: seq<UpdatePayload>, u: DailyUpdate)
    ensures u in AddUpdates(s, userid, entryid, tagEntry, dateString, us).dailyUpdates <==>
      u in s.dailyUpdates || NewUpdateRow(s.nextId, userid, entryid, dateString, us, u)
  {
    if us != [] {
      var n := |us| - 1;
      var r' := AddUpdates(s, userid, entryid, tagEntry, dateString, us[..n]);
      AddUpdatesUpdatesMember(s, userid, entryid, tagEntry, dateString, us[..n], u);
      AddUpdateUpdateRow(r', userid, entryid, tagEntry, dateString, us[n]);
      NewUpdateRowSnoc(s.nextId, userid, entryid, dateString, us, u);
      assert r'.nextId == UpdateIdAt(s.nextId, us, n);
    }
  }

  lemma UpdateIdAtPrefix(start: nat, us: seq<UpdatePayload>, m: nat, i: nat)
    requires i <= m <= |us|
    ensures UpdateIdAt(start, us[..m], i) == UpdateIdAt(start, us, i)
  {
    assert us[..m][..i] == us[..i];
  }

  /** The tag rows the last update of `us` receives. */
  function LastTagRows(start: nat, userid: nat, tagEntry: Option<nat>, dateString: string, us: seq<UpdatePayload>): seq<DailyTag>
    requires us != []
  {
    var id := UpdateIdAt(start, us, |us| - 1);
    TagRows(id + 1, userid, tagEntry, id, dateString, us[|us| - 1].tags)
  }

  lemma NewTagRowSplit(start: nat, userid: nat, tagEntry: Option<nat>, dateString: string, us: seq<UpdatePayload>, t: DailyTag)
    requires us != [] && NewTagRow(start, userid, tagEntry, dateString, us, t)
    ensures NewTagRow(start, userid, tagEntry, dateString, us[..|us| - 1], t) || t in LastTagRows(start, userid, tagEntry, dateString, us)
  {
    var n := |us| - 1;
    var i, k :| 0 <= i < |us| && 0 <= k < |us[i].tags| &&
      t == DailyTag(UpdateIdAt(start, us, i) + 1 + k, userid, tagEntry, UpdateIdAt(start, us, i), dateString, us[i].tags[k]);
    if i < n {
      var pre := us[..n];
      UpdateIdAtPrefix(start, us, n, i);
      assert 0 <= k < |pre[i].tags| &&
        t == DailyTag(UpdateIdAt(start, pre, i) + 1 + k, userid, tagEntry, UpdateIdAt(start, pre, i), dateString, pre[i].tags[k]);
    } else {
      assert t == LastTagRows(start, userid, tagEntry, dateString, us)[k];
    }
  }

  lemma NewTagRowFromPrefix(start: nat, userid: nat, tagEntry: Option<nat>, dateString: string, us: seq<UpdatePayload>, m: nat, t: DailyTag)
    requires m <= |us| && NewTagRow(start, userid, tagEntry, dateString, us[..m], t)
    ensures NewTagRow(start, userid, tagEntry, dateString, us, t)
  {
    var pre := us[..m];
    var i, k :| 0 <= i < |pre| && 0 <= k < |pre[i].tags| &&
      t == DailyTag(UpdateIdAt(start, pre, i) + 1 + k, userid, tagEntry, UpdateIdAt(start, pre, i), dateString, pre[i].tags[k]);
    UpdateIdAtPrefix(start, us, m, i);
    assert 0 <= i < |us| && 0 <= k < |us[i].tags| &&
      t == DailyTag(UpdateIdAt(start, us, i) + 1 + k, userid, tagEntry, UpdateIdAt(start, us, i), dateString, us[i].tags[k]);
  }

  lemma NewTagRowFromLast(start: nat, userid: nat, tagEntry: Option<nat>, dateString: string, us: seq<UpdatePayload>, t: DailyTag)
    requires us != [] && t in LastTagRows(start, userid, tagEntry, dateString, us)
    ensures NewTagRow(start, userid, tagEntry, dateString, us, t)
  {
    var n := |us| - 1;
    var rows := LastTagRows(start, userid, tagEntry, dateString, us);
    var k :| 0 <= k < |rows| && rows[k] == t;
    assert 0 <= n < |us| && 0 <= k < |us[n].tags| &&
      t == DailyTag(UpdateIdAt(start, us, n) + 1 + k, userid, tagEntry, UpdateIdAt(start, us, n), dateString, us[n].tags[k]);
  }

  /** The last update's tag rows are appended after the others'. */
  lemma AddUpdatesTagsSnoc(s: Store, userid: nat, entryid: nat, tagEntry: Option<nat>, dateString: string, us: seq<UpdatePayload>)
    requires us != []
    ensures var r' := AddUpdates(s, userid, entryid, tagEntry, dateString, us[..|us| - 1]);
      AddUpdates(s, userid, entryid, tagEntry, dateString, us).dailyTags ==
      r'.dailyTags + TagRows(r'.nextId + 1, userid, tagEntry, r'.nextId, dateString, us[|us| - 1].tags)
  {
    var n := |us| - 1;
    var r' := AddUpdates(s, userid, entryid, tagEntry, dateString, us[..n]);
    AddTagsRows(AddDailyUpdate(r', userid, entryid, dateString, us[n].body), userid, tagEntry, r'.nextId, dateString, us[n].tags);
  }

  /** The last update's id is the counter value after the others. */
  lemma LastTagRowsAt(s: Store, userid: nat, entryid: nat, tagEntry: Option<nat>, dateString: string, us: seq<UpdatePayload>)
    requires us != []
    ensures var r' := AddUpdates(s, userid, entryid, tagEntry, dateString, us[..|us| - 1]);
      LastTagRows(s.nextId, userid, tagEntry, dateString, us) ==
      TagRows(r'.nextId + 1, userid, tagEntry, r'.nextId, dateString, us[|us| - 1].tags)
  {
    var r' := AddUpdates(s, userid, entryid, tagEntry, dateString, us[..|us| - 1]);
    assert UpdateIdAt(s.nextId, us, |us| - 1) == r'.nextId;
  }

  lemma {:induction false} AddUpdatesTagsMember(s: Store, userid: nat, entryid: nat, tagEntry: Option<nat>, dateString: string, us: seq<UpdatePayload>, t: DailyTag)
    ensures t in AddUpdates(s, userid, entryid, tagEntry, dateString, us).dailyTags <==>
      t in s.dailyTags || NewTagRow(s.nextId, userid, tagEntry, dateString, us, t)
  {
    if us != [] {
      var n := |us| - 1;
      AddUpdatesTagsMember(s, userid, entryid, tagEntry, dateString, us[..n], t);
      AddUpdatesTagsSnoc(s, userid, entryid, tagEntry, dateString, us);
      LastTagRowsAt(s, userid, entryid, tagEntry, dateString, us);
      var rows := LastTagRows(s.nextId, userid, tagEntry, dateString, us);
      if NewTagRow(s.nextId, userid, tagEntry, dateString, us, t) {
        NewTagRowSplit(s.nextId, userid, tagEntry, dateString, us, t);
      }
      if NewTagRow(s.nextId, userid, tagEntry, dateString, us[..n], t) {
        NewTagRowFromPrefix(s.nextId, userid, tagEntry, dateString, us, n, t);
      }
      if t in rows {
        NewTagRowFromLast(s.nextId, userid, tagEntry, dateString, us, t);
      }
    }
  }

  /** After a create, the update rows that point at the new entry are
      exactly one per payload update, in the columns and under the ids the
      create gave them. */
  lemma CreatedUpdatesOfEntry(s: Store, userid: nat, p: EntryPayload, withEntryId: bool, u: DailyUpdate)
    requires Valid(s)
    ensures u in Created(s, userid, p, withEntryId).dailyUpdates && u.entryid == s.nextId <==>
      NewUpdateRow(s.nextId + 1, userid, s.nextId, p.dateString, UpdatesOf(p), u)
  {
    var e := AddDailyEntry(s, userid, p.dateString, p.moodScore, p.moodReason);
    AddUpdatesUpdatesMember(e, userid, s.nextId, if withEntryId then Some(s.nextId) else None, p.dateString, UpdatesOf(p), u);
  }

  /** Among the tag rows for `us`, those pointing at the row of update `i`
      are one per tag of that update. */
  lemma NewTagRowOfUpdate(start: nat, userid: nat, tagEntry: Option<nat>, dateString: string, us: seq<UpdatePayload>, i: nat, t: DailyTag)
    requires i < |us|
    ensures var id := UpdateIdAt(start, us, i);
      NewTagRow(start, userid, tagEntry, dateString, us, t) && t.updateid == id <==>
      exists k :: 0 <= k < |us[i].tags| && t == DailyTag(id + 1 + k, userid, tagEntry, id, dateString, us[i].tags[k])
  {
    var id := UpdateIdAt(start, us, i);
    if NewTagRow(start, userid, tagEntry, dateString, us, t) && t.updateid == id {
      var j, k :| 0 <= j < |us| && 0 <= k < |us[j].tags| &&
        t == DailyTag(UpdateIdAt(start, us, j) + 1 + k, userid, tagEntry, UpdateIdAt(start, us, j), dateString, us[j].tags[k]);
      if j < i {
        UpdateIdAtMono(start, us, j, i);
      } else if i < j {
        UpdateIdAtMono(start, us, i, j);
      }
    }
  }

  /** After a create, the tag rows that point at the row of payload update
      `i` are exactly one per tag of that update, in the columns and under
      the ids the create gave them. */
  lemma CreatedTagsOfUpdate(s: Store, userid: nat, p: EntryPayload, withEntryId: bool, i: nat, t: DailyTag)
    requires Valid(s) && i < |UpdatesOf(p)|
    ensures var us := UpdatesOf(p);
      var id := UpdateIdAt(s.nextId + 1, us, i);
      t in Created(s, userid, p, withEntryId).dailyTags && t.updateid == id <==>
      exists k :: 0 <= k < |us[i].tags| &&
        t == DailyTag(id + 1 + k, userid, if withEntryId then Some(s.nextId) else None, id, p.dateString, us[i].tags[k])
  {
    var us := UpdatesOf(p);
    var tagEntry := if withEntryId then Some(s.nextId) else None;
    var e := AddDailyEntry(s, userid, p.dateString, p.moodScore, p.moodReason);
    AddUpdatesTagsMember(e, userid, s.nextId, tagEntry, p.dateString, us, t);
    NewTagRowOfUpdate(s.nextId + 1, userid, tagEntry, p.dateString, us, i, t);
  }

  /** The inner loop of the create handlers: the tag rows of one update,
      stopping at the first statement the server rejects. */
  method InsertTags(db: Database, userid: nat, tagEntry: Option<nat>, updateid: nat, dateString: string, tags: seq<string>)
    returns (ok: bool)
    modifies db
    ensures db.nextId >= old(db.nextId)
    ensures ok <==> db.Accepts(old(db.executed), |tags|)
    ensures ok ==> db.executed == old(db.executed) + |tags|
    ensures ok ==> db.State() == AddTags(old(db.State()), userid, tagEntry, updateid, dateString, tags)
  {
    ghost var s0 := db.State();
    ghost var e0 := db.executed;
    for j := 0 to |tags|
      invariant db.State() == AddTags(s0, userid, tagEntry, updateid, dateString, tags[..j])
      invariant db.nextId >= s0.nextId
      invariant db.executed == e0 + j
      invariant db.Accepts(e0, j)
    {
      var added := db.InsertDailyTag(userid, tagEntry, updateid, dateString, tags[j]);
      db.AcceptsOne(e0 + j);
      if !added {
        db.AcceptsSplit(e0 + j, 1, |tags| - j - 1);
        db.AcceptsSplit(e0, j, |tags| - j);
        return false;
      }
      db.AcceptsSplit(e0, j, 1);
      AddTagsSnoc(s0, userid, tagEntry, updateid, dateString, tags, j);
    }
    assert tags[..|tags|] == tags;
    return true;
  }

  /** One pass of the outer loop: the update's row, then its tags. */
  method InsertUpdate(db: Database, userid: nat, entryid: nat, tagEntry: Option<nat>, dateString: string, x: UpdatePayload)
    returns (ok: bool)
    modifies db
    ensures db.nextId >= old(db.nextId)
    ensures ok <==> db.Accepts(old(db.executed), 1 + |x.tags|)
    ensures ok ==> db.executed == old(db.executed) + 1 + |x.tags|
    ensures ok ==> db.State() == AddUpdate(old(db.State()), userid, entryid, tagEntry, dateString, x)
  {
    ghost var e0 := db.executed;
    var updateid := db.InsertDailyUpdate(userid, entryid, dateString, x.body);
    db.AcceptsSplit(e0, 1, |x.tags|);
    if updateid.None? {
      return false;
    }
    assert db.Accepts(e0, 1);
    ok := InsertTags(db, userid, tagEntry, updateid.value, dateString, x.tags);
  }

  /** The outer loop of the create handlers: for each update, insert its row
      and then its tags, stopping at the first statement the server rejects. */
  method InsertUpdates(db: Database, userid: nat, entryid: nat, tagEntry: Option<nat>, dateString: string, us: seq<UpdatePayload>)
    returns (ok: bool)
    modifies db
    ensures db.nextId >= old(db.nextId)
    ensures ok <==> db.Accepts(old(db.executed), Statements(us))
    ensures ok ==> db.executed == old(db.executed) + Statements(us)
    ensures ok ==> db.State() == AddUpdates(old(db.State()), userid, entryid, tagEntry, dateString, us)
  {
    ghost var s0 := db.State();
    ghost var e0 := db.executed;
    for i := 0 to |us|
      invariant db.State() == AddUpdates(s0, userid, entryid, tagEntry, dateString, us[..i])
      invariant db.nextId >= s0.nextId
      invariant db.executed == e0 + Statements(us[..i])
      invariant db.Accepts(e0, Statements(us[..i]))
    {
      StatementsBefore(us, i);
      var done := Statements(us[..i]);
      var step := 1 + |us[i].tags|;
      var updateOk := InsertUpdate(db, userid, entryid, tagEntry, dateString, us[i]);
      db.AcceptsSplit(e0, done, step);
      if !updateOk {
        db.AcceptsSplit(e0, done + step, Statements(us) - done - step);
        return false;
      }
      assert us[..i + 1][..i] == us[..i];
    }
    assert us[..|us|] == us;
    return true;
  }
}
