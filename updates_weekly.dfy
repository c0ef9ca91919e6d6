/** The routes of lib/routes/updates-weekly.js: the range read
    `GET /updates/weekly` and the replace-all `POST /updates/weekly/{weekStr}`,
    which deletes the caller's updates and tags of that week once and then
    writes the payload. */
module UpdatesWeekly {
  import opened Seqs
  import opened Order
  import opened Store

  /** A payload tag: an object whose `tag` field holds the text. */
  datatype TagObject = TagObject(tag: string)

  /** One element of the payload array. */
  datatype WeeklyPayload = WeeklyPayload(body: string, tags: seq<TagObject>)

  /** The number of tags over all payload elements. */
  function TagTotal(p: seq<WeeklyPayload>): nat
  {
    if p == [] then 0 else TagTotal(p[..|p| - 1]) + |p[|p| - 1].tags|
  }

  /** The insert statements that write `p`: one per element and one per tag. */
  function Statements(p: seq<WeeklyPayload>): nat
  {
    |p| + TagTotal(p)
  }

  lemma {:induction false} TagTotalMono(p: seq<WeeklyPayload>, k: nat)
    requires k <= |p|
    ensures TagTotal(p[..k]) <= TagTotal(p)
  {
    if k < |p| {
      TagTotalMono(p[..|p| - 1], k);
      assert p[..|p| - 1][..k] == p[..k];
    } else {
      assert p[..k] == p;
    }
  }

  lemma StatementsBefore(p: seq<WeeklyPayload>, i: nat)
    requires i < |p|
    ensures Statements(p[..i]) + 1 + |p[i].tags| <= Statements(p)
    ensures Statements(p[..i + 1]) == Statements(p[..i]) + 1 + |p[i].tags|
  {
    assert p[..i + 1][..i] == p[..i];
    TagTotalMono(p, i + 1);
  }

  // The store after each step of a successful overwrite.

  /** The tag rows of one update, inserted in order. */
  function AddWeeklyTags(s: Store, userid: nat, updateid: nat, week: string, tags: seq<TagObject>): (r: Store)
    ensures r.nextId == s.nextId + |tags|
    ensures r.dailyEntries == s.dailyEntries && r.dailyUpdates == s.dailyUpdates && r.dailyTags == s.dailyTags
    ensures r.weeklyUpdates == s.weeklyUpdates
    ensures |r.weeklyTags| == |s.weeklyTags| + |tags|
  {
    if tags == [] then s
    else
      var r := AddWeeklyTags(s, userid, updateid, week, tags[..|tags| - 1]);
      AddWeeklyTag(r, userid, updateid, week, tags[|tags| - 1].tag)
  }

  /** One payload element: its update row, then its tag rows. */
  function AddWeeklyEntry(s: Store, userid: nat, week: string, x: WeeklyPayload): Store
  {
    AddWeeklyTags(AddWeeklyUpdate(s, userid, week, x.body), userid, s.nextId, week, x.tags)
  }

  /** Every element of the payload, in order. */
  function AddWeeklyEntries(s: Store, userid: nat, week: string, p: seq<WeeklyPayload>): (r: Store)
    ensures r.nextId == s.nextId + Statements(p)
    ensures r.dailyEntries == s.dailyEntries && r.dailyUpdates == s.dailyUpdates && r.dailyTags == s.dailyTags
  {
    if p == [] then s
    else
      var r := AddWeeklyEntries(s, userid, week, p[..|p| - 1]);
      AddWeeklyEntry(r, userid, week, p[|p| - 1])
  }

  /** The two DELETEs: no update or tag row of (userid, week) is left, and
      every other row stays, in order. */
  function ClearWeek(s: Store, userid: nat, week: string): (r: Store)
    ensures r.nextId == s.nextId
    ensures r.dailyEntries == s.dailyEntries && r.dailyUpdates == s.dailyUpdates && r.dailyTags == s.dailyTags
    ensures Filter(r.weeklyUpdates, UpdateInScope(userid, week)) == []
    ensures Filter(r.weeklyTags, TagInScope(userid, week)) == []
    ensures Filter(r.weeklyUpdates, UpdateOutOfScope(userid, week)) == Filter(s.weeklyUpdates, UpdateOutOfScope(userid, week))
    ensures Filter(r.weeklyTags, TagOutOfScope(userid, week)) == Filter(s.weeklyTags, TagOutOfScope(userid, week))
  {
    var r := RemoveWeeklyTags(RemoveWeeklyUpdates(s, userid, week), userid, week);
    FilterNone(r.weeklyUpdates, UpdateInScope(userid, week));
    FilterNone(r.weeklyTags, TagInScope(userid, week));
    FilterAll(r.weeklyUpdates, UpdateOutOfScope(userid, week));
    FilterAll(r.weeklyTags, TagOutOfScope(userid, week));
    r
  }

  /** The store after a successful overwrite of `week` with `p`. */
  function Overwritten(s: Store, userid: nat, week: string, p: seq<WeeklyPayload>): (r: Store)
    ensures r.nextId == s.nextId + Statements(p)
  {
    AddWeeklyEntries(ClearWeek(s, userid, week), userid, week, p)
  }

  // An overwrite only stores ids the counter has issued.

  lemma {:induction false} AddWeeklyTagsValid(s: Store, userid: nat, updateid: nat, week: string, tags: seq<TagObject>)
    requires Valid(s) && updateid < s.nextId
    ensures Valid(AddWeeklyTags(s, userid, updateid, week, tags))
  {
    if tags != [] {
      AddWeeklyTagsValid(s, userid, updateid, week, tags[..|tags| - 1]);
    }
  }

  lemma {:induction false} AddWeeklyEntriesValid(s: Store, userid: nat, week: string, p: seq<WeeklyPayload>)
    requires Valid(s)
    ensures Valid(AddWeeklyEntries(s, userid, week, p))
  {
    if p != [] {
      var n := |p| - 1;
      AddWeeklyEntriesValid(s, userid, week, p[..n]);
      var r := AddWeeklyEntries(s, userid, week, p[..n]);
      AddWeeklyTagsValid(AddWeeklyUpdate(r, userid, week, p[n].body), userid, r.nextId, week, p[n].tags);
    }
  }

  /** Deleting rows keeps every remaining id below the counter. */
  lemma ClearWeekValid(s: Store, userid: nat, week: string)
    requires Valid(s)
    ensures Valid(ClearWeek(s, userid, week))
  {
  }

  /** A successful overwrite keeps every stored id below the counter. */
  lemma OverwrittenValid(s: Store, userid: nat, week: string, p: seq<WeeklyPayload>)
    requires Valid(s)
    ensures Valid(Overwritten(s, userid, week, p))
  {
    ClearWeekValid(s, userid, week);
    AddWeeklyEntriesValid(ClearWeek(s, userid, week), userid, week, p);
  }

  // The content of a week, read back in the shape of the payload.

  /** The tags of the rows of `tags` that belong to update `updateid`, in
      row order. */
  function TagsOf(tags: seq<WeeklyTag>, updateid: nat): seq<TagObject>
  {
    if tags == [] then []
    else
      var t := tags[|tags| - 1];
      TagsOf(tags[..|tags| - 1], updateid) + (if t.updateid == updateid then [TagObject(t.tag)] else [])
  }

  lemma {:induction false} TagsOfConcat(a: seq<WeeklyTag>, b: seq<WeeklyTag>, updateid: nat)
    ensures TagsOf(a + b, updateid) == TagsOf(a, updateid) + TagsOf(b, updateid)
  {
    if b == [] {
      assert a + b == a;
    } else {
      assert (a + b)[..|a + b| - 1] == a + b[..|b| - 1];
      TagsOfConcat(a, b[..|b| - 1], updateid);
    }
  }

  lemma {:induction false} TagsOfNone(tags: seq<WeeklyTag>, updateid: nat)
    requires forall t :: t in tags ==> t.updateid != updateid
    ensures TagsOf(tags, updateid) == []
  {
    if tags != [] {
      assert forall t :: t in tags[..|tags| - 1] ==> t in tags;
      TagsOfNone(tags[..|tags| - 1], updateid);
    }
  }

  /** The updates of (userid, week) in table order, each with its tags. */
  function WeekContent(s: Store, userid: nat, week: string): seq<WeeklyPayload>
  {
    ContentOf(s.weeklyUpdates, s.weeklyTags, userid, week)
  }

  function ContentOf(updates: seq<WeeklyUpdate>, tags: seq<WeeklyTag>, userid: nat, week: string): seq<WeeklyPayload>
  {
    if updates == [] then []
    else
      var u := updates[|updates| - 1];
      ContentOf(updates[..|updates| - 1], tags, userid, week) +
      (if InWeek(u, userid, week) then [WeeklyPayload(u.body, TagsOf(tags, u.id))] else [])
  }

  lemma {:induction false} ContentOfNone(updates: seq<WeeklyUpdate>, tags: seq<WeeklyTag>, userid: nat, week: string)
    requires forall u :: u in updates ==> !InWeek(u, userid, week)
    ensures ContentOf(updates, tags, userid, week) == []
  {
    if updates != [] {
      assert forall u :: u in updates[..|updates| - 1] ==> u in updates;
      ContentOfNone(updates[..|updates| - 1], tags, userid, week);
    }
  }

  /** Tag rows that belong to none of `updates` do not change their content. */
  lemma {:induction false} ContentOfMoreTags(updates: seq<WeeklyUpdate>, tags: seq<WeeklyTag>, more: seq<WeeklyTag>, userid: nat, week: string)
    requires forall u, t :: u in updates && t in more ==> t.updateid != u.id
    ensures ContentOf(updates, tags + more, userid, week) == ContentOf(updates, tags, userid, week)
  {
    if updates != [] {
      var pre := updates[..|updates| - 1];
      var u := updates[|updates| - 1];
      forall v, t | v in pre && t in more ensures t.updateid != v.id {
        assert v in updates;
      }
      ContentOfMoreTags(pre, tags, more, userid, week);
      assert u in updates;
      TagsOfNone(more, u.id);
      TagsOfConcat(tags, more, u.id);
      assert TagsOf(tags + more, u.id) == TagsOf(tags, u.id);
    }
  }

  lemma ContentOfSnoc(updates: seq<WeeklyUpdate>, u: WeeklyUpdate, tags: seq<WeeklyTag>, userid: nat, week: string)
    ensures ContentOf(updates + [u], tags, userid, week) == ContentOf(updates, tags, userid, week) +
      (if InWeek(u, userid, week) then [WeeklyPayload(u.body, TagsOf(tags, u.id))] else [])
  {
    assert (updates + [u])[..|updates|] == updates;
  }

  /** The rows `AddWeeklyTags` appends: the k-th holds the k-th tag under id
      `start + k`. */
  function TagRows(start: nat, userid: nat, updateid: nat, week: string, tags: seq<TagObject>): seq<WeeklyTag>
  {
    seq(|tags|, k requires 0 <= k < |tags| => WeeklyTag(start + k, userid, updateid, week, tags[k].tag))
  }

  lemma {:induction false} AddWeeklyTagsRows(s: Store, userid: nat, updateid: nat, week: string, tags: seq<TagObject>)
    ensures AddWeeklyTags(s, userid, updateid, week, tags).weeklyTags ==
      s.weeklyTags + TagRows(s.nextId, userid, updateid, week, tags)
  {
    if tags != [] {
      var n := |tags| - 1;
      AddWeeklyTagsRows(s, userid, updateid, week, tags[..n]);
      var all := TagRows(s.nextId, userid, updateid, week, tags);
      var pre := TagRows(s.nextId, userid, updateid, week, tags[..n]);
      assert all == pre + [all[n]];
    }
  }

  /** Rows that all belong to `updateid` give back their tags in order. */
  lemma {:induction false} TagsOfUniform(rows: seq<WeeklyTag>, updateid: nat, tags: seq<TagObject>)
    requires |rows| == |tags|
    requires forall j :: 0 <= j < |rows| ==> rows[j].updateid == updateid && TagObject(rows[j].tag) == tags[j]
    ensures TagsOf(rows, updateid) == tags
  {
    if rows != [] {
      TagsOfUniform(rows[..|rows| - 1], updateid, tags[..|tags| - 1]);
    }
  }

  /** The rows `AddWeeklyTags` appends all belong to `updateid` and hold the
      tags in order. */
  lemma AddWeeklyTagsAdded(s: Store, userid: nat, updateid: nat, week: string, tags: seq<TagObject>)
    ensures var r := AddWeeklyTags(s, userid, updateid, week, tags);
      var added := r.weeklyTags[|s.weeklyTags|..];
      r.weeklyTags == s.weeklyTags + added &&
      (forall t :: t in added ==> t.updateid == updateid) &&
      TagsOf(added, updateid) == tags
  {
    var rows := TagRows(s.nextId, userid, updateid, week, tags);
    AddWeeklyTagsRows(s, userid, updateid, week, tags);
    assert AddWeeklyTags(s, userid, updateid, week, tags).weeklyTags[|s.weeklyTags|..] == rows;
    TagsOfUniform(rows, updateid, tags);
  }

  lemma AddWeeklyEntryContent(s: Store, userid: nat, week: string, x: WeeklyPayload)
    requires Valid(s)
    ensures WeekContent(AddWeeklyEntry(s, userid, week, x), userid, week) == WeekContent(s, userid, week) + [x]
  {
    var s1 := AddWeeklyUpdate(s, userid, week, x.body);
    var r := AddWeeklyTags(s1, userid, s.nextId, week, x.tags);
    AddWeeklyTagsAdded(s1, userid, s.nextId, week, x.tags);
    var more := r.weeklyTags[|s.weeklyTags|..];
    var u := WeeklyUpdate(s.nextId, userid, week, x.body);
    assert r.weeklyUpdates == s.weeklyUpdates + [u];
    assert r.weeklyTags == s.weeklyTags + more;
    assert forall v :: v in s.weeklyUpdates ==> v.id < s.nextId;
    assert forall t :: t in s.weeklyTags ==> t.updateid < s.nextId;
    ContentOfMoreTags(s.weeklyUpdates, s.weeklyTags, more, userid, week);
    TagsOfConcat(s.weeklyTags, more, s.nextId);
    TagsOfNone(s.weeklyTags, s.nextId);
    ContentOfSnoc(s.weeklyUpdates, u, r.weeklyTags, userid, week);
    assert r == AddWeeklyEntry(s, userid, week, x);
    assert TagsOf(r.weeklyTags, s.nextId) == x.tags;
    assert ContentOf(s.weeklyUpdates, r.weeklyTags, userid, week) == ContentOf(s.weeklyUpdates, s.weeklyTags, userid, week);
    calc {
      WeekContent(r, userid, week);
      ContentOf(s.weeklyUpdates + [u], r.weeklyTags, userid, week);
      ContentOf(s.weeklyUpdates, r.weeklyTags, userid, week) + [WeeklyPayload(x.body, TagsOf(r.weeklyTags, s.nextId))];
      ContentOf(s.weeklyUpdates, s.weeklyTags, userid, week) + [WeeklyPayload(x.body, x.tags)];
    }
  }

  lemma {:induction false} AddWeeklyEntriesContent(s: Store, userid: nat, week: string, p: seq<WeeklyPayload>)
    requires Valid(s)
    ensures WeekContent(AddWeeklyEntries(s, userid, week, p), userid, week) == WeekContent(s, userid, week) + p
  {
    if p != [] {
      var n := |p| - 1;
      AddWeeklyEntriesContent(s, userid, week, p[..n]);
      var r' := AddWeeklyEntries(s, userid, week, p[..n]);
      AddWeeklyEntriesValid(s, userid, week, p[..n]);
      AddWeeklyEntryContent(r', userid, week, p[n]);
      AppendLast(WeekContent(s, userid, week), p);
    }
  }

  /** After a successful overwrite the week holds exactly the payload: one
      update per element, in payload order, with its body, and exactly the
      element's tags, in order. */
  lemma OverwrittenContent(s: Store, userid: nat, week: string, p: seq<WeeklyPayload>)
    requires Valid(s)
    ensures WeekContent(Overwritten(s, userid, week, p), userid, week) == p
  {
    var c := ClearWeek(s, userid, week);
    ClearWeekValid(s, userid, week);
    assert forall u :: u in c.weeklyUpdates ==> !InWeek(u, userid, week);
    ContentOfNone(c.weeklyUpdates, c.weeklyTags, userid, week);
    AddWeeklyEntriesContent(c, userid, week, p);
  }

  /** Overwriting twice with the same payload leaves the week's content as
      overwriting once does. */
  lemma OverwriteIdempotent(s: Store, userid: nat, week: string, p: seq<WeeklyPayload>)
    requires Valid(s)
    ensures var once := Overwritten(s, userid, week, p);
      WeekContent(Overwritten(once, userid, week, p), userid, week) == WeekContent(once, userid, week)
  {
    var once := Overwritten(s, userid, week, p);
    OverwrittenValid(s, userid, week, p);
    OverwrittenContent(s, userid, week, p);
    OverwrittenContent(once, userid, week, p);
  }

  // What an overwrite leaves alone and what it adds, row by row.

  /** From `s` to `r`: the daily tables and every weekly row outside
      (userid, week) are unchanged, in order; `nu` update rows and `nt` tag
      rows of (userid, week) were added, all with ids issued after `s`. */
  predicate Grows(s: Store, r: Store, userid: nat, week: string, nu: nat, nt: nat)
  {
    r.dailyEntries == s.dailyEntries && r.dailyUpdates == s.dailyUpdates && r.dailyTags == s.dailyTags &&
    Filter(r.weeklyUpdates, UpdateOutOfScope(userid, week)) == Filter(s.weeklyUpdates, UpdateOutOfScope(userid, week)) &&
    Filter(r.weeklyTags, TagOutOfScope(userid, week)) == Filter(s.weeklyTags, TagOutOfScope(userid, week)) &&
    |Filter(r.weeklyUpdates, UpdateInScope(userid, week))| == |Filter(s.weeklyUpdates, UpdateInScope(userid, week))| + nu &&
    |Filter(r.weeklyTags, TagInScope(userid, week))| == |Filter(s.weeklyTags, TagInScope(userid, week))| + nt &&
    (forall u :: u in r.weeklyUpdates ==> u in s.weeklyUpdates || (InWeek(u, userid, week) && s.nextId <= u.id)) &&
    (forall t :: t in r.weeklyTags ==> t in s.weeklyTags || (TagInWeek(t, userid, week) && s.nextId <= t.id))
  }

  lemma GrowsTrans(s: Store, m: Store, r: Store, userid: nat, week: string, nu: nat, nt: nat, mu: nat, mt: nat)
    requires Grows(s, m, userid, week, nu, nt) && Grows(m, r, userid, week, mu, mt) && s.nextId <= m.nextId
    ensures Grows(s, r, userid, week, nu + mu, nt + mt)
  {
  }

  lemma AddWeeklyUpdateGrows(s: Store, userid: nat, week: string, body: string)
    ensures Grows(s, AddWeeklyUpdate(s, userid, week, body), userid, week, 1, 0)
  {
    var u := WeeklyUpdate(s.nextId, userid, week, body);
    FilterSnoc(s.weeklyUpdates, u, UpdateOutOfScope(userid, week));
    FilterSnoc(s.weeklyUpdates, u, UpdateInScope(userid, week));
  }

  lemma AddWeeklyTagGrows(s: Store, userid: nat, updateid: nat, week: string, tag: string)
    ensures Grows(s, AddWeeklyTag(s, userid, updateid, week, tag), userid, week, 0, 1)
  {
    var t := WeeklyTag(s.nextId, userid, updateid, week, tag);
    FilterSnoc(s.weeklyTags, t, TagOutOfScope(userid, week));
    FilterSnoc(s.weeklyTags, t, TagInScope(userid, week));
  }

  lemma {:induction false} AddWeeklyTagsGrows(s: Store, userid: nat, updateid: nat, week: string, tags: seq<TagObject>)
    ensures Grows(s, AddWeeklyTags(s, userid, updateid, week, tags), userid, week, 0, |tags|)
  {
    if tags != [] {
      var n := |tags| - 1;
      var m := AddWeeklyTags(s, userid, updateid, week, tags[..n]);
      AddWeeklyTagsGrows(s, userid, updateid, week, tags[..n]);
      AddWeeklyTagGrows(m, userid, updateid, week, tags[n].tag);
      GrowsTrans(s, m, AddWeeklyTag(m, userid, updateid, week, tags[n].tag), userid, week, 0, n, 0, 1);
    }
  }

  lemma AddWeeklyEntryGrows(s: Store, userid: nat, week: string, x: WeeklyPayload)
    ensures Grows(s, AddWeeklyEntry(s, userid, week, x), userid, week, 1, |x.tags|)
  {
    var m := AddWeeklyUpdate(s, userid, week, x.body);
    AddWeeklyUpdateGrows(s, userid, week, x.body);
    AddWeeklyTagsGrows(m, userid, s.nextId, week, x.tags);
    GrowsTrans(s, m, AddWeeklyEntry(s, userid, week, x), userid, week, 1, 0, 0, |x.tags|);
  }

  lemma {:induction false} AddWeeklyEntriesGrows(s: Store, userid: nat, week: string, p: seq<WeeklyPayload>)
    ensures Grows(s, AddWeeklyEntries(s, userid, week, p), userid, week, |p|, TagTotal(p))
  {
    if p != [] {
      var n := |p| - 1;
      var m := AddWeeklyEntries(s, userid, week, p[..n]);
      AddWeeklyEntriesGrows(s, userid, week, p[..n]);
      AddWeeklyEntryGrows(m, userid, week, p[n]);
      GrowsTrans(s, m, AddWeeklyEntry(m, userid, week, p[n]), userid, week, n, TagTotal(p[..n]), 1, |p[n].tags|);
    }
  }

  /** An overwrite touches no daily row and no weekly row of another user
      or another week: those stay as they were, in order. */
  lemma OverwriteKeepsOthers(s: Store, userid: nat, week: string, p: seq<WeeklyPayload>)
    ensures var r := Overwritten(s, userid, week, p);
      r.dailyEntries == s.dailyEntries && r.dailyUpdates == s.dailyUpdates && r.dailyTags == s.dailyTags &&
      Filter(r.weeklyUpdates, UpdateOutOfScope(userid, week)) == Filter(s.weeklyUpdates, UpdateOutOfScope(userid, week)) &&
      Filter(r.weeklyTags, TagOutOfScope(userid, week)) == Filter(s.weeklyTags, TagOutOfScope(userid, week))
  {
    AddWeeklyEntriesGrows(ClearWeek(s, userid, week), userid, week, p);
  }

  /** After an overwrite the week holds one update row per payload element
      and one tag row per payload tag, and each of them is new: no update or
      tag row the week had before survives. */
  lemma OverwriteReplacesWeek(s: Store, userid: nat, week: string, p: seq<WeeklyPayload>)
    requires Valid(s)
    ensures var r := Overwritten(s, userid, week, p);
      |Filter(r.weeklyUpdates, UpdateInScope(userid, week))| == |p| &&
      |Filter(r.weeklyTags, TagInScope(userid, week))| == TagTotal(p) &&
      (forall u :: u in r.weeklyUpdates && InWeek(u, userid, week) ==> s.nextId <= u.id) &&
      (forall t :: t in r.weeklyTags && TagInWeek(t, userid, week) ==> s.nextId <= t.id) &&
      (forall u :: u in s.weeklyUpdates && InWeek(u, userid, week) ==> u !in r.weeklyUpdates) &&
      (forall t :: t in s.weeklyTags && TagInWeek(t, userid, week) ==> t !in r.weeklyTags)
  {
    var c := ClearWeek(s, userid, week);
    AddWeeklyEntriesGrows(c, userid, week, p);
    assert forall u :: u in c.weeklyUpdates ==> !InWeek(u, userid, week);
    assert forall t :: t in c.weeklyTags ==> !TagInWeek(t, userid, week);
  }

  /** An empty payload leaves the week without any update or tag row. */
  lemma OverwriteEmpty(s: Store, userid: nat, week: string)
    requires Valid(s)
    ensures var r := Overwritten(s, userid, week, []);
      (forall u :: u in r.weeklyUpdates ==> !InWeek(u, userid, week)) &&
      (forall t :: t in r.weeklyTags ==> !TagInWeek(t, userid, week))
  {
    OverwriteReplacesWeek(s, userid, week, []);
    var r := Overwritten(s, userid, week, []);
    assert forall u :: u in r.weeklyUpdates ==> !InWeek(u, userid, week);
    assert forall t :: t in r.weeklyTags ==> !TagInWeek(t, userid, week);
  }

  // The handlers.

  /** The inner loop of the overwrite: the tag rows of one update, stopping
      at the first statement the server rejects. */
  method InsertWeeklyTags(db: Database, userid: nat, updateid: nat, week: string, tags: seq<TagObject>)
    returns (ok: bool)
    modifies db
    ensures db.nextId >= old(db.nextId)
    ensures ok <==> db.Accepts(old(db.executed), |tags|)
    ensures ok ==> db.executed == old(db.executed) + |tags|
    ensures ok ==> db.State() == AddWeeklyTags(old(db.State()), userid, updateid, week, tags)
  {
    ghost var s0 := db.State();
    ghost var e0 := db.executed;
    for j := 0 to |tags|
      invariant db.State() == AddWeeklyTags(s0, userid, updateid, week, tags[..j])
      invariant db.nextId >= s0.nextId
      invariant db.executed == e0 + j
      invariant db.Accepts(e0, j)
    {
      var added := db.InsertWeeklyTag(userid, updateid, week, tags[j].tag);
      db.AcceptsOne(e0 + j);
      if !added {
        db.AcceptsSplit(e0 + j, 1, |tags| - j - 1);
        db.AcceptsSplit(e0, j, |tags| - j);
        return false;
      }
      db.AcceptsSplit(e0, j, 1);
      assert tags[..j + 1][..j] == tags[..j];
    }
    assert tags[..|tags|] == tags;
    return true;
  }

  /** One pass of the outer loop: the element's update row, then its tags. */
  method InsertWeeklyEntry(db: Database, userid: nat, week: string, x: WeeklyPayload)
    returns (ok: bool)
    modifies db
    ensures db.nextId >= old(db.nextId)
    ensures ok <==> db.Accepts(old(db.executed), 1 + |x.tags|)
    ensures ok ==> db.executed == old(db.executed) + 1 + |x.tags|
    ensures ok ==> db.State() == AddWeeklyEntry(old(db.State()), userid, week, x)
  {
    ghost var e0 := db.executed;
    var updateid := db.InsertWeeklyUpdate(userid, week, x.body);
    db.AcceptsSplit(e0, 1, |x.tags|);
    if updateid.None? {
      return false;
    }
    assert db.Accepts(e0, 1);
    ok := InsertWeeklyTags(db, userid, updateid.value, week, x.tags);
  }

  /** The outer loop of the overwrite: each payload element in order. */
  method InsertWeeklyEntries(db: Database, userid: nat, week: string, p: seq<WeeklyPayload>)
    returns (ok: bool)
    modifies db
    ensures db.nextId >= old(db.nextId)
    ensures ok <==> db.Accepts(old(db.executed), Statements(p))
    ensures ok ==> db.executed == old(db.executed) + Statements(p)
    ensures ok ==> db.State() == AddWeeklyEntries(old(db.State()), userid, week, p)
  {
    ghost var s0 := db.State();
    ghost var e0 := db.executed;
    for i := 0 to |p|
      invariant db.State() == AddWeeklyEntries(s0, userid, week, p[..i])
      invariant db.nextId >= s0.nextId
      invariant db.executed == e0 + Statements(p[..i])
      invariant db.Accepts(e0, Statements(p[..i]))
    {
      StatementsBefore(p, i);
      var done := Statements(p[..i]);
      var step := 1 + |p[i].tags|;
      var entryOk := InsertWeeklyEntry(db, userid, week, p[i]);
      db.AcceptsSplit(e0, done, step);
      if !entryOk {
        db.AcceptsSplit(e0, done + step, Statements(p) - done - step);
        return false;
      }
      assert p[..i + 1][..i] == p[..i];
    }
    assert p[..|p|] == p;
    return true;
  }

  /** The two DELETEs of the overwrite: the week's updates, then its tags. */
  method DeleteWeek(db: Database, userid: nat, week: string) returns (ok: bool)
    modifies db
    ensures db.nextId == old(db.nextId)
    ensures ok <==> db.Accepts(old(db.executed), 2)
    ensures ok ==> db.executed == old(db.executed) + 2
    ensures ok ==> db.State() == ClearWeek(old(db.State()), userid, week)
  {
    ghost var s0 := db.State();
    ghost var e0 := db.executed;
    db.AcceptsSplit(e0, 1, 1);
    ok := db.DeleteWeeklyUpdates(userid, week);
    if ok {
      ok := db.DeleteWeeklyTags(userid, week);
      assert ok ==> db.State() == RemoveWeeklyTags(RemoveWeeklyUpdates(s0, userid, week), userid, week);
    }
  }

  /** POST /updates/weekly/{weekStr}: BEGIN; delete the week's updates, then
      its tags; insert the payload; COMMIT and `{success: true}`, or on any
      failure ROLLBACK and an Internal error. */
  method Overwrite(db: Database, userid: nat, week: string, p: seq<WeeklyPayload>) returns (r: Response<()>)
    requires Valid(db.State())
    modifies db
    ensures Valid(db.State())
    ensures r.Ok? <==> db.Accepts(old(db.executed), 2 + Statements(p))
    ensures r.Ok? ==> db.State() == Overwritten(old(db.State()), userid, week, p)
    ensures !r.Ok? ==> r == Internal && SameRows(db.State(), old(db.State()))
  {
    ghost var s0 := db.State();
    ghost var e0 := db.executed;
    var snapshot := db.Begin();
    db.AcceptsSplit(e0, 2, Statements(p));
    var ok := DeleteWeek(db, userid, week);
    if !ok {
      db.Rollback(snapshot);
      return Internal;
    }
    ok := InsertWeeklyEntries(db, userid, week, p);
    if !ok {
      db.Rollback(snapshot);
      return Internal;
    }
    OverwrittenValid(s0, userid, week, p);
    return Ok(());
  }

  // The range read.

  /** One row of the read: a weekly update LEFT JOIN its tags; the tag
      columns are NULL (None) for an update without tags. */
  datatype WeeklyRow = WeeklyRow(dateString: string, updateid: nat, body: string, tagid: Option<nat>, tag: Option<string>)

  /** ORDER BY wu.date_string, wu.id, wt.tag */
  function WeeklyKey(r: WeeklyRow): SortKey
  {
    SortKey(r.dateString, Some(r.updateid), r.tag)
  }

  /** WHERE wu.userid = $1 and wu.date_string between $2 and $3 */
  predicate UpdateInRange(u: WeeklyUpdate, userid: nat, lo: string, hi: string)
  {
    u.userid == userid && Between(u.dateString, lo, hi)
  }

  function NullTagRow(u: WeeklyUpdate): WeeklyRow
  {
    WeeklyRow(u.dateString, u.id, u.body, None, None)
  }

  function TagRow(u: WeeklyUpdate, t: WeeklyTag): WeeklyRow
  {
    WeeklyRow(u.dateString, u.id, u.body, Some(t.id), Some(t.tag))
  }

  function JoinTags(u: WeeklyUpdate, tags: seq<WeeklyTag>): seq<WeeklyRow>
  {
    var ts := Filter(tags, (t: WeeklyTag) => t.updateid == u.id);
    if ts == [] then [NullTagRow(u)]
    else seq(|ts|, i requires 0 <= i < |ts| => TagRow(u, ts[i]))
  }

  function JoinUpdates(updates: seq<WeeklyUpdate>, tags: seq<WeeklyTag>): seq<WeeklyRow>
  {
    if updates == [] then []
    else JoinUpdates(updates[..|updates| - 1], tags) + JoinTags(updates[|updates| - 1], tags)
  }

  /** The rows of the query before ORDER BY. */
  function WeeklyJoin(s: Store, userid: nat, lo: string, hi: string): seq<WeeklyRow>
  {
    JoinUpdates(Filter(s.weeklyUpdates, u => UpdateInRange(u, userid, lo, hi)), s.weeklyTags)
  }

  /** GET /updates/weekly: BadRequest without both dates, otherwise the
      joined rows as the query orders them. */
  function ReadWeekly(s: Store, userid: nat, q: Query): (r: Response<seq<WeeklyRow>>)
    ensures r.BadRequest? <==> !HasRange(q)
    ensures r.Ok? <==> HasRange(q)
    ensures r.Ok? ==> Sorted(r.value, WeeklyKey)
    ensures r.Ok? ==> multiset(r.value) == multiset(WeeklyJoin(s, userid, q.startDate.value, q.endDate.value))
  {
    if !HasRange(q) then BadRequest
    else Ok(Sort(WeeklyJoin(s, userid, q.startDate.value, q.endDate.value), WeeklyKey))
  }

  /** `r` is a row update `u` contributes to the LEFT JOIN: one per tag of
      `u`, or a single row with NULL tag columns when it has none. */
  predicate UpdateJoined(tags: seq<WeeklyTag>, u: WeeklyUpdate, r: WeeklyRow)
  {
    (r == NullTagRow(u) && forall t :: t in tags ==> t.updateid != u.id)
    || exists t :: t in tags && t.updateid == u.id && r == TagRow(u, t)
  }

  lemma JoinTagsRows(u: WeeklyUpdate, tags: seq<WeeklyTag>, r: WeeklyRow)
    ensures r in JoinTags(u, tags) <==> UpdateJoined(tags, u, r)
  {
    var ts := Filter(tags, (t: WeeklyTag) => t.updateid == u.id);
    if ts == [] {
      assert forall t :: t in tags ==> t.updateid != u.id;
    } else {
      if r in JoinTags(u, tags) {
        var i :| 0 <= i < |ts| && JoinTags(u, tags)[i] == r;
        assert ts[i] in ts;
      }
      if exists t :: t in tags && t.updateid == u.id && r == TagRow(u, t) {
        var t :| t in tags && t.updateid == u.id && r == TagRow(u, t);
        assert t in ts;
        var i :| 0 <= i < |ts| && ts[i] == t;
        assert JoinTags(u, tags)[i] == r;
      }
      assert ts[0] in tags;
    }
  }

  lemma {:induction false} JoinUpdatesRows(updates: seq<WeeklyUpdate>, tags: seq<WeeklyTag>, r: WeeklyRow)
    ensures r in JoinUpdates(updates, tags) <==> exists u :: u in updates && r in JoinTags(u, tags)
  {
    if updates != [] {
      var pre := updates[..|updates| - 1];
      var last := updates[|updates| - 1];
      JoinUpdatesRows(pre, tags, r);
      if exists u :: u in updates && r in JoinTags(u, tags) {
        var u :| u in updates && r in JoinTags(u, tags);
        InSnoc(updates, u);
      }
      if exists u :: u in pre && r in JoinTags(u, tags) {
        var u :| u in pre && r in JoinTags(u, tags);
        InSnoc(updates, u);
      }
      InSnoc(updates, last);
    }
  }

  /** The read returns exactly the LEFT JOIN rows of the caller's weekly
      updates whose date_string lies in [startDate, endDate]: one row per
      tag, a NULL tag row for an update without tags, and nothing else. */
  lemma ReadWeeklyRows(s: Store, userid: nat, q: Query, r: WeeklyRow)
    requires HasRange(q)
    ensures r in ReadWeekly(s, userid, q).value <==>
      exists u :: u in s.weeklyUpdates && UpdateInRange(u, userid, q.startDate.value, q.endDate.value) && UpdateJoined(s.weeklyTags, u, r)
  {
    var lo, hi := q.startDate.value, q.endDate.value;
    var us := Filter(s.weeklyUpdates, u => UpdateInRange(u, userid, lo, hi));
    var rows := ReadWeekly(s, userid, q).value;
    assert r in rows <==> r in multiset(rows);
    assert r in WeeklyJoin(s, userid, lo, hi) <==> r in multiset(WeeklyJoin(s, userid, lo, hi));
    JoinUpdatesRows(us, s.weeklyTags, r);
    forall u | u in us ensures r in JoinTags(u, s.weeklyTags) <==> UpdateJoined(s.weeklyTags, u, r) {
      JoinTagsRows(u, s.weeklyTags, r);
    }
    if exists u :: u in s.weeklyUpdates && UpdateInRange(u, userid, lo, hi) && UpdateJoined(s.weeklyTags, u, r) {
      var u :| u in s.weeklyUpdates && UpdateInRange(u, userid, lo, hi) && UpdateJoined(s.weeklyTags, u, r);
      assert u in us;
    }
  }
}
