/** The journal tables as an in-memory store.

    Each table is a sequence of rows in insertion order; one counter hands
    out row ids, so every `INSERT ... RETURNING id` receives a fresh id that
    is larger than every id issued before it. A `Database` object is the
    shared connection the route handlers write through: each data statement
    is a method that either applies its effect or is rejected by the server
    and leaves the tables as they were. */
module Store {
  import opened Seqs

  datatype DailyEntry = DailyEntry(id: nat, userid: nat, dateString: string, moodScore: int, moodReason: string)
  datatype DailyUpdate = DailyUpdate(id: nat, userid: nat, entryid: nat, dateString: string, body: string)
  /** `entryid` is NULL when the writer does not fill the column in. */
  datatype DailyTag = DailyTag(id: nat, userid: nat, entryid: Option<nat>, updateid: nat, dateString: string, tag: string)
  datatype WeeklyUpdate = WeeklyUpdate(id: nat, userid: nat, dateString: string, body: string)
  datatype WeeklyTag = WeeklyTag(id: nat, userid: nat, updateid: nat, dateString: string, tag: string)

  datatype Store = Store(
    dailyEntries: seq<DailyEntry>,
    dailyUpdates: seq<DailyUpdate>,
    dailyTags: seq<DailyTag>,
    weeklyUpdates: seq<WeeklyUpdate>,
    weeklyTags: seq<WeeklyTag>,
    nextId: nat)

  /** Every id stored anywhere, as a row id or as a reference to a parent
      row, was issued by the counter. */
  predicate Valid(s: Store)
  {
    (forall e :: e in s.dailyEntries ==> e.id < s.nextId) &&
    (forall u :: u in s.dailyUpdates ==> u.id < s.nextId && u.entryid < s.nextId) &&
    (forall t :: t in s.dailyTags ==>
      t.id < s.nextId && t.updateid < s.nextId && (t.entryid.Some? ==> t.entryid.value < s.nextId)) &&
    (forall u :: u in s.weeklyUpdates ==> u.id < s.nextId) &&
    (forall t :: t in s.weeklyTags ==> t.id < s.nextId && t.updateid < s.nextId)
  }

  /** The two stores hold the same rows (the id counter may differ). */
  predicate SameRows(a: Store, b: Store)
  {
    a.dailyEntries == b.dailyEntries && a.dailyUpdates == b.dailyUpdates &&
    a.dailyTags == b.dailyTags && a.weeklyUpdates == b.weeklyUpdates &&
    a.weeklyTags == b.weeklyTags
  }

  // The effect of each data statement on the store.

  /** INSERT INTO daily_entries ... RETURNING id; the new row's id is `s.nextId`. */
  function AddDailyEntry(s: Store, userid: nat, dateString: string, moodScore: int, moodReason: string): (r: Store)
    ensures r.nextId == s.nextId + 1
    ensures Valid(s) ==> Valid(r)
  {
    s.(dailyEntries := s.dailyEntries + [DailyEntry(s.nextId, userid, dateString, moodScore, moodReason)],
       nextId := s.nextId + 1)
  }

  /** INSERT INTO daily_updates ... RETURNING id; the new row's id is `s.nextId`. */
  function AddDailyUpdate(s: Store, userid: nat, entryid: nat, dateString: string, body: string): (r: Store)
    ensures r.nextId == s.nextId + 1
    ensures Valid(s) && entryid < s.nextId ==> Valid(r)
  {
    s.(dailyUpdates := s.dailyUpdates + [DailyUpdate(s.nextId, userid, entryid, dateString, body)],
       nextId := s.nextId + 1)
  }

  /** INSERT INTO daily_tags. */
  function AddDailyTag(s: Store, userid: nat, entryid: Option<nat>, updateid: nat, dateString: string, tag: string): (r: Store)
    ensures r.nextId == s.nextId + 1
    ensures Valid(s) && updateid < s.nextId && (entryid.Some? ==> entryid.value < s.nextId) ==> Valid(r)
  {
    s.(dailyTags := s.dailyTags + [DailyTag(s.nextId, userid, entryid, updateid, dateString, tag)],
       nextId := s.nextId + 1)
  }

  /** INSERT INTO weekly_updates ... RETURNING id; the new row's id is `s.nextId`. */
  function AddWeeklyUpdate(s: Store, userid: nat, dateString: string, body: string): (r: Store)
    ensures r.nextId == s.nextId + 1
    ensures Valid(s) ==> Valid(r)
  {
    s.(weeklyUpdates := s.weeklyUpdates + [WeeklyUpdate(s.nextId, userid, dateString, body)],
       nextId := s.nextId + 1)
  }

  /** INSERT INTO weekly_tags. */
  function AddWeeklyTag(s: Store, userid: nat, updateid: nat, dateString: string, tag: string): (r: Store)
    ensures r.nextId == s.nextId + 1
    ensures Valid(s) && updateid < s.nextId ==> Valid(r)
  {
    s.(weeklyTags := s.weeklyTags + [WeeklyTag(s.nextId, userid, updateid, dateString, tag)],
       nextId := s.nextId + 1)
  }

  predicate InWeek(u: WeeklyUpdate, userid: nat, week: string)
  {
    u.userid == userid && u.dateString == week
  }

  predicate TagInWeek(t: WeeklyTag, userid: nat, week: string)
  {
    t.userid == userid && t.dateString == week
  }

  /** The WHERE clauses of the two DELETEs and their negations, as filters. */
  function UpdateInScope(userid: nat, week: string): WeeklyUpdate -> bool
  {
    u => InWeek(u, userid, week)
  }

  function UpdateOutOfScope(userid: nat, week: string): WeeklyUpdate -> bool
  {
    u => !InWeek(u, userid, week)
  }

  function TagInScope(userid: nat, week: string): WeeklyTag -> bool
  {
    t => TagInWeek(t, userid, week)
  }

  function TagOutOfScope(userid: nat, week: string): WeeklyTag -> bool
  {
    t => !TagInWeek(t, userid, week)
  }

  /** DELETE FROM weekly_updates WHERE userid = $1 AND date_string = $2. */
  function RemoveWeeklyUpdates(s: Store, userid: nat, week: string): (r: Store)
    ensures forall u :: u in r.weeklyUpdates <==> u in s.weeklyUpdates && !InWeek(u, userid, week)
    ensures Valid(s) ==> Valid(r)
  {
    s.(weeklyUpdates := Filter(s.weeklyUpdates, UpdateOutOfScope(userid, week)))
  }

  /** DELETE FROM weekly_tags WHERE userid = $1 AND date_string = $2. */
  function RemoveWeeklyTags(s: Store, userid: nat, week: string): (r: Store)
    ensures forall t :: t in r.weeklyTags <==> t in s.weeklyTags && !TagInWeek(t, userid, week)
    ensures Valid(s) ==> Valid(r)
  {
    s.(weeklyTags := Filter(s.weeklyTags, TagOutOfScope(userid, week)))
  }

  /** The outcome of a route handler. */
  datatype Response<T> = Ok(value: T) | BadRequest | Internal

  /** The `startDate` and `endDate` query parameters, absent when not given. */
  datatype Query = Query(startDate: Option<string>, endDate: Option<string>)

  /** A parameter the handlers accept: present and not the empty string
      (an empty string is as falsy as a missing one). */
  predicate Given(p: Option<string>)
  {
    p.Some? && p.value != ""
  }

  predicate HasRange(q: Query)
  {
    Given(q.startDate) && Given(q.endDate)
  }

  /** The shared database connection. Data statements are numbered in the
      order the connection runs them; `rejected` holds the numbers of those
      the server refuses (a constraint violation, a type error, a lost
      connection, ...). */
  class Database {
    var dailyEntries: seq<DailyEntry>
    var dailyUpdates: seq<DailyUpdate>
    var dailyTags: seq<DailyTag>
    var weeklyUpdates: seq<WeeklyUpdate>
    var weeklyTags: seq<WeeklyTag>
    var nextId: nat
    var executed: nat
    const rejected: set<nat>

    function State(): Store
      reads this
    {
      Store(dailyEntries, dailyUpdates, dailyTags, weeklyUpdates, weeklyTags, nextId)
    }

    /** The `n` data statements numbered from `from` on are all accepted. */
    predicate Accepts(from: nat, n: nat)
    {
      forall k :: from <= k < from + n ==> k !in rejected
    }

    /** A run is accepted exactly when both of its parts are. */
    lemma AcceptsSplit(from: nat, n: nat, m: nat)
      ensures Accepts(from, n + m) <==> Accepts(from, n) && Accepts(from + n, m)
    {
      if Accepts(from, n) && Accepts(from + n, m) {
        forall k | from <= k < from + n + m ensures k !in rejected {
          if k >= from + n {
            assert from + n <= k < from + n + m;
          }
        }
      }
    }

    /** A single statement is accepted exactly when its number is not rejected. */
    lemma AcceptsOne(k: nat)
      ensures Accepts(k, 1) <==> k !in rejected
    {
      if k !in rejected {
        forall j | k <= j < k + 1 ensures j !in rejected {
          assert j == k;
        }
      }
    }

    constructor (rejected: set<nat>)
      ensures State() == Store([], [], [], [], [], 0)
      ensures executed == 0 && this.rejected == rejected
    {
      dailyEntries, dailyUpdates, dailyTags := [], [], [];
      weeklyUpdates, weeklyTags := [], [];
      nextId, executed := 0, 0;
      this.rejected := rejected;
    }

    /** BEGIN: the state a ROLLBACK returns to. */
    method Begin() returns (snapshot: Store)
      ensures snapshot == State()
    {
      snapshot := State();
    }

    /** ROLLBACK: the rows return to the snapshot. The id counter does not
        go back, as a PostgreSQL sequence is not transactional. */
    method Rollback(snapshot: Store)
      requires snapshot.nextId <= nextId
      modifies this
      ensures SameRows(State(), snapshot) && nextId == old(nextId) && executed == old(executed)
      ensures Valid(snapshot) ==> Valid(State())
    {
      dailyEntries, dailyUpdates, dailyTags := snapshot.dailyEntries, snapshot.dailyUpdates, snapshot.dailyTags;
      weeklyUpdates, weeklyTags := snapshot.weeklyUpdates, snapshot.weeklyTags;
    }

    method InsertDailyEntry(userid: nat, dateString: string, moodScore: int, moodReason: string) returns (id: Option<nat>)
      modifies this
      ensures executed == old(executed) + 1
      ensures id.Some? <==> old(executed) !in rejected
      ensures id.Some? ==> id.value == old(nextId)
      ensures id.Some? ==> State() == AddDailyEntry(old(State()), userid, dateString, moodScore, moodReason)
      ensures id.None? ==> State() == old(State())
    {
      if executed in rejected {
        id := None;
      } else {
        id := Some(nextId);
        dailyEntries := dailyEntries + [DailyEntry(nextId, userid, dateString, moodScore, moodReason)];
        nextId := nextId + 1;
      }
      executed := executed + 1;
    }

    method InsertDailyUpdate(userid: nat, entryid: nat, dateString: string, body: string) returns (id: Option<nat>)
      modifies this
      ensures executed == old(executed) + 1
      ensures id.Some? <==> old(executed) !in rejected
      ensures id.Some? ==> id.value == old(nextId)
      ensures id.Some? ==> State() == AddDailyUpdate(old(State()), userid, entryid, dateString, body)
      ensures id.None? ==> State() == old(State())
    {
      if executed in rejected {
        id := None;
      } else {
        id := Some(nextId);
        dailyUpdates := dailyUpdates + [DailyUpdate(nextId, userid, entryid, dateString, body)];
        nextId := nextId + 1;
      }
      executed := executed + 1;
    }

    method InsertDailyTag(userid: nat, entryid: Option<nat>, updateid: nat, dateString: string, tag: string) returns (ok: bool)
      modifies this
      ensures executed == old(executed) + 1
      ensures ok <==> old(executed) !in rejected
      ensures ok ==> State() == AddDailyTag(old(State()), userid, entryid, updateid, dateString, tag)
      ensures !ok ==> State() == old(State())
    {
      ok := executed !in rejected;
      if ok {
        dailyTags := dailyTags + [DailyTag(nextId, userid, entryid, updateid, dateString, tag)];
        nextId := nextId + 1;
      }
      executed := executed + 1;
    }

    method InsertWeeklyUpdate(userid: nat, dateString: string, body: string) returns (id: Option<nat>)
      modifies this
      ensures executed == old(executed) + 1
      ensures id.Some? <==> old(executed) !in rejected
      ensures id.Some? ==> id.value == old(nextId)
      ensures id.Some? ==> State() == AddWeeklyUpdate(old(State()), userid, dateString, body)
      ensures id.None? ==> State() == old(State())
    {
      if executed in rejected {
        id := None;
      } else {
        id := Some(nextId);
        weeklyUpdates := weeklyUpdates + [WeeklyUpdate(nextId, userid, dateString, body)];
        nextId := nextId + 1;
      }
      executed := executed + 1;
    }

    method InsertWeeklyTag(userid: nat, updateid: nat, dateString: string, tag: string) returns (ok: bool)
      modifies this
      ensures executed == old(executed) + 1
      ensures ok <==> old(executed) !in rejected
      ensures ok ==> State() == AddWeeklyTag(old(State()), userid, updateid, dateString, tag)
      ensures !ok ==> State() == old(State())
    {
      ok := executed !in rejected;
      if ok {
        weeklyTags := weeklyTags + [WeeklyTag(nextId, userid, updateid, dateString, tag)];
        nextId := nextId + 1;
      }
      executed := executed + 1;
    }

    method DeleteWeeklyUpdates(userid: nat, week: string) returns (ok: bool)
      modifies this
      ensures executed == old(executed) + 1
      ensures ok <==> old(executed) !in rejected
      ensures ok ==> State() == RemoveWeeklyUpdates(old(State()), userid, week)
      ensures !ok ==> State() == old(State())
    {
      ok := executed !in rejected;
      if ok {
        weeklyUpdates := Filter(weeklyUpdates, UpdateOutOfScope(userid, week));
      }
      executed := executed + 1;
    }

    method DeleteWeeklyTags(userid: nat, week: string) returns (ok: bool)
      modifies this
      ensures executed == old(executed) + 1
      ensures ok <==> old(executed) !in rejected
      ensures ok ==> State() == RemoveWeeklyTags(old(State()), userid, week)
      ensures !ok ==> State() == old(State())
    {
      ok := executed !in rejected;
      if ok {
        weeklyTags := Filter(weeklyTags, TagOutOfScope(userid, week));
      }
      executed := executed + 1;
    }
  }
}
