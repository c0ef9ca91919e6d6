/** The routes of lib/routes/tags.js: `GET /tags`, every tag text the caller
    has used, and `GET /tags/weekly`, the caller's weekly tags in a date
    range, bucketed by date. */
module Tags {
  import opened Seqs
  import opened Order
  import opened Store

  // GET /tags

  /** `x` is the text of some daily or weekly tag row of `userid`. */
  predicate UserHasTag(s: Store, userid: nat, x: string)
  {
    (exists t :: t in s.dailyTags && t.userid == userid && t.tag == x) ||
    (exists t :: t in s.weeklyTags && t.userid == userid && t.tag == x)
  }

  /** SELECT tag FROM daily_tags WHERE userid = $1 */
  function DailyTexts(tags: seq<DailyTag>, userid: nat): (r: seq<string>)
    ensures forall x :: x in r <==> exists t :: t in tags && t.userid == userid && t.tag == x
  {
    if tags == [] then []
    else
      var t := tags[|tags| - 1];
      assert tags == tags[..|tags| - 1] + [t];
      DailyTexts(tags[..|tags| - 1], userid) + (if t.userid == userid then [t.tag] else [])
  }

  /** SELECT tag FROM weekly_tags WHERE userid = $1 */
  function WeeklyTexts(tags: seq<WeeklyTag>, userid: nat): (r: seq<string>)
    ensures forall x :: x in r <==> exists t :: t in tags && t.userid == userid && t.tag == x
  {
    if tags == [] then []
    else
      var t := tags[|tags| - 1];
      assert tags == tags[..|tags| - 1] + [t];
      WeeklyTexts(tags[..|tags| - 1], userid) + (if t.userid == userid then [t.tag] else [])
  }

  /** GET /tags: the DISTINCT of the UNION ALL of the two per-table
      DISTINCT projections. Each tag the caller has, in either table, comes
      back exactly once, and no tag only another user has comes back. */
  function AllTags(s: Store, userid: nat): (r: seq<string>)
    ensures NoDup(r)
    ensures forall x :: x in r <==> UserHasTag(s, userid, x)
  {
    Distinct(Distinct(DailyTexts(s.dailyTags, userid)) + Distinct(WeeklyTexts(s.weeklyTags, userid)))
  }

  // GET /tags/weekly

  /** One row of the grouped query. */
  datatype TagDateRow = TagDateRow(dateString: string, tag: string)

  /** ORDER BY date_string, tag */
  function RowKey(x: TagDateRow): SortKey
  {
    SortKey(x.dateString, None, Some(x.tag))
  }

  /** WHERE userid = $1 and date_string between $2 and $3 */
  predicate TagInRange(t: WeeklyTag, userid: nat, lo: string, hi: string)
  {
    t.userid == userid && Between(t.dateString, lo, hi)
  }

  /** `x` added to a strictly ascending `s` unless a row with its key is
      already there. */
  function InsertDistinct(x: TagDateRow, s: seq<TagDateRow>): (r: seq<TagDateRow>)
    ensures StrictlySorted(s, RowKey) ==> StrictlySorted(r, RowKey)
    ensures forall y :: y in r <==> y in s || y == x
  {
    if s == [] then [x]
    else
      var c := KeyCmp(RowKey(x), RowKey(s[0]));
      assert s == [s[0]] + s[1..];
      if c < 0 then
        InsertBefore(x, s);
        [x] + s
      else if c == 0 then s
      else
        var rest := InsertDistinct(x, s[1..]);
        InsertAfter(x, s, rest);
        [s[0]] + rest
  }

  lemma InsertBefore(x: TagDateRow, s: seq<TagDateRow>)
    requires s != [] && KeyCmp(RowKey(x), RowKey(s[0])) < 0
    ensures StrictlySorted(s, RowKey) ==> StrictlySorted([x] + s, RowKey)
  {
    if StrictlySorted(s, RowKey) {
      forall j | 0 < j < |s| ensures KeyCmp(RowKey(x), RowKey(s[j])) < 0 {
        KeyCmpStrict(RowKey(x), RowKey(s[0]), RowKey(s[j]));
      }
    }
  }

  lemma InsertAfter(x: TagDateRow, s: seq<TagDateRow>, rest: seq<TagDateRow>)
    requires s != [] && KeyCmp(RowKey(x), RowKey(s[0])) > 0
    requires forall y :: y in rest <==> y in s[1..] || y == x
    requires StrictlySorted(s[1..], RowKey) ==> StrictlySorted(rest, RowKey)
    ensures StrictlySorted(s, RowKey) ==> StrictlySorted([s[0]] + rest, RowKey)
  {
    if StrictlySorted(s, RowKey) {
      KeyCmpAnti(RowKey(x), RowKey(s[0]));
      forall j | 0 <= j < |rest| ensures KeyCmp(RowKey(s[0]), RowKey(rest[j])) < 0 {
        assert rest[j] in rest;
        if rest[j] != x {
          var k :| 1 <= k < |s| && s[k] == rest[j];
        }
      }
    }
  }

  /** The rows of the grouped query: one per distinct (date_string, tag)
      among the caller's weekly tags in [lo, hi], in ascending order. */
  function GroupedRows(tags: seq<WeeklyTag>, userid: nat, lo: string, hi: string): (r: seq<TagDateRow>)
    ensures StrictlySorted(r, RowKey)
    ensures forall x :: x in r <==>
      exists t :: t in tags && TagInRange(t, userid, lo, hi) && x == TagDateRow(t.dateString, t.tag)
  {
    if tags == [] then []
    else
      var t := tags[|tags| - 1];
      var rest := GroupedRows(tags[..|tags| - 1], userid, lo, hi);
      assert tags == tags[..|tags| - 1] + [t];
      if TagInRange(t, userid, lo, hi) then InsertDistinct(TagDateRow(t.dateString, t.tag), rest) else rest
  }

  /** The tags of the rows dated `d`, in row order. */
  function TagsOn(rows: seq<TagDateRow>, d: string): seq<string>
  {
    if rows == [] then []
    else
      var x := rows[|rows| - 1];
      TagsOn(rows[..|rows| - 1], d) + (if x.dateString == d then [x.tag] else [])
  }

  lemma {:induction false} TagsOnMember(rows: seq<TagDateRow>, d: string, tag: string)
    ensures tag in TagsOn(rows, d) <==> TagDateRow(d, tag) in rows
  {
    if rows != [] {
      var pre := rows[..|rows| - 1];
      TagsOnMember(pre, d, tag);
      assert rows == pre + [rows[|rows| - 1]];
    }
  }

  /** `tags` is in strictly ascending string order, so without duplicates. */
  predicate StrictlyAscending(tags: seq<string>)
  {
    forall i, j :: 0 <= i < j < |tags| ==> StrCmp(tags[i], tags[j]) < 0
  }

  /** When the rows are strictly ascending by (date_string, tag), the tags
      of any one date are strictly ascending. */
  lemma {:induction false} TagsOnAscending(rows: seq<TagDateRow>, d: string)
    requires StrictlySorted(rows, RowKey)
    ensures StrictlyAscending(TagsOn(rows, d))
  {
    if rows != [] {
      var n := |rows| - 1;
      var pre := rows[..n];
      var x := rows[n];
      TagsOnAscending(pre, d);
      if x.dateString == d {
        var ts := TagsOn(pre, d);
        forall i | 0 <= i < |ts| ensures StrCmp(ts[i], x.tag) < 0 {
          TagsOnMember(pre, d, ts[i]);
          var k :| 0 <= k < n && pre[k] == TagDateRow(d, ts[i]);
          assert KeyCmp(RowKey(rows[k]), RowKey(rows[n])) < 0;
        }
      }
    }
  }

  /** The total length of the lists of a map. */
  ghost function MapTotal(m: map<string, seq<string>>): nat
    decreases |m.Keys|
  {
    if m == map[] then 0
    else
      var k :| k in m;
      assert |(m - {k}).Keys| < |m.Keys| by {
        assert m.Keys == (m - {k}).Keys + {k};
      }
      |m[k]| + MapTotal(m - {k})
  }

  lemma {:induction false} MapTotalRemove(m: map<string, seq<string>>, k: string)
    requires k in m
    ensures MapTotal(m) == |m[k]| + MapTotal(m - {k})
    decreases |m.Keys|
  {
    var k' :| k' in m && MapTotal(m) == |m[k']| + MapTotal(m - {k'});
    if k' != k {
      assert m.Keys == (m - {k'}).Keys + {k'};
      assert m.Keys == (m - {k}).Keys + {k};
      MapTotalRemove(m - {k'}, k);
      MapTotalRemove(m - {k}, k');
      assert m - {k'} - {k} == m - {k} - {k'};
    }
  }

  /** Replacing (or adding) the list of `k` changes the total by the
      difference in length. */
  lemma MapTotalUpdate(m: map<string, seq<string>>, k: string, v: seq<string>)
    ensures MapTotal(m[k := v]) == MapTotal(m - {k}) + |v|
    ensures k in m ==> MapTotal(m) == MapTotal(m - {k}) + |m[k]|
    ensures k !in m ==> MapTotal(m) == MapTotal(m - {k})
  {
    MapTotalRemove(m[k := v], k);
    assert m[k := v] - {k} == m - {k};
    if k in m {
      MapTotalRemove(m, k);
    } else {
      assert m - {k} == m;
    }
  }

  /** `m` buckets `rows` by date: a key exactly for each date of a row, the
      list of each date holding that date's tags in row order, and one tag
      per row over all lists. */
  ghost predicate Buckets(m: map<string, seq<string>>, rows: seq<TagDateRow>)
  {
    (forall d :: d in m <==> exists x :: x in rows && x.dateString == d) &&
    (forall d :: d in m ==> m[d] == TagsOn(rows, d)) &&
    MapTotal(m) == |rows|
  }

  /** One pass of the loop: create the date's list on first sight, then
      append the tag. */
  function Push(m: map<string, seq<string>>, x: TagDateRow): map<string, seq<string>>
  {
    var m1 := if x.dateString in m then m else m[x.dateString := []];
    m1[x.dateString := m1[x.dateString] + [x.tag]]
  }

  lemma TagsOnSnoc(rows: seq<TagDateRow>, x: TagDateRow, d: string)
    ensures TagsOn(rows + [x], d) == TagsOn(rows, d) + (if x.dateString == d then [x.tag] else [])
  {
    assert (rows + [x])[..|rows|] == rows;
  }

  lemma PushKeys(m: map<string, seq<string>>, rows: seq<TagDateRow>, x: TagDateRow)
    requires forall d :: d in m <==> exists y :: y in rows && y.dateString == d
    ensures forall d :: d in Push(m, x) <==> exists y :: y in rows + [x] && y.dateString == d
  {
    assert Push(m, x).Keys == m.Keys + {x.dateString};
    forall d | exists y :: y in rows + [x] && y.dateString == d
      ensures d in m || d == x.dateString
    {
      var y :| y in rows + [x] && y.dateString == d;
      if y != x {
        assert y in rows;
      }
    }
  }

  lemma PushLists(m: map<string, seq<string>>, rows: seq<TagDateRow>, x: TagDateRow)
    requires forall d :: d in m <==> exists y :: y in rows && y.dateString == d
    requires forall d :: d in m ==> m[d] == TagsOn(rows, d)
    ensures forall d :: d in Push(m, x) ==> Push(m, x)[d] == TagsOn(rows + [x], d)
  {
    if x.dateString !in m {
      TagsOnNone(rows, x.dateString);
    }
    forall d | d in Push(m, x) ensures Push(m, x)[d] == TagsOn(rows + [x], d) {
      TagsOnSnoc(rows, x, d);
    }
  }

  lemma PushTotal(m: map<string, seq<string>>, x: TagDateRow)
    ensures MapTotal(Push(m, x)) == MapTotal(m) + 1
  {
    var d := x.dateString;
    var m1 := if d in m then m else m[d := []];
    if d !in m {
      MapTotalUpdate(m, d, []);
    }
    assert MapTotal(m1) == MapTotal(m);
    MapTotalUpdate(m1, d, m1[d] + [x.tag]);
    assert m1 - {d} == m - {d};
  }

  lemma PushBuckets(m: map<string, seq<string>>, rows: seq<TagDateRow>, x: TagDateRow)
    requires Buckets(m, rows)
    ensures Buckets(Push(m, x), rows + [x])
  {
    PushKeys(m, rows, x);
    PushLists(m, rows, x);
    PushTotal(m, x);
  }

  /** The loop of GET /tags/weekly: for each row, create its date's list on
      first sight, then append the row's tag. The result has a key for a date
      exactly when some row has that date, the list of each date holds that
      date's tags in row order, and the lists hold one tag per row. */
  method GroupByDate(rows: seq<TagDateRow>) returns (m: map<string, seq<string>>)
    ensures forall d :: d in m <==> exists x :: x in rows && x.dateString == d
    ensures forall d :: d in m ==> m[d] == TagsOn(rows, d)
    ensures MapTotal(m) == |rows|
  {
    m := map[];
    for i := 0 to |rows|
      invariant Buckets(m, rows[..i])
    {
      var x := rows[i];
      PushBuckets(m, rows[..i], x);
      ghost var before := m;
      assert rows[..i + 1] == rows[..i] + [x];
      if x.dateString !in m {
        m := m[x.dateString := []];
      }
      m := m[x.dateString := m[x.dateString] + [x.tag]];
      assert m == Push(before, x);
    }
    assert rows[..|rows|] == rows;
  }

  lemma {:induction false} TagsOnNone(rows: seq<TagDateRow>, d: string)
    requires forall x :: x in rows ==> x.dateString != d
    ensures TagsOn(rows, d) == []
  {
    if rows != [] {
      assert rows[..|rows| - 1] <= rows;
      TagsOnNone(rows[..|rows| - 1], d);
    }
  }

  /** GET /tags/weekly: BadRequest without both dates; otherwise, for each
      date on which the caller has a weekly tag in [startDate, endDate], the
      distinct tags of that date in ascending order. */
  method TagsWeekly(s: Store, userid: nat, q: Query) returns (r: Response<map<string, seq<string>>>)
    ensures r.BadRequest? <==> !HasRange(q)
    ensures r.Ok? <==> HasRange(q)
    ensures r.Ok? ==> forall d :: d in r.value <==>
      exists t :: t in s.weeklyTags && TagInRange(t, userid, q.startDate.value, q.endDate.value) && t.dateString == d
    ensures r.Ok? ==> forall d, x :: d in r.value ==> (x in r.value[d] <==>
      exists t :: t in s.weeklyTags && TagInRange(t, userid, q.startDate.value, q.endDate.value) && t.dateString == d && t.tag == x)
    ensures r.Ok? ==> forall d :: d in r.value ==> StrictlyAscending(r.value[d])
  {
    if !HasRange(q) {
      return BadRequest;
    }
    var lo, hi := q.startDate.value, q.endDate.value;
    var rows := GroupedRows(s.weeklyTags, userid, lo, hi);
    var m := GroupByDate(rows);
    forall d ensures d in m <==> exists t :: t in s.weeklyTags && TagInRange(t, userid, lo, hi) && t.dateString == d {
      if exists t :: t in s.weeklyTags && TagInRange(t, userid, lo, hi) && t.dateString == d {
        var t :| t in s.weeklyTags && TagInRange(t, userid, lo, hi) && t.dateString == d;
        assert TagDateRow(t.dateString, t.tag) in rows;
      }
    }
    forall d, x | d in m
      ensures x in m[d] <==> exists t :: t in s.weeklyTags && TagInRange(t, userid, lo, hi) && t.dateString == d && t.tag == x
    {
      TagsOnMember(rows, d, x);
    }
    forall d | d in m ensures StrictlyAscending(m[d]) {
      TagsOnAscending(rows, d);
    }
    return Ok(m);
  }
}
