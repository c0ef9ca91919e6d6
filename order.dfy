/** The ordering the queries rely on: plain lexicographic order on strings
    (for `date_string between $2 and $3` and `ORDER BY date_string`), and the
    composite ORDER BY key (date_string, update id, tag) in which a NULL
    update id or tag sorts after every value, as PostgreSQL does for an
    ascending order. */
module Order {
  import opened Seqs

  /** Three-way lexicographic comparison of two strings by code point:
      negative, zero or positive as `a` sorts before, equal to or after `b`. */
  function StrCmp(a: string, b: string): (r: int)
    ensures -1 <= r <= 1
    ensures r == 0 <==> a == b
  {
    if a == [] then (if b == [] then 0 else -1)
    else if b == [] then 1
    else if a[0] < b[0] then -1
    else if a[0] > b[0] then 1
    else
      var r := StrCmp(a[1..], b[1..]);
      assert r == 0 ==> a == [a[0]] + a[1..] && b == [b[0]] + b[1..];
      r
  }

  lemma {:induction false} StrCmpAnti(a: string, b: string)
    ensures StrCmp(a, b) == -StrCmp(b, a)
  {
    if a != [] && b != [] && a[0] == b[0] {
      StrCmpAnti(a[1..], b[1..]);
    }
  }

  lemma {:induction false} StrCmpTrans(a: string, b: string, c: string)
    requires StrCmp(a, b) < 0 && StrCmp(b, c) < 0
    ensures StrCmp(a, c) < 0
  {
    if a != [] && b != [] && c != [] && a[0] == b[0] && b[0] == c[0] {
      StrCmpTrans(a[1..], b[1..], c[1..]);
    }
  }

  /** `s between lo and hi`: both bounds inclusive. */
  predicate Between(s: string, lo: string, hi: string)
  {
    StrCmp(lo, s) <= 0 && StrCmp(s, hi) <= 0
  }

  /** One ORDER BY key: date_string, then an id column, then a tag column;
      the last two are NULL (None) for rows a LEFT JOIN did not match. */
  datatype SortKey = SortKey(date: string, id: Option<nat>, tag: Option<string>)

  function IdCmp(a: Option<nat>, b: Option<nat>): (r: int)
  {
    match (a, b)
    case (None, None) => 0
    case (None, Some(_)) => 1
    case (Some(_), None) => -1
    case (Some(x), Some(y)) => if x < y then -1 else if x > y then 1 else 0
  }

  function TagCmp(a: Option<string>, b: Option<string>): (r: int)
  {
    match (a, b)
    case (None, None) => 0
    case (None, Some(_)) => 1
    case (Some(_), None) => -1
    case (Some(x), Some(y)) => StrCmp(x, y)
  }

  /** Lexicographic comparison of keys, NULLS LAST in each nullable column. */
  function KeyCmp(a: SortKey, b: SortKey): (r: int)
    ensures r == 0 <==> a == b
  {
    var d := StrCmp(a.date, b.date);
    if d != 0 then d
    else if IdCmp(a.id, b.id) != 0 then IdCmp(a.id, b.id)
    else TagCmp(a.tag, b.tag)
  }

  lemma KeyCmpAnti(a: SortKey, b: SortKey)
    ensures KeyCmp(a, b) == -KeyCmp(b, a)
  {
    StrCmpAnti(a.date, b.date);
    if a.tag.Some? && b.tag.Some? {
      StrCmpAnti(a.tag.value, b.tag.value);
    }
  }

  lemma KeyCmpTrans(a: SortKey, b: SortKey, c: SortKey)
    requires KeyCmp(a, b) <= 0 && KeyCmp(b, c) <= 0
    ensures KeyCmp(a, c) <= 0
  {
    if a == b || b == c {
    } else {
      if StrCmp(a.date, b.date) < 0 && StrCmp(b.date, c.date) < 0 {
        StrCmpTrans(a.date, b.date, c.date);
      } else if a.date == b.date && b.date == c.date && a.id == b.id && b.id == c.id {
        if a.tag.Some? && b.tag.Some? && c.tag.Some? {
          StrCmpTrans(a.tag.value, b.tag.value, c.tag.value);
        }
      }
    }
  }

  lemma KeyCmpStrict(a: SortKey, b: SortKey, c: SortKey)
    requires KeyCmp(a, b) < 0 && KeyCmp(b, c) < 0
    ensures KeyCmp(a, c) < 0
  {
    KeyCmpTrans(a, b, c);
    KeyCmpAnti(a, b);
  }

  /** `s` is in ascending order of `key`. */
  predicate Sorted<T>(s: seq<T>, key: T -> SortKey)
  {
    forall i, j :: 0 <= i < j < |s| ==> KeyCmp(key(s[i]), key(s[j])) <= 0
  }

  /** `s` is in strictly ascending order of `key`, so no key occurs twice. */
  predicate StrictlySorted<T>(s: seq<T>, key: T -> SortKey)
  {
    forall i, j :: 0 <= i < j < |s| ==> KeyCmp(key(s[i]), key(s[j])) < 0
  }

  /** `x` inserted into `s` before the first element whose key is larger. */
  function Insert<T>(x: T, s: seq<T>, key: T -> SortKey): (r: seq<T>)
    ensures multiset(r) == multiset(s) + multiset{x}
    ensures Sorted(s, key) ==> Sorted(r, key)
  {
    if s == [] then [x]
    else if KeyCmp(key(x), key(s[0])) <= 0 then
      InsertFront(x, s, key);
      [x] + s
    else
      assert s == [s[0]] + s[1..];
      var rest := Insert(x, s[1..], key);
      InsertBehind(x, s, rest, key);
      [s[0]] + rest
  }

  lemma InsertFront<T>(x: T, s: seq<T>, key: T -> SortKey)
    requires s != [] && KeyCmp(key(x), key(s[0])) <= 0
    ensures Sorted(s, key) ==> Sorted([x] + s, key)
  {
    if Sorted(s, key) {
      forall j | 0 < j < |s| ensures KeyCmp(key(x), key(s[j])) <= 0 {
        KeyCmpTrans(key(x), key(s[0]), key(s[j]));
      }
    }
  }

  lemma InsertBehind<T>(x: T, s: seq<T>, rest: seq<T>, key: T -> SortKey)
    requires s != [] && KeyCmp(key(x), key(s[0])) > 0
    requires multiset(rest) == multiset(s[1..]) + multiset{x}
    requires Sorted(s[1..], key) ==> Sorted(rest, key)
    ensures Sorted(s, key) ==> Sorted([s[0]] + rest, key)
  {
    if Sorted(s, key) {
      KeyCmpAnti(key(x), key(s[0]));
      forall j | 0 <= j < |rest| ensures KeyCmp(key(s[0]), key(rest[j])) <= 0 {
        assert rest[j] in multiset(rest);
        if rest[j] != x {
          assert rest[j] in multiset(s[1..]);
          var k :| 1 <= k < |s| && s[k] == rest[j];
        }
      }
    }
  }

  /** A stable insertion sort: ascending in `key`, and a permutation. */
  function Sort<T>(s: seq<T>, key: T -> SortKey): (r: seq<T>)
    ensures multiset(r) == multiset(s)
    ensures Sorted(r, key)
  {
    if s == [] then []
    else
      assert s == [s[0]] + s[1..];
      Insert(s[0], Sort(s[1..], key), key)
  }
}
