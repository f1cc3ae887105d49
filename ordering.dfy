/** `ORDER BY ... DESC` and `LIMIT ... OFFSET ...` over in-memory rows. */
module Ordering {
  import opened Common

  /** A sort key of two columns compared lexicographically. */
  datatype Key = Key(major: int, minor: int)

  /** a comes no later than b in a descending order. */
  predicate AtLeast(a: Key, b: Key) {
    a.major > b.major || (a.major == b.major && a.minor >= b.minor)
  }

  predicate SortedDesc<T>(s: seq<T>, key: T -> Key) {
    forall i, j :: 0 <= i < j < |s| ==> AtLeast(key(s[i]), key(s[j]))
  }

  /** Every row of s comes no earlier than key k. */
  predicate Below<T>(k: Key, s: seq<T>, key: T -> Key) {
    forall j :: 0 <= j < |s| ==> AtLeast(k, key(s[j]))
  }

  /** Insertion of x before the first row it is at least as large as. */
  function Insert<T>(x: T, s: seq<T>, key: T -> Key): (r: seq<T>)
    ensures |r| == |s| + 1
  {
    if s == [] then [x]
    else if AtLeast(key(x), key(s[0])) then [x] + s
    else [s[0]] + Insert(x, s[1..], key)
  }

  lemma {:induction false} InsertMultiset<T>(x: T, s: seq<T>, key: T -> Key)
    ensures multiset(Insert(x, s, key)) == multiset(s) + multiset{x}
  {
    if s != [] && !AtLeast(key(x), key(s[0])) {
      InsertMultiset(x, s[1..], key);
      assert s == [s[0]] + s[1..];
    }
  }

  lemma {:induction false} InsertBelow<T>(x: T, s: seq<T>, key: T -> Key, k: Key)
    requires AtLeast(k, key(x)) && Below(k, s, key)
    ensures Below(k, Insert(x, s, key), key)
  {
    if s != [] && !AtLeast(key(x), key(s[0])) {
      InsertBelow(x, s[1..], key, k);
    }
  }

  lemma {:induction false} InsertSorted<T>(x: T, s: seq<T>, key: T -> Key)
    requires SortedDesc(s, key)
    ensures SortedDesc(Insert(x, s, key), key)
  {
    if s != [] && !AtLeast(key(x), key(s[0])) {
      InsertSorted(x, s[1..], key);
      InsertBelow(x, s[1..], key, key(s[0]));
    }
  }

  /** The rows in descending key order. Rows with equal keys keep their
      table order, one of the orders the database may return. */
  function SortDesc<T>(s: seq<T>, key: T -> Key): (r: seq<T>)
    ensures SortedDesc(r, key)
    ensures multiset(r) == multiset(s)
  {
    if s == [] then []
    else
      var rest := SortDesc(s[1..], key);
      InsertSorted(s[0], rest, key);
      InsertMultiset(s[0], rest, key);
      assert s == [s[0]] + s[1..];
      Insert(s[0], rest, key)
  }
  /** Sorting keeps the length and draws every row from the input. */
  lemma SortDescKeeps<T>(s: seq<T>, key: T -> Key)
    ensures |SortDesc(s, key)| == |s|
    ensures forall i :: 0 <= i < |SortDesc(s, key)| ==> SortDesc(s, key)[i] in s
  {
    var r := SortDesc(s, key);
    assert |r| == |multiset(r)| == |multiset(s)| == |s|;
    forall i | 0 <= i < |r|
      ensures r[i] in s
    {
      assert r[i] in multiset(s);
    }
  }

  /** `rows.map(f)`: the columns a query selects, row by row. */
  function Project<T, U>(s: seq<T>, f: T -> U): (r: seq<U>)
    ensures |r| == |s|
    ensures forall i :: 0 <= i < |r| ==> r[i] == f(s[i])
  {
    if s == [] then [] else [f(s[0])] + Project(s[1..], f)
  }

  /** Projecting after an insertion projects the inserted row once more. */
  lemma {:induction false} ProjectInsert<T, U>(x: T, s: seq<T>, key: T -> Key, f: T -> U)
    ensures multiset(Project(Insert(x, s, key), f)) == multiset(Project(s, f)) + multiset{f(x)}
  {
    var r := Insert(x, s, key);
    if s == [] {
      assert Project(r, f) == [f(x)];
    } else if AtLeast(key(x), key(s[0])) {
      assert r[0] == x && r[1..] == s;
      assert Project(r, f) == [f(x)] + Project(s, f);
    } else {
      assert r[0] == s[0] && r[1..] == Insert(x, s[1..], key);
      ProjectInsert(x, s[1..], key, f);
      assert Project(r, f) == [f(s[0])] + Project(Insert(x, s[1..], key), f);
      assert Project(s, f) == [f(s[0])] + Project(s[1..], f);
    }
  }

  /** Sorting before projecting projects the same rows, each as often. */
  lemma {:induction false} ProjectSort<T, U>(s: seq<T>, key: T -> Key, f: T -> U)
    ensures multiset(Project(SortDesc(s, key), f)) == multiset(Project(s, f))
  {
    if s != [] {
      ProjectSort(s[1..], key, f);
      ProjectInsert(s[0], SortDesc(s[1..], key), key, f);
      assert Project(s, f) == [f(s[0])] + Project(s[1..], f);
    }
  }


  /** `LIMIT count OFFSET offset` */
  function Window<T>(s: seq<T>, offset: nat, count: nat): (r: seq<T>)
    ensures |r| == if offset >= |s| then 0 else Min(count, |s| - offset)
    ensures forall i :: 0 <= i < |r| ==> r[i] == s[offset + i]
  {
    if offset >= |s| then [] else s[offset..Min(offset + count, |s|)]
  }

  /** `Math.ceil(total / limit)` for a positive limit. */
  function CeilDiv(total: nat, limit: nat): (r: nat)
    requires limit >= 1
    ensures r * limit >= total
    ensures r > 0 ==> (r - 1) * limit < total
    ensures r == 0 <==> total == 0
  {
    var q := (total + limit - 1) / limit;
    assert q * limit <= total + limit - 1 < (q + 1) * limit;
    q
  }

  /** Every row lands on exactly one page: row i is at position i % limit of
      page i / limit + 1, and that page is within the page count. */
  lemma {:induction false} RowOnItsPage<T>(s: seq<T>, limit: nat, i: nat)
    requires limit >= 1 && i < |s|
    ensures var page := i / limit + 1;
      && page <= CeilDiv(|s|, limit)
      && (page - 1) * limit <= i
      && i % limit < |Window(s, (page - 1) * limit, limit)|
      && Window(s, (page - 1) * limit, limit)[i % limit] == s[i]
  {
    var q, m := i / limit, i % limit;
    assert q * limit + m == i;
    var total := CeilDiv(|s|, limit);
    if q + 1 > total {
      MulMonotone(total, q, limit);
      assert false;
    }
  }

  lemma MulMonotone(a: nat, b: nat, c: nat)
    requires a <= b
    ensures a * c <= b * c
  {}

  /** A page past the last one is empty. */
  lemma PageAfterLastIsEmpty<T>(s: seq<T>, limit: nat, page: nat)
    requires limit >= 1 && page > CeilDiv(|s|, limit)
    ensures Window(s, (page - 1) * limit, limit) == []
  {
    MulMonotone(CeilDiv(|s|, limit), page - 1, limit);
  }

  /** The `pagination` object of a listing. totalPages is null when the
      limit is 0, since `Math.ceil` of a division by zero is not a finite
      number. */
  datatype Pagination = Pagination(page: int, limit: int, total: nat, totalPages: Option<nat>)

  /** The rows skipped before a page. */
  function Offset(page: int, limit: int): int {
    (page - 1) * limit
  }

  /** `LIMIT limit OFFSET (page - 1) * limit` and `COUNT(*)` over the same
      rows. None stands for the database error raised when page or limit is
      NaN or when the limit or the offset is negative; with a zero limit the
      offset is zero whatever the page. */
  function Paginate<T>(rows: seq<T>, page: Option<int>, limit: Option<int>): (r: Option<(seq<T>, Pagination)>)
    ensures r.None? <==> page.None? || limit.None? || limit.value < 0 || (limit.value > 0 && page.value < 1)
    ensures r.Some? ==> r.value.1.page == page.value && r.value.1.limit == limit.value
    ensures r.Some? ==> r.value.1.total == |rows| && |r.value.0| <= limit.value
    ensures r.Some? ==> (r.value.1.totalPages.None? <==> limit.value == 0)
    ensures r.Some? && limit.value > 0 ==> r.value.1.totalPages == Some(CeilDiv(|rows|, limit.value))
    ensures r.Some? ==> forall i :: 0 <= i < |r.value.0| ==>
      Offset(page.value, limit.value) + i < |rows| && r.value.0[i] == rows[Offset(page.value, limit.value) + i]
  {
    if page.None? || limit.None? || limit.value < 0 then None
    else if limit.value == 0 then Some(([], Pagination(page.value, 0, |rows|, None)))
    else if page.value < 1 then None
    else
      Some((PageRows(rows, page.value, limit.value),
            Pagination(page.value, limit.value, |rows|, Some(CeilDiv(|rows|, limit.value)))))
  }

  /** The rows of one page: at most `limit` of them, from the offset on. */
  function PageRows<T>(rows: seq<T>, page: int, limit: int): (r: seq<T>)
    requires page >= 1 && limit >= 1
    ensures |r| <= limit
    ensures forall i :: 0 <= i < |r| ==> Offset(page, limit) + i < |rows| && r[i] == rows[Offset(page, limit) + i]
  {
    MulMonotone(0, page - 1, limit);
    Window(rows, Offset(page, limit), limit)
  }

  /** A page holds the rows from its offset on, as many as the limit
      allows: none past the end of the rows. */
  lemma PageLength<T>(rows: seq<T>, page: int, limit: int)
    requires page >= 1 && limit >= 1
    ensures Paginate(rows, Some(page), Some(limit)).Some?
    ensures var offset := (page - 1) * limit;
      |Paginate(rows, Some(page), Some(limit)).value.0| == if offset >= |rows| then 0 else Min(limit, |rows| - offset)
  {
    MulMonotone(0, page - 1, limit);
    var offset := (page - 1) * limit;
    assert Paginate(rows, Some(page), Some(limit)).value.0 == PageRows(rows, page, limit) == Window(rows, offset, limit);
  }

  /** A page of sorted rows is sorted, and holds only rows from the input. */
  lemma PaginateKeepsOrder<T>(rows: seq<T>, key: T -> Key, page: Option<int>, limit: Option<int>)
    requires SortedDesc(rows, key)
    requires Paginate(rows, page, limit).Some?
    ensures SortedDesc(Paginate(rows, page, limit).value.0, key)
    ensures forall i :: 0 <= i < |Paginate(rows, page, limit).value.0| ==>
      Paginate(rows, page, limit).value.0[i] in rows
  {
    if limit.value > 0 {
      assert Paginate(rows, page, limit).value.0 == PageRows(rows, page.value, limit.value);
      PageRowsKeepOrder(rows, key, page.value, limit.value);
    }
  }

  lemma PageRowsKeepOrder<T>(rows: seq<T>, key: T -> Key, page: int, limit: int)
    requires SortedDesc(rows, key)
    requires page >= 1 && limit >= 1
    ensures SortedDesc(PageRows(rows, page, limit), key)
    ensures forall i :: 0 <= i < |PageRows(rows, page, limit)| ==> PageRows(rows, page, limit)[i] in rows
  {
    var shown := PageRows(rows, page, limit);
    var offset := Offset(page, limit);
    forall i, j | 0 <= i < j < |shown|
      ensures AtLeast(key(shown[i]), key(shown[j]))
    {
      assert shown[i] == rows[offset + i] && shown[j] == rows[offset + j];
    }
  }
}
