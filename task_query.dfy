/** The listing query the controller builds on the table: an optional
    `where('completed', …)`, an optional `like('title', …)`, one `orderBy`,
    then `paginate(perPage, …, page)`. The database is outside the model, so
    the query is stated as what it returns: the matching rows, sorted by the
    chosen key, and the window of one page. Two choices stand in for the
    database: rows with equal keys keep ascending id order (a stable sort of
    the rows in id order), and titles compare by code point. */
module TaskQuery {
  import opened Common
  import opened TaskModel

  datatype SortField = ById | ByTitle | ByCreatedAt | ByUpdatedAt

  datatype Direction = Asc | Desc

  /** The filters of one listing: a 0/1 for `completed`, a search text. */
  datatype Filter = Filter(completed: Option<int>, search: Option<string>)

  /** A row passes the filters: same completed bit when one is asked for, and
      the search text occurs in the title ignoring ASCII case (`LIKE '%s%'`
      with the framework's escaping of `%` and `_`). */
  predicate Matches(t: Task, f: Filter) {
    && (f.completed.None? || t.completed == f.completed.value)
    && (f.search.None? || Contains(Lower(t.title), Lower(f.search.value)))
  }

  /** Every key of the map is the id of its row. */
  predicate KeysAreIds(rows: map<nat, Task>) {
    forall id :: id in rows ==> rows[id].id == id
  }

  /** The rows with an id below `n`, in ascending id order: the table's
      natural order. */
  function RowsBelow(rows: map<nat, Task>, n: nat): (r: seq<Task>)
    requires KeysAreIds(rows)
    ensures forall i :: 0 <= i < |r| ==> r[i].id < n && r[i].id in rows && rows[r[i].id] == r[i]
    ensures forall id :: id in rows && id < n ==> rows[id] in r
    ensures forall i, j :: 0 <= i < j < |r| ==> r[i].id < r[j].id
  {
    if n == 0 then []
    else RowsBelow(rows, n - 1) + (if n - 1 in rows then [rows[n - 1]] else [])
  }

  /** The rows of `s` that pass the filters, in their order. */
  function Select(s: seq<Task>, f: Filter): (r: seq<Task>)
    ensures |r| <= |s|
    ensures forall t :: t in r <==> t in s && Matches(t, f)
  {
    if s == [] then []
    else (if Matches(s[0], f) then [s[0]] else []) + Select(s[1..], f)
  }

  // ------------------------------------------------------------ ordering

  /** Code-point lexicographic order on titles. */
  predicate LexLe(a: string, b: string) {
    if a == [] then true
    else if b == [] then false
    else if a[0] != b[0] then a[0] < b[0]
    else LexLe(a[1..], b[1..])
  }

  lemma {:induction false} LexLeTotal(a: string, b: string)
    ensures LexLe(a, b) || LexLe(b, a)
  {
    if a != [] && b != [] && a[0] == b[0] {
      LexLeTotal(a[1..], b[1..]);
    }
  }

  lemma {:induction false} LexLeTransitive(a: string, b: string, c: string)
    requires LexLe(a, b) && LexLe(b, c)
    ensures LexLe(a, c)
  {
    if a != [] && b != [] && c != [] && a[0] == b[0] && b[0] == c[0] {
      LexLeTransitive(a[1..], b[1..], c[1..]);
    }
  }

  predicate KeyLe(a: Task, b: Task, k: SortField) {
    match k
    case ById => a.id <= b.id
    case ByTitle => LexLe(a.title, b.title)
    case ByCreatedAt => a.createdAt <= b.createdAt
    case ByUpdatedAt => a.updatedAt <= b.updatedAt
  }

  /** `a` may come before `b` under `ORDER BY k d`. */
  predicate InOrder(a: Task, b: Task, k: SortField, d: Direction) {
    if d == Asc then KeyLe(a, b, k) else KeyLe(b, a, k)
  }

  lemma InOrderTotal(a: Task, b: Task, k: SortField, d: Direction)
    ensures InOrder(a, b, k, d) || InOrder(b, a, k, d)
  {
    if k == ByTitle { LexLeTotal(a.title, b.title); }
  }

  lemma InOrderTransitive(a: Task, b: Task, c: Task, k: SortField, d: Direction)
    requires InOrder(a, b, k, d) && InOrder(b, c, k, d)
    ensures InOrder(a, c, k, d)
  {
    if k == ByTitle {
      if d == Asc { LexLeTransitive(a.title, b.title, c.title); }
      else { LexLeTransitive(c.title, b.title, a.title); }
    }
  }

  predicate SortedBy(s: seq<Task>, k: SortField, d: Direction) {
    forall i, j :: 0 <= i < j < |s| ==> InOrder(s[i], s[j], k, d)
  }

  /** Insert `t` before the first row it may precede. */
  function InsertRow(t: Task, s: seq<Task>, k: SortField, d: Direction): (r: seq<Task>)
    requires SortedBy(s, k, d)
    ensures multiset(r) == multiset(s) + multiset{t}
    ensures SortedBy(r, k, d)
  {
    if s == [] then [t]
    else if InOrder(t, s[0], k, d) then
      PrecedesSorted(t, s, k, d);
      SortedCons(t, s, k, d);
      [t] + s
    else
      var rest := InsertRow(t, s[1..], k, d);
      HeadPrecedesInserted(t, s, rest, k, d);
      SortedCons(s[0], rest, k, d);
      assert s == [s[0]] + s[1..];
      [s[0]] + rest
  }

  /** A row that may precede the head of a sorted sequence may precede all of it. */
  lemma PrecedesSorted(t: Task, s: seq<Task>, k: SortField, d: Direction)
    requires SortedBy(s, k, d) && s != [] && InOrder(t, s[0], k, d)
    ensures forall y | y in s :: InOrder(t, y, k, d)
  {
    forall y | y in s ensures InOrder(t, y, k, d) {
      var j :| 0 <= j < |s| && s[j] == y;
      if j > 0 { InOrderTransitive(t, s[0], s[j], k, d); }
    }
  }

  /** The head of a sorted sequence may precede the rest with `t` inserted,
      when `t` may not precede the head. */
  lemma HeadPrecedesInserted(t: Task, s: seq<Task>, rest: seq<Task>, k: SortField, d: Direction)
    requires SortedBy(s, k, d) && s != [] && !InOrder(t, s[0], k, d)
    requires multiset(rest) == multiset(s[1..]) + multiset{t}
    ensures forall x | x in rest :: InOrder(s[0], x, k, d)
  {
    forall x | x in rest ensures InOrder(s[0], x, k, d) {
      assert x in multiset(rest);
      if x == t {
        InOrderTotal(t, s[0], k, d);
      } else {
        assert x in multiset(s[1..]);
        var j :| 0 <= j < |s[1..]| && s[1..][j] == x;
        assert s[j + 1] == x;
      }
    }
  }

  lemma SortedCons(x: Task, s: seq<Task>, k: SortField, d: Direction)
    requires SortedBy(s, k, d)
    requires forall y | y in s :: InOrder(x, y, k, d)
    ensures SortedBy([x] + s, k, d)
  {
    var r := [x] + s;
    forall i, j | 0 <= i < j < |r| ensures InOrder(r[i], r[j], k, d) {
      assert r[j] == s[j - 1];
      if i > 0 { assert r[i] == s[i - 1]; }
    }
  }

  /** `ORDER BY k d`: a stable insertion sort of the rows. */
  function SortRows(s: seq<Task>, k: SortField, d: Direction): (r: seq<Task>)
    ensures multiset(r) == multiset(s)
    ensures SortedBy(r, k, d)
  {
    if s == [] then []
    else
      assert s == [s[0]] + s[1..];
      InsertRow(s[0], SortRows(s[1..], k, d), k, d)
  }

  /** `LIMIT limit OFFSET offset`. */
  function Window(s: seq<Task>, limit: nat, offset: nat): (r: seq<Task>)
    ensures |r| <= limit
    ensures offset >= |s| ==> r == []
    ensures offset < |s| ==> |r| == Min(limit, |s| - offset)
    ensures forall i :: 0 <= i < |r| ==> r[i] == s[offset + i]
  {
    if offset >= |s| then [] else s[offset..Min(|s|, offset + limit)]
  }

  /** A window of a sorted sequence is sorted and holds only its elements. */
  lemma WindowOfSorted(s: seq<Task>, limit: nat, offset: nat, k: SortField, d: Direction)
    requires SortedBy(s, k, d)
    ensures SortedBy(Window(s, limit, offset), k, d)
    ensures forall t :: t in Window(s, limit, offset) ==> t in s
  {
    var r := Window(s, limit, offset);
    forall t | t in r ensures t in s {
      var i :| 0 <= i < |r| && r[i] == t;
      assert s[offset + i] == t;
    }
    forall i, j | 0 <= i < j < |r| ensures InOrder(r[i], r[j], k, d) {
      assert r[i] == s[offset + i] && r[j] == s[offset + j];
    }
  }

  /** What `paginate` returns: the page's rows and the count of every
      matching row, ignoring the page. */
  datatype PageResult = PageResult(rows: seq<Task>, total: nat)

  /** Page `page` holds the matching rows, in the chosen order, from
      position `(page - 1) * perPage` on, `perPage` of them or as many as
      remain; a page past the last one is empty. */
  function Paginate(table: map<nat, Task>, n: nat, f: Filter, k: SortField, d: Direction, perPage: nat, page: nat): (p: PageResult)
    requires KeysAreIds(table)
    requires page >= 1
    ensures p.total == |Select(RowsBelow(table, n), f)|
    ensures p.rows == Window(SortRows(Select(RowsBelow(table, n), f), k, d), perPage, (page - 1) * perPage)
    ensures |p.rows| == if (page - 1) * perPage >= p.total then 0 else Min(perPage, p.total - (page - 1) * perPage)
    ensures |p.rows| <= perPage
    ensures forall t :: t in p.rows ==> Matches(t, f) && t.id in table && table[t.id] == t
    ensures SortedBy(p.rows, k, d)
  {
    var matching := Select(RowsBelow(table, n), f);
    var sorted := SortRows(matching, k, d);
    var offset: nat := (page - 1) * perPage;
    var rows := Window(sorted, perPage, offset);
    WindowOfSorted(sorted, perPage, offset, k, d);
    SortedMatching(table, n, f, k, d);
    PageResult(rows, |matching|)
  }

  /** Sorting the matching rows keeps their number and their rows. */
  lemma SortedMatching(table: map<nat, Task>, n: nat, f: Filter, k: SortField, d: Direction)
    requires KeysAreIds(table)
    ensures |SortRows(Select(RowsBelow(table, n), f), k, d)| == |Select(RowsBelow(table, n), f)|
    ensures forall t :: t in SortRows(Select(RowsBelow(table, n), f), k, d) ==> Matches(t, f) && t.id in table && table[t.id] == t
  {
    var matching := Select(RowsBelow(table, n), f);
    var sorted := SortRows(matching, k, d);
    assert |sorted| == |multiset(sorted)| == |multiset(matching)| == |matching|;
    forall t | t in sorted ensures t in matching {
      assert t in multiset(sorted);
    }
  }
}
