/** The list endpoint's query handling (`Tasks::index`): the five optional
    parameters are validated together, then resolved to a page, a page size,
    filters and an order; the page count and the navigation links are computed
    from the total, and the links are serialised into a `Link` header as in
    section 3 of RFC 8288. */
module ListQuery {
  import opened Common
  import opened BooleanFilter
  import opened TaskQuery

  /** One `key=value` of a query string. A query is kept in the order the
      parameters arrived, as a PHP array keeps them. */
  datatype Param = Param(key: string, value: string)

  type Query = seq<Param>

  /** The value of the first parameter named `k`. */
  function Lookup(q: Query, k: string): (r: Option<string>)
    ensures r.Some? ==> exists i :: 0 <= i < |q| && q[i] == Param(k, r.value)
    ensures r.None? ==> forall i :: 0 <= i < |q| ==> q[i].key != k
  {
    if q == [] then None
    else if q[0].key == k then Some(q[0].value)
    else Lookup(q[1..], k)
  }

  /** The value of the last parameter named `k`. */
  function LastLookup(q: Query, k: string): (r: Option<string>)
    ensures r.Some? ==> exists i :: 0 <= i < |q| && q[i] == Param(k, r.value) && forall j :: i < j < |q| ==> q[j].key != k
    ensures r.None? ==> forall i :: 0 <= i < |q| ==> q[i].key != k
  {
    if q == [] then None
    else if q[|q| - 1].key == k then Some(q[|q| - 1].value)
    else
      var r := LastLookup(q[..|q| - 1], k);
      assert forall j :: 0 <= j < |q| - 1 ==> q[..|q| - 1][j] == q[j];
      r
  }

  /** No key occurs twice, as in a PHP array. */
  predicate DistinctKeys(q: Query) {
    q == [] || (Lookup(q[1..], q[0].key).None? && DistinctKeys(q[1..]))
  }

  /** `$a[k] = v`: a key already there keeps its position and takes the new
      value; a new key goes at the end. */
  function Assign(a: Query, k: string, v: string): (r: Query)
    ensures Lookup(r, k) == Some(v)
    ensures forall k2 :: k2 != k ==> Lookup(r, k2) == Lookup(a, k2)
    ensures DistinctKeys(a) ==> DistinctKeys(r)
  {
    if a == [] then [Param(k, v)]
    else if a[0].key == k then
      assert ([Param(k, v)] + a[1..])[1..] == a[1..];
      [Param(k, v)] + a[1..]
    else
      var rest := Assign(a[1..], k, v);
      assert ([a[0]] + rest)[1..] == rest;
      [a[0]] + rest
  }

  /** In a PHP array, two positions never hold the same key. */
  lemma {:induction false} DistinctPositions(q: Query)
    requires DistinctKeys(q)
    ensures forall i, j :: 0 <= i < j < |q| ==> q[i].key != q[j].key
  {
    if q != [] {
      DistinctPositions(q[1..]);
      forall i, j | 0 <= i < j < |q| ensures q[i].key != q[j].key {
        if i == 0 {
          assert q[1..][j - 1] == q[j];
        } else {
          assert q[1..][i - 1] == q[i] && q[1..][j - 1] == q[j];
        }
      }
    }
  }

  /** With no repeated key, the first and the last value of a key agree. */
  lemma FirstIsLastWhenDistinct(q: Query, k: string)
    requires DistinctKeys(q)
    ensures LastLookup(q, k) == Lookup(q, k)
  {
    DistinctPositions(q);
    if Lookup(q, k).Some? {
      var i :| 0 <= i < |q| && q[i] == Param(k, Lookup(q, k).value);
      var j :| 0 <= j < |q| && q[j] == Param(k, LastLookup(q, k).value);
      assert i == j;
    }
  }

  /** `$_GET`: the parameters of the query string as PHP stores them. Each
      key is kept once, at its first position, with the value of its last
      occurrence. */
  function PhpArray(raw: Query): (a: Query)
    ensures DistinctKeys(a)
    ensures forall k :: Lookup(a, k) == LastLookup(raw, k)
  {
    if raw == [] then []
    else Assign(PhpArray(raw[..|raw| - 1]), raw[|raw| - 1].key, raw[|raw| - 1].value)
  }

  // ------------------------------------------------------------ validation

  /** The exact tokens `in_list` accepts for `completed`: case matters. */
  const CompletedTokens: set<string> := {"0", "1", "true", "false", "TRUE", "FALSE", "on", "off", "yes", "no"}

  /** The exact tokens `in_list` accepts for `sort`. */
  const SortTokens: set<string> :=
    {"id", "-id", "title", "-title", "created_at", "-created_at", "updated_at", "-updated_at"}

  /** The list parameters, in the order their rules are declared. */
  const ListFields: seq<Field> := [Page, PerPage, Search, Completed, Sort]

  function KeyOf(f: Field): string {
    match f
    case Page => "page"
    case PerPage => "per_page"
    case Search => "search"
    case Completed => "completed"
    case Sort => "sort"
    case Title => "title"
  }

  /** `is_natural_no_zero`: digits only, and not zero. */
  predicate IsNaturalNoZero(v: string) {
    AllDigits(v) && DigitsValue(v) != 0
  }

  /** The rule of each list parameter, applied when the parameter is present. */
  predicate RuleHolds(f: Field, v: string) {
    match f
    case Page => IsNaturalNoZero(v)
    case PerPage => IsNaturalNoZero(v) && DigitsValue(v) <= 100
    case Search => 1 <= |v| <= 255
    case Completed => v in CompletedTokens
    case Sort => v in SortTokens
    case Title => false
  }

  /** The parameter for `f` is present and breaks its rule. */
  predicate Fails(q: Query, f: Field) {
    Lookup(q, KeyOf(f)).Some? && !RuleHolds(f, Lookup(q, KeyOf(f)).value)
  }

  function FailingAmong(q: Query, fs: seq<Field>): (errs: seq<Field>)
    ensures forall f :: f in errs <==> f in fs && Fails(q, f)
  {
    if fs == [] then [] else (if Fails(q, fs[0]) then [fs[0]] else []) + FailingAmong(q, fs[1..])
  }

  /** Every failing list parameter, all reported together (no short circuit). */
  function ListErrors(q: Query): (errs: seq<Field>)
    ensures forall f :: f in errs <==> f in ListFields && Fails(q, f)
  {
    FailingAmong(q, ListFields)
  }

  // ------------------------------------------------------------ resolution

  /** A validated listing: page, page size, the raw `search`, `completed` and
      `sort` values (echoed back in `meta`). */
  datatype ListSpec = ListSpec(page: nat, perPage: nat, search: Option<string>, completed: Option<string>, sort: string)

  /** The parsed number of a present, validated page or page-size parameter. */
  function NumberOr(q: Query, f: Field, default: nat): (n: nat)
    requires f == Page || f == PerPage
    requires !Fails(q, f)
  {
    match Lookup(q, KeyOf(f))
    case Some(v) => IntCast(v)
    case None => default
  }

  /** The resolved listing of a validated query: absent `page`, `per_page`
      and `sort` take 1, 10 and `-created_at`. */
  function Resolve(q: Query): (s: ListSpec)
    requires ListErrors(q) == []
    ensures 1 <= s.page <= PhpIntMax && 1 <= s.perPage <= 100
    ensures s.sort in SortTokens
    ensures s.completed.Some? ==> s.completed.value in CompletedTokens
    ensures s.search.Some? ==> 1 <= |s.search.value| <= 255
    ensures s.search == Lookup(q, "search") && s.completed == Lookup(q, "completed")
    ensures Lookup(q, "page").Some? ==> AllDigits(Lookup(q, "page").value) && s.page == IntCast(Lookup(q, "page").value)
    ensures Lookup(q, "per_page").Some? ==> AllDigits(Lookup(q, "per_page").value) && s.perPage == IntCast(Lookup(q, "per_page").value)
    ensures Lookup(q, "sort").Some? ==> s.sort == Lookup(q, "sort").value
    ensures Lookup(q, "page").None? ==> s.page == 1
    ensures Lookup(q, "per_page").None? ==> s.perPage == 10
    ensures Lookup(q, "sort").None? ==> s.sort == "-created_at"
  {
    assert !Fails(q, Page) && !Fails(q, PerPage) && !Fails(q, Sort) && !Fails(q, Completed) && !Fails(q, Search);
    ListSpec(
      NumberOr(q, Page, 1),
      NumberOr(q, PerPage, 10),
      Lookup(q, "search"),
      Lookup(q, "completed"),
      match Lookup(q, "sort") case Some(v) => v case None => "-created_at")
  }

  /** What the list endpoint makes of a query: the listing, or every failing field. */
  function Normalize(q: Query): (r: Result<ListSpec, seq<Field>>)
    ensures r.Failure? <==> exists f :: f in ListFields && Fails(q, f)
    ensures r.Failure? ==> r.error == ListErrors(q) && r.error != []
  {
    if ListErrors(q) != [] then
      assert ListErrors(q)[0] in ListErrors(q);
      Failure(ListErrors(q))
    else
      Success(Resolve(q))
  }

  /** A repeated key takes its last value: `?page=abc&page=2` is page 2. */
  lemma RepeatedKeyLastWins()
    ensures var a := PhpArray([Param("page", "abc"), Param("page", "2")]);
      ListErrors(a) == [] && Resolve(a).page == 2
  {
    var raw := [Param("page", "abc"), Param("page", "2")];
    var a := PhpArray(raw);
    assert LastLookup(raw, "page") == Some("2");
    assert Lookup(a, "page") == Some("2");
    assert "2" == [DigitChar(2)];
    assert AllDigits("2") && DigitsValue("2") == 2;
    forall k | k != "page" ensures Lookup(a, k).None? {
      assert LastLookup(raw, k).None?;
    }
    ValidWhenEachHolds(a);
  }

  /** PHP truthiness of a string: every string but `""` and `"0"`. */
  predicate Truthy(s: string) {
    s != "" && s != "0"
  }

  /** `if ($search)`: the search text is applied only when it is truthy. */
  function SearchFilter(s: ListSpec): (r: Option<string>)
    ensures r.Some? <==> s.search.Some? && Truthy(s.search.value)
    ensures r.Some? ==> r == s.search
  {
    match s.search
    case Some(v) => if Truthy(v) then Some(v) else None
    case None => None
  }

  /** `where('completed', $bool ? 1 : 0)`: present tokens filter on 1 when the
      boolean filter resolves them to true, on 0 otherwise. */
  function CompletedFilter(s: ListSpec): (r: Option<int>)
    ensures r.Some? <==> s.completed.Some?
    ensures r.Some? ==> r.value in {0, 1}
    ensures r.Some? ==> (r.value == 1 <==> FilterString(s.completed.value) == Some(true))
  {
    match s.completed
    case Some(tok) => Some(if FilterString(tok) == Some(true) then 1 else 0)
    case None => None
  }

  /** On a validated token, the filter is on 1 exactly for `1`, `true`,
      `TRUE`, `on` and `yes`, and on 0 for the five other tokens. */
  lemma CompletedFilterOnTokens(s: ListSpec)
    requires s.completed.Some? && s.completed.value in CompletedTokens
    ensures CompletedFilter(s) == Some(1) <==> s.completed.value in {"1", "true", "TRUE", "on", "yes"}
    ensures CompletedFilter(s) == Some(0) <==> s.completed.value in {"0", "false", "FALSE", "off", "no"}
  {
    CompletedTokensResolve(s.completed.value);
  }

  /** A token without filter whitespace is left as it is by `Strip`. */
  lemma StripNoSpace(s: string)
    requires forall i :: 0 <= i < |s| ==> !IsFilterSpace(s[i])
    ensures Strip(s) == s
  {
    if s != [] {
      assert StripLeft(s) == s;
      assert StripRight(s) == s;
    }
  }

  /** Each of the ten accepted tokens resolves (none is left unresolved), and
      the filter is on 1 exactly for `1`, `true`, `TRUE`, `on` and `yes`. */
  lemma CompletedTokensResolve(tok: string)
    requires tok in CompletedTokens
    ensures FilterString(tok).Some?
    ensures FilterString(tok) == Some(true) <==> tok in {"1", "true", "TRUE", "on", "yes"}
  {
    if tok == "0" || tok == "1" {
      OneCharTokens(tok);
    } else if tok == "on" || tok == "no" {
      TwoCharTokens(tok);
    } else if tok == "off" || tok == "yes" {
      ThreeCharTokens(tok);
    } else if tok == "true" || tok == "TRUE" {
      TrueWords(tok);
    } else {
      assert tok == "false" || tok == "FALSE";
      FalseWords(tok);
    }
  }

  lemma OneCharTokens(tok: string)
    requires tok == "0" || tok == "1"
    ensures FilterString(tok) == Some(tok == "1")
  {
    StripNoSpace(tok);
  }

  lemma TwoCharTokens(tok: string)
    requires tok == "on" || tok == "no"
    ensures FilterString(tok) == Some(tok == "on")
  {
    StripNoSpace(tok);
  }

  lemma ThreeCharTokens(tok: string)
    requires tok == "off" || tok == "yes"
    ensures FilterString(tok) == Some(tok == "yes")
  {
    StripNoSpace(tok);
  }

  lemma TrueWords(tok: string)
    requires tok == "true" || tok == "TRUE"
    ensures FilterString(tok) == Some(true)
  {
    StripNoSpace(tok);
  }

  lemma FalseWords(tok: string)
    requires tok == "false" || tok == "FALSE"
    ensures FilterString(tok) == Some(false)
  {
    StripNoSpace(tok);
  }

  /** `ltrim($sort, '-')`. */
  function TrimDashes(s: string): string {
    if s != [] && s[0] == '-' then TrimDashes(s[1..]) else s
  }

  /** The column `orderBy` receives. */
  function SortColumn(sort: string): (r: Option<SortField>) {
    match TrimDashes(sort)
    case "id" => Some(ById)
    case "title" => Some(ByTitle)
    case "created_at" => Some(ByCreatedAt)
    case "updated_at" => Some(ByUpdatedAt)
    case _ => None
  }

  /** `str_starts_with($sort, '-') ? 'DESC' : 'ASC'`. */
  function SortDirection(sort: string): Direction {
    if IsPrefix("-", sort) then Desc else Asc
  }

  /** For each accepted sort token, the column is the token without its
      leading `-`, and the order is descending exactly when the `-` is there. */
  lemma SortTokenResolves(tok: string)
    requires tok in SortTokens
    ensures SortColumn(tok).Some?
    ensures (SortDirection(tok) == Desc) <==> tok[0] == '-'
    ensures TrimDashes(tok) == if tok[0] == '-' then tok[1..] else tok
  {
    var c := SortTokenColumn(tok);
    ColumnResolves(c);
    if tok != c {
      assert tok[0] == '-';
    }
  }

  /** Each sort token is a column name, with or without a leading `-`. */
  lemma SortTokenColumn(tok: string) returns (c: string)
    requires tok in SortTokens
    ensures c in {"id", "title", "created_at", "updated_at"}
    ensures tok == c || tok == "-" + c
  {
    if tok == "id" || tok == "-id" {
      c := "id";
    } else if tok == "title" || tok == "-title" {
      c := "title";
    } else if tok == "created_at" || tok == "-created_at" {
      c := "created_at";
    } else {
      c := "updated_at";
    }
  }

  lemma ColumnResolves(c: string)
    requires c in {"id", "title", "created_at", "updated_at"}
    ensures TrimDashes(c) == c && TrimDashes("-" + c) == c && ("-" + c)[1..] == c
    ensures SortColumn(c).Some? && SortColumn("-" + c) == SortColumn(c)
    ensures SortDirection(c) == Asc && SortDirection("-" + c) == Desc
    ensures c != [] && c[0] != '-' && ("-" + c)[0] == '-'
  {
    assert c[0] != '-';
    assert ("-" + c)[1..] == c;
  }

  /** The table query of a validated listing. */
  function FilterOf(s: ListSpec): Filter {
    Filter(CompletedFilter(s), SearchFilter(s))
  }

  // ------------------------------------------------------------ pagination

  /** `ceil(max(1, total) / max(1, perPage))`, computed on integers. */
  function TotalPages(total: nat, perPage: nat): (last: nat)
    ensures last >= 1
    ensures (last - 1) * Max(1, perPage) < Max(1, total) <= last * Max(1, perPage)
  {
    var t := Max(1, total);
    var p := Max(1, perPage);
    CeilDiv(t, p)
  }

  /** The least `c` with `c * p >= t`. */
  function CeilDiv(t: nat, p: nat): (c: nat)
    requires t >= 1 && p >= 1
    ensures c >= 1
    ensures (c - 1) * p < t <= c * p
  {
    var c := (t + p - 1) / p;
    var r := (t + p - 1) % p;
    assert t + p - 1 == c * p + r && 0 <= r < p;
    assert c * p == t + p - 1 - r;
    assert (c - 1) * p == c * p - p;
    c
  }

  /** A page number belongs to the listing when it is between 1 and the last page. */
  lemma TotalPagesIsLeast(total: nat, perPage: nat, k: nat)
    requires 1 <= perPage && k * perPage >= Max(1, total)
    ensures TotalPages(total, perPage) <= k
  {
    var last := TotalPages(total, perPage);
    if k < last {
      assert k <= last - 1;
      MulMonotone(k, last - 1, perPage);
    }
  }

  lemma MulMonotone(a: nat, b: nat, c: nat)
    requires a <= b
    ensures a * c <= b * c
  {
  }

  // ------------------------------------------------------------ links

  /** A URL as a base and its query parameters (percent-encoding is not modelled). */
  datatype Url = Url(base: string, query: Query)

  /** `$queryNoPage`: the request's parameters without `page` and `per_page`. */
  function WithoutPaging(q: Query): (r: Query)
    ensures forall i :: 0 <= i < |r| ==> r[i].key != "page" && r[i].key != "per_page"
    ensures forall k :: k != "page" && k != "per_page" ==> Lookup(r, k) == Lookup(q, k)
    ensures DistinctKeys(q) ==> DistinctKeys(r)
  {
    if q == [] then []
    else if q[0].key == "page" || q[0].key == "per_page" then WithoutPaging(q[1..])
    else [q[0]] + WithoutPaging(q[1..])
  }

  /** `$buildLink($p)`: the remaining parameters, then `page` and `per_page`. */
  function LinkTo(base: string, q: Query, p: nat, perPage: nat): (u: Url)
    ensures u.base == base
    ensures Lookup(u.query, "page") == Some(NatToString(p))
    ensures Lookup(u.query, "per_page") == Some(NatToString(perPage))
    ensures forall k :: k != "page" && k != "per_page" ==> Lookup(u.query, k) == Lookup(q, k)
  {
    var rest := WithoutPaging(q);
    PagingAppended(rest, NatToString(p), NatToString(perPage));
    Url(base, rest + [Param("page", NatToString(p)), Param("per_page", NatToString(perPage))])
  }

  /** A link built from a PHP array names each parameter once. */
  lemma LinkKeysDistinct(base: string, q: Query, p: nat, perPage: nat)
    requires DistinctKeys(q)
    ensures DistinctKeys(LinkTo(base, q, p, perPage).query)
  {
    var rest := WithoutPaging(q);
    var tail := [Param("page", NatToString(p)), Param("per_page", NatToString(perPage))];
    assert tail[1..] == [Param("per_page", NatToString(perPage))];
    assert DistinctKeys(tail[1..][1..]);
    assert DistinctKeys(tail);
    forall i | 0 <= i < |rest| ensures Lookup(tail, rest[i].key).None? {
      LookupPair(tail, rest[i].key);
    }
    DistinctAppend(rest, tail);
  }

  lemma {:induction false} DistinctAppend(a: Query, b: Query)
    requires DistinctKeys(a) && DistinctKeys(b)
    requires forall i :: 0 <= i < |a| ==> Lookup(b, a[i].key).None?
    ensures DistinctKeys(a + b)
  {
    if a == [] {
      assert a + b == b;
    } else {
      assert (a + b)[0] == a[0];
      assert (a + b)[1..] == a[1..] + b;
      assert forall i :: 0 <= i < |a[1..]| ==> a[1..][i] == a[i + 1];
      DistinctAppend(a[1..], b);
      LookupAppend(a[1..], b, a[0].key);
    }
  }

  /** Appending `page` and `per_page` to parameters without them. */
  lemma PagingAppended(rest: Query, page: string, perPage: string)
    requires forall i :: 0 <= i < |rest| ==> rest[i].key != "page" && rest[i].key != "per_page"
    ensures Lookup(rest + [Param("page", page), Param("per_page", perPage)], "page") == Some(page)
    ensures Lookup(rest + [Param("page", page), Param("per_page", perPage)], "per_page") == Some(perPage)
    ensures forall k :: k != "page" && k != "per_page" ==>
      Lookup(rest + [Param("page", page), Param("per_page", perPage)], k) == Lookup(rest, k)
  {
    var tail := [Param("page", page), Param("per_page", perPage)];
    LookupAbsent(rest, "page");
    LookupAbsent(rest, "per_page");
    LookupAppend(rest, tail, "page");
    LookupAppend(rest, tail, "per_page");
    LookupPair(tail, "page");
    LookupPair(tail, "per_page");
    forall k | k != "page" && k != "per_page"
      ensures Lookup(rest + tail, k) == Lookup(rest, k)
    {
      LookupAppend(rest, tail, k);
      LookupPair(tail, k);
    }
  }

  lemma {:induction false} LookupAbsent(q: Query, k: string)
    requires forall i :: 0 <= i < |q| ==> q[i].key != k
    ensures Lookup(q, k) == None
  {
    if q != [] {
      LookupAbsent(q[1..], k);
    }
  }

  lemma LookupPair(q: Query, k: string)
    requires |q| == 2
    ensures Lookup(q, k) == if q[0].key == k then Some(q[0].value) else if q[1].key == k then Some(q[1].value) else None
  {
    assert q[1..][1..] == [];
  }

  lemma {:induction false} LookupAppend(a: Query, b: Query, k: string)
    ensures Lookup(a + b, k) == if Lookup(a, k).Some? then Lookup(a, k) else Lookup(b, k)
  {
    if a == [] {
      assert a + b == b;
    } else {
      assert (a + b)[0] == a[0];
      assert (a + b)[1..] == a[1..] + b;
      LookupAppend(a[1..], b, k);
    }
  }

  datatype Links = Links(self: Url, next: Option<Url>, prev: Option<Url>, first: Url, last: Url)

  /** The `links` object: self, first and last always; next while the page is
      before the last; prev whenever the page is past the first (even past the
      last page). */
  function BuildLinks(base: string, q: Query, page: nat, perPage: nat, last: nat): (l: Links)
    ensures l.self == LinkTo(base, q, page, perPage)
    ensures l.first == LinkTo(base, q, 1, perPage)
    ensures l.last == LinkTo(base, q, last, perPage)
    ensures l.next.Some? <==> page < last
    ensures l.next.Some? ==> l.next.value == LinkTo(base, q, page + 1, perPage)
    ensures l.prev.Some? <==> page > 1
    ensures l.prev.Some? ==> l.prev.value == LinkTo(base, q, page - 1, perPage)
  {
    Links(
      LinkTo(base, q, page, perPage),
      if page < last then Some(LinkTo(base, q, page + 1, perPage)) else None,
      if page > 1 then Some(LinkTo(base, q, page - 1, perPage)) else None,
      LinkTo(base, q, 1, perPage),
      LinkTo(base, q, last, perPage))
  }

  /** The page a link leads to. */
  function PageOf(u: Url): Option<nat> {
    match Lookup(u.query, "page")
    case Some(v) => if AllDigits(v) then Some(DigitsValue(v)) else None
    case None => None
  }

  /** Following a link of a valid listing is again a valid listing, with the
      same page size, search, completed filter and sort, on page `p`. */
  lemma FollowLink(base: string, q: Query, p: nat)
    requires ListErrors(q) == []
    requires 1 <= p <= PhpIntMax
    ensures var u := LinkTo(base, q, p, Resolve(q).perPage);
      ListErrors(u.query) == [] && Resolve(u.query) == Resolve(q).(page := p) && PageOf(u) == Some(p)
  {
    var s := Resolve(q);
    var u := LinkTo(base, q, p, s.perPage);
    var pv, ppv := NatToString(p), NatToString(s.perPage);
    NatToStringRoundTrip(p);
    NatToStringRoundTrip(s.perPage);
    assert Lookup(u.query, "page") == Some(pv) && IsNaturalNoZero(pv);
    assert Lookup(u.query, "per_page") == Some(ppv) && IsNaturalNoZero(ppv) && DigitsValue(ppv) <= 100;
    SameOtherParams(q, u.query);
    assert !Fails(u.query, Page) && !Fails(u.query, PerPage);
    ValidWhenEachHolds(u.query);
  }

  /** Two queries that agree on `search`, `completed` and `sort`. */
  lemma SameOtherParams(q: Query, r: Query)
    requires ListErrors(q) == []
    requires forall k :: k != "page" && k != "per_page" ==> Lookup(r, k) == Lookup(q, k)
    ensures !Fails(r, Search) && !Fails(r, Completed) && !Fails(r, Sort)
  {
    assert !Fails(q, Search) && !Fails(q, Completed) && !Fails(q, Sort);
    assert Lookup(r, "search") == Lookup(q, "search");
    assert Lookup(r, "completed") == Lookup(q, "completed");
    assert Lookup(r, "sort") == Lookup(q, "sort");
  }

  /** No failing parameter among `fs`: nothing is reported for them. */
  lemma {:induction false} NoFailures(q: Query, fs: seq<Field>)
    requires forall f :: f in fs ==> !Fails(q, f)
    ensures FailingAmong(q, fs) == []
  {
    if fs != [] {
      NoFailures(q, fs[1..]);
    }
  }

  lemma ValidWhenEachHolds(q: Query)
    requires !Fails(q, Page) && !Fails(q, PerPage) && !Fails(q, Search)
    requires !Fails(q, Completed) && !Fails(q, Sort)
    ensures ListErrors(q) == []
  {
    NoFailures(q, ListFields);
  }

  /** A link names its page as digits that parse back to the page. */
  lemma LinkNamesPage(base: string, q: Query, p: nat, perPage: nat)
    ensures PageOf(LinkTo(base, q, p, perPage)) == Some(p)
  {
    NatToStringRoundTrip(p);
  }

  /** The links of a listing: each, followed, shows the page it names. */
  lemma LinksLeadWhereNamed(base: string, q: Query, page: nat, perPage: nat, last: nat)
    ensures var l := BuildLinks(base, q, page, perPage, last);
      && PageOf(l.self) == Some(page) && PageOf(l.first) == Some(1) && PageOf(l.last) == Some(last)
      && (l.next.Some? ==> PageOf(l.next.value) == Some(page + 1))
      && (l.prev.Some? ==> PageOf(l.prev.value) == Some(page - 1))
  {
    LinkNamesPage(base, q, page, perPage);
    LinkNamesPage(base, q, 1, perPage);
    LinkNamesPage(base, q, last, perPage);
    LinkNamesPage(base, q, page + 1, perPage);
    if page > 1 { LinkNamesPage(base, q, page - 1, perPage); }
  }

  // ------------------------------------------------------------ Link header

  datatype Rel = RelNext | RelPrev | RelFirst | RelLast

  function RelName(r: Rel): string {
    match r
    case RelNext => "next"
    case RelPrev => "prev"
    case RelFirst => "first"
    case RelLast => "last"
  }

  /** Position of a relation in the header. */
  function Rank(r: Rel): nat {
    match r
    case RelNext => 0
    case RelPrev => 1
    case RelFirst => 2
    case RelLast => 3
  }

  predicate Present(l: Links, r: Rel) {
    match r
    case RelNext => l.next.Some?
    case RelPrev => l.prev.Some?
    case _ => true
  }

  function UrlOf(l: Links, r: Rel): Url
    requires Present(l, r)
  {
    match r
    case RelNext => l.next.value
    case RelPrev => l.prev.value
    case RelFirst => l.first
    case RelLast => l.last
  }

  /** The relations the header lists: exactly the present ones, in the order
      next, prev, first, last; first and last always. */
  function HeaderRels(l: Links): (rels: seq<Rel>)
    ensures forall r :: r in rels <==> Present(l, r)
    ensures forall i, j :: 0 <= i < j < |rels| ==> Rank(rels[i]) < Rank(rels[j])
    ensures |rels| >= 2 && rels[|rels| - 2] == RelFirst && rels[|rels| - 1] == RelLast
  {
    (if l.next.Some? then [RelNext] else []) + (if l.prev.Some? then [RelPrev] else []) + [RelFirst] + [RelLast]
  }

  /** `key=value` pairs joined by `&`. */
  function QueryString(q: Query): string {
    Join("&", seq(|q|, i requires 0 <= i < |q| => q[i].key + "=" + q[i].value))
  }

  function Render(u: Url): string {
    u.base + "?" + QueryString(u.query)
  }

  /** One entry of the header: `<url>; rel="name"`. */
  function LinkValue(u: Url, r: Rel): string {
    "<" + Render(u) + ">; rel=\"" + RelName(r) + "\""
  }

  function Entries(l: Links, rels: seq<Rel>): (es: seq<string>)
    requires forall r :: r in rels ==> Present(l, r)
    ensures |es| == |rels|
    ensures forall i :: 0 <= i < |rels| ==> es[i] == LinkValue(UrlOf(l, rels[i]), rels[i])
  {
    if rels == [] then [] else [LinkValue(UrlOf(l, rels[0]), rels[0])] + Entries(l, rels[1..])
  }

  /** The value of the `Link` header of a listing. */
  function LinkHeaderOf(l: Links): string {
    Join(", ", Entries(l, HeaderRels(l)))
  }

  /** `$linkHeaderParts` built up one entry at a time, then imploded. */
  method LinkHeader(l: Links) returns (header: string)
    ensures header == LinkHeaderOf(l)
  {
    var parts: seq<string> := [];
    if l.next.Some? {
      parts := parts + [LinkValue(l.next.value, RelNext)];
    }
    ghost var rels: seq<Rel> := if l.next.Some? then [RelNext] else [];
    assert parts == Entries(l, rels);
    if l.prev.Some? {
      EntriesAppend(l, rels, RelPrev);
      parts := parts + [LinkValue(l.prev.value, RelPrev)];
    }
    rels := rels + if l.prev.Some? then [RelPrev] else [];
    assert parts == Entries(l, rels);
    EntriesAppend(l, rels, RelFirst);
    parts, rels := parts + [LinkValue(l.first, RelFirst)], rels + [RelFirst];
    EntriesAppend(l, rels, RelLast);
    parts, rels := parts + [LinkValue(l.last, RelLast)], rels + [RelLast];
    assert rels == HeaderRels(l);
    header := Join(", ", parts);
  }

  lemma EntriesAppend(l: Links, rels: seq<Rel>, r: Rel)
    requires forall x :: x in rels ==> Present(l, x)
    requires Present(l, r)
    ensures Entries(l, rels + [r]) == Entries(l, rels) + [LinkValue(UrlOf(l, r), r)]
  {
    var a, b := Entries(l, rels + [r]), Entries(l, rels) + [LinkValue(UrlOf(l, r), r)];
    assert |a| == |b|;
    forall i | 0 <= i < |a| ensures a[i] == b[i] {
      if i < |rels| {
        assert (rels + [r])[i] == rels[i];
      }
    }
  }
}
