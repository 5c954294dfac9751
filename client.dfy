/** The browser script's logic that is not DOM work: `esc`, the HTML
    escaping of task titles; `qs`, the query string of a listing request;
    and the pager/filter state `STATE` with the button rules of
    `updatePager`, `setPageLoading`, the page links and the filter form. */
module Client {
  import opened Common
  import opened ListQuery

  // ------------------------------------------------------------ esc

  /** `.replace(/c/g, rep)`: every `c` of `s` replaced by `rep`, left to right. */
  function ReplaceAll(s: string, c: char, rep: string): (r: string)
    ensures c !in rep ==> c !in r
  {
    if s == [] then [] else (if s[0] == c then rep else [s[0]]) + ReplaceAll(s[1..], c, rep)
  }

  /** `esc`: five global replacements, `&` first. */
  function Esc(s: string): string {
    EscTail(ReplaceAll(s, '&', "&amp;"))
  }

  /** The five characters `esc` rewrites. */
  predicate IsSpecial(c: char) {
    c == '&' || c == '<' || c == '>' || c == '"' || c == '\''
  }

  /** The entity each special character becomes. */
  function EscChar(c: char): string {
    match c
    case '&' => "&amp;"
    case '<' => "&lt;"
    case '>' => "&gt;"
    case '"' => "&quot;"
    case '\'' => "&#039;"
    case _ => [c]
  }

  /** A single left-to-right pass replacing each character by its entity. */
  function EscapeEach(s: string): string {
    if s == [] then [] else EscChar(s[0]) + EscapeEach(s[1..])
  }

  lemma {:induction false} ReplaceAllAppend(a: string, b: string, c: char, rep: string)
    ensures ReplaceAll(a + b, c, rep) == ReplaceAll(a, c, rep) + ReplaceAll(b, c, rep)
  {
    if a == [] {
      assert a + b == b;
    } else {
      assert (a + b)[0] == a[0];
      assert (a + b)[1..] == a[1..] + b;
      ReplaceAllAppend(a[1..], b, c, rep);
    }
  }

  lemma {:induction false} ReplaceAllAbsent(s: string, c: char, rep: string)
    requires c !in s
    ensures ReplaceAll(s, c, rep) == s
  {
    if s != [] {
      assert s[0] != c;
      assert c !in s[1..];
      ReplaceAllAbsent(s[1..], c, rep);
    }
  }

  lemma ReplaceAllSingle(c: char, d: char, rep: string)
    ensures ReplaceAll([c], d, rep) == if c == d then rep else [c]
  {
    assert [c][1..] == [];
  }

  lemma EscAppend(a: string, b: string)
    ensures Esc(a + b) == Esc(a) + Esc(b)
  {
    var a1, b1 := ReplaceAll(a, '&', "&amp;"), ReplaceAll(b, '&', "&amp;");
    ReplaceAllAppend(a, b, '&', "&amp;");
    var a2, b2 := ReplaceAll(a1, '<', "&lt;"), ReplaceAll(b1, '<', "&lt;");
    ReplaceAllAppend(a1, b1, '<', "&lt;");
    var a3, b3 := ReplaceAll(a2, '>', "&gt;"), ReplaceAll(b2, '>', "&gt;");
    ReplaceAllAppend(a2, b2, '>', "&gt;");
    var a4, b4 := ReplaceAll(a3, '"', "&quot;"), ReplaceAll(b3, '"', "&quot;");
    ReplaceAllAppend(a3, b3, '"', "&quot;");
    ReplaceAllAppend(a4, b4, '\'', "&#039;");
  }

  /** The last four replacements of `esc`, applied after `&` is done. */
  function EscTail(t: string): string {
    ReplaceAll(ReplaceAll(ReplaceAll(ReplaceAll(t, '<', "&lt;"), '>', "&gt;"), '"', "&quot;"), '\'', "&#039;")
  }

  lemma EscTailKeeps(t: string)
    requires '<' !in t && '>' !in t && '"' !in t && '\'' !in t
    ensures EscTail(t) == t
  {
    ReplaceAllAbsent(t, '<', "&lt;");
    ReplaceAllAbsent(t, '>', "&gt;");
    ReplaceAllAbsent(t, '"', "&quot;");
    ReplaceAllAbsent(t, '\'', "&#039;");
  }

  /** On one character, the chain of replacements gives that character's entity:
      no entity contains a character a later replacement rewrites. */
  lemma EscSingle(c: char)
    ensures Esc([c]) == EscChar(c)
  {
    ReplaceAllSingle(c, '&', "&amp;");
    if c == '&' {
      EscTailKeeps("&amp;");
    } else {
      ReplaceAllSingle(c, '<', "&lt;");
      ReplaceAllSingle(c, '>', "&gt;");
      ReplaceAllSingle(c, '"', "&quot;");
      ReplaceAllSingle(c, '\'', "&#039;");
      if c == '<' {
        EscSingleAfter("&lt;", '>', "&gt;", '"', "&quot;", '\'', "&#039;");
      } else if c == '>' {
        EscSingleAfter2("&gt;", '"', "&quot;", '\'', "&#039;");
      } else if c == '"' {
        ReplaceAllAbsent("&quot;", '\'', "&#039;");
      }
    }
  }

  lemma EscSingleAfter(t: string, c1: char, r1: string, c2: char, r2: string, c3: char, r3: string)
    requires c1 !in t && c2 !in t && c3 !in t
    ensures ReplaceAll(ReplaceAll(ReplaceAll(t, c1, r1), c2, r2), c3, r3) == t
  {
    ReplaceAllAbsent(t, c1, r1);
    ReplaceAllAbsent(t, c2, r2);
    ReplaceAllAbsent(t, c3, r3);
  }

  lemma EscSingleAfter2(t: string, c1: char, r1: string, c2: char, r2: string)
    requires c1 !in t && c2 !in t
    ensures ReplaceAll(ReplaceAll(t, c1, r1), c2, r2) == t
  {
    ReplaceAllAbsent(t, c1, r1);
    ReplaceAllAbsent(t, c2, r2);
  }

  /** The chain of global replacements is the single-pass escape: replacing
      `&` first keeps the `&` of the later entities from being escaped again. */
  lemma {:induction false} EscIsEscapeEach(s: string)
    ensures Esc(s) == EscapeEach(s)
  {
    if s != [] {
      assert s == [s[0]] + s[1..];
      EscAppend([s[0]], s[1..]);
      EscSingle(s[0]);
      EscIsEscapeEach(s[1..]);
    }
  }

  /** Where the output may contain an `&`: at the start of one of the five entities. */
  const Entities: set<string> := {"&amp;", "&lt;", "&gt;", "&quot;", "&#039;"}

  predicate EntityAt(r: string, i: int) {
    exists e | e in Entities :: OccursAt(r, e, i)
  }

  /** Every `&` of `r` begins an entity. */
  predicate AmpersandsBeginEntities(r: string) {
    forall i :: 0 <= i < |r| && r[i] == '&' ==> EntityAt(r, i)
  }

  /** `r` holds none of `<`, `>`, `"`, `'`. */
  predicate HtmlSafe(r: string) {
    forall i :: 0 <= i < |r| ==> r[i] != '<' && r[i] != '>' && r[i] != '"' && r[i] != '\''
  }

  lemma OccursAtAppend(p: string, r: string, e: string, j: int)
    ensures OccursAt(p, e, j) ==> OccursAt(p + r, e, j)
    ensures OccursAt(r, e, j) ==> OccursAt(p + r, e, |p| + j)
  {
    if OccursAt(p, e, j) {
      assert (p + r)[j..j + |e|] == p[j..j + |e|];
    }
    if OccursAt(r, e, j) {
      assert (p + r)[|p| + j..|p| + j + |e|] == r[j..j + |e|];
    }
  }

  lemma EscCharShape(c: char)
    ensures HtmlSafe(EscChar(c)) && AmpersandsBeginEntities(EscChar(c))
  {
    var p := EscChar(c);
    if IsSpecial(c) {
      assert p in Entities;
      assert OccursAt(p, p, 0) by { assert p[0..|p|] == p; }
      assert forall i :: 0 < i < |p| ==> p[i] != '&';
    } else {
      assert p == [c];
    }
  }

  lemma ShapeAppend(p: string, r: string)
    requires HtmlSafe(p) && AmpersandsBeginEntities(p)
    requires HtmlSafe(r) && AmpersandsBeginEntities(r)
    ensures HtmlSafe(p + r) && AmpersandsBeginEntities(p + r)
  {
    var pr := p + r;
    forall i | 0 <= i < |pr| && pr[i] == '&' ensures EntityAt(pr, i) {
      if i < |p| {
        assert p[i] == '&';
        var e :| e in Entities && OccursAt(p, e, i);
        OccursAtAppend(p, r, e, i);
      } else {
        assert r[i - |p|] == '&';
        var e :| e in Entities && OccursAt(r, e, i - |p|);
        OccursAtAppend(p, r, e, i - |p|);
      }
    }
    forall i | 0 <= i < |pr| ensures pr[i] != '<' && pr[i] != '>' && pr[i] != '"' && pr[i] != '\'' {
      if i < |p| { assert pr[i] == p[i]; } else { assert pr[i] == r[i - |p|]; }
    }
  }

  lemma {:induction false} EscapeEachShape(s: string)
    ensures HtmlSafe(EscapeEach(s)) && AmpersandsBeginEntities(EscapeEach(s))
  {
    if s != [] {
      EscCharShape(s[0]);
      EscapeEachShape(s[1..]);
      ShapeAppend(EscChar(s[0]), EscapeEach(s[1..]));
    }
  }

  /** What `esc` guarantees to the markup it is put in: no `<`, `>`, `"` or
      `'` is left, and every `&` begins one of the five entities. */
  lemma EscOutputIsSafe(s: string)
    ensures HtmlSafe(Esc(s)) && AmpersandsBeginEntities(Esc(s))
  {
    EscIsEscapeEach(s);
    EscapeEachShape(s);
  }

  /** A string without special characters is left as it is. */
  lemma {:induction false} EscIdentity(s: string)
    requires forall i :: 0 <= i < |s| ==> !IsSpecial(s[i])
    ensures Esc(s) == s
  {
    EscIsEscapeEach(s);
    EscapeEachIdentity(s);
  }

  lemma {:induction false} EscapeEachIdentity(s: string)
    requires forall i :: 0 <= i < |s| ==> !IsSpecial(s[i])
    ensures EscapeEach(s) == s
  {
    if s != [] {
      assert !IsSpecial(s[0]);
      EscapeEachIdentity(s[1..]);
      assert s == [s[0]] + s[1..];
    }
  }

  /** Number of occurrences of `c` in `s`. */
  function Count(s: string, c: char): nat {
    if s == [] then 0 else (if s[0] == c then 1 else 0) + Count(s[1..], c)
  }

  /** Each `&` grows by 4, each `<` and `>` by 3, each `"` and `'` by 5. */
  lemma EscLength(s: string)
    ensures |Esc(s)| == |s| + 4 * Count(s, '&') + 3 * Count(s, '<') + 3 * Count(s, '>')
                           + 5 * Count(s, '"') + 5 * Count(s, '\'')
  {
    EscIsEscapeEach(s);
    EscapeEachLength(s);
  }

  lemma {:induction false} EscapeEachLength(s: string)
    ensures |EscapeEach(s)| == |s| + 4 * Count(s, '&') + 3 * Count(s, '<') + 3 * Count(s, '>')
                               + 5 * Count(s, '"') + 5 * Count(s, '\'')
  {
    if s != [] {
      EscapeEachLength(s[1..]);
    }
  }

  /** Decoding of the five entities, the inverse of `esc`. */
  function Unescape(r: string): string
    decreases |r|
  {
    if r == [] then []
    else if IsPrefix("&amp;", r) then "&" + Unescape(r[5..])
    else if IsPrefix("&lt;", r) then "<" + Unescape(r[4..])
    else if IsPrefix("&gt;", r) then ">" + Unescape(r[4..])
    else if IsPrefix("&quot;", r) then "\"" + Unescape(r[6..])
    else if IsPrefix("&#039;", r) then "'" + Unescape(r[6..])
    else [r[0]] + Unescape(r[1..])
  }

  lemma UnescapeStep(c: char, t: string)
    ensures Unescape(EscChar(c) + t) == [c] + Unescape(t)
  {
    var r := EscChar(c) + t;
    if c == '&' {
      PrefixOfAppend("&amp;", t);
    } else if c == '<' {
      NotPrefixAt("&amp;", r, 1);
      PrefixOfAppend("&lt;", t);
    } else if c == '>' {
      NotPrefixAt("&amp;", r, 1);
      NotPrefixAt("&lt;", r, 1);
      PrefixOfAppend("&gt;", t);
    } else if c == '"' {
      NotPrefixAt("&amp;", r, 1);
      NotPrefixAt("&lt;", r, 1);
      NotPrefixAt("&gt;", r, 1);
      PrefixOfAppend("&quot;", t);
    } else if c == '\'' {
      NotPrefixAt("&amp;", r, 1);
      NotPrefixAt("&lt;", r, 1);
      NotPrefixAt("&gt;", r, 1);
      NotPrefixAt("&quot;", r, 1);
      PrefixOfAppend("&#039;", t);
    } else {
      assert r == [c] + t;
      NotPrefixAt("&amp;", r, 0);
      NotPrefixAt("&lt;", r, 0);
      NotPrefixAt("&gt;", r, 0);
      NotPrefixAt("&quot;", r, 0);
      NotPrefixAt("&#039;", r, 0);
      assert r[1..] == t;
    }
  }

  lemma PrefixOfAppend(p: string, t: string)
    ensures IsPrefix(p, p + t) && (p + t)[|p|..] == t
  {
    assert (p + t)[..|p|] == p;
  }

  lemma NotPrefixAt(p: string, r: string, i: nat)
    requires i < |p| && i < |r| && p[i] != r[i]
    ensures !IsPrefix(p, r)
  {
  }

  /** Escaping loses nothing: decoding the entities gives the text back. */
  lemma {:induction false} EscRoundTrip(s: string)
    ensures Unescape(Esc(s)) == s
  {
    EscIsEscapeEach(s);
    EscapeEachRoundTrip(s);
  }

  lemma {:induction false} EscapeEachRoundTrip(s: string)
    ensures Unescape(EscapeEach(s)) == s
  {
    if s != [] {
      UnescapeStep(s[0], EscapeEach(s[1..]));
      EscapeEachRoundTrip(s[1..]);
      assert s == [s[0]] + s[1..];
    }
  }

  // ------------------------------------------------------------ qs

  /** The JavaScript values the query state holds. Numbers are integers here;
      `NaN` is what `Number` gives for a string that is not a number. */
  datatype JsVal = Undefined | Null | Num(n: int) | NaN | Str(s: string) | Bool(b: bool)

  /** JavaScript truthiness. */
  predicate JsTruthy(v: JsVal) {
    match v
    case Undefined => false
    case Null => false
    case Num(n) => n != 0
    case NaN => false
    case Str(s) => s != ""
    case Bool(b) => b
  }

  /** `String(v)`. */
  function JsString(v: JsVal): string {
    match v
    case Undefined => "undefined"
    case Null => "null"
    case Num(n) => IntToString(n)
    case NaN => "NaN"
    case Str(s) => s
    case Bool(b) => if b then "true" else "false"
  }

  /** `STATE.query`: the five parameters of a listing request. */
  datatype ListState = ListState(page: JsVal, perPage: JsVal, search: JsVal, completed: JsVal, sort: JsVal)

  /** `qs` keeps `completed` unless it is `''`, `null` or `undefined`: a
      `0` or a `'false'` is sent. */
  predicate CompletedKept(v: JsVal) {
    v != Str("") && v != Null && v != Undefined
  }

  /** The keys `qs` may write, in the order it writes them. */
  const QsKeys: seq<string> := ["page", "per_page", "search", "completed", "sort"]

  /** `sp.set(k, v)` when `keep`, for a key not yet set: the pair is
      appended at the end. */
  function QsSet(q: Query, keep: bool, k: string, v: string): Query {
    if keep then q + [Param(k, v)] else q
  }

  /** After `set`, `k` has its new value, or none when not kept. */
  lemma QsSetLookup(q: Query, keep: bool, k: string, v: string)
    requires Lookup(q, k).None?
    ensures Lookup(QsSet(q, keep, k, v), k) == if keep then Some(v) else None
  {
    if keep {
      LookupAppend(q, [Param(k, v)], k);
    }
  }

  /** `set` leaves every other key as it was. */
  lemma QsSetOther(q: Query, keep: bool, k: string, v: string, k2: string)
    requires k2 != k
    ensures Lookup(QsSet(q, keep, k, v), k2) == Lookup(q, k2)
  {
    if keep {
      LookupAppend(q, [Param(k, v)], k2);
      assert Lookup([Param(k, v)], k2) == Lookup([Param(k, v)][1..], k2);
    }
  }

  /** Keys from `qs`'s list, each ranked below `bound`, in increasing rank. */
  predicate RankedBelow(q: Query, bound: nat) {
    (forall i :: 0 <= i < |q| ==> q[i].key in QsKeys && KeyRank(q[i].key) < bound)
    && (forall i, j :: 0 <= i < j < |q| ==> KeyRank(q[i].key) < KeyRank(q[j].key))
  }

  lemma QsSetRanked(q: Query, bound: nat, keep: bool, k: string, v: string)
    requires k in QsKeys && RankedBelow(q, bound) && bound == KeyRank(k)
    ensures RankedBelow(QsSet(q, keep, k, v), bound + 1)
  {
  }

  /** The parameters `qs` sets, in order: `page`, `per_page`, `search`,
      `completed`, `sort`, each when kept. */
  function QsParams(p: ListState): Query {
    QsSet(QsSet(QsSet(QsSet(QsSet([],
      JsTruthy(p.page), "page", JsString(p.page)),
      JsTruthy(p.perPage), "per_page", JsString(p.perPage)),
      JsTruthy(p.search), "search", JsString(p.search)),
      CompletedKept(p.completed), "completed", JsString(p.completed)),
      JsTruthy(p.sort), "sort", JsString(p.sort))
  }

  /** `qs` writes keys only from its list, each at most once, in the list's order. */
  lemma QsParamsOrdered(p: ListState)
    ensures forall i :: 0 <= i < |QsParams(p)| ==> QsParams(p)[i].key in QsKeys
    ensures forall i, j :: 0 <= i < j < |QsParams(p)| ==> KeyRank(QsParams(p)[i].key) < KeyRank(QsParams(p)[j].key)
  {
    KeyRanks();
    var q1 := QsSet([], JsTruthy(p.page), "page", JsString(p.page));
    QsSetRanked([], 0, JsTruthy(p.page), "page", JsString(p.page));
    var q2 := QsSet(q1, JsTruthy(p.perPage), "per_page", JsString(p.perPage));
    QsSetRanked(q1, 1, JsTruthy(p.perPage), "per_page", JsString(p.perPage));
    var q3 := QsSet(q2, JsTruthy(p.search), "search", JsString(p.search));
    QsSetRanked(q2, 2, JsTruthy(p.search), "search", JsString(p.search));
    var q4 := QsSet(q3, CompletedKept(p.completed), "completed", JsString(p.completed));
    QsSetRanked(q3, 3, CompletedKept(p.completed), "completed", JsString(p.completed));
    QsSetRanked(q4, 4, JsTruthy(p.sort), "sort", JsString(p.sort));
    assert RankedBelow(QsParams(p), 5);
  }

  lemma KeyRanks()
    ensures "page" in QsKeys && "per_page" in QsKeys && "search" in QsKeys
    ensures "completed" in QsKeys && "sort" in QsKeys
    ensures KeyRank("page") == 0 && KeyRank("per_page") == 1 && KeyRank("search") == 2
    ensures KeyRank("completed") == 3 && KeyRank("sort") == 4
  {
    QsKeysDistinct();
  }

  /** `qs` sends `page`, `per_page`, `search` and `sort` only when truthy,
      and `completed` unless it is empty or missing, each as `String(v)`. */
  lemma QsParamsLookups(p: ListState)
    ensures Lookup(QsParams(p), "page") == (if JsTruthy(p.page) then Some(JsString(p.page)) else None)
    ensures Lookup(QsParams(p), "per_page") == (if JsTruthy(p.perPage) then Some(JsString(p.perPage)) else None)
    ensures Lookup(QsParams(p), "search") == (if JsTruthy(p.search) then Some(JsString(p.search)) else None)
    ensures Lookup(QsParams(p), "completed") == (if CompletedKept(p.completed) then Some(JsString(p.completed)) else None)
    ensures Lookup(QsParams(p), "sort") == (if JsTruthy(p.sort) then Some(JsString(p.sort)) else None)
  {
    QsKeysDistinct();
    var q1 := QsSet([], JsTruthy(p.page), "page", JsString(p.page));
    var q2 := QsSet(q1, JsTruthy(p.perPage), "per_page", JsString(p.perPage));
    var q3 := QsSet(q2, JsTruthy(p.search), "search", JsString(p.search));
    var q4 := QsSet(q3, CompletedKept(p.completed), "completed", JsString(p.completed));
    var q5 := QsSet(q4, JsTruthy(p.sort), "sort", JsString(p.sort));
    QsSetLookup([], JsTruthy(p.page), "page", JsString(p.page));
    QsSetOther([], JsTruthy(p.page), "page", JsString(p.page), "per_page");
    QsSetOther([], JsTruthy(p.page), "page", JsString(p.page), "search");
    QsSetOther([], JsTruthy(p.page), "page", JsString(p.page), "completed");
    QsSetOther([], JsTruthy(p.page), "page", JsString(p.page), "sort");
    QsSetLookup(q1, JsTruthy(p.perPage), "per_page", JsString(p.perPage));
    QsSetOther(q1, JsTruthy(p.perPage), "per_page", JsString(p.perPage), "page");
    QsSetOther(q1, JsTruthy(p.perPage), "per_page", JsString(p.perPage), "search");
    QsSetOther(q1, JsTruthy(p.perPage), "per_page", JsString(p.perPage), "completed");
    QsSetOther(q1, JsTruthy(p.perPage), "per_page", JsString(p.perPage), "sort");
    QsSetLookup(q2, JsTruthy(p.search), "search", JsString(p.search));
    QsSetOther(q2, JsTruthy(p.search), "search", JsString(p.search), "page");
    QsSetOther(q2, JsTruthy(p.search), "search", JsString(p.search), "per_page");
    QsSetOther(q2, JsTruthy(p.search), "search", JsString(p.search), "completed");
    QsSetOther(q2, JsTruthy(p.search), "search", JsString(p.search), "sort");
    QsSetLookup(q3, CompletedKept(p.completed), "completed", JsString(p.completed));
    QsSetOther(q3, CompletedKept(p.completed), "completed", JsString(p.completed), "page");
    QsSetOther(q3, CompletedKept(p.completed), "completed", JsString(p.completed), "per_page");
    QsSetOther(q3, CompletedKept(p.completed), "completed", JsString(p.completed), "search");
    QsSetOther(q3, CompletedKept(p.completed), "completed", JsString(p.completed), "sort");
    QsSetLookup(q4, JsTruthy(p.sort), "sort", JsString(p.sort));
    QsSetOther(q4, JsTruthy(p.sort), "sort", JsString(p.sort), "page");
    QsSetOther(q4, JsTruthy(p.sort), "sort", JsString(p.sort), "per_page");
    QsSetOther(q4, JsTruthy(p.sort), "sort", JsString(p.sort), "search");
    QsSetOther(q4, JsTruthy(p.sort), "sort", JsString(p.sort), "completed");
  }

  lemma QsKeysDistinct()
    ensures "page" != "per_page" && "page" != "search" && "page" != "completed" && "page" != "sort"
    ensures "per_page" != "search" && "per_page" != "completed" && "per_page" != "sort"
    ensures "search" != "completed" && "search" != "sort" && "completed" != "sort"
  {
    assert "page"[1] != "sort"[1];
  }

  function KeyRank(k: string): nat {
    if k == "page" then 0
    else if k == "per_page" then 1
    else if k == "search" then 2
    else if k == "completed" then 3
    else 4
  }

  /** `qs(paramsObj)`: the parameters are set one by one on an empty
      `URLSearchParams`, which is then written out after a `?`. */
  method Qs(p: ListState) returns (r: string)
    ensures r == "?" + QueryString(QsParams(p))
  {
    var sp: Query := [];
    if JsTruthy(p.page) {
      sp := sp + [Param("page", JsString(p.page))];
    }
    if JsTruthy(p.perPage) {
      sp := sp + [Param("per_page", JsString(p.perPage))];
    }
    if JsTruthy(p.search) {
      sp := sp + [Param("search", JsString(p.search))];
    }
    if CompletedKept(p.completed) {
      sp := sp + [Param("completed", JsString(p.completed))];
    }
    if JsTruthy(p.sort) {
      sp := sp + [Param("sort", JsString(p.sort))];
    }
    r := "?" + QueryString(sp);
  }

  /** The state a page starts with. */
  const InitialQuery := ListState(Num(1), Num(10), Str(""), Str(""), Str("-created_at"))

  /** The list endpoint accepts what `qs` sends exactly when each parameter
      `qs` keeps passes its rule. */
  lemma QsVerdict(p: ListState)
    ensures ListErrors(QsParams(p)) == [] <==>
      && (JsTruthy(p.page) ==> RuleHolds(Page, JsString(p.page)))
      && (JsTruthy(p.perPage) ==> RuleHolds(PerPage, JsString(p.perPage)))
      && (JsTruthy(p.search) ==> RuleHolds(Search, JsString(p.search)))
      && (CompletedKept(p.completed) ==> RuleHolds(Completed, JsString(p.completed)))
      && (JsTruthy(p.sort) ==> RuleHolds(Sort, JsString(p.sort)))
  {
    QsParamsLookups(p);
    AcceptedIffEachAccepted(QsParams(p),
      if JsTruthy(p.page) then Some(JsString(p.page)) else None,
      if JsTruthy(p.perPage) then Some(JsString(p.perPage)) else None,
      if JsTruthy(p.search) then Some(JsString(p.search)) else None,
      if CompletedKept(p.completed) then Some(JsString(p.completed)) else None,
      if JsTruthy(p.sort) then Some(JsString(p.sort)) else None);
  }

  /** A query is accepted exactly when each of its five parameters, where
      present, passes its rule. */
  lemma AcceptedIffEachAccepted(q: Query, page: Option<string>, perPage: Option<string>,
                                search: Option<string>, completed: Option<string>, sort: Option<string>)
    requires Lookup(q, "page") == page && Lookup(q, "per_page") == perPage && Lookup(q, "search") == search
    requires Lookup(q, "completed") == completed && Lookup(q, "sort") == sort
    ensures ListErrors(q) == [] <==>
      && (page.Some? ==> RuleHolds(Page, page.value))
      && (perPage.Some? ==> RuleHolds(PerPage, perPage.value))
      && (search.Some? ==> RuleHolds(Search, search.value))
      && (completed.Some? ==> RuleHolds(Completed, completed.value))
      && (sort.Some? ==> RuleHolds(Sort, sort.value))
  {
    assert KeyOf(Page) == "page" && KeyOf(PerPage) == "per_page" && KeyOf(Search) == "search";
    assert KeyOf(Completed) == "completed" && KeyOf(Sort) == "sort";
    if !Fails(q, Page) && !Fails(q, PerPage) && !Fails(q, Search) && !Fails(q, Completed) && !Fails(q, Sort) {
      ValidWhenEachHolds(q);
    } else {
      assert Page in ListFields && PerPage in ListFields && Search in ListFields;
      assert Completed in ListFields && Sort in ListFields;
    }
  }

  /** The filter form's request (page 1, the current page size, the trimmed
      search, the completed and sort choices) is accepted exactly when the
      page size passes its rule, the trimmed search has at most 255
      characters, and the chosen completed and sort values are tokens the
      list endpoint knows. */
  lemma FormQueryVerdict(perPage: JsVal, searchInput: string, completed: string, sort: string)
    ensures var search := JsTrim(searchInput);
      ListErrors(QsParams(ListState(Num(1), perPage, Str(search), Str(completed), Str(sort)))) == [] <==>
        && (JsTruthy(perPage) ==> RuleHolds(PerPage, JsString(perPage)))
        && |search| <= 255
        && (completed != "" ==> completed in CompletedTokens)
        && (sort != "" ==> sort in SortTokens)
  {
    var search := JsTrim(searchInput);
    QsVerdict(ListState(Num(1), perPage, Str(search), Str(completed), Str(sort)));
    FirstPageAccepted();
    SearchVerdict(search);
    ChoiceVerdicts(completed, sort);
  }

  lemma FirstPageAccepted()
    ensures JsTruthy(Num(1)) && RuleHolds(Page, JsString(Num(1)))
  {
    NatToStringRoundTrip(1);
    assert JsString(Num(1)) == NatToString(1);
  }

  /** A search is sent when not empty, and then must be at most 255 long. */
  lemma SearchVerdict(s: string)
    ensures (JsTruthy(Str(s)) ==> RuleHolds(Search, JsString(Str(s)))) <==> |s| <= 255
  {
  }

  /** A completed or sort choice is sent when not empty, and then must be a known token. */
  lemma ChoiceVerdicts(completed: string, sort: string)
    ensures (CompletedKept(Str(completed)) ==> RuleHolds(Completed, JsString(Str(completed))))
            <==> (completed != "" ==> completed in CompletedTokens)
    ensures (JsTruthy(Str(sort)) ==> RuleHolds(Sort, JsString(Str(sort))))
            <==> (sort != "" ==> sort in SortTokens)
  {
  }

  /** A page size read back from a link passes its rule exactly when it is 1 to 100. */
  lemma LinkPageSizeAccepted(n: nat)
    ensures RuleHolds(PerPage, NatToString(n)) <==> 1 <= n <= 100
  {
    NatToStringRoundTrip(n);
  }

  /** The choices the completed select offers are tokens the list endpoint accepts. */
  lemma FormChoicesAccepted(completed: string)
    requires completed in {"", "true", "false"}
    ensures completed != "" ==> RuleHolds(Completed, completed)
  {
  }

  /** The first request of the page is accepted. */
  lemma InitialQueryAccepted()
    ensures ListErrors(QsParams(InitialQuery)) == []
  {
    InitialQueryIsFormQuery();
    FormQueryVerdict(Num(10), "", "", "-created_at");
    DefaultsAccepted();
  }

  /** The first request is the one the form sends with no search, any
      completed state, the newest first and ten rows a page. */
  lemma InitialQueryIsFormQuery()
    ensures JsTrim("") == ""
    ensures InitialQuery == ListState(Num(1), Num(10), Str(JsTrim("")), Str(""), Str("-created_at"))
  {
  }

  /** Ten rows a page and the newest first pass their rules. */
  lemma DefaultsAccepted()
    ensures RuleHolds(PerPage, JsString(Num(10)))
    ensures "-created_at" in SortTokens
  {
    assert JsString(Num(10)) == NatToString(10);
    LinkPageSizeAccepted(10);
  }

  // ------------------------------------------------------------ links

  function AsJs(v: Option<string>): JsVal {
    match v
    case Some(s) => Str(s)
    case None => Undefined
  }

  /** `Number(v)` for the values a page can hold: a string of digits is its
      value; other strings are not numbers. */
  function JsNumber(v: JsVal): JsVal {
    match v
    case Str(s) => if AllDigits(s) then Num(DigitsValue(s)) else NaN
    case Num(n) => Num(n)
    case _ => NaN
  }

  /** The query a page link leads to: its parameters through
      `Object.fromEntries`, where the last entry with a key wins, and
      `Number(page || 1)` as the page. */
  function QueryOfLink(u: Url): ListState {
    var raw := AsJs(LastLookup(u.query, "page"));
    ListState(
      JsNumber(if JsTruthy(raw) then raw else Num(1)),
      AsJs(LastLookup(u.query, "per_page")),
      AsJs(LastLookup(u.query, "search")),
      AsJs(LastLookup(u.query, "completed")),
      AsJs(LastLookup(u.query, "sort")))
  }

  /** Following a page link of the list endpoint puts its page number and
      page size in the query. */
  lemma FollowedLinkPage(base: string, q: Query, p: nat, perPage: nat)
    ensures QueryOfLink(LinkTo(base, q, p, perPage)).page == Num(p)
    ensures QueryOfLink(LinkTo(base, q, p, perPage)).perPage == Str(NatToString(perPage))
  {
    var u := LinkTo(base, q, p, perPage);
    var s, t := NatToString(p), NatToString(perPage);
    assert u.query == WithoutPaging(q) + [Param("page", s), Param("per_page", t)];
    LastTwoLookups(WithoutPaging(q), Param("page", s), Param("per_page", t));
    var raw := AsJs(LastLookup(u.query, "page"));
    assert raw == Str(s) && s != [];
    NatToStringRoundTrip(p);
    assert JsNumber(raw) == Num(p);
  }

  /** The last entry answers for its key, and the one before it for its own
      key when the two keys differ. */
  lemma LastTwoLookups(rest: Query, a: Param, b: Param)
    requires a.key != b.key
    ensures LastLookup(rest + [a, b], b.key) == Some(b.value)
    ensures LastLookup(rest + [a, b], a.key) == Some(a.value)
  {
    var q := rest + [a, b];
    assert q[|q| - 1] == b;
    assert q[..|q| - 1] == rest + [a];
  }

  /** ... and keeps the listing's search, completed and sort values: a link
      built from a PHP array repeats no key, so the last entry the script
      reads is the one the server wrote. */
  lemma FollowedLinkKeepsFilters(base: string, q: Query, p: nat, perPage: nat)
    requires DistinctKeys(q)
    ensures QueryOfLink(LinkTo(base, q, p, perPage)).search == AsJs(Lookup(q, "search"))
    ensures QueryOfLink(LinkTo(base, q, p, perPage)).completed == AsJs(Lookup(q, "completed"))
    ensures QueryOfLink(LinkTo(base, q, p, perPage)).sort == AsJs(Lookup(q, "sort"))
  {
    LinkEntryKept(base, q, p, perPage, "search");
    LinkEntryKept(base, q, p, perPage, "completed");
    LinkEntryKept(base, q, p, perPage, "sort");
  }

  lemma LinkEntryKept(base: string, q: Query, p: nat, perPage: nat, k: string)
    requires DistinctKeys(q) && k != "page" && k != "per_page"
    ensures LastLookup(LinkTo(base, q, p, perPage).query, k) == Lookup(q, k)
  {
    LinkKeysDistinct(base, q, p, perPage);
    FirstIsLastWhenDistinct(LinkTo(base, q, p, perPage).query, k);
  }

  // ------------------------------------------------------------ pager

  /** The `next` and `prev` links of a listing as the script keeps them:
      `links?.next || null`. */
  datatype PagerLinks = PagerLinks(next: Option<Url>, prev: Option<Url>)

  /** `STATE` and the four buttons and the overlay it drives. */
  class Pager {
    var query: ListState
    var next: Option<Url>
    var prev: Option<Url>
    var isPageLoading: bool
    var prevDisabled: bool
    var nextDisabled: bool
    var openDisabled: bool
    var applyDisabled: bool
    var overlayHidden: bool

    /** The overlay's first state comes from the page's markup, which is
        given as `overlayHiddenInMarkup`. */
    constructor (overlayHiddenInMarkup: bool)
      ensures query == InitialQuery && next.None? && prev.None? && !isPageLoading
      ensures overlayHidden == overlayHiddenInMarkup
      ensures !prevDisabled && !nextDisabled && !openDisabled && !applyDisabled
    {
      query := InitialQuery;
      next, prev := None, None;
      isPageLoading := false;
      prevDisabled, nextDisabled, openDisabled, applyDisabled := false, false, false, false;
      overlayHidden := overlayHiddenInMarkup;
    }

    /** `setPageLoading(on)`: every button disabled exactly while loading. */
    method SetPageLoading(on: bool)
      modifies this
      ensures isPageLoading == on && overlayHidden == !on
      ensures prevDisabled == on && nextDisabled == on && openDisabled == on && applyDisabled == on
      ensures query == old(query) && next == old(next) && prev == old(prev)
    {
      isPageLoading := on;
      overlayHidden := !on;
      prevDisabled, nextDisabled, openDisabled, applyDisabled := on, on, on, on;
    }

    /** `setPageLoading(on)` as the pager rule needs it: prev and next stay
        disabled while their link is missing. */
    method SetPageLoadingKeepingLinks(on: bool)
      modifies this
      ensures isPageLoading == on && overlayHidden == !on
      ensures openDisabled == on && applyDisabled == on
      ensures prevDisabled <==> prev.None? || isPageLoading
      ensures nextDisabled <==> next.None? || isPageLoading
      ensures query == old(query) && next == old(next) && prev == old(prev)
    {
      isPageLoading := on;
      overlayHidden := !on;
      openDisabled, applyDisabled := on, on;
      prevDisabled := prev.None? || on;
      nextDisabled := next.None? || on;
    }

    /** `updatePager(meta, links)`: keep the links, and disable each of prev
        and next when its link is missing or a page is loading. */
    method UpdatePager(links: PagerLinks)
      modifies this
      ensures next == links.next && prev == links.prev
      ensures prevDisabled <==> prev.None? || isPageLoading
      ensures nextDisabled <==> next.None? || isPageLoading
      ensures query == old(query) && isPageLoading == old(isPageLoading)
      ensures openDisabled == old(openDisabled) && applyDisabled == old(applyDisabled)
      ensures overlayHidden == old(overlayHidden)
    {
      next := links.next;
      prev := links.prev;
      prevDisabled := prev.None? || isPageLoading;
      nextDisabled := next.None? || isPageLoading;
    }

    /** `loadList()` as written: the request is sent for the current query;
        its links, when it succeeds, reach `updatePager` while the page is
        still loading, and `setPageLoading(false)` then enables every button,
        so prev and next end up enabled whether or not there is a link. */
    method LoadListAsWritten(response: Option<PagerLinks>) returns (request: string)
      modifies this
      ensures request == "?" + QueryString(QsParams(old(query)))
      ensures query == old(query) && !isPageLoading
      ensures response.Some? ==> next == response.value.next && prev == response.value.prev
      ensures response.None? ==> next == old(next) && prev == old(prev)
      ensures !prevDisabled && !nextDisabled && !openDisabled && !applyDisabled && overlayHidden
    {
      SetPageLoading(true);
      request := Qs(query);
      if response.Some? {
        UpdatePager(response.value);
      }
      SetPageLoading(false);
    }

    /** `loadList()` with the pager rule kept once loading ends: prev and next
        are disabled exactly when their link is missing. */
    method LoadList(response: Option<PagerLinks>) returns (request: string)
      modifies this
      ensures request == "?" + QueryString(QsParams(old(query)))
      ensures query == old(query) && !isPageLoading
      ensures response.Some? ==> next == response.value.next && prev == response.value.prev
      ensures response.None? ==> next == old(next) && prev == old(prev)
      ensures prevDisabled <==> prev.None?
      ensures nextDisabled <==> next.None?
      ensures !openDisabled && !applyDisabled
    {
      SetPageLoading(true);
      request := Qs(query);
      if response.Some? {
        UpdatePager(response.value);
      }
      SetPageLoadingKeepingLinks(false);
    }

    /** The prev button: with no link nothing happens; otherwise the query
        becomes the link's, and `loadList()` runs as written, leaving the
        response's links and every button enabled. */
    method FollowPrev(response: Option<PagerLinks>) returns (request: Option<string>)
      modifies this
      ensures old(prev).None? ==> request.None? && unchanged(this)
      ensures old(prev).Some? ==> query == QueryOfLink(old(prev).value)
      ensures old(prev).Some? ==> request == Some("?" + QueryString(QsParams(query)))
      ensures old(prev).Some? ==> !isPageLoading && overlayHidden
      ensures old(prev).Some? && response.Some? ==> next == response.value.next && prev == response.value.prev
      ensures old(prev).Some? && response.None? ==> next == old(next) && prev == old(prev)
      ensures old(prev).Some? ==> !prevDisabled && !nextDisabled && !openDisabled && !applyDisabled
    {
      if prev.None? {
        return None;
      }
      query := QueryOfLink(prev.value);
      var r := LoadListAsWritten(response);
      request := Some(r);
    }

    /** The next button, the mirror of the prev button. */
    method FollowNext(response: Option<PagerLinks>) returns (request: Option<string>)
      modifies this
      ensures old(next).None? ==> request.None? && unchanged(this)
      ensures old(next).Some? ==> query == QueryOfLink(old(next).value)
      ensures old(next).Some? ==> request == Some("?" + QueryString(QsParams(query)))
      ensures old(next).Some? ==> !isPageLoading && overlayHidden
      ensures old(next).Some? && response.Some? ==> next == response.value.next && prev == response.value.prev
      ensures old(next).Some? && response.None? ==> next == old(next) && prev == old(prev)
      ensures old(next).Some? ==> !prevDisabled && !nextDisabled && !openDisabled && !applyDisabled
    {
      if next.None? {
        return None;
      }
      query := QueryOfLink(next.value);
      var r := LoadListAsWritten(response);
      request := Some(r);
    }

    /** The apply-filters button: back to page 1 with the form's trimmed
        search, completed choice and sort; the page size is kept; then
        `loadList()` runs as written. */
    method ApplyFilters(searchInput: string, completedChoice: string, sortChoice: string, response: Option<PagerLinks>)
      returns (request: string)
      modifies this
      ensures query == old(query).(page := Num(1), search := Str(JsTrim(searchInput)),
                                   completed := Str(completedChoice), sort := Str(sortChoice))
      ensures request == "?" + QueryString(QsParams(query))
      ensures !isPageLoading && overlayHidden
      ensures response.Some? ==> next == response.value.next && prev == response.value.prev
      ensures response.None? ==> next == old(next) && prev == old(prev)
      ensures !prevDisabled && !nextDisabled && !openDisabled && !applyDisabled
    {
      var search := JsTrim(searchInput);
      query := query.(page := Num(1), search := Str(search), completed := Str(completedChoice), sort := Str(sortChoice));
      request := LoadListAsWritten(response);
    }
  }

  /** The characters `String.prototype.trim` removes: white space and line
      terminators. */
  predicate IsJsSpace(c: char) {
    c == ' ' || c == '\t' || c == '\n' || c == '\r' || c as int == 0x0B || c as int == 0x0C
    || c as int == 0xA0 || c as int == 0x1680 || 0x2000 <= c as int <= 0x200A
    || c as int == 0x2028 || c as int == 0x2029 || c as int == 0x202F || c as int == 0x205F
    || c as int == 0x3000 || c as int == 0xFEFF
  }

  /** The leading white space removed: the longest prefix of it. */
  function JsTrimLeft(s: string): (r: string)
    ensures |r| <= |s| && r == s[|s| - |r|..]
    ensures forall i :: 0 <= i < |s| - |r| ==> IsJsSpace(s[i])
    ensures r == [] || !IsJsSpace(r[0])
  {
    if s != [] && IsJsSpace(s[0]) then JsTrimLeft(s[1..]) else s
  }

  /** The trailing white space removed: the longest suffix of it. */
  function JsTrimRight(s: string): (r: string)
    ensures |r| <= |s| && r == s[..|r|]
    ensures forall i :: |r| <= i < |s| ==> IsJsSpace(s[i])
    ensures r == [] || !IsJsSpace(r[|r| - 1])
  {
    if s != [] && IsJsSpace(s[|s| - 1]) then JsTrimRight(s[..|s| - 1]) else s
  }

  function JsTrim(s: string): string {
    JsTrimRight(JsTrimLeft(s))
  }

  /** On the first page of a single-page listing, the page as written leaves
      prev and next enabled although neither link exists. */
  method PagerButtonsOnSinglePage() returns (p: Pager)
    ensures p.prev.None? && p.next.None?
    ensures !p.prevDisabled && !p.nextDisabled
  {
    p := new Pager(true);
    var _ := p.LoadListAsWritten(Some(PagerLinks(None, None)));
  }

  /** With the rule kept, the same load leaves both disabled. */
  method PagerButtonsOnSinglePageCorrected() returns (p: Pager)
    ensures p.prev.None? && p.next.None?
    ensures p.prevDisabled && p.nextDisabled
  {
    p := new Pager(true);
    var _ := p.LoadList(Some(PagerLinks(None, None)));
  }
}
