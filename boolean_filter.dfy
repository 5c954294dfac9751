/** PHP's `filter_var($v, FILTER_VALIDATE_BOOLEAN, FILTER_NULL_ON_FAILURE)`,
    which the task controller uses to read a loosely typed `completed` value
    both on the list endpoint and in the request bodies of create and update.
    `None` is PHP's `null`: the value could not be resolved. */
module BooleanFilter {
  import opened Common

  /** The tokens that resolve to true and to false, once surrounding
      whitespace is removed and the token is lower-cased. */
  const TrueTokens: set<string> := {"1", "true", "on", "yes"}
  const FalseTokens: set<string> := {"", "0", "false", "off", "no"}

  /** The whitespace the boolean filter strips before it compares. */
  predicate IsFilterSpace(c: char) {
    c == ' ' || c == '\t' || c == '\r' || c == '\n' || c as int == 0x0B
  }

  function StripLeft(s: string): string {
    if s != [] && IsFilterSpace(s[0]) then StripLeft(s[1..]) else s
  }

  function StripRight(s: string): string {
    if s != [] && IsFilterSpace(s[|s| - 1]) then StripRight(s[..|s| - 1]) else s
  }

  function Strip(s: string): string {
    StripRight(StripLeft(s))
  }

  /** ASCII case-insensitive comparison of `s` with the lower-case word `w`. */
  predicate SameIgnoringCase(s: string, w: string) {
    |s| == |w| && forall i :: 0 <= i < |s| ==> LowerChar(s[i]) == w[i]
  }

  lemma SameIgnoringCaseIsLower(s: string, w: string)
    ensures SameIgnoringCase(s, w) <==> Lower(s) == w
  {
    if Lower(s) == w {
      assert forall i :: 0 <= i < |s| ==> LowerChar(s[i]) == Lower(s)[i];
    }
  }

  /** The filter on a string: dispatch on the length of the stripped token,
      then compare case-insensitively with the words of that length. */
  function FilterString(s: string): Option<bool> {
    var t := Strip(s);
    if |t| == 0 then Some(false)
    else if |t| == 1 then
      (if t[0] == '1' then Some(true) else if t[0] == '0' then Some(false) else None)
    else if |t| == 2 then
      (if SameIgnoringCase(t, "on") then Some(true) else if SameIgnoringCase(t, "no") then Some(false) else None)
    else if |t| == 3 then
      (if SameIgnoringCase(t, "yes") then Some(true) else if SameIgnoringCase(t, "off") then Some(false) else None)
    else if |t| == 4 then
      (if SameIgnoringCase(t, "true") then Some(true) else None)
    else if |t| == 5 then
      (if SameIgnoringCase(t, "false") then Some(false) else None)
    else None
  }

  /** The length dispatch above is the token table: a string resolves to true
      exactly when its stripped, lower-cased form is a true token, and to false
      exactly when it is a false token; anything else is unresolved. */
  lemma FilterStringTokens(s: string)
    ensures FilterString(s) == Some(true) <==> Lower(Strip(s)) in TrueTokens
    ensures FilterString(s) == Some(false) <==> Lower(Strip(s)) in FalseTokens
  {
    var t := Strip(s);
    var l := Lower(t);
    assert |l| == |t|;
    if |t| == 1 {
      assert t == [t[0]];
      assert l == [LowerChar(t[0])];
    } else if |t| == 2 {
      SameIgnoringCaseIsLower(t, "on");
      SameIgnoringCaseIsLower(t, "no");
    } else if |t| == 3 {
      SameIgnoringCaseIsLower(t, "yes");
      SameIgnoringCaseIsLower(t, "off");
    } else if |t| == 4 {
      SameIgnoringCaseIsLower(t, "true");
    } else if |t| == 5 {
      SameIgnoringCaseIsLower(t, "false");
    }
  }

  /** The filter on a decoded value. A JSON boolean is taken as it is; null,
      integers and strings are first converted to a string the way PHP does;
      arrays and objects fail. */
  function FilterBool(v: Json): (r: Option<bool>)
    ensures v.JBool? ==> r == Some(v.b)
    ensures v.JNull? ==> r == Some(false)
    ensures v.JInt? ==> r == (if v.i == 1 then Some(true) else if v.i == 0 then Some(false) else None)
    ensures v.JStr? ==> r == FilterString(v.s)
    ensures v.JComposite? ==> r == None
  {
    match v
    case JBool(b) => Some(b)
    case JNull => FilterString("")
    case JInt(i) => FilterString(IntToString(i))
    case JStr(s) => FilterString(s)
    case JComposite => None
  }
}
