/**
 * Cognito group handling (src/utils/cognitoGroups.ts): group-name normalisation,
 * extraction of the `cognito:groups` claim from a token payload, and the
 * normalised, de-duplicated group list.
 */
module CognitoGroups {
  import opened JsStrings

  /** A decoded JSON value, as found in a token payload. */
  datatype Json =
    | JNull
    | JBool(b: bool)
    | JNumber(n: real)
    | JString(s: string)
    | JArray(items: seq<Json>)
    | JObject(fields: map<string, Json>)

  /** JavaScript falsiness of a present value (`undefined` is an absent key). */
  predicate Falsy(v: Json) {
    v == JNull || v == JBool(false) || v == JNumber(0.0) || v == JString("")
  }

  predicate IsHyphen(c: char) { c == '-' }

  /**
   * `normalizeCognitoGroupName`: trim, each white-space run to '_', each hyphen run to '_',
   * upper case. The result has no white space, no hyphen and no lower-case letter.
   */
  function NormalizeGroupName(group: string): (r: string)
    ensures |r| <= |group|
    ensures forall k :: 0 <= k < |r| ==> !IsSpace(r[k]) && r[k] != '-' && !IsLowerAscii(r[k])
    ensures !IsBlank(group) ==> |r| > 0
  {
    var trimmed := Trim(group);
    var underscored := Underscored(trimmed);
    TrimEmptyIffBlank(group);
    UpperKeepsSeparatorsOut(underscored);
    ToUpper(underscored)
  }

  /** The two replacements: white-space runs, then hyphen runs, each become one '_'. */
  function Underscored(s: string): (r: string)
    ensures |r| <= |s| && (|s| > 0 ==> |r| > 0)
    ensures forall k :: 0 <= k < |r| ==> !IsSpace(r[k]) && r[k] != '-'
  {
    var spaced := ReplaceRuns(s, IsSpace, '_');
    assert forall c :: c in spaced ==> !IsSpace(c) by {
      forall c | c in spaced ensures !IsSpace(c) {
        var k :| 0 <= k < |spaced| && spaced[k] == c;
      }
    }
    ReplaceRuns(spaced, IsHyphen, '_')
  }

  /**
   * A character that is neither white space nor a hyphen ('_' included) survives the
   * replacements in place: the text on either side of it is replaced independently.
   */
  lemma UnderscoredSplit(a: string, x: char, b: string)
    requires !IsSpace(x) && x != '-'
    ensures Underscored(a + [x] + b) == Underscored(a) + [x] + Underscored(b)
  {
    ReplaceRunsSplit(a, x, b, IsSpace, '_');
    ReplaceRunsSplit(ReplaceRuns(a, IsSpace, '_'), x, ReplaceRuns(b, IsSpace, '_'), IsHyphen, '_');
  }

  /** A white-space run, however long, becomes a single '_'. */
  lemma UnderscoredSpaceRun(run: string)
    requires run != [] && forall k :: 0 <= k < |run| ==> IsSpace(run[k])
    ensures Underscored(run) == "_"
  {
    ReplaceRunsOfRun(run, IsSpace, '_');
    ReplaceRunsNoMatch("_", IsHyphen, '_');
  }

  /** A hyphen run, however long, becomes a single '_'. */
  lemma UnderscoredHyphenRun(run: string)
    requires run != [] && forall k :: 0 <= k < |run| ==> run[k] == '-'
    ensures Underscored(run) == "_"
  {
    ReplaceRunsNoMatch(run, IsSpace, '_');
    ReplaceRunsOfRun(run, IsHyphen, '_');
  }

  /**
   * Around a character that is neither white space nor a hyphen, normalisation trims the
   * outer ends only, replaces each side's runs on its own and upper-cases the character.
   */
  lemma NormalizeSplit(a: string, x: char, b: string)
    requires !IsSpace(x) && x != '-'
    ensures NormalizeGroupName(a + [x] + b)
      == ToUpper(Underscored(TrimStart(a))) + [UpperChar(x)] + ToUpper(Underscored(TrimEnd(b)))
  {
    var left, right := Underscored(TrimStart(a)), Underscored(TrimEnd(b));
    var u := Underscored(Trim(a + [x] + b));
    assert u == left + [x] + right by {
      TrimSplit(a, x, b);
      UnderscoredSplit(TrimStart(a), x, TrimEnd(b));
    }
    assert ToUpper([x]) == [UpperChar(x)];
    ToUpperAppend(left + [x], right);
    ToUpperAppend(left, [x]);
    assert NormalizeGroupName(a + [x] + b) == ToUpper(u);
  }

  lemma UpperKeepsSeparatorsOut(s: string)
    requires forall k :: 0 <= k < |s| ==> !IsSpace(s[k]) && s[k] != '-'
    ensures forall k :: 0 <= k < |s| ==>
              !IsSpace(ToUpper(s)[k]) && ToUpper(s)[k] != '-' && !IsLowerAscii(ToUpper(s)[k])
  {
    forall k | 0 <= k < |s|
      ensures !IsSpace(ToUpper(s)[k]) && ToUpper(s)[k] != '-' && !IsLowerAscii(ToUpper(s)[k])
    {
      UpperCharKeepsSeparatorsOut(s[k]);
    }
  }

  lemma UpperCharKeepsSeparatorsOut(c: char)
    requires !IsSpace(c) && c != '-'
    ensures !IsSpace(UpperChar(c)) && UpperChar(c) != '-' && !IsLowerAscii(UpperChar(c))
  {
    if 'a' <= c <= 'z' {
      assert 'A' <= UpperChar(c) <= 'Z';
    }
  }

  /** Normalising twice is normalising once. */
  lemma NormalizeIdempotent(group: string)
    ensures NormalizeGroupName(NormalizeGroupName(group)) == NormalizeGroupName(group)
  {
    var n := NormalizeGroupName(group);
    TrimOfNoSpace(n);
    ReplaceRunsNoMatch(n, IsSpace, '_');
    ReplaceRunsNoMatch(n, IsHyphen, '_');
    assert ToUpper(n) == n;
  }

  /** Non-blank strings of `items`, in order: the `filter` of the array case. */
  function NonBlankStrings(items: seq<Json>): (r: seq<string>)
    ensures |r| <= |items|
    ensures forall k :: 0 <= k < |r| ==> !IsBlank(r[k]) && JString(r[k]) in items
  {
    if items == [] then [] else KeptString(items[0]) + NonBlankStrings(items[1..])
  }

  /** One array element as the filter sees it: a non-blank string is kept, anything else dropped. */
  function KeptString(v: Json): (r: seq<string>)
    ensures |r| <= 1
    ensures forall k :: 0 <= k < |r| ==> !IsBlank(r[k]) && v == JString(r[k])
  {
    match v
    case JString(s) =>
      TrimEmptyIffBlank(s);
      if Trim(s) != "" then [s] else []
    case _ => []
  }

  /** Filtering distributes over concatenation, so it keeps the array's order. */
  lemma {:induction false} NonBlankStringsAppend(a: seq<Json>, b: seq<Json>)
    ensures NonBlankStrings(a + b) == NonBlankStrings(a) + NonBlankStrings(b)
  {
    if a == [] {
      assert a + b == b;
    } else {
      assert (a + b)[0] == a[0] && (a + b)[1..] == a[1..] + b;
      NonBlankStringsUnfold(a + b);
      NonBlankStringsUnfold(a);
      NonBlankStringsAppend(a[1..], b);
      AppendAssoc(KeptString(a[0]), NonBlankStrings(a[1..]), NonBlankStrings(b));
    }
  }

  lemma NonBlankStringsUnfold(items: seq<Json>)
    requires items != []
    ensures NonBlankStrings(items) == KeptString(items[0]) + NonBlankStrings(items[1..])
  {
  }

  lemma AppendAssoc<T>(a: seq<T>, b: seq<T>, c: seq<T>)
    ensures a + (b + c) == (a + b) + c
  {
  }

  const GROUPS_CLAIM: string := "cognito:groups"

  /** `readCognitoGroupsFromPayload`. */
  function ReadCognitoGroups(payload: map<string, Json>): (r: seq<string>)
    ensures forall k :: 0 <= k < |r| ==> !IsBlank(r[k])
    ensures GROUPS_CLAIM !in payload || Falsy(payload[GROUPS_CLAIM]) ==> r == []
    ensures GROUPS_CLAIM in payload && payload[GROUPS_CLAIM].JArray? ==>
              r == NonBlankStrings(payload[GROUPS_CLAIM].items)
    ensures GROUPS_CLAIM in payload && payload[GROUPS_CLAIM].JString? ==>
              r == (if IsBlank(payload[GROUPS_CLAIM].s) then [] else [payload[GROUPS_CLAIM].s])
    ensures GROUPS_CLAIM in payload && !payload[GROUPS_CLAIM].JArray? && !payload[GROUPS_CLAIM].JString? ==>
              r == []
  {
    if GROUPS_CLAIM !in payload || Falsy(payload[GROUPS_CLAIM]) then []
    else
      match payload[GROUPS_CLAIM]
      case JArray(items) => NonBlankStrings(items)
      case JString(s) =>
        TrimEmptyIffBlank(s);
        if Trim(s) != "" then [s] else []
      case _ => []
  }

  function NormalizeAll(groups: seq<string>): (r: seq<string>)
    ensures |r| == |groups|
    ensures forall k :: 0 <= k < |r| ==> r[k] == NormalizeGroupName(groups[k])
  {
    seq(|groups|, k requires 0 <= k < |groups| => NormalizeGroupName(groups[k]))
  }

  /** Position of the first occurrence of `x` in `xs`. */
  function FirstIndex(xs: seq<string>, x: string): (i: nat)
    requires x in xs
    ensures i < |xs| && xs[i] == x && x !in xs[..i]
  {
    if xs[0] == x then 0 else 1 + FirstIndex(xs[1..], x)
  }

  lemma {:induction false} FirstIndexInPrefix(xs: seq<string>, m: nat, x: string)
    requires m <= |xs| && x in xs[..m]
    ensures FirstIndex(xs, x) == FirstIndex(xs[..m], x)
  {
    var i := FirstIndex(xs[..m], x);
    assert xs[..m][..i] == xs[..i];
  }

  /**
   * `Array.from(new Set(xs))`: one copy of each element, in order of first occurrence.
   */
  function Dedupe(xs: seq<string>): (r: seq<string>)
    ensures |r| <= |xs|
    ensures forall i, j :: 0 <= i < j < |r| ==> r[i] != r[j]
    ensures forall x :: x in r <==> x in xs
    ensures forall i, j :: 0 <= i < j < |r| ==> FirstIndex(xs, r[i]) < FirstIndex(xs, r[j])
  {
    if xs == [] then []
    else
      var init := xs[..|xs| - 1];
      var last := xs[|xs| - 1];
      var r := Dedupe(init);
      assert forall x :: x in xs <==> x in init || x == last by {
        assert xs == init + [last];
      }
      forall y | y in init ensures FirstIndex(xs, y) == FirstIndex(init, y) {
        FirstIndexInPrefix(xs, |xs| - 1, y);
      }
      if last in r then r
      else
        assert FirstIndex(xs, last) == |xs| - 1 by {
          assert last !in xs[..|xs| - 1];
        }
        r + [last]
  }

  lemma NormalizeAllMembers(raw: seq<string>)
    requires forall k :: 0 <= k < |raw| ==> !IsBlank(raw[k])
    ensures forall x :: x in NormalizeAll(raw) ==> |x| > 0
    ensures forall x :: x in NormalizeAll(raw) <==> exists g :: g in raw && x == NormalizeGroupName(g)
  {
    var normalized := NormalizeAll(raw);
    forall x | x in normalized ensures |x| > 0 && exists g :: g in raw && x == NormalizeGroupName(g) {
      var k :| 0 <= k < |normalized| && normalized[k] == x;
      assert raw[k] in raw;
    }
    forall g | g in raw ensures NormalizeGroupName(g) in normalized {
      var k :| 0 <= k < |raw| && raw[k] == g;
      assert normalized[k] == NormalizeGroupName(g);
    }
  }

  /** `getNormalizedCognitoGroups`. */
  function GetNormalizedCognitoGroups(payload: map<string, Json>): (r: seq<string>)
    ensures |r| <= |ReadCognitoGroups(payload)|
    ensures forall i, j :: 0 <= i < j < |r| ==> r[i] != r[j]
    ensures forall k :: 0 <= k < |r| ==> |r[k]| > 0
    ensures forall x :: x in r <==> exists g :: g in ReadCognitoGroups(payload) && x == NormalizeGroupName(g)
  {
    var raw := ReadCognitoGroups(payload);
    NormalizeAllMembers(raw);
    Dedupe(NormalizeAll(raw))
  }
}
