/**
 * The parts of JavaScript's string semantics that the core relies on:
 * `String.prototype.trim`, the regular-expression class `\s`, case mapping,
 * `Number.prototype.toString` on integers, `padStart`, `Number.parseInt(_, 10)` and
 * global replacement of runs of a character class.
 */
module JsStrings {
  import opened Wrappers

  /** The characters matched by `\s` and removed by `trim` (WhiteSpace and LineTerminator). */
  predicate IsSpace(c: char) {
    c == ' ' || c == '\t' || c == '\n' || c == '\r' || c == '\U{B}' || c == '\U{C}'
    || c == '\U{A0}' || c == '\U{1680}' || ('\U{2000}' <= c <= '\U{200A}')
    || c == '\U{2028}' || c == '\U{2029}' || c == '\U{202F}' || c == '\U{205F}'
    || c == '\U{3000}' || c == '\U{FEFF}'
  }

  predicate NoSpace(s: string) {
    forall k :: 0 <= k < |s| ==> !IsSpace(s[k])
  }

  /** A string that `trim` reduces to the empty string. */
  predicate IsBlank(s: string) {
    forall k :: 0 <= k < |s| ==> IsSpace(s[k])
  }

  function TrimStart(s: string): (r: string)
    ensures |r| <= |s| && r == s[|s| - |r|..]
    ensures r == [] || !IsSpace(r[0])
    ensures forall k :: 0 <= k < |s| - |r| ==> IsSpace(s[k])
  {
    if s == [] || !IsSpace(s[0]) then s else TrimStart(s[1..])
  }

  function TrimEnd(s: string): (r: string)
    ensures |r| <= |s| && r == s[..|r|]
    ensures r == [] || !IsSpace(r[|r| - 1])
    ensures forall k :: |r| <= k < |s| ==> IsSpace(s[k])
  {
    if s == [] || !IsSpace(s[|s| - 1]) then s else TrimEnd(s[..|s| - 1])
  }

  /** `s.trim()`: the longest infix of `s` that neither starts nor ends with white space. */
  function Trim(s: string): (r: string)
    ensures |r| <= |s|
    ensures r == [] || (!IsSpace(r[0]) && !IsSpace(r[|r| - 1]))
  {
    TrimEnd(TrimStart(s))
  }

  lemma TrimStartEmptyIffBlank(s: string)
    ensures TrimStart(s) == [] <==> IsBlank(s)
  {
    var r := TrimStart(s);
    if r != [] {
      assert r[0] == s[|s| - |r|];
    }
  }

  /** `trim()` gives the empty string exactly for blank strings. */
  lemma TrimEmptyIffBlank(s: string)
    ensures Trim(s) == [] <==> IsBlank(s)
  {
    TrimStartEmptyIffBlank(s);
    var t := TrimStart(s);
    if t != [] {
      assert !IsSpace(t[0]);
      assert TrimEnd(t) != [];
    }
  }

  /** Leading white space is trimmed only up to the first other character. */
  lemma {:induction false} TrimStartSplit(a: string, x: char, b: string)
    requires !IsSpace(x)
    ensures TrimStart(a + [x] + b) == TrimStart(a) + [x] + b
    decreases |a|
  {
    var s := a + [x] + b;
    if a == [] {
      assert s == [x] + b;
    } else if IsSpace(a[0]) {
      assert s[1..] == a[1..] + [x] + b;
      TrimStartSplit(a[1..], x, b);
    }
  }

  /** Trailing white space is trimmed only back to the last other character. */
  lemma {:induction false} TrimEndSplit(a: string, x: char, b: string)
    requires !IsSpace(x)
    ensures TrimEnd(a + [x] + b) == a + [x] + TrimEnd(b)
    decreases |b|
  {
    var s := a + [x] + b;
    if b != [] && IsSpace(b[|b| - 1]) {
      assert s[..|s| - 1] == a + [x] + b[..|b| - 1];
      TrimEndSplit(a, x, b[..|b| - 1]);
    }
  }

  /** `trim` around a character that is not white space trims each side on its own. */
  lemma TrimSplit(a: string, x: char, b: string)
    requires !IsSpace(x)
    ensures Trim(a + [x] + b) == TrimStart(a) + [x] + TrimEnd(b)
  {
    TrimStartSplit(a, x, b);
    TrimEndSplit(TrimStart(a), x, b);
  }

  /** Upper-casing maps each part of a concatenation on its own. */
  lemma ToUpperAppend(a: string, b: string)
    ensures ToUpper(a + b) == ToUpper(a) + ToUpper(b)
  {
  }

  lemma {:induction false} TrimOfNoSpace(s: string)
    requires NoSpace(s)
    ensures Trim(s) == s
  {
    assert TrimStart(s) == s;
    assert TrimEnd(s) == s;
  }

  /** `toUpperCase` on one character (ASCII letters; other characters are kept). */
  function UpperChar(c: char): char {
    if 'a' <= c <= 'z' then (c as int - 32) as char else c
  }

  /** `toLowerCase` on one character (ASCII letters; other characters are kept). */
  function LowerChar(c: char): char {
    if 'A' <= c <= 'Z' then (c as int + 32) as char else c
  }

  function ToUpper(s: string): (r: string)
    ensures |r| == |s|
    ensures forall k :: 0 <= k < |s| ==> r[k] == UpperChar(s[k])
  {
    seq(|s|, k requires 0 <= k < |s| => UpperChar(s[k]))
  }

  function ToLower(s: string): (r: string)
    ensures |r| == |s|
    ensures forall k :: 0 <= k < |s| ==> r[k] == LowerChar(s[k])
  {
    seq(|s|, k requires 0 <= k < |s| => LowerChar(s[k]))
  }

  predicate IsLowerAscii(c: char) { 'a' <= c <= 'z' }
  predicate IsUpperAscii(c: char) { 'A' <= c <= 'Z' }
  predicate IsDigit(c: char) { '0' <= c <= '9' }

  predicate AllDigits(s: string) {
    forall k :: 0 <= k < |s| ==> IsDigit(s[k])
  }

  function DigitChar(d: nat): (c: char)
    requires d < 10
    ensures IsDigit(c)
  {
    ('0' as int + d) as char
  }

  function DigitValue(c: char): (d: nat)
    requires IsDigit(c)
    ensures d < 10
  {
    c as int - '0' as int
  }

  /** The value of a string of decimal digits. */
  function DecimalValue(s: string): int
    requires AllDigits(s)
  {
    if s == [] then 0 else DecimalValue(s[..|s| - 1]) * 10 + DigitValue(s[|s| - 1])
  }

  /** `n.toString()` for a non-negative integer: decimal digits, no leading zero. */
  function NatToString(n: nat): (r: string)
    ensures |r| >= 1 && AllDigits(r)
    ensures r[0] == '0' ==> n == 0
  {
    if n < 10 then [DigitChar(n)] else NatToString(n / 10) + [DigitChar(n % 10)]
  }

  /** Decimal rendering and its value are inverse: `toString` loses nothing. */
  lemma {:induction false} NatToStringValue(n: nat)
    ensures DecimalValue(NatToString(n)) == n
  {
    var r := NatToString(n);
    if n >= 10 {
      NatToStringValue(n / 10);
      assert r[..|r| - 1] == NatToString(n / 10);
    }
  }

  /** Distinct numbers render to distinct strings. */
  lemma NatToStringInjective(m: nat, n: nat)
    requires NatToString(m) == NatToString(n)
    ensures m == n
  {
    NatToStringValue(m);
    NatToStringValue(n);
  }

  /** `n.toString()` for any integer. */
  function IntToString(n: int): (r: string)
    ensures |r| >= 1
    ensures r[0] == '-' <==> n < 0
  {
    if n < 0 then "-" + NatToString(-n) else NatToString(n)
  }

  /** `s.padStart(width, fill)`. */
  function PadStart(s: string, width: nat, fill: char): (r: string)
    ensures |r| == if |s| >= width then |s| else width
    ensures r[|r| - |s|..] == s
    ensures forall k :: 0 <= k < |r| - |s| ==> r[k] == fill
  {
    if |s| >= width then s else seq(width - |s|, _ => fill) + s
  }

  /** The longest prefix of `s` made of decimal digits. */
  function DigitPrefix(s: string): (r: string)
    ensures AllDigits(r) && |r| <= |s| && r == s[..|r|]
    ensures |r| < |s| ==> !IsDigit(s[|r|])
  {
    if s == [] || !IsDigit(s[0]) then [] else [s[0]] + DigitPrefix(s[1..])
  }

  /**
   * `Number.parseInt(s, 10)`: leading white space is skipped, an optional sign is read,
   * then the longest run of decimal digits; `None` stands for `NaN` (no digit at all).
   */
  function ParseInt(s: string): Option<int> {
    ParseSigned(TrimStart(s))
  }

  /** Reads an optional sign followed by digits at the start of `t`. */
  function ParseSigned(t: string): Option<int> {
    var digits := DigitPrefix(SignStripped(t));
    if digits == [] then None
    else if t != [] && t[0] == '-' then Some(-DecimalValue(digits))
    else Some(DecimalValue(digits))
  }

  function SignStripped(t: string): string {
    if t != [] && (t[0] == '-' || t[0] == '+') then t[1..] else t
  }

  lemma {:induction false} DigitPrefixOfDigits(s: string)
    requires AllDigits(s)
    ensures DigitPrefix(s) == s
  {
    if s != [] {
      DigitPrefixOfDigits(s[1..]);
    }
  }

  lemma ParseIntOfDigits(r: string)
    requires |r| >= 1 && AllDigits(r)
    ensures ParseInt(r) == Some(DecimalValue(r))
  {
    DigitPrefixOfDigits(r);
    assert !IsSpace(r[0]);
    assert TrimStart(r) == r;
    assert SignStripped(r) == r;
  }

  lemma ParseIntOfNegativeDigits(r: string)
    requires |r| >= 1 && AllDigits(r)
    ensures ParseInt("-" + r) == Some(-DecimalValue(r))
  {
    var m := "-" + r;
    assert TrimStart(m) == m by {
      assert m[0] == '-' && !IsSpace(m[0]);
    }
    ParseSignedNegative(m, r);
  }

  /** A minus sign followed by digits reads as the negated digits. */
  lemma ParseSignedNegative(t: string, r: string)
    requires |r| >= 1 && AllDigits(r) && t == "-" + r
    ensures ParseSigned(t) == Some(-DecimalValue(r))
  {
    assert t[0] == '-' && t[1..] == r;
    assert SignStripped(t) == r;
    DigitPrefixOfDigits(r);
  }

  /** `parseInt` reads back what `toString` wrote. */
  lemma ParseIntOfIntToString(n: int)
    ensures ParseInt(IntToString(n)) == Some(n)
  {
    if n < 0 {
      ParseIntOfNegative(n);
    } else {
      ParseIntOfNatToString(n);
    }
  }

  lemma ParseIntOfNatToString(n: nat)
    ensures ParseInt(NatToString(n)) == Some(n)
  {
    NatToStringValue(n);
    ParseIntOfDigits(NatToString(n));
  }

  lemma ParseIntOfNegative(n: int)
    requires n < 0
    ensures ParseInt(IntToString(n)) == Some(n)
  {
    var r := NatToString(-n);
    assert IntToString(n) == "-" + r;
    assert DecimalValue(r) == -n by {
      NatToStringValue(-n);
    }
    ParseIntOfNegativeDigits(r);
  }

  // ---------------------------------------------------------------------------
  // `s.replace(/P+/g, sub)` for a character class P

  /** Drops the run of characters satisfying `p` at the start of `s`. */
  function DropRun(s: string, p: char -> bool): (r: string)
    ensures |r| <= |s| && r == s[|s| - |r|..]
    ensures r == [] || !p(r[0])
    ensures forall k :: 0 <= k < |s| - |r| ==> p(s[k])
  {
    if s == [] || !p(s[0]) then s else DropRun(s[1..], p)
  }

  /**
   * `s.replace(/P+/g, sub)`: every maximal run of characters satisfying `p` becomes one `sub`;
   * every other character is kept.
   */
  function ReplaceRuns(s: string, p: char -> bool, sub: char): (r: string)
    ensures |r| <= |s| && (|s| > 0 ==> |r| > 0)
    ensures forall k :: 0 <= k < |r| ==> r[k] == sub || (!p(r[k]) && r[k] in s)
    decreases |s|
  {
    if s == [] then []
    else if p(s[0]) then
      var rest := DropRun(s[1..], p);
      assert forall c :: c in rest ==> c in s by {
        assert rest == s[1..][|s| - 1 - |rest|..];
      }
      [sub] + ReplaceRuns(rest, p, sub)
    else [s[0]] + ReplaceRuns(s[1..], p, sub)
  }

  /** The characters that are neither in a replaced run nor the replacement, in order. */
  function Others(s: string, p: char -> bool, sub: char): string {
    if s == [] then []
    else (if !p(s[0]) && s[0] != sub then [s[0]] else []) + Others(s[1..], p, sub)
  }

  lemma {:induction false} OthersOfRun(s: string, p: char -> bool, sub: char)
    ensures Others(s, p, sub) == Others(DropRun(s, p), p, sub)
  {
    if s != [] && p(s[0]) {
      OthersOfRun(s[1..], p, sub);
    }
  }

  /** Replacing runs keeps every other character, in its original order. */
  lemma {:induction false} ReplaceRunsKeepsOthers(s: string, p: char -> bool, sub: char)
    ensures Others(ReplaceRuns(s, p, sub), p, sub) == Others(s, p, sub)
    decreases |s|
  {
    if s != [] {
      var r := ReplaceRuns(s, p, sub);
      if p(s[0]) {
        var rest := DropRun(s[1..], p);
        ReplaceRunsKeepsOthers(rest, p, sub);
        OthersOfRun(s[1..], p, sub);
        assert r[1..] == ReplaceRuns(rest, p, sub);
      } else {
        ReplaceRunsKeepsOthers(s[1..], p, sub);
        assert r[1..] == ReplaceRuns(s[1..], p, sub);
      }
    }
  }

  /** Dropping a leading run stops at the first character outside the class. */
  lemma {:induction false} DropRunSplit(a: string, x: char, b: string, p: char -> bool)
    requires !p(x)
    ensures DropRun(a + [x] + b, p) == DropRun(a, p) + [x] + b
    decreases |a|
  {
    var s := a + [x] + b;
    if a == [] {
      assert s == [x] + b;
    } else if p(a[0]) {
      assert s[1..] == a[1..] + [x] + b;
      DropRunSplit(a[1..], x, b, p);
    }
  }

  /**
   * A character outside the class splits the replacement: what comes before it and what
   * comes after it are replaced independently, and the character itself is kept.
   */
  lemma {:induction false} ReplaceRunsSplit(a: string, x: char, b: string, p: char -> bool, sub: char)
    requires !p(x)
    ensures ReplaceRuns(a + [x] + b, p, sub) == ReplaceRuns(a, p, sub) + [x] + ReplaceRuns(b, p, sub)
    decreases |a|
  {
    if a == [] {
      ReplaceRunsSplitHere(x, b, p, sub);
    } else if p(a[0]) {
      DropRunSplit(a[1..], x, b, p);
      ReplaceRunsSplit(DropRun(a[1..], p), x, b, p, sub);
      ReplaceRunsSplitRun(a, x, b, p, sub);
    } else {
      ReplaceRunsSplit(a[1..], x, b, p, sub);
      ReplaceRunsSplitKept(a, x, b, p, sub);
    }
  }

  lemma ReplaceRunsSplitHere(x: char, b: string, p: char -> bool, sub: char)
    requires !p(x)
    ensures ReplaceRuns([] + [x] + b, p, sub) == ReplaceRuns([], p, sub) + [x] + ReplaceRuns(b, p, sub)
  {
    var s := [] + [x] + b;
    assert s[0] == x && s[1..] == b;
  }

  lemma ConsAround<T>(h: T, t: seq<T>, x: T, u: seq<T>)
    ensures [h] + (t + [x] + u) == ([h] + t) + [x] + u
  {
  }

  lemma ReplaceRunsSplitRun(a: string, x: char, b: string, p: char -> bool, sub: char)
    requires a != [] && p(a[0]) && !p(x)
    requires DropRun(a[1..] + [x] + b, p) == DropRun(a[1..], p) + [x] + b
    requires ReplaceRuns(DropRun(a[1..], p) + [x] + b, p, sub)
      == ReplaceRuns(DropRun(a[1..], p), p, sub) + [x] + ReplaceRuns(b, p, sub)
    ensures ReplaceRuns(a + [x] + b, p, sub) == ReplaceRuns(a, p, sub) + [x] + ReplaceRuns(b, p, sub)
  {
    SplitTail(a, x, b);
    ReplaceRunsAtRun(a + [x] + b, p, sub);
    ReplaceRunsAtRun(a, p, sub);
    ConsAround(sub, ReplaceRuns(DropRun(a[1..], p), p, sub), x, ReplaceRuns(b, p, sub));
  }

  lemma SplitTail<T>(a: seq<T>, x: T, b: seq<T>)
    requires a != []
    ensures (a + [x] + b)[0] == a[0] && (a + [x] + b)[1..] == a[1..] + [x] + b
  {
  }

  lemma ReplaceRunsAtRun(s: string, p: char -> bool, sub: char)
    requires s != [] && p(s[0])
    ensures ReplaceRuns(s, p, sub) == [sub] + ReplaceRuns(DropRun(s[1..], p), p, sub)
  {
  }

  lemma ReplaceRunsSplitKept(a: string, x: char, b: string, p: char -> bool, sub: char)
    requires a != [] && !p(a[0]) && !p(x)
    requires ReplaceRuns(a[1..] + [x] + b, p, sub)
      == ReplaceRuns(a[1..], p, sub) + [x] + ReplaceRuns(b, p, sub)
    ensures ReplaceRuns(a + [x] + b, p, sub) == ReplaceRuns(a, p, sub) + [x] + ReplaceRuns(b, p, sub)
  {
    SplitTail(a, x, b);
    ReplaceRunsAtKept(a + [x] + b, p, sub);
    ReplaceRunsAtKept(a, p, sub);
    ConsAround(a[0], ReplaceRuns(a[1..], p, sub), x, ReplaceRuns(b, p, sub));
  }

  lemma ReplaceRunsAtKept(s: string, p: char -> bool, sub: char)
    requires s != [] && !p(s[0])
    ensures ReplaceRuns(s, p, sub) == [s[0]] + ReplaceRuns(s[1..], p, sub)
  {
  }

  /** A whole non-empty run becomes exactly one replacement character. */
  lemma ReplaceRunsOfRun(run: string, p: char -> bool, sub: char)
    requires run != [] && forall k :: 0 <= k < |run| ==> p(run[k])
    ensures ReplaceRuns(run, p, sub) == [sub]
  {
    var rest := DropRun(run[1..], p);
    if rest != [] {
      assert rest[0] == run[1..][|run| - 1 - |rest|];
    }
  }

  /** A string with no run to replace is left as it is. */
  lemma {:induction false} ReplaceRunsNoMatch(s: string, p: char -> bool, sub: char)
    requires forall k :: 0 <= k < |s| ==> !p(s[k])
    ensures ReplaceRuns(s, p, sub) == s
  {
    if s != [] {
      ReplaceRunsNoMatch(s[1..], p, sub);
    }
  }

  /** Drops the run of characters satisfying `p` at the end of `s`. */
  function DropRunEnd(s: string, p: char -> bool): (r: string)
    ensures |r| <= |s| && r == s[..|r|]
    ensures r == [] || !p(r[|r| - 1])
    ensures forall k :: |r| <= k < |s| ==> p(s[k])
  {
    if s == [] || !p(s[|s| - 1]) then s else DropRunEnd(s[..|s| - 1], p)
  }

  /** `s.replace(/[^P]/g, '')`: the characters satisfying `p`, in order. */
  function KeepOnly(s: string, p: char -> bool): (r: string)
    ensures |r| <= |s|
    ensures forall k :: 0 <= k < |r| ==> p(r[k]) && r[k] in s
    ensures (forall k :: 0 <= k < |s| ==> p(s[k])) ==> r == s
  {
    if s == [] then []
    else
      var rest := KeepOnly(s[1..], p);
      assert forall c :: c in rest ==> c in s by {
        forall c | c in rest ensures c in s {
          assert c in s[1..];
        }
      }
      if p(s[0]) then [s[0]] + rest else rest
  }

  /**
   * When the replacement itself belongs to the class, the result never has the
   * replacement followed by another member of the class.
   */
  lemma {:induction false} ReplaceRunsNoDoubled(s: string, p: char -> bool, sub: char)
    requires p(sub)
    ensures var r := ReplaceRuns(s, p, sub);
            forall k :: 0 <= k < |r| - 1 && r[k] == sub ==> !p(r[k + 1])
    decreases |s|
  {
    if s != [] {
      var r := ReplaceRuns(s, p, sub);
      if p(s[0]) {
        var rest := DropRun(s[1..], p);
        ReplaceRunsNoDoubled(rest, p, sub);
        assert r[1..] == ReplaceRuns(rest, p, sub);
        if rest != [] {
          assert ReplaceRuns(rest, p, sub)[0] == rest[0];
        }
      } else {
        ReplaceRunsNoDoubled(s[1..], p, sub);
        assert r[1..] == ReplaceRuns(s[1..], p, sub);
      }
    }
  }

  /** A string whose class members are single copies of the replacement is left as it is. */
  lemma {:induction false} ReplaceRunsOfSingles(s: string, p: char -> bool, sub: char)
    requires forall k :: 0 <= k < |s| && p(s[k]) ==> s[k] == sub
    requires forall k :: 0 <= k < |s| - 1 && p(s[k]) ==> !p(s[k + 1])
    ensures ReplaceRuns(s, p, sub) == s
    decreases |s|
  {
    if s != [] {
      ReplaceRunsOfSingles(s[1..], p, sub);
      if p(s[0]) {
        assert DropRun(s[1..], p) == s[1..];
      }
    }
  }
}
