/**
 * The handful of Python string primitives the scripts rely on, restricted to
 * what the model needs: `str.isspace`, `str.isdigit`, `str.strip`,
 * `str.lower`, `str.startswith`/`endswith`, the `in` substring test,
 * `str.replace`, `str.split` with a one-character separator, `str.join`,
 * `str.title` and `str(n)` for a natural number.
 */
module Text {

  /** The characters Python's `str.isspace` (and the regex class `\s`) accept. */
  predicate IsSpace(c: char) {
    || c == ' '
    || ('\t' <= c <= '\r')
    || ('\U{1C}' <= c <= '\U{1F}')
    || c == '\U{85}'
    || c == '\U{A0}'
    || c == '\U{1680}'
    || ('\U{2000}' <= c <= '\U{200A}')
    || c == '\U{2028}'
    || c == '\U{2029}'
    || c == '\U{202F}'
    || c == '\U{205F}'
    || c == '\U{3000}'
  }

  /** A decimal digit (ASCII only). */
  predicate IsDigit(c: char) {
    '0' <= c <= '9'
  }

  predicate IsUpper(c: char) {
    'A' <= c <= 'Z'
  }

  predicate IsLower(c: char) {
    'a' <= c <= 'z'
  }

  /** A letter that has an upper- and a lower-case form (ASCII only). */
  predicate IsCased(c: char) {
    IsUpper(c) || IsLower(c)
  }

  function ToLower(c: char): (d: char)
    ensures IsUpper(c) ==> IsLower(d)
    ensures !IsUpper(c) ==> d == c
  {
    if IsUpper(c) then c - 'A' + 'a' else c
  }

  function ToUpper(c: char): (d: char)
    ensures IsLower(c) ==> IsUpper(d)
    ensures !IsLower(c) ==> d == c
  {
    if IsLower(c) then c - 'a' + 'A' else c
  }

  /** Python's `str.lower()` on ASCII letters. */
  function Lower(s: string): (r: string)
    ensures |r| == |s|
    ensures forall i :: 0 <= i < |s| ==> r[i] == ToLower(s[i])
  {
    seq(|s|, i requires 0 <= i < |s| => ToLower(s[i]))
  }

  predicate AllSpace(s: string) {
    forall i :: 0 <= i < |s| ==> IsSpace(s[i])
  }

  predicate AllDigits(s: string) {
    forall i :: 0 <= i < |s| ==> IsDigit(s[i])
  }

  /** Length of the longest prefix of `s` whose characters all satisfy `p`. */
  function CountLeading(s: string, p: char -> bool): (n: nat)
    ensures n <= |s|
    ensures forall i :: 0 <= i < n ==> p(s[i])
    ensures n < |s| ==> !p(s[n])
    decreases |s|
  {
    if |s| == 0 || !p(s[0]) then 0 else 1 + CountLeading(s[1..], p)
  }

  /** Length of the longest suffix of `s` whose characters all satisfy `p`. */
  function CountTrailing(s: string, p: char -> bool): (n: nat)
    ensures n <= |s|
    ensures forall i :: |s| - n <= i < |s| ==> p(s[i])
    ensures n < |s| ==> !p(s[|s| - n - 1])
    decreases |s|
  {
    if |s| == 0 || !p(s[|s| - 1]) then 0 else 1 + CountTrailing(s[..|s| - 1], p)
  }

  /** Python's `str.strip()`: drop leading and trailing whitespace. */
  function Strip(s: string): (r: string)
    ensures |r| <= |s|
    ensures |r| == 0 <==> AllSpace(s)
    ensures |r| > 0 ==> !IsSpace(r[0]) && !IsSpace(r[|r| - 1])
    ensures |s| > 0 && !IsSpace(s[0]) ==> r == s[..|r|] && AllSpace(s[|r|..])
    ensures CountLeading(s, IsSpace) + |r| <= |s|
    ensures r == s[CountLeading(s, IsSpace)..CountLeading(s, IsSpace) + |r|]
    ensures AllSpace(s[CountLeading(s, IsSpace) + |r|..])
  {
    var a := CountLeading(s, IsSpace);
    var b := CountTrailing(s[a..], IsSpace);
    StripCut(s, a, b);
    s[a..|s| - b]
  }

  /** Everything `Strip` promises, about the text between the two whitespace runs. */
  lemma StripCut(s: string, a: nat, b: nat)
    requires a == CountLeading(s, IsSpace) && b == CountTrailing(s[a..], IsSpace)
    ensures a + b <= |s|
    ensures var r := s[a..|s| - b];
      && (|r| == 0 <==> AllSpace(s))
      && (|r| > 0 ==> !IsSpace(r[0]) && !IsSpace(r[|r| - 1]))
      && (|s| > 0 && !IsSpace(s[0]) ==> r == s[..|r|] && AllSpace(s[|r|..]))
      && AllSpace(s[a + |r|..])
  {
    StripCutEmpty(s, a, b);
    StripCutEnds(s, a, b);
    StripCutTail(s, a, b);
    if |s| > 0 && !IsSpace(s[0]) {
      assert a == 0;
    }
  }

  /** Both whitespace runs together cover `s` exactly when `s` is all whitespace. */
  lemma StripCutEmpty(s: string, a: nat, b: nat)
    requires a == CountLeading(s, IsSpace) && b == CountTrailing(s[a..], IsSpace)
    ensures a + b <= |s|
    ensures a + b == |s| <==> AllSpace(s)
  {
    if AllSpace(s) {
      assert a == |s|;
    }
  }

  /** What is left between the two whitespace runs neither starts nor ends with whitespace. */
  lemma StripCutEnds(s: string, a: nat, b: nat)
    requires a == CountLeading(s, IsSpace) && b == CountTrailing(s[a..], IsSpace)
    ensures a + b < |s| ==> !IsSpace(s[a]) && !IsSpace(s[|s| - b - 1])
  {
    var t := s[a..];
    if a + b < |s| {
      assert a < |s| && b < |t|;
      assert !IsSpace(t[|t| - b - 1]);
      assert t[|t| - b - 1] == s[|s| - b - 1];
    }
  }

  /** The trailing whitespace run, cut from `s` itself, is all whitespace. */
  lemma StripCutTail(s: string, a: nat, b: nat)
    requires a == CountLeading(s, IsSpace) && b == CountTrailing(s[a..], IsSpace)
    ensures a + b <= |s| && AllSpace(s[|s| - b..])
  {
    var t := s[a..];
    var u := s[|s| - b..];
    assert forall i :: 0 <= i < |u| ==> u[i] == t[|t| - b + i];
  }

  lemma StripIdempotent(s: string)
    ensures Strip(Strip(s)) == Strip(s)
  {
    var r := Strip(s);
    if |r| > 0 {
      assert CountLeading(r, IsSpace) == 0;
      assert CountTrailing(r, IsSpace) == 0;
    }
  }

  /** A digit-led string keeps its first character through a trim. */
  lemma StripDigitLed(s: string)
    requires |s| > 0 && IsDigit(s[0])
    ensures |Strip(s)| > 0 && Strip(s)[0] == s[0]
  {
    assert !IsSpace(s[0]);
    assert !AllSpace(s);
  }

  /** A string with no whitespace at either end is its own trim. */
  lemma StripTrimmed(s: string)
    requires |s| > 0 && !IsSpace(s[0]) && !IsSpace(s[|s| - 1])
    ensures Strip(s) == s
  {
    var r := Strip(s);
    assert !AllSpace(s);
  }

  predicate StartsWith(s: string, p: string) {
    |p| <= |s| && s[..|p|] == p
  }

  predicate EndsWith(s: string, p: string) {
    |p| <= |s| && s[|s| - |p|..] == p
  }

  /** `p` occurs in `s` starting at index `i`. */
  predicate OccursAt(s: string, p: string, i: int) {
    0 <= i && i + |p| <= |s| && s[i..i + |p|] == p
  }

  /** Python's `p in s`, scanning left to right. */
  predicate Contains(s: string, p: string)
    decreases |s|
  {
    StartsWith(s, p) || (|s| > 0 && Contains(s[1..], p))
  }

  /** The scanning definition of `Contains` agrees with "occurs at some index". */
  lemma {:induction false} ContainsIff(s: string, p: string)
    ensures Contains(s, p) <==> exists i :: OccursAt(s, p, i)
    decreases |s|
  {
    if StartsWith(s, p) {
      assert OccursAt(s, p, 0);
    } else if |s| == 0 {
      assert forall i :: !OccursAt(s, p, i);
    } else {
      ContainsIff(s[1..], p);
      if Contains(s[1..], p) {
        var i :| OccursAt(s[1..], p, i);
        assert s[1..][i..i + |p|] == s[i + 1..i + 1 + |p|];
        assert OccursAt(s, p, i + 1);
      } else {
        forall i | OccursAt(s, p, i) ensures OccursAt(s[1..], p, i - 1) {
          assert i != 0;
          assert s[1..][i - 1..i - 1 + |p|] == s[i..i + |p|];
        }
      }
    }
  }

  /** A pattern with a character that `s` lacks does not occur in `s`. */
  lemma {:induction false} MissingChar(s: string, p: string, k: nat)
    requires k < |p| && p[k] !in s
    ensures !Contains(s, p)
    decreases |s|
  {
    if |p| <= |s| {
      assert s[..|p|][k] == s[k];
    }
    if |s| > 0 {
      assert p[k] !in s[1..];
      MissingChar(s[1..], p, k);
    }
  }

  /**
   * Python's `s.replace(pat, rep)`: every occurrence of `pat`, found left to
   * right without overlap, is replaced by `rep`.
   */
  function ReplaceAll(s: string, pat: string, rep: string): (r: string)
    requires |pat| > 0
    ensures !Contains(s, pat) ==> r == s
    ensures |s| > 0 && !StartsWith(s, pat) ==> |r| > 0 && r[0] == s[0]
    decreases |s|
  {
    if |s| < |pat| then s
    else if s[..|pat|] == pat then rep + ReplaceAll(s[|pat|..], pat, rep)
    else [s[0]] + ReplaceAll(s[1..], pat, rep)
  }

  /**
   * The leftmost occurrence of `pat` is replaced and the scan resumes right
   * after it: together with the "no occurrence" clause of `ReplaceAll` this
   * pins the result down completely.
   */
  lemma {:induction false} ReplaceAllLeftmost(p: string, pat: string, q: string, rep: string)
    requires |pat| > 0
    requires forall i :: 0 <= i < |p| ==> !OccursAt(p + pat + q, pat, i)
    ensures ReplaceAll(p + pat + q, pat, rep) == p + rep + ReplaceAll(q, pat, rep)
    decreases |p|
  {
    var s := p + pat + q;
    if |p| == 0 {
      assert s == pat + q;
      assert s[..|pat|] == pat;
      assert s[|pat|..] == q;
    } else {
      var tail := p[1..] + pat + q;
      assert s[1..] == tail;
      assert !OccursAt(s, pat, 0);
      forall i | 0 <= i < |p[1..]| ensures !OccursAt(tail, pat, i) {
        OccursShift(s, pat, i);
      }
      ReplaceAllLeftmost(p[1..], pat, q, rep);
      assert ReplaceAll(s, pat, rep) == [p[0]] + ReplaceAll(tail, pat, rep);
      ConsConcat(p, rep, ReplaceAll(q, pat, rep));
    }
  }

  /** An occurrence one place further into `s` is an occurrence in `s` without its first character. */
  lemma OccursShift(s: string, p: string, i: nat)
    requires |s| > 0
    ensures OccursAt(s, p, i + 1) <==> OccursAt(s[1..], p, i)
  {
    if i + 1 + |p| <= |s| {
      assert s[i + 1..i + 1 + |p|] == s[1..][i..i + |p|];
    }
  }

  /** Regrouping a concatenation whose first piece is split off at its head. */
  lemma ConsConcat<T>(p: seq<T>, a: seq<T>, b: seq<T>)
    requires |p| > 0
    ensures [p[0]] + (p[1..] + a + b) == p + a + b
  {
  }

  /** Concatenation is associative. */
  lemma ConcatAssoc<T>(a: seq<T>, b: seq<T>, c: seq<T>)
    ensures a + b + c == a + (b + c)
  {
  }

  /** Python's `s.replace(a, b)` for single characters. */
  function ReplaceChar(s: string, a: char, b: char): (r: string)
    ensures |r| == |s|
    ensures forall i :: 0 <= i < |s| ==> r[i] == (if s[i] == a then b else s[i])
    ensures a != b ==> a !in r
    decreases |s|
  {
    if |s| == 0 then ""
    else [if s[0] == a then b else s[0]] + ReplaceChar(s[1..], a, b)
  }

  /** Python's `s.split(sep)` for a one-character separator. */
  function Split(s: string, sep: char): (parts: seq<string>)
    ensures |parts| >= 1
    ensures forall k :: 0 <= k < |parts| ==> sep !in parts[k]
    decreases |s|
  {
    if |s| == 0 then [""]
    else
      var rest := Split(s[1..], sep);
      if s[0] == sep then [""] + rest
      else [[s[0]] + rest[0]] + rest[1..]
  }

  /** Python's `sep.join(parts)`. */
  function Join(parts: seq<string>, sep: string): (r: string)
    ensures |parts| == 1 ==> r == parts[0]
    decreases |parts|
  {
    if |parts| == 0 then ""
    else if |parts| == 1 then parts[0]
    else parts[0] + sep + Join(parts[1..], sep)
  }

  /** Joining the pieces of a split with the separator gives back the string. */
  lemma {:induction false} JoinSplit(s: string, sep: char)
    ensures Join(Split(s, sep), [sep]) == s
    decreases |s|
  {
    if |s| > 0 {
      var rest := Split(s[1..], sep);
      JoinSplit(s[1..], sep);
      if s[0] == sep {
        assert Split(s, sep) == [""] + rest;
        assert ([""] + rest)[1..] == rest;
      } else {
        var parts := Split(s, sep);
        assert parts == [[s[0]] + rest[0]] + rest[1..];
        if |rest| == 1 {
          assert parts == [[s[0]] + rest[0]];
        } else {
          assert parts[1..] == rest[1..];
          assert Join(rest, [sep]) == rest[0] + [sep] + Join(rest[1..], [sep]);
        }
      }
    }
  }

  /** Splitting a join of separator-free pieces gives the pieces back. */
  lemma {:induction false} SplitJoin(parts: seq<string>, sep: char)
    requires |parts| >= 1
    requires forall k :: 0 <= k < |parts| ==> sep !in parts[k]
    ensures Split(Join(parts, [sep]), sep) == parts
    decreases |parts|
  {
    if |parts| == 1 {
      SplitFree(parts[0], sep);
    } else {
      SplitJoin(parts[1..], sep);
      SplitPrefix(parts[0], sep, Join(parts[1..], [sep]));
      assert Join(parts, [sep]) == parts[0] + [sep] + Join(parts[1..], [sep]);
      assert [parts[0]] + parts[1..] == parts;
    }
  }

  lemma {:induction false} SplitFree(s: string, sep: char)
    requires sep !in s
    ensures Split(s, sep) == [s]
    decreases |s|
  {
    if |s| > 0 {
      assert sep !in s[1..];
      SplitFree(s[1..], sep);
      assert [s[0]] + s[1..] == s;
    }
  }

  lemma {:induction false} SplitPrefix(a: string, sep: char, b: string)
    requires sep !in a
    ensures Split(a + [sep] + b, sep) == [a] + Split(b, sep)
    decreases |a|
  {
    var s := a + [sep] + b;
    if |a| == 0 {
      assert s == [sep] + b;
      assert s[1..] == b;
    } else {
      assert s[1..] == a[1..] + [sep] + b;
      assert sep !in a[1..];
      SplitPrefix(a[1..], sep, b);
      assert [a[0]] + a[1..] == a;
    }
  }

  /** Splitting at a separator splits the two sides independently. */
  lemma {:induction false} SplitConcat(a: string, sep: char, b: string)
    ensures Split(a + [sep] + b, sep) == Split(a, sep) + Split(b, sep)
    decreases |a|
  {
    var s := a + [sep] + b;
    if |a| == 0 {
      SplitPrefix(a, sep, b);
    } else {
      assert s[1..] == a[1..] + [sep] + b;
      SplitConcat(a[1..], sep, b);
      var left, right := Split(a[1..], sep), Split(b, sep);
      assert s[0] == a[0];
      if a[0] == sep {
        assert Split(s, sep) == [""] + (left + right);
        assert Split(a, sep) == [""] + left;
        ConcatAssoc([""], left, right);
      } else {
        assert Split(s, sep) == [[a[0]] + (left + right)[0]] + (left + right)[1..];
        assert Split(a, sep) == [[a[0]] + left[0]] + left[1..];
        HeadRegroup([a[0]], left, right);
      }
    }
  }

  /** Extending the first piece of a list of pieces commutes with appending more pieces. */
  lemma HeadRegroup(x: string, left: seq<string>, right: seq<string>)
    requires |left| > 0
    ensures [x + (left + right)[0]] + (left + right)[1..] == [x + left[0]] + left[1..] + right
  {
    assert (left + right)[0] == left[0];
    assert (left + right)[1..] == left[1..] + right;
  }

  /** A character missing from a string is missing from every piece of its split. */
  lemma {:induction false} SplitKeepsFree(s: string, sep: char, c: char)
    requires c !in s
    ensures forall k :: 0 <= k < |Split(s, sep)| ==> c !in Split(s, sep)[k]
    decreases |s|
  {
    if |s| > 0 {
      assert c !in s[1..];
      SplitKeepsFree(s[1..], sep, c);
    }
  }

  /** A character in neither the pieces nor the separator is not in the join. */
  lemma {:induction false} JoinFree(parts: seq<string>, sep: string, c: char)
    requires c !in sep
    requires forall k :: 0 <= k < |parts| ==> c !in parts[k]
    ensures c !in Join(parts, sep)
    decreases |parts|
  {
    if |parts| > 1 {
      JoinFree(parts[1..], sep, c);
    }
  }

  /**
   * Python's `str.title()` on ASCII letters: a letter directly after a cased
   * letter is lower-cased, every other letter is upper-cased.
   */
  function TitleCase(s: string): (r: string)
    ensures |r| == |s|
    ensures forall i :: 0 <= i < |s| ==>
      r[i] == (if i > 0 && IsCased(s[i - 1]) then ToLower(s[i]) else ToUpper(s[i]))
  {
    TitleCaseAfter(s, false)
  }

  /** Title-casing never introduces a character that is not a letter. */
  lemma TitleCaseFree(s: string, c: char)
    requires !IsCased(c) && c !in s
    ensures c !in TitleCase(s)
  {
    var r := TitleCase(s);
    forall i | 0 <= i < |r| ensures r[i] != c {
      var lower, upper := ToLower(s[i]), ToUpper(s[i]);
      assert s[i] != c && lower != c && upper != c;
      assert r[i] == (if i > 0 && IsCased(s[i - 1]) then lower else upper);
    }
  }

  function TitleCaseAfter(s: string, afterCased: bool): (r: string)
    ensures |r| == |s|
    ensures |s| > 0 ==> r[0] == (if afterCased then ToLower(s[0]) else ToUpper(s[0]))
    ensures forall i :: 0 < i < |s| ==>
      r[i] == (if IsCased(s[i - 1]) then ToLower(s[i]) else ToUpper(s[i]))
    decreases |s|
  {
    if |s| == 0 then ""
    else
      var rest := TitleCaseAfter(s[1..], IsCased(s[0]));
      [if afterCased then ToLower(s[0]) else ToUpper(s[0])] + rest
  }

  /** The decimal digit for `d < 10`. */
  function DigitChar(d: nat): (c: char)
    requires d < 10
    ensures IsDigit(c)
  {
    '0' + d as char
  }

  /** Python's `str(n)` for a natural number: decimal, no leading zeros. */
  function Decimal(n: nat): (r: string)
    ensures |r| >= 1 && AllDigits(r)
    ensures |r| > 1 ==> r[0] != '0'
  {
    if n < 10 then [DigitChar(n)] else Decimal(n / 10) + [DigitChar(n % 10)]
  }

  /** The value of a string of decimal digits. */
  function DecimalValue(s: string): nat
    requires AllDigits(s)
  {
    if |s| == 0 then 0 else 10 * DecimalValue(s[..|s| - 1]) + (s[|s| - 1] - '0') as nat
  }

  /** Reading back the decimal form of `n` gives `n`. */
  lemma {:induction false} DecimalRoundTrip(n: nat)
    ensures DecimalValue(Decimal(n)) == n
  {
    if n >= 10 {
      DecimalRoundTrip(n / 10);
      var s := Decimal(n);
      assert s[..|s| - 1] == Decimal(n / 10);
    }
  }
}
