/**
 * The address normaliser `clean_address`: a raw scraped address becomes a
 * best-effort civic address, or `None` when it is blank, marked as sold, or
 * does not start with a civic number.
 */
module Address {
  import opened Wrappers
  import opened Text

  /** One entry of the fix-up table: a literal to look for and its replacement. */
  datatype Rewrite = Rewrite(bad: string, good: string)

  /** The neighbourhood-specific fix-ups, applied once each, in this order. */
  const Rewrites: seq<Rewrite> := [
    Rewrite("Montp", "Montpetit"),
    Rewrite("Mountain Sight", "Mountain Sights"),
    Rewrite("Mountain Sightss", "Mountain Sights"),
    Rewrite("Ch.", "Chemin"),
    Rewrite("Boul.", "Boulevard"),
    Rewrite("Ave.", "Avenue"),
    Rewrite(" Av ", " Avenue "),
    Rewrite("Avenue De Marlowe", "Avenue Marlowe"),
    Rewrite("Chemin De La Cote Saint", "Chemin de la C\U{F4}te-Saint-Luc")
  ]

  /** The lower-case marker of a listing that has already been sold. */
  const SoldMarker := "vendu"

  /** Every key is non-empty and starts with something other than a digit. */
  predicate SafeTable(table: seq<Rewrite>) {
    forall k :: 0 <= k < |table| ==> |table[k].bad| > 0 && !IsDigit(table[k].bad[0])
  }

  /**
   * One table entry: a key at the very end is rewritten there only;
   * otherwise every occurrence of the key is rewritten.
   */
  function ApplyRewrite(s: string, w: Rewrite): (r: string)
    requires |w.bad| > 0
    ensures EndsWith(s, w.bad) ==>
      |r| == |s| - |w.bad| + |w.good| && StartsWith(r, s[..|s| - |w.bad|]) && EndsWith(r, w.good)
    ensures !Contains(s, w.bad) ==> r == s
    ensures |s| > 0 && IsDigit(s[0]) && !IsDigit(w.bad[0]) ==> |r| > 0 && r[0] == s[0]
  {
    if EndsWith(s, w.bad) then
      assert OccursAt(s, w.bad, |s| - |w.bad|);
      ContainsIff(s, w.bad);
      s[..|s| - |w.bad|] + w.good
    else if Contains(s, w.bad) then ReplaceAll(s, w.bad, w.good)
    else s
  }

  /** An entry whose key occurs, but not at the end, goes through `str.replace`. */
  lemma ApplyRewriteReplaces(s: string, w: Rewrite)
    requires |w.bad| > 0 && Contains(s, w.bad) && !EndsWith(s, w.bad)
    ensures ApplyRewrite(s, w) == ReplaceAll(s, w.bad, w.good)
  {
  }

  /**
   * An entry whose key occurs, but not at the end: the text before the first
   * occurrence is kept, that occurrence becomes the replacement, and the
   * rest is rewritten the same way.
   */
  lemma ApplyRewriteInside(p: string, q: string, w: Rewrite)
    requires |w.bad| > 0
    requires forall i :: 0 <= i < |p| ==> !OccursAt(p + w.bad + q, w.bad, i)
    requires !EndsWith(p + w.bad + q, w.bad)
    ensures ApplyRewrite(p + w.bad + q, w) == p + w.good + ReplaceAll(q, w.bad, w.good)
  {
    var s := p + w.bad + q;
    assert s[|p|..|p| + |w.bad|] == w.bad;
    assert OccursAt(s, w.bad, |p|);
    ContainsIff(s, w.bad);
    ReplaceAllLeftmost(p, w.bad, q, w.good);
  }

  /** The whole table, entry after entry. */
  function ApplyRewrites(s: string, table: seq<Rewrite>): (r: string)
    requires SafeTable(table)
    ensures |s| > 0 && IsDigit(s[0]) ==> |r| > 0 && r[0] == s[0]
    decreases |table|
  {
    if |table| == 0 then s else ApplyRewrites(ApplyRewrite(s, table[0]), table[1..])
  }

  /** Applying two tables one after the other is applying their concatenation. */
  lemma {:induction false} ApplyRewritesAppend(s: string, t1: seq<Rewrite>, t2: seq<Rewrite>)
    requires SafeTable(t1) && SafeTable(t2)
    ensures SafeTable(t1 + t2)
    ensures ApplyRewrites(s, t1 + t2) == ApplyRewrites(ApplyRewrites(s, t1), t2)
    decreases |t1|
  {
    assert forall k :: 0 <= k < |t1 + t2| ==> (t1 + t2)[k] == if k < |t1| then t1[k] else t2[k - |t1|];
    if |t1| == 0 {
      assert t1 + t2 == t2;
    } else {
      assert (t1 + t2)[0] == t1[0];
      assert (t1 + t2)[1..] == t1[1..] + t2;
      ApplyRewritesAppend(ApplyRewrite(s, t1[0]), t1[1..], t2);
    }
  }

  /** The table seen from entry `k`: the entries before it, entry `k` itself, then the rest. */
  lemma ApplyRewritesAt(s: string, table: seq<Rewrite>, k: nat)
    requires SafeTable(table) && k < |table|
    ensures SafeTable(table[..k]) && SafeTable(table[k + 1..])
    ensures ApplyRewrites(s, table) == ApplyRewrites(ApplyRewrite(ApplyRewrites(s, table[..k]), table[k]), table[k + 1..])
  {
    assert table[..k] + table[k..] == table;
    ApplyRewritesAppend(s, table[..k], table[k..]);
    assert table[k..][0] == table[k] && table[k..][1..] == table[k + 1..];
  }

  /** An address containing none of the keys passes through the table unchanged. */
  lemma {:induction false} ApplyRewritesUnchanged(s: string, table: seq<Rewrite>)
    requires SafeTable(table)
    requires forall k :: 0 <= k < |table| ==> !Contains(s, table[k].bad)
    ensures ApplyRewrites(s, table) == s
    decreases |table|
  {
    if |table| > 0 {
      ApplyRewritesUnchanged(s, table[1..]);
    }
  }

  /** `re.sub(r'\s+\d{1,3}$', '', s)` where `$` is the very end of `s`. */
  function StripUnitAtEnd(s: string): (r: string)
    ensures |s| > 0 && IsDigit(s[0]) ==> |r| > 0 && r[0] == s[0]
    ensures |r| <= |s| && r == s[..|r|]
  {
    var d := CountTrailing(s, IsDigit);
    var body := s[..|s| - d];
    var w := CountTrailing(body, IsSpace);
    if 1 <= d <= 3 && w >= 1 then body[..|body| - w] else s
  }

  /**
   * `re.sub(r'\s+\d{1,3}$', '', s)`: a trailing unit number of one to three
   * digits is removed together with the whitespace before it. Python's `$`
   * also matches just before a final newline, which is then kept.
   */
  function StripTrailingUnit(s: string): (r: string)
    ensures |s| > 0 && IsDigit(s[0]) ==> |r| > 0 && r[0] == s[0]
    ensures |r| <= |s|
  {
    if |s| > 0 && s[|s| - 1] == '\n' then StripUnitAtEnd(s[..|s| - 1]) + "\n"
    else StripUnitAtEnd(s)
  }

  /** A final whitespace-separated token of one to three digits is removed. */
  lemma StripTrailingUnitRemoves(p: string, w: string, d: string)
    requires |p| == 0 || !IsSpace(p[|p| - 1])
    requires |w| >= 1 && AllSpace(w)
    requires 1 <= |d| <= 3 && AllDigits(d)
    ensures StripTrailingUnit(p + w + d) == p
  {
    var s := p + w + d;
    assert s[|s| - 1] == d[|d| - 1];
    var n := CountTrailing(s, IsDigit);
    TrailingRun(p + w, d, IsDigit);
    assert n == |d|;
    assert s[..|s| - n] == p + w;
    TrailingRun(p, w, IsSpace);
    assert (p + w)[..|p|] == p;
  }

  /**
   * Nothing is removed when the final digit run is empty or longer than three
   * digits, or when no whitespace precedes it.
   */
  lemma StripTrailingUnitKeeps(p: string, d: string)
    requires AllDigits(d)
    requires |p| == 0 || !IsDigit(p[|p| - 1])
    requires |d| > 0 || |p| == 0 || p[|p| - 1] != '\n'
    requires |d| == 0 || |d| > 3 || |p| == 0 || !IsSpace(p[|p| - 1])
    ensures StripTrailingUnit(p + d) == p + d
  {
    var s := p + d;
    if |d| > 0 {
      assert s[|s| - 1] == d[|d| - 1];
    } else {
      assert s == p;
    }
    TrailingRun(p, d, IsDigit);
    if |d| > 0 {
      assert s[..|s| - |d|] == p;
    }
  }

  /** The maximal trailing run of `p + q` is `q` when `q` is such a run and `p` does not extend it. */
  lemma TrailingRun(p: string, q: string, f: char -> bool)
    requires forall i :: 0 <= i < |q| ==> f(q[i])
    requires |p| == 0 || !f(p[|p| - 1])
    ensures CountTrailing(p + q, f) == |q|
  {
    var s := p + q;
    assert forall i :: 0 <= i < |q| ==> s[|p| + i] == q[i];
    if |p| > 0 {
      assert s[|p| - 1] == p[|p| - 1];
    }
  }

  predicate NotNewline(c: char) {
    c != '\n'
  }

  /** What `.*` matches: everything up to the first newline. */
  function LineRest(s: string): (r: string)
    ensures StartsWith(s, r) && '\n' !in r
    ensures '\n' !in s ==> r == s
    ensures |r| < |s| ==> s[|r|] == '\n'
  {
    var n := CountLeading(s, NotNewline);
    assert forall i :: 0 <= i < n ==> s[..n][i] == s[i];
    s[..n]
  }

  /**
   * `re.search(r'^\d{1,5}\s+(\d{3,5}\s+.*)', s)`, keeping group 1 on a match:
   * a leading unit number in front of a three- to five-digit civic number is
   * dropped. Every repetition in the pattern is forced to take a maximal run.
   */
  function DropLeadingUnit(s: string): (r: string)
    ensures |s| > 0 && IsDigit(s[0]) ==> |r| > 0 && IsDigit(r[0])
    ensures |r| <= |s|
  {
    var a := CountLeading(s, IsDigit);
    var w := CountLeading(s[a..], IsSpace);
    if 1 <= a <= 5 && w >= 1 then CivicGroup(s, s[a + w..]) else s
  }

  /**
   * The rest of the match once the unit number and its whitespace are
   * consumed from `s`, leaving `t`: group 1 when `t` opens with a three- to
   * five-digit token and whitespace, and `s` itself otherwise.
   */
  function CivicGroup(s: string, t: string): (r: string)
    requires |t| <= |s|
    ensures |s| > 0 && IsDigit(s[0]) ==> |r| > 0 && IsDigit(r[0])
    ensures |r| <= |s|
  {
    var b := CountLeading(t, IsDigit);
    var w := CountLeading(t[b..], IsSpace);
    if 3 <= b <= 5 && w >= 1 then t[..b + w] + LineRest(t[b + w..]) else s
  }

  /**
   * A unit number, whitespace, a civic number and whitespace lose the unit
   * number and its whitespace; as `.*` stops at a newline, everything from
   * the first newline of the rest on is lost too.
   */
  lemma DropLeadingUnitDrops(d1: string, w1: string, d2: string, w2: string, rest: string)
    requires 1 <= |d1| <= 5 && AllDigits(d1)
    requires |w1| >= 1 && AllSpace(w1)
    requires 3 <= |d2| <= 5 && AllDigits(d2)
    requires |w2| >= 1 && AllSpace(w2)
    requires |rest| == 0 || !IsSpace(rest[0])
    ensures DropLeadingUnit(d1 + (w1 + (d2 + (w2 + rest)))) == d2 + (w2 + LineRest(rest))
  {
    var t := d2 + (w2 + rest);
    UnitPrefixDropped(d1, w1, t);
    var s := d1 + (w1 + t);
    var b, w := GroupLengths(t, d2, w2, rest);
    GroupTaken(s, t, b, w);
    ConcatAssoc(d2, w2, LineRest(rest));
  }

  /** On a single line, "5 3239 Rue X" becomes "3239 Rue X". */
  lemma DropLeadingUnitDropsLine(d1: string, w1: string, d2: string, w2: string, rest: string)
    requires 1 <= |d1| <= 5 && AllDigits(d1)
    requires |w1| >= 1 && AllSpace(w1)
    requires 3 <= |d2| <= 5 && AllDigits(d2)
    requires |w2| >= 1 && AllSpace(w2)
    requires (|rest| == 0 || !IsSpace(rest[0])) && '\n' !in rest
    ensures DropLeadingUnit(d1 + (w1 + (d2 + (w2 + rest)))) == d2 + (w2 + rest)
  {
    DropLeadingUnitDrops(d1, w1, d2, w2, rest);
  }

  /** "5 3239 Rue X\nMontreal" becomes "3239 Rue X": the line break and what follows it go too. */
  lemma DropLeadingUnitCutsLine(d1: string, w1: string, d2: string, w2: string, line: string, more: string)
    requires 1 <= |d1| <= 5 && AllDigits(d1)
    requires |w1| >= 1 && AllSpace(w1)
    requires 3 <= |d2| <= 5 && AllDigits(d2)
    requires |w2| >= 1 && AllSpace(w2)
    requires |line| > 0 && !IsSpace(line[0]) && '\n' !in line
    ensures DropLeadingUnit(d1 + (w1 + (d2 + (w2 + (line + "\n" + more))))) == d2 + (w2 + line)
  {
    var rest := line + "\n" + more;
    assert rest[0] == line[0];
    DropLeadingUnitDrops(d1, w1, d2, w2, rest);
    LineRestStops(line, more);
  }

  /** `.*` on a line and what follows its newline matches the line. */
  lemma LineRestStops(line: string, more: string)
    requires '\n' !in line
    ensures LineRest(line + "\n" + more) == line
  {
    var s := line + "\n" + more;
    var r := LineRest(s);
    assert s[|line|] == '\n';
    assert forall i :: 0 <= i < |line| ==> s[i] == line[i] && s[i] != '\n';
    assert r == s[..|r|];
    assert s[..|line|] == line;
  }

  lemma UnitPrefixDropped(d1: string, w1: string, t: string)
    requires 1 <= |d1| <= 5 && AllDigits(d1)
    requires |w1| >= 1 && AllSpace(w1)
    requires |t| > 0 && IsDigit(t[0])
    ensures DropLeadingUnit(d1 + (w1 + t)) == CivicGroup(d1 + (w1 + t), t)
  {
    var s := d1 + (w1 + t);
    var a, w := UnitLengths(s, d1, w1, t);
    UnitConsumed(s, a, w);
  }

  /** The unit number and its whitespace are the maximal runs at the front of `s`. */
  lemma UnitLengths(s: string, d1: string, w1: string, t: string) returns (a: nat, w: nat)
    requires s == d1 + (w1 + t)
    requires AllDigits(d1) && AllSpace(w1) && |w1| > 0
    requires |t| > 0 && IsDigit(t[0])
    ensures a == |d1| && w == |w1| && a <= |s|
    ensures CountLeading(s, IsDigit) == a && CountLeading(s[a..], IsSpace) == w && s[a + w..] == t
  {
    a, w := |d1|, |w1|;
    LeadingRun(d1, w1 + t, IsDigit);
    assert s[a..] == w1 + t;
    LeadingRun(w1, t, IsSpace);
    assert s[a + w..] == t;
  }

  /** The civic number and its whitespace are the maximal runs at the front of `t`. */
  lemma GroupLengths(t: string, d2: string, w2: string, rest: string) returns (b: nat, w: nat)
    requires t == d2 + (w2 + rest)
    requires AllDigits(d2) && AllSpace(w2) && |w2| > 0
    requires |rest| == 0 || !IsSpace(rest[0])
    ensures b == |d2| && w == |w2| && b + w <= |t|
    ensures CountLeading(t, IsDigit) == b && CountLeading(t[b..], IsSpace) == w
    ensures t[b + w..] == rest && t[..b + w] == d2 + w2
  {
    b, w := |d2|, |w2|;
    LeadingRun(d2, w2 + rest, IsDigit);
    assert t[b..] == w2 + rest;
    LeadingRun(w2, rest, IsSpace);
    assert t[b + w..] == rest;
    assert t[..b + w] == d2 + w2;
  }

  /** The unit number and its whitespace have lengths `a` and `w`. */
  lemma UnitConsumed(s: string, a: nat, w: nat)
    requires a <= |s| && CountLeading(s, IsDigit) == a && CountLeading(s[a..], IsSpace) == w
    requires 1 <= a <= 5 && w >= 1
    ensures DropLeadingUnit(s) == CivicGroup(s, s[a + w..])
  {
  }

  /** The civic number and its whitespace have lengths `b` and `w`. */
  lemma GroupTaken(s: string, t: string, b: nat, w: nat)
    requires |t| <= |s| && b <= |t| && CountLeading(t, IsDigit) == b && CountLeading(t[b..], IsSpace) == w
    requires 3 <= b <= 5 && w >= 1
    ensures CivicGroup(s, t) == t[..b + w] + LineRest(t[b + w..])
  {
  }

  /** Nothing changes unless the string opens with a one- to five-digit token followed by whitespace. */
  lemma DropLeadingUnitKeepsFirst(d1: string, rest: string)
    requires AllDigits(d1) && (|rest| == 0 || !IsDigit(rest[0]))
    requires |d1| == 0 || |d1| > 5 || |rest| == 0 || !IsSpace(rest[0])
    ensures DropLeadingUnit(d1 + rest) == d1 + rest
  {
    LeadingRun(d1, rest, IsDigit);
    var s := d1 + rest;
    assert s[|d1|..] == rest;
  }

  /** Nothing changes unless the second token has three to five digits and is followed by whitespace. */
  lemma DropLeadingUnitKeepsSecond(d1: string, w1: string, d2: string, rest: string)
    requires AllDigits(d1) && |w1| >= 1 && AllSpace(w1) && AllDigits(d2)
    requires |d2| < 3 || |d2| > 5 || |rest| == 0 || !IsSpace(rest[0])
    requires |rest| == 0 || !IsDigit(rest[0])
    requires |d2| > 0 || |rest| == 0 || !IsSpace(rest[0])
    ensures DropLeadingUnit(d1 + (w1 + (d2 + rest))) == d1 + (w1 + (d2 + rest))
  {
    var t := d2 + rest;
    var v := w1 + t;
    var s := d1 + v;
    LeadingRun(d1, v, IsDigit);
    assert s[|d1|..] == v;
    if |d2| > 0 {
      LeadingRun(w1, t, IsSpace);
    } else {
      assert t == rest;
      LeadingRun(w1, t, IsSpace);
    }
    assert s[|d1| + |w1|..] == t;
    LeadingRun(d2, rest, IsDigit);
  }

  /** The maximal leading run of `p + q` is `p` when `p` is such a run and `q` does not extend it. */
  lemma LeadingRun(p: string, q: string, f: char -> bool)
    requires forall i :: 0 <= i < |p| ==> f(p[i])
    requires |q| == 0 || !f(q[0])
    ensures CountLeading(p + q, f) == |p|
  {
    var s := p + q;
    assert forall i :: 0 <= i < |p| ==> s[i] == p[i];
    if |q| > 0 {
      assert s[|p|] == q[0];
    }
  }

  /** The rejection rules applied to the trimmed address. */
  predicate Rejected(a: string) {
    |a| == 0 || Contains(Lower(a), SoldMarker) || !IsDigit(a[0])
  }

  /**
   * `clean_address`: `None` for a non-string, blank, sold or non-digit-led
   * input; otherwise the fix-ups, the trailing-unit strip, the leading-unit
   * strip and a final trim.
   */
  function CleanAddress(raw: Option<string>): (r: Option<string>)
    ensures r.None? <==> raw.None? || Rejected(Strip(raw.value))
    ensures r.Some? ==> |r.value| > 0 && IsDigit(r.value[0])
    ensures r.Some? ==> Strip(r.value) == r.value
  {
    match raw
    case None => None
    case Some(s) =>
      var a := Strip(s);
      if |a| == 0 then None
      else if Contains(Lower(a), SoldMarker) || !IsDigit(a[0]) then None
      else Some(Normalize(a))
  }

  /** The rewriting steps applied to an accepted, trimmed address. */
  function Normalize(a: string): (r: string)
    requires |a| > 0 && IsDigit(a[0])
    ensures |r| > 0 && IsDigit(r[0])
    ensures Strip(r) == r
  {
    var d := DropLeadingUnit(StripTrailingUnit(ApplyRewrites(a, Rewrites)));
    StripIdempotent(d);
    StripDigitLed(d);
    Strip(d)
  }

  lemma RewritesSafe()
    ensures SafeTable(Rewrites)
  {
  }

  /** No key can occur in an address without any of the letters M, C, B and A. */
  lemma RewritesSkip(s: string)
    requires 'M' !in s && 'C' !in s && 'B' !in s && 'A' !in s
    ensures ApplyRewrites(s, Rewrites) == s
  {
    RewritesSafe();
    forall k | 0 <= k < |Rewrites| ensures !Contains(s, Rewrites[k].bad) {
      var b := Rewrites[k].bad;
      if k == 6 {
        assert b[1] == 'A';
        MissingChar(s, b, 1);
      } else {
        assert b[0] in "MCBA";
        MissingChar(s, b, 0);
      }
    }
    ApplyRewritesUnchanged(s, Rewrites);
  }

  /** An accepted address goes through the four rewriting steps in order. */
  lemma CleanAccepted(s: string)
    requires |s| > 0 && IsDigit(s[0]) && Strip(s) == s && !Contains(Lower(s), SoldMarker)
    ensures CleanAddress(Some(s)) == Some(Strip(DropLeadingUnit(StripTrailingUnit(ApplyRewrites(s, Rewrites)))))
  {
  }
}
