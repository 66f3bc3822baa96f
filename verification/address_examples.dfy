/**
 * Worked examples of the address normaliser, each split into one lemma per
 * pipeline step so that every step is checked on its own.
 *
 * Each example takes its address as a parameter fixed by `requires s == "..."`
 * rather than writing the literal into the statement, and the steps several
 * examples share take any one of their addresses through a disjunctive
 * `requires`. Both keep the concrete strings out of the verifier's context
 * until a proof needs them, which keeps each proof small; the statements
 * mean the same as parameterless ones.
 */
module AddressExamples {
  import opened Wrappers
  import opened Text
  import opened Address

  /** "5 3239 Rue Something" loses its spurious leading unit number. */
  lemma LeadingUnitExample(s: string)
    requires s == "5 3239 Rue Something"
    ensures CleanAddress(Some(s)) == Some("3239 Rue Something")
  {
    ExampleAccepted(s);
    CleanAccepted(s);
    LeadingUnitSteps(s, "3239 Rue Something");
  }

  /** A digit-led address with no trailing whitespace and no 'v' passes the rejection rules. */
  lemma AcceptedAddress(s: string)
    requires |s| > 0 && IsDigit(s[0]) && !IsSpace(s[|s| - 1])
    requires 'v' !in s && 'V' !in s
    ensures Strip(s) == s && !Contains(Lower(s), SoldMarker)
  {
    StripTrimmed(s);
    NotSold(s);
  }

  /** A key whose first character occurs only once, in the key itself, is replaced there alone. */
  lemma ReplacedOnce(p: string, pat: string, q: string, rep: string)
    requires |pat| > 0 && pat[0] !in p && pat[0] !in q
    ensures ReplaceAll(p + pat + q, pat, rep) == p + rep + q
  {
    var s := p + pat + q;
    forall i | 0 <= i < |p| ensures !OccursAt(s, pat, i) {
      assert s[i] == p[i];
    }
    MissingChar(q, pat, 0);
    ReplaceAllLeftmost(p, pat, q, rep);
  }

  /** Each example address passes the rejection rules. */
  lemma ExampleAccepted(s: string)
    requires s == "5 3239 Rue Something" || s == "123 Ch. Test 4" || s == "123 Montpetit" || s == "123 Mountain Sights"
    ensures |s| > 0 && IsDigit(s[0]) && Strip(s) == s && !Contains(Lower(s), SoldMarker)
  {
    assert IsDigit(s[0]) && !IsSpace(s[|s| - 1]) && 'v' !in s && 'V' !in s;
    AcceptedAddress(s);
  }

  /** The replacement step of each example that has one. */
  lemma ExampleReplaced(s: string, e: string, p: string, pat: string, q: string, rep: string)
    requires
      || (s == "123 Ch. Test 4" && e == "123 Chemin Test 4" && p == "123 " && pat == "Ch." && q == " Test 4" && rep == "Chemin")
      || (s == "123 Montpetit" && e == "123 Montpetitetit" && p == "123 " && pat == "Montp" && q == "etit" && rep == "Montpetit")
      || (s == "123 Mountain Sights" && e == "123 Mountain Sightss" && p == "123 " && pat == "Mountain Sight" && q == "s" && rep == "Mountain Sights")
    ensures ReplaceAll(s, pat, rep) == e
  {
    assert p + pat + q == s && p + rep + q == e;
    assert pat[0] !in p && pat[0] !in q;
    ReplacedOnce(p, pat, q, rep);
  }

  /** Without a 'v' of either case the address cannot carry the sold marker. */
  lemma NotSold(s: string)
    requires 'v' !in s && 'V' !in s
    ensures !Contains(Lower(s), SoldMarker)
  {
    forall i | 0 <= i < |s| ensures Lower(s)[i] != 'v' {
      assert s[i] != 'v' && s[i] != 'V';
    }
    MissingChar(Lower(s), SoldMarker, 0);
  }

  lemma LeadingUnitSteps(s: string, r: string)
    requires s == "5 3239 Rue Something" && r == "3239 Rue Something"
    ensures Strip(DropLeadingUnit(StripTrailingUnit(ApplyRewrites(s, Rewrites)))) == r
  {
    LeadingUnitNoRewrite(s);
    LeadingUnitNoTrailing(s);
    LeadingUnitDropped(s, r);
    LeadingUnitTrimmed(r);
  }

  lemma LeadingUnitTrimmed(r: string)
    requires r == "3239 Rue Something"
    ensures Strip(r) == r
  {
    StripTrimmed(r);
  }

  lemma LeadingUnitNoRewrite(s: string)
    requires s == "5 3239 Rue Something"
    ensures SafeTable(Rewrites) && ApplyRewrites(s, Rewrites) == s
  {
    RewritesSafe();
    assert 'M' !in s && 'C' !in s && 'B' !in s && 'A' !in s;
    RewritesSkip(s);
  }

  lemma LeadingUnitNoTrailing(s: string)
    requires s == "5 3239 Rue Something"
    ensures StripTrailingUnit(s) == s
  {
    assert s + "" == s;
    StripTrailingUnitKeeps(s, "");
  }

  lemma LeadingUnitDropped(s: string, r: string)
    requires s == "5 3239 Rue Something" && r == "3239 Rue Something"
    ensures DropLeadingUnit(s) == r
  {
    var d1, w, d2, rest := "5", " ", "3239", "Rue Something";
    assert d1 + (w + (d2 + (w + rest))) == s;
    assert d2 + (w + rest) == r;
    DropLeadingUnitDropsLine(d1, w, d2, w, rest);
  }

  /** "123 Ch. Test 4": the abbreviation is expanded and the unit number removed. */
  lemma AbbreviationAndUnitExample(s: string)
    requires s == "123 Ch. Test 4"
    ensures CleanAddress(Some(s)) == Some("123 Chemin Test")
  {
    ExampleAccepted(s);
    CleanAccepted(s);
    var e := "123 Chemin Test 4";
    AbbreviationRewrites(s, e);
    AbbreviationUnitSteps(e, "123 Chemin Test");
  }

  lemma AbbreviationRewrites(s: string, e: string)
    requires s == "123 Ch. Test 4" && e == "123 Chemin Test 4"
    ensures ApplyRewrites(s, Rewrites) == e
  {
    RewritesSafe();
    AbbreviationFirst(s);
    AbbreviationExpand(s, e);
    AbbreviationRest(e);
    ApplyRewritesAt(s, Rewrites, 3);
  }

  lemma AbbreviationFirst(s: string)
    requires s == "123 Ch. Test 4"
    ensures SafeTable(Rewrites[..3]) && ApplyRewrites(s, Rewrites[..3]) == s
  {
    assert 'M' !in s;
    HeadSkipped(s);
  }

  /** The first three keys all start with 'M'. */
  lemma HeadSkipped(s: string)
    requires 'M' !in s
    ensures SafeTable(Rewrites[..3]) && ApplyRewrites(s, Rewrites[..3]) == s
  {
    RewritesSafe();
    forall k | 0 <= k < 3 ensures !Contains(s, Rewrites[..3][k].bad) {
      MissingChar(s, Rewrites[k].bad, 0);
    }
    ApplyRewritesUnchanged(s, Rewrites[..3]);
  }

  lemma AbbreviationExpand(s: string, e: string)
    requires s == "123 Ch. Test 4" && e == "123 Chemin Test 4"
    ensures ApplyRewrite(s, Rewrites[3]) == e
  {
    var w := Rewrites[3];
    assert w.bad == "Ch." && w.good == "Chemin";
    AbbreviationOccurs(s);
    ExampleReplaced(s, e, "123 ", "Ch.", " Test 4", "Chemin");
    ApplyRewriteReplaces(s, w);
  }

  lemma AbbreviationOccurs(s: string)
    requires s == "123 Ch. Test 4"
    ensures Contains(s, "Ch.") && !EndsWith(s, "Ch.")
  {
    assert OccursAt(s, "Ch.", 4);
    ContainsIff(s, "Ch.");
  }

  lemma AbbreviationRest(e: string)
    requires e == "123 Chemin Test 4"
    ensures SafeTable(Rewrites[4..]) && ApplyRewrites(e, Rewrites[4..]) == e
  {
    assert 'B' !in e && 'A' !in e && 'D' !in e;
    TailSkipped(e);
  }

  /** Each of the last five keys has a 'B', an 'A' or a 'D'. */
  lemma TailSkipped(s: string)
    requires 'B' !in s && 'A' !in s && 'D' !in s
    ensures SafeTable(Rewrites[4..]) && ApplyRewrites(s, Rewrites[4..]) == s
  {
    RewritesSafe();
    forall k | 0 <= k < 5 ensures !Contains(s, Rewrites[4..][k].bad) {
      var b := Rewrites[4 + k].bad;
      if k == 2 {
        assert b[1] == 'A';
        MissingChar(s, b, 1);
      } else if k == 4 {
        assert b[7] == 'D';
        MissingChar(s, b, 7);
      } else {
        assert b[0] in "BA";
        MissingChar(s, b, 0);
      }
    }
    ApplyRewritesUnchanged(s, Rewrites[4..]);
  }

  lemma AbbreviationUnitSteps(e: string, c: string)
    requires e == "123 Chemin Test 4" && c == "123 Chemin Test"
    ensures Strip(DropLeadingUnit(StripTrailingUnit(e))) == c
  {
    AbbreviationUnitStripped(e, c);
    AbbreviationNoLeadingUnit(c);
    StripTrimmed(c);
  }

  lemma AbbreviationUnitStripped(e: string, c: string)
    requires e == "123 Chemin Test 4" && c == "123 Chemin Test"
    ensures StripTrailingUnit(e) == c
  {
    assert c + " " + "4" == e;
    StripTrailingUnitRemoves(c, " ", "4");
  }

  lemma AbbreviationNoLeadingUnit(c: string)
    requires c == "123 Chemin Test"
    ensures DropLeadingUnit(c) == c
  {
    assert "123" + (" " + ("" + "Chemin Test")) == c;
    DropLeadingUnitKeepsSecond("123", " ", "", "Chemin Test");
  }

  /**
   * The first fix-up has no word boundary: an address that already spells
   * out "Montpetit" has its "Montp" expanded again, and the cleaned address
   * reads "Montpetitetit".
   */
  lemma MontpetitExample(s: string)
    requires s == "123 Montpetit"
    ensures CleanAddress(Some(s)) == Some("123 Montpetitetit")
  {
    ExampleAccepted(s);
    CleanAccepted(s);
    var e := "123 Montpetitetit";
    MontpetitRewrites(s, e);
    UnitFreeSteps(e);
  }

  lemma MontpetitRewrites(s: string, e: string)
    requires s == "123 Montpetit" && e == "123 Montpetitetit"
    ensures ApplyRewrites(s, Rewrites) == e
  {
    RewritesSafe();
    MontpetitExpanded(s, e);
    MontpetitRest(e);
    ApplyRewritesAt(s, Rewrites, 0);
  }

  lemma MontpetitRest(e: string)
    requires e == "123 Montpetitetit"
    ensures SafeTable(Rewrites[1..]) && ApplyRewrites(e, Rewrites[1..]) == e
  {
    assert 'u' !in e && 'C' !in e && 'B' !in e && 'A' !in e;
    AfterFirstSkipped(e);
  }

  lemma MontpetitExpanded(s: string, e: string)
    requires s == "123 Montpetit" && e == "123 Montpetitetit"
    ensures ApplyRewrites(s, Rewrites[..0]) == s && ApplyRewrite(s, Rewrites[0]) == e
  {
    var w := Rewrites[0];
    assert w.bad == "Montp" && w.good == "Montpetit";
    assert OccursAt(s, "Montp", 4);
    ContainsIff(s, "Montp");
    assert !EndsWith(s, "Montp");
    ExampleReplaced(s, e, "123 ", "Montp", "etit", "Montpetit");
    ApplyRewriteReplaces(s, w);
  }

  /** Every key after the first has a 'u', a 'C', a 'B' or an 'A'. */
  lemma AfterFirstSkipped(s: string)
    requires 'u' !in s && 'C' !in s && 'B' !in s && 'A' !in s
    ensures SafeTable(Rewrites[1..]) && ApplyRewrites(s, Rewrites[1..]) == s
  {
    RewritesSafe();
    forall k | 0 <= k < 8 ensures !Contains(s, Rewrites[1..][k].bad) {
      var b := Rewrites[1 + k].bad;
      if k < 2 {
        assert b[2] == 'u';
        MissingChar(s, b, 2);
      } else if k == 5 {
        assert b[1] == 'A';
        MissingChar(s, b, 1);
      } else {
        assert b[0] in "CBA";
        MissingChar(s, b, 0);
      }
    }
    ApplyRewritesUnchanged(s, Rewrites[1..]);
  }

  /** Both example results have no unit number to remove and are trimmed already. */
  lemma UnitFreeSteps(e: string)
    requires e == "123 Montpetitetit" || e == "123 Mountain Sights"
    ensures Strip(DropLeadingUnit(StripTrailingUnit(e))) == e
  {
    UnitFreeNoTrailing(e);
    UnitFreeNoLeading(e);
    UnitFreeTrimmed(e);
  }

  lemma UnitFreeTrimmed(e: string)
    requires e == "123 Montpetitetit" || e == "123 Mountain Sights"
    ensures Strip(e) == e
  {
    assert !IsSpace(e[0]) && !IsSpace(e[|e| - 1]);
    StripTrimmed(e);
  }

  lemma UnitFreeNoTrailing(e: string)
    requires e == "123 Montpetitetit" || e == "123 Mountain Sights"
    ensures StripTrailingUnit(e) == e
  {
    assert e + "" == e;
    StripTrailingUnitKeeps(e, "");
  }

  lemma UnitFreeNoLeading(e: string)
    requires e == "123 Montpetitetit" || e == "123 Mountain Sights"
    ensures DropLeadingUnit(e) == e
  {
    assert e[..4] == "123 " && IsCased(e[4]);
    WordAfterNumber(e);
  }

  /** "123 " followed by a letter opens with a civic number, not a unit number. */
  lemma WordAfterNumber(e: string)
    requires |e| > 4 && e[..4] == "123 " && IsCased(e[4])
    ensures DropLeadingUnit(e) == e
  {
    var rest := e[4..];
    assert "123" + (" " + ("" + rest)) == e;
    DropLeadingUnitKeepsSecond("123", " ", "", rest);
  }

  /**
   * The second fix-up also matches inside a correct "Mountain Sights",
   * giving "Mountain Sightss"; the third one repairs that at the end, so the
   * address comes out unchanged.
   */
  lemma MountainSightsExample(s: string)
    requires s == "123 Mountain Sights"
    ensures CleanAddress(Some(s)) == Some(s)
  {
    ExampleAccepted(s);
    CleanAccepted(s);
    MountainSightsRewrites(s, "123 Mountain Sightss");
    UnitFreeSteps(s);
  }

  lemma MountainSightsRewrites(s: string, d: string)
    requires s == "123 Mountain Sights" && d == "123 Mountain Sightss"
    ensures ApplyRewrites(s, Rewrites) == s
  {
    RewritesSafe();
    MountainSightsFirst(s);
    MountainSightsDoubled(s, d);
    MountainSightsRepaired(d, s);
    MountainSightsRest(s);
    ApplyRewritesAt(s, Rewrites, 1);
    ApplyRewritesAt(d, Rewrites[2..], 0);
    assert Rewrites[2..][1..] == Rewrites[3..];
  }

  lemma MountainSightsFirst(s: string)
    requires s == "123 Mountain Sights"
    ensures SafeTable(Rewrites[..1]) && ApplyRewrites(s, Rewrites[..1]) == s
  {
    assert 'p' !in s;
    NoFirstKey(s);
  }

  /** The first key has a 'p'. */
  lemma NoFirstKey(s: string)
    requires 'p' !in s
    ensures SafeTable(Rewrites[..1]) && ApplyRewrites(s, Rewrites[..1]) == s
  {
    RewritesSafe();
    assert Rewrites[..1][0].bad[4] == 'p';
    MissingChar(s, Rewrites[..1][0].bad, 4);
    ApplyRewritesUnchanged(s, Rewrites[..1]);
  }

  lemma MountainSightsDoubled(s: string, d: string)
    requires s == "123 Mountain Sights" && d == "123 Mountain Sightss"
    ensures ApplyRewrite(s, Rewrites[1]) == d
  {
    var w := Rewrites[1];
    assert w.bad == "Mountain Sight" && w.good == "Mountain Sights";
    assert OccursAt(s, w.bad, 4);
    ContainsIff(s, w.bad);
    assert !EndsWith(s, w.bad);
    ExampleReplaced(s, d, "123 ", "Mountain Sight", "s", "Mountain Sights");
    ApplyRewriteReplaces(s, w);
  }

  lemma MountainSightsRepaired(d: string, s: string)
    requires s == "123 Mountain Sights" && d == "123 Mountain Sightss"
    ensures ApplyRewrite(d, Rewrites[2]) == s
  {
    var w := Rewrites[2];
    assert w.bad == "Mountain Sightss" && w.good == "Mountain Sights";
    assert d[..4] + w.bad == d;
    assert EndsWith(d, w.bad);
    assert d[..|d| - |w.bad|] == d[..4];
    assert d[..4] + w.good == s;
  }

  lemma MountainSightsRest(s: string)
    requires s == "123 Mountain Sights"
    ensures SafeTable(Rewrites[3..]) && ApplyRewrites(s, Rewrites[3..]) == s
  {
    assert 'C' !in s && 'B' !in s && 'A' !in s;
    FromFourthSkipped(s);
  }

  /** Every key from the fourth on has a 'C', a 'B' or an 'A'. */
  lemma FromFourthSkipped(s: string)
    requires 'C' !in s && 'B' !in s && 'A' !in s
    ensures SafeTable(Rewrites[3..]) && ApplyRewrites(s, Rewrites[3..]) == s
  {
    RewritesSafe();
    forall k | 0 <= k < 6 ensures !Contains(s, Rewrites[3..][k].bad) {
      var b := Rewrites[3 + k].bad;
      if k == 3 {
        assert b[1] == 'A';
        MissingChar(s, b, 1);
      } else {
        assert b[0] in "CBA";
        MissingChar(s, b, 0);
      }
    }
    ApplyRewritesUnchanged(s, Rewrites[3..]);
  }
}
