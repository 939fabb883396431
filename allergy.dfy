/**
 * `check_allergies_and_requirements`: the verdict shown for a scanned product
 * given the shopper's restriction terms. A term matches the product's
 * allergen list by exact (lower-cased) membership, and otherwise its
 * ingredient list by substring; each term yields at most one warning.
 */
module Allergy {
  import opened Wrappers
  import opened Text
  import opened Catalog

  const NotApplicable: string := "Not applicable or no allergies entered."
  const Safe: string := "Safe for you."

  /** The marker both warning forms open with. */
  const Marker: string := "WARNING: "

  function AllergenWarning(term: string): string {
    Marker + "Contains allergen '" + term + "'."
  }

  function IngredientWarning(term: string): string {
    Marker + "Ingredient list contains '" + term + "'."
  }

  /** Every entry lower-cased, order kept. */
  function LowerAll(xs: seq<string>): (r: seq<string>)
    ensures |r| == |xs|
    ensures forall k :: 0 <= k < |xs| ==> r[k] == Lower(xs[k])
  {
    seq(|xs|, k requires 0 <= k < |xs| => Lower(xs[k]))
  }

  /** Python's `any(term in ingredient for ingredient in ingredients)`. */
  predicate InSomeIngredient(ingredients: seq<string>, term: string) {
    exists k :: 0 <= k < |ingredients| && Contains(ingredients[k], term)
  }

  /**
   * The warning one term produces, if any, against the lower-cased allergen
   * and ingredient lists: the allergen check first, the ingredient check only
   * when it fails and the ingredient list is not empty.
   */
  function TermWarning(allergens: seq<string>, ingredients: seq<string>, term: string): Option<string> {
    if term in allergens then Some(AllergenWarning(term))
    else if ingredients != [] && InSomeIngredient(ingredients, term) then Some(IngredientWarning(term))
    else None
  }

  /** The `feedback` list the loop over the profile builds. */
  function Feedback(allergens: seq<string>, ingredients: seq<string>, terms: seq<string>): seq<string> {
    if terms == [] then []
    else
      var w := TermWarning(allergens, ingredients, terms[0]);
      (if w.Some? then [w.value] else []) + Feedback(allergens, ingredients, terms[1..])
  }

  /** The feedback for a product record, whose lists are lower-cased first. */
  function ProductFeedback(p: Product, profile: seq<string>): seq<string> {
    Feedback(LowerAll(Allergens(p)), LowerAll(Ingredients(p)), profile)
  }

  /** `check_allergies_and_requirements(product_details, user_allergies)`. */
  function Evaluate(product: Option<Product>, profile: seq<string>): string {
    if product.None? || profile == [] then NotApplicable
    else
      var feedback := ProductFeedback(product.value, profile);
      if feedback == [] then Safe else Join(feedback, " ")
  }

  /** Each term contributes at most one warning. */
  lemma {:induction false} FeedbackLength(allergens: seq<string>, ingredients: seq<string>, terms: seq<string>)
    ensures |Feedback(allergens, ingredients, terms)| <= |terms|
  {
    if terms != [] {
      FeedbackLength(allergens, ingredients, terms[1..]);
    }
  }

  /** Warnings come in profile-term order: the feedback of a concatenation concatenates. */
  lemma {:induction false} FeedbackAppend(allergens: seq<string>, ingredients: seq<string>, a: seq<string>, b: seq<string>)
    ensures Feedback(allergens, ingredients, a + b) ==
            Feedback(allergens, ingredients, a) + Feedback(allergens, ingredients, b)
  {
    if a != [] {
      assert (a + b)[1..] == a[1..] + b;
      FeedbackAppend(allergens, ingredients, a[1..], b);
    } else {
      assert a + b == b;
    }
  }

  /** A message is in the feedback exactly when some term of the profile produced it. */
  lemma {:induction false} FeedbackMembers(allergens: seq<string>, ingredients: seq<string>, terms: seq<string>, m: string)
    ensures m in Feedback(allergens, ingredients, terms) <==>
            exists k :: 0 <= k < |terms| && TermWarning(allergens, ingredients, terms[k]) == Some(m)
  {
    if terms != [] {
      FeedbackMembers(allergens, ingredients, terms[1..], m);
      if exists k :: 0 <= k < |terms| && TermWarning(allergens, ingredients, terms[k]) == Some(m) {
        var k :| 0 <= k < |terms| && TermWarning(allergens, ingredients, terms[k]) == Some(m);
        if k > 0 {
          assert terms[1..][k - 1] == terms[k];
        }
      }
      if exists k :: 0 <= k < |terms[1..]| && TermWarning(allergens, ingredients, terms[1..][k]) == Some(m) {
        var k :| 0 <= k < |terms[1..]| && TermWarning(allergens, ingredients, terms[1..][k]) == Some(m);
        assert terms[k + 1] == terms[1..][k];
      }
    }
  }

  /** The two message forms are told apart, and each names its term unambiguously. */
  lemma WarningsDistinct(t: string, u: string)
    ensures AllergenWarning(t) != IngredientWarning(u)
    ensures AllergenWarning(t) == AllergenWarning(u) ==> t == u
    ensures IngredientWarning(t) == IngredientWarning(u) ==> t == u
  {
    assert AllergenWarning(t)[9] == 'C' && IngredientWarning(u)[9] == 'I';
    if AllergenWarning(t) == AllergenWarning(u) {
      assert t == AllergenWarning(t)[28..28 + |t|];
    }
    if IngredientWarning(t) == IngredientWarning(u) {
      assert t == IngredientWarning(t)[35..35 + |t|];
    }
  }

  /**
   * The allergen check wins: a profile term found in the allergen list yields
   * the allergen message and never the ingredient message for that term.
   */
  lemma AllergenWins(allergens: seq<string>, ingredients: seq<string>, terms: seq<string>, t: string)
    requires t in terms && t in allergens
    ensures AllergenWarning(t) in Feedback(allergens, ingredients, terms)
    ensures IngredientWarning(t) !in Feedback(allergens, ingredients, terms)
  {
    var k :| 0 <= k < |terms| && terms[k] == t;
    FeedbackMembers(allergens, ingredients, terms, AllergenWarning(t));
    FeedbackMembers(allergens, ingredients, terms, IngredientWarning(t));
    forall j | 0 <= j < |terms|
      ensures TermWarning(allergens, ingredients, terms[j]) != Some(IngredientWarning(t))
    {
      WarningsDistinct(terms[j], t);
    }
  }

  /**
   * A term absent from the allergen list yields the ingredient message exactly
   * when it occurs inside some ingredient; with no ingredient list it yields nothing.
   */
  lemma IngredientMatch(allergens: seq<string>, ingredients: seq<string>, terms: seq<string>, t: string)
    requires t in terms && t !in allergens
    ensures IngredientWarning(t) in Feedback(allergens, ingredients, terms) <==> InSomeIngredient(ingredients, t)
    ensures AllergenWarning(t) !in Feedback(allergens, ingredients, terms)
    ensures ingredients == [] ==> IngredientWarning(t) !in Feedback(allergens, ingredients, terms)
  {
    var k :| 0 <= k < |terms| && terms[k] == t;
    FeedbackMembers(allergens, ingredients, terms, AllergenWarning(t));
    FeedbackMembers(allergens, ingredients, terms, IngredientWarning(t));
    forall j | 0 <= j < |terms|
      ensures TermWarning(allergens, ingredients, terms[j]) != Some(AllergenWarning(t))
      ensures TermWarning(allergens, ingredients, terms[j]) == Some(IngredientWarning(t)) ==>
              terms[j] == t && InSomeIngredient(ingredients, t)
    {
      WarningsDistinct(t, terms[j]);
      WarningsDistinct(terms[j], t);
    }
  }

  /** Each warning form opens with the marker. */
  lemma WarningPrefix(t: string)
    ensures |AllergenWarning(t)| >= 9 && AllergenWarning(t)[..9] == Marker
    ensures |IngredientWarning(t)| >= 9 && IngredientWarning(t)[..9] == Marker
  {
    assert AllergenWarning(t) == Marker + ("Contains allergen '" + t + "'.");
    assert IngredientWarning(t) == Marker + ("Ingredient list contains '" + t + "'.");
    assert |Marker| == 9;
  }

  /**
   * Every warning opens with the marker "WARNING: ", and neither of the other
   * two verdicts starts with its first letter.
   */
  lemma {:induction false} WarningsMarked(allergens: seq<string>, ingredients: seq<string>, terms: seq<string>)
    ensures forall k :: 0 <= k < |Feedback(allergens, ingredients, terms)| ==>
      |Feedback(allergens, ingredients, terms)[k]| >= 9 && Feedback(allergens, ingredients, terms)[k][..9] == Marker
    ensures forall k :: 0 <= k < |Feedback(allergens, ingredients, terms)| ==> Feedback(allergens, ingredients, terms)[k][0] == 'W'
    ensures NotApplicable[0] != 'W' && Safe[0] != 'W'
  {
    if terms != [] {
      WarningsMarked(allergens, ingredients, terms[1..]);
      WarningPrefix(terms[0]);
      var fb := Feedback(allergens, ingredients, terms);
      forall k | 0 <= k < |fb| ensures |fb[k]| >= 9 && fb[k][..9] == Marker && fb[k][0] == 'W' {
        assert fb[k][0] == fb[k][..9][0];
      }
    }
  }

  /** Joining a non-empty list starts with the first part's first character. */
  lemma {:induction false} JoinHead(parts: seq<string>, sep: string)
    requires parts != [] && parts[0] != []
    ensures |Join(parts, sep)| > 0 && Join(parts, sep)[0] == parts[0][0]
  {
  }

  /** The verdict is "not applicable" exactly when there is no product or no profile. */
  lemma EvaluateNotApplicable(product: Option<Product>, profile: seq<string>)
    ensures Evaluate(product, profile) == NotApplicable <==> product.None? || profile == []
  {
    if product.Some? && profile != [] {
      var fb := ProductFeedback(product.value, profile);
      assert NotApplicable[0] == 'N' && Safe[0] == 'S';
      if fb != [] {
        WarningsMarked(LowerAll(Allergens(product.value)), LowerAll(Ingredients(product.value)), profile);
        JoinHead(fb, " ");
      }
    }
  }

  /**
   * For a product and a non-empty profile the verdict is "safe" exactly when
   * no term warns, and otherwise the warnings joined by single spaces.
   */
  lemma EvaluateVerdict(p: Product, profile: seq<string>)
    requires profile != []
    ensures Evaluate(Some(p), profile) == Safe <==> ProductFeedback(p, profile) == []
    ensures ProductFeedback(p, profile) != [] ==>
            Evaluate(Some(p), profile) == Join(ProductFeedback(p, profile), " ")
  {
    var fb := ProductFeedback(p, profile);
    if fb != [] {
      assert Safe[0] == 'S';
      WarningsMarked(LowerAll(Allergens(p)), LowerAll(Ingredients(p)), profile);
      JoinHead(fb, " ");
    }
  }

  /**
   * On a product record the allergen check ignores the record's case: a
   * profile term equal to some allergen of the record once lower-cased
   * yields the allergen warning, and never the ingredient warning.
   */
  lemma AllergenCaseInsensitive(p: Product, profile: seq<string>, t: string, a: string)
    requires t in profile && a in Allergens(p) && Lower(a) == t
    ensures AllergenWarning(t) in ProductFeedback(p, profile)
    ensures IngredientWarning(t) !in ProductFeedback(p, profile)
  {
    var al := LowerAll(Allergens(p));
    var i :| 0 <= i < |Allergens(p)| && Allergens(p)[i] == a;
    assert al[i] == t;
    AllergenWins(al, LowerAll(Ingredients(p)), profile, t);
  }

  /**
   * On a product record the ingredient check is a substring test on the
   * lower-cased ingredients: a profile term matching no allergen of the
   * record yields the ingredient warning exactly when it occurs in some
   * lower-cased ingredient, so a record with no ingredients never does.
   */
  lemma IngredientCaseInsensitive(p: Product, profile: seq<string>, t: string)
    requires t in profile
    requires forall a :: a in Allergens(p) ==> Lower(a) != t
    ensures (exists j :: 0 <= j < |Ingredients(p)| && Contains(Lower(Ingredients(p)[j]), t)) <==>
      IngredientWarning(t) in ProductFeedback(p, profile)
    ensures Ingredients(p) == [] ==> IngredientWarning(t) !in ProductFeedback(p, profile)
    ensures AllergenWarning(t) !in ProductFeedback(p, profile)
  {
    var al, ing := LowerAll(Allergens(p)), LowerAll(Ingredients(p));
    assert t !in al;
    IngredientMatch(al, ing, profile, t);
    if exists j :: 0 <= j < |Ingredients(p)| && Contains(Lower(Ingredients(p)[j]), t) {
      var j :| 0 <= j < |Ingredients(p)| && Contains(Lower(Ingredients(p)[j]), t);
      assert Contains(ing[j], t);
    }
    if InSomeIngredient(ing, t) {
      var j :| 0 <= j < |ing| && Contains(ing[j], t);
      assert Contains(Lower(Ingredients(p)[j]), t);
    }
  }

  /** The ingredient warning for the term "nuts", spelled out. */
  lemma NutsIngredientWarning()
    ensures IngredientWarning("nuts") == "WARNING: Ingredient list contains 'nuts'."
  {
    assert Marker + "Ingredient list contains '" == "WARNING: Ingredient list contains '";
  }

  /** The allergen warning for the term "nuts", spelled out. */
  lemma NutsAllergenWarning()
    ensures AllergenWarning("nuts") == "WARNING: Contains allergen 'nuts'."
  {
    assert Marker + "Contains allergen '" == "WARNING: Contains allergen '";
  }

  /** The trail mix's lists once lower-cased: its one allergen and its fifth ingredient. */
  lemma TrailMixLowered()
    ensures LowerAll(Allergens(TrailMix)) == ["tree nuts"]
    ensures |LowerAll(Ingredients(TrailMix))| == 5 && LowerAll(Ingredients(TrailMix))[4] == "cashew nuts"
  {
    assert Lower("Tree Nuts") == "tree nuts";
    assert Lower("Cashew Nuts") == "cashew nuts";
  }

  /**
   * Exact against substring matching on the catalog: "nuts" does not equal the
   * trail mix's allergen "Tree Nuts" but occurs in its ingredient "Cashew Nuts".
   */
  lemma NutsOnTrailMix()
    ensures Evaluate(Some(TrailMix), ["nuts"]) == "WARNING: Ingredient list contains 'nuts'."
  {
    var allergens, ingredients := LowerAll(Allergens(TrailMix)), LowerAll(Ingredients(TrailMix));
    TrailMixLowered();
    assert OccursAt("cashew nuts", "nuts", 7);
    ContainsAt("cashew nuts", "nuts");
    assert InSomeIngredient(ingredients, "nuts");
    assert TermWarning(allergens, ingredients, "nuts") == Some(IngredientWarning("nuts"));
    assert Feedback(allergens, ingredients, ["nuts"]) == [IngredientWarning("nuts")];
    NutsIngredientWarning();
  }

  /** "nuts" is itself an allergen of the muesli, so the allergen message is given. */
  lemma NutsOnMuesli()
    ensures Evaluate(Some(Muesli), ["nuts"]) == "WARNING: Contains allergen 'nuts'."
  {
    var allergens, ingredients := LowerAll(Allergens(Muesli)), LowerAll(Ingredients(Muesli));
    assert Lower("Nuts") == "nuts";
    assert allergens[1] == "nuts";
    assert TermWarning(allergens, ingredients, "nuts") == Some(AllergenWarning("nuts"));
    assert Feedback(allergens, ingredients, ["nuts"]) == [AllergenWarning("nuts")];
    NutsAllergenWarning();
  }

  /** The kala chana's lists once lower-cased: no allergens and one ingredient. */
  lemma KalaChanaLowered()
    ensures LowerAll(Allergens(KalaChana)) == []
    ensures LowerAll(Ingredients(KalaChana)) == ["kala chana"]
  {
    assert Lower("Kala Chana") == "kala chana";
  }

  /** Neither list of the kala chana mentions "nuts": it is safe. */
  lemma NutsOnKalaChana()
    ensures Evaluate(Some(KalaChana), ["nuts"]) == Safe
  {
    assert TermWarning([], ["kala chana"], "nuts") == None by {
      NotContained("kala chana", "nuts", 'u');
      assert !InSomeIngredient(["kala chana"], "nuts");
    }
    assert ProductFeedback(KalaChana, ["nuts"]) == [] by {
      KalaChanaLowered();
      assert Feedback([], ["kala chana"], ["nuts"]) == [];
    }
  }

  /** A string missing one of `t`'s characters does not contain `t`. */
  lemma {:induction false} NotContained(s: string, t: string, c: char)
    requires c in t && c !in s
    ensures !Contains(s, t)
  {
    if s != [] {
      NotContained(s[1..], t, c);
    }
  }
}
