/** The guards that keep two product texts apart. */
module Guards {
  import opened Wrappers

  type Code = string

  /** What the guards compare. `variants` is the source's sorted tuple of (group, words), a map. */
  datatype Features = Features(
    key: string,
    sortedKey: string,
    flatKey: string,
    numbers: seq<string>,
    parts: set<string>,
    variants: map<string, set<string>>,
    shorts: set<string>,
    kind: string,
    marks: set<string>
  )

  datatype Guard =
    | Impa | ImpaMarks | ItemKind | Numbers | PartNumbers | VariantWords | ShortTokens
    | SameQuotation | OverrideSplit | TextTooFar

  /** Similarity of two keys (token_sort_ratio of the source's text library). */
  type Scorer = (string, string) -> real

  const IMPA_TEXT_MIN: real := 60.0

  function WordsOf(variants: map<string, set<string>>, group: string): set<string> {
    if group in variants then variants[group] else {}
  }

  predicate VariantsDiffer(a: Features, b: Features) {
    exists g | g in a.variants.Keys + b.variants.Keys :: WordsOf(a.variants, g) != WordsOf(b.variants, g)
  }

  /** The first guard that blocks merging a and b, or None. */
  function BlockingGuard(a: Features, b: Features, codeA: Option<Code> := None,
      codeB: Option<Code> := None): Option<Guard> {
    var spacingOnly := a.flatKey == b.flatKey;
    if codeA.Some? && codeB.Some? && codeA.value != codeB.value then Some(Impa)
    else if a.marks != b.marks then Some(ImpaMarks)
    else if a.kind != b.kind then Some(ItemKind)
    else if !spacingOnly && a.numbers != b.numbers then Some(Numbers)
    else if !spacingOnly && a.parts != b.parts then Some(PartNumbers)
    else if VariantsDiffer(a, b) then Some(VariantWords)
    else if !spacingOnly && a.shorts != b.shorts then Some(ShortTokens)
    else None
  }

  /** What keeps two texts under one code apart: every hard guard, then the text bar. */
  function ImpaGuard(score: Scorer, a: Features, b: Features): Option<Guard> {
    var guard := BlockingGuard(a, b);
    if guard.None? && score(a.key, b.key) < IMPA_TEXT_MIN then Some(TextTooFar) else guard
  }

  /** The verdict, name included, does not depend on which text comes first. */
  lemma BlockingGuardSymmetric(a: Features, b: Features, codeA: Option<Code>, codeB: Option<Code>)
    ensures BlockingGuard(a, b, codeA, codeB) == BlockingGuard(b, a, codeB, codeA)
  {
    if VariantsDiffer(a, b) {
      var g :| g in a.variants.Keys + b.variants.Keys && WordsOf(a.variants, g) != WordsOf(b.variants, g);
      assert g in b.variants.Keys + a.variants.Keys;
    }
    if VariantsDiffer(b, a) {
      var g :| g in b.variants.Keys + a.variants.Keys && WordsOf(b.variants, g) != WordsOf(a.variants, g);
      assert g in a.variants.Keys + b.variants.Keys;
    }
  }

  /** Passing the guards is not transitive: "m 10" passes with "m10" by spacing and "m10" with
      "bolt m10", whose numbers and parts are its own, yet the outer two differ in their parts.
      Checks against one member are therefore not enough, and a union must look at all of them. */
  lemma PassingIsNotTransitive()
    ensures exists a: Features, b: Features, c: Features ::
      BlockingGuard(a, b).None? && BlockingGuard(b, c).None? && BlockingGuard(a, c).Some?
  {
    var a := Features("m 10", "10 m", "m10", ["10"], {}, map[], {"m"}, "product", {});
    var b := Features("m10", "m10", "m10", ["10"], {"m10"}, map[], {}, "product", {});
    var c := Features("bolt m10", "bolt m10", "boltm10", ["10"], {"m10"}, map[], {}, "product", {});
    assert BlockingGuard(a, b).None? && BlockingGuard(b, c).None? && BlockingGuard(a, c).Some?;
  }
}
