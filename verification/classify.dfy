/** How the BHD statement importer files a debit: keyword rules on the
    movement's detail pick a category and a purpose by name, the category
    can imply a purpose ("need" or "want"), and the chosen defaults fill in
    whatever is left. */
module Classify {
  import opened Base
  import opened Text

  /** A category or purpose row: its id and its display name. */
  datatype Named = Named(id: string, name: string)

  /** A case-insensitive keyword rule: the detail matches when, lower-cased,
      it contains one of `keywords`; the rule then names the category or
      purpose `name`. Regular-expression character classes such as
      `caf[eé]` are spelled out as one keyword per alternative. */
  datatype Rule = Rule(keywords: seq<string>, name: string)

  const CategoryRules: seq<Rule> := [
    Rule(["supermerc", "colmado", "market", "grocery"], "Groceries"),
    Rule(["restaurant", "restaurante", "comida", "cafe", "café", "bar"], "Restaurants"),
    Rule(["uber", "taxi", "metro", "gas", "combustible", "peaje"], "Transport"),
    Rule(["luz", "agua", "internet", "telefono", "teléfono", "claro", "altice", "edenorte", "edesur"], "Utilities"),
    Rule(["renta", "alquiler", "lease"], "Rent"),
    Rule(["farmacia", "medic", "clinica", "clínica", "hospital", "seguro"], "Health"),
    Rule(["colegio", "universidad", "curso", "clase"], "Education"),
    Rule(["cine", "netflix", "spotify", "hbo", "disney"], "Entertainment"),
    Rule(["hotel", "airbnb", "aerolinea", "vuelo", "avianca", "american", "delta"], "Travel"),
    Rule(["comision", "comisión", "cargo", "fee", "impuesto"], "Fees")
  ]

  const PurposeRules: seq<Rule> := [
    Rule(["ahorro", "savings"], "Savings"),
    Rule(["inversion", "inversión", "investment"], "Investment"),
    Rule(["impuesto", "tax"], "Taxes"),
    Rule(["negocio", "business"], "Business")
  ]

  /** Lower-cased category names whose debits are needs, and wants. */
  const NeedCategories: seq<string> := ["groceries", "utilities", "rent", "health", "education"]
  const WantCategories: seq<string> := ["restaurants", "entertainment", "travel"]

  predicate Matches(rule: Rule, detail: string) {
    exists k | 0 <= k < |rule.keywords| :: Contains(ToLower(detail), rule.keywords[k])
  }

  /** The lookup tables the route builds: lower-cased name to id, and id to
      name, a later row winning over an earlier one with the same key. */
  function IdByName(rows: seq<Named>): map<string, string> {
    MapBy(rows, (row: Named) => (ToLower(row.name), row.id))
  }

  function NameById(rows: seq<Named>): map<string, string> {
    MapBy(rows, (row: Named) => (row.id, row.name))
  }

  /** A rule decides: the detail matches it and its name resolves to a
      non-empty id. */
  predicate Decides(rule: Rule, detail: string, ids: map<string, string>) {
    Matches(rule, detail) && ToLower(rule.name) in ids && ids[ToLower(rule.name)] != ""
  }

  /** The rule loop: the id named by the first rule that decides, if any.
      A rule that matches but whose name has no id is passed over. */
  function FirstRuleHit(rules: seq<Rule>, detail: string, ids: map<string, string>): (r: Option<string>)
    ensures r.None? <==> forall k | 0 <= k < |rules| :: !Decides(rules[k], detail, ids)
    ensures r.Some? ==> exists k | 0 <= k < |rules| ::
              && Decides(rules[k], detail, ids)
              && r.value == ids[ToLower(rules[k].name)]
              && forall l | 0 <= l < k :: !Decides(rules[l], detail, ids)
  {
    var k := FirstWhere(rules, 0, rule => Decides(rule, detail, ids));
    if k < |rules| then Some(ids[ToLower(rules[k].name)]) else None
  }

  /** The category id of a debit: the first deciding category rule, else
      the default. */
  function CategoryFor(detail: string, categories: seq<Named>, defaultCategoryId: string): (r: string)
    ensures FirstRuleHit(CategoryRules, detail, IdByName(categories)).None? ==> r == defaultCategoryId
    ensures FirstRuleHit(CategoryRules, detail, IdByName(categories)).Some? ==>
              r == FirstRuleHit(CategoryRules, detail, IdByName(categories)).value && r != ""
  {
    match FirstRuleHit(CategoryRules, detail, IdByName(categories))
    case Some(id) => id
    case None => defaultCategoryId
  }

  /** The purpose a category implies: for a need category the purpose
      named "need", for a want category the one named "want" (either may be
      absent, and the want test comes second); nothing for other categories
      or an unnamed id. */
  function ImpliedPurpose(categoryId: string, categories: seq<Named>, purposes: seq<Named>): (r: Option<string>)
    ensures var name := ToLower(Get(NameById(categories), categoryId).GetOr(""));
            && (name !in NeedCategories && name !in WantCategories ==> r.None?)
            && (name in NeedCategories && name !in WantCategories ==> r == Get(IdByName(purposes), "need"))
            && (name in WantCategories ==> r == Get(IdByName(purposes), "want"))
  {
    var name := ToLower(Get(NameById(categories), categoryId).GetOr(""));
    var need := if name in NeedCategories then Get(IdByName(purposes), "need") else None;
    if name in WantCategories then Get(IdByName(purposes), "want") else need
  }

  /** The purpose id of a debit, in the route's order of preference: the
      first deciding purpose rule; else (for a non-empty category) the
      purpose the category implies, when that id is not empty; else the
      default. */
  function PurposeFor(detail: string, categoryId: string, categories: seq<Named>, purposes: seq<Named>, defaultPurposeId: string): (r: string)
    ensures var hit := FirstRuleHit(PurposeRules, detail, IdByName(purposes));
            hit.Some? ==> r == hit.value
    ensures var hit := FirstRuleHit(PurposeRules, detail, IdByName(purposes));
            var implied := ImpliedPurpose(categoryId, categories, purposes);
            hit.None? && categoryId != "" && implied.Some? && implied.value != "" ==> r == implied.value
    ensures var hit := FirstRuleHit(PurposeRules, detail, IdByName(purposes));
            var implied := ImpliedPurpose(categoryId, categories, purposes);
            hit.None? && (categoryId == "" || implied.None? || implied.value == "") ==> r == defaultPurposeId
    ensures r == defaultPurposeId || r in IdByName(purposes).Values
  {
    var hit := FirstRuleHit(PurposeRules, detail, IdByName(purposes));
    var chosen :=
      if hit.Some? then hit
      else if categoryId != "" then ImpliedPurpose(categoryId, categories, purposes)
      else None;
    if chosen.Some? && chosen.value != "" then chosen.value else defaultPurposeId
  }

  /** Outcome of filing one debit: both ids, or the route's
      `categoryRequired` error. */
  datatype Filing = Filed(categoryId: string, purposeId: string) | Unfiled

  function FileDebit(detail: string, categories: seq<Named>, purposes: seq<Named>, defaultCategoryId: string, defaultPurposeId: string): (r: Filing)
    ensures r.Filed? ==> r.categoryId != "" && r.purposeId != ""
    ensures r.Filed? ==> r.categoryId == CategoryFor(detail, categories, defaultCategoryId)
  {
    var categoryId := CategoryFor(detail, categories, defaultCategoryId);
    var purposeId := PurposeFor(detail, categoryId, categories, purposes, defaultPurposeId);
    if categoryId == "" || purposeId == "" then Unfiled else Filed(categoryId, purposeId)
  }

  /** The route's `categoryRequired` row error cannot happen: it rejects
      empty defaults before reading rows, and with non-empty defaults every
      debit is filed. */
  lemma DefaultsAlwaysFile(detail: string, categories: seq<Named>, purposes: seq<Named>, defaultCategoryId: string, defaultPurposeId: string)
    requires defaultCategoryId != "" && defaultPurposeId != ""
    ensures FileDebit(detail, categories, purposes, defaultCategoryId, defaultPurposeId).Filed?
  {
  }

  /** A detail no rule matches is filed under the defaults, unless the
      default category implies a purpose. */
  lemma UnmatchedDetailGetsDefaults(detail: string, categories: seq<Named>, purposes: seq<Named>, defaultCategoryId: string, defaultPurposeId: string)
    requires defaultCategoryId != "" && defaultPurposeId != ""
    requires forall k | 0 <= k < |CategoryRules| :: !Matches(CategoryRules[k], detail)
    requires forall k | 0 <= k < |PurposeRules| :: !Matches(PurposeRules[k], detail)
    requires ImpliedPurpose(defaultCategoryId, categories, purposes).None?
    ensures FileDebit(detail, categories, purposes, defaultCategoryId, defaultPurposeId) == Filed(defaultCategoryId, defaultPurposeId)
  {
  }
}
