/**
  * Auto-categorization of a merchant name (expenserule/categorization.py):
  * the user's correction memory first, then the built-in merchant lookup
  * table, and the language-model classifier last.
  *
  * The correction store, the classifier's reply and the static tables of
  * `expenserule.categories` are parameters: the store is a function of the
  * merchant string as the caller passed it, the reply is the text the
  * classifier returned.
  */
module Categorization {
  import opened Wrappers
  import opened Text

  /** What an unrecognised classifier reply is replaced by. */
  const FALLBACK_CATEGORY := "Other Expenses"

  /** The Schedule C line given to a classifier category `CATEGORY_LINE` does not know. */
  const FALLBACK_LINE := "27a"

  /** Which tier produced a suggestion. */
  datatype Source = FromCorrection | FromLookup | FromLlm {
    /** The `"source"` value of the returned dict. */
    function Tag(): (t: string)
      ensures t in {"correction_memory", "lookup", "llm"}
      ensures t == "correction_memory" <==> this == FromCorrection
      ensures t == "lookup" <==> this == FromLookup
      ensures t == "llm" <==> this == FromLlm
    {
      match this
      case FromCorrection => "correction_memory"
      case FromLookup => "lookup"
      case FromLlm => "llm"
    }
  }

  /** The dict `suggest_category` returns. */
  datatype Suggestion = Suggestion(category: string, scheduleCLine: string, source: Source)

  /**
    * The tables of `expenserule.categories`: the category names in the
    * order of `SCHEDULE_C_CATEGORIES`, `CATEGORY_LINE` (category name to
    * Schedule C line), and `MERCHANT_LOOKUP` (merchant key to category) in
    * its declaration order.
    */
  datatype Catalog = Catalog(names: seq<string>, lines: map<string, string>, lookup: seq<(string, string)>)

  /** `MERCHANT_LOOKUP` is a dict: no key is declared twice. */
  predicate UniqueKeys(table: seq<(string, string)>) {
    forall i, j | 0 <= i < j < |table| :: table[i].0 != table[j].0
  }

  /**
    * The tables as the source declares them: `MERCHANT_LOOKUP` is a dict, so
    * no key is declared twice, and every category it can hand back is a key
    * of `CATEGORY_LINE` (otherwise `CATEGORY_LINE[from_table]` raises). An
    * empty category never reaches that subscript.
    */
  predicate WellFormed(catalog: Catalog) {
    && UniqueKeys(catalog.lookup)
    && forall i | 0 <= i < |catalog.lookup| :: catalog.lookup[i].1 != "" ==> catalog.lookup[i].1 in catalog.lines
  }

  /** `_normalize`: the merchant name stripped, then lowercased. */
  function Normalize(merchant: string): (key: string)
    ensures Stripped(key) && NoUpper(key)
    ensures |key| <= |merchant|
  {
    LowerKeepsStripped(Strip(merchant));
    LowerHasNoUpper(Strip(merchant));
    Lower(Strip(merchant))
  }

  /** Normalizing a normalized key changes nothing. */
  lemma NormalizeIdempotent(merchant: string)
    ensures Normalize(Normalize(merchant)) == Normalize(merchant)
  {
    var key := Normalize(merchant);
    StripUnique([], key, []);
    assert [] + key + [] == key;
    LowerIdempotent(Strip(merchant));
  }

  /** `MERCHANT_LOOKUP[key]` when `key in MERCHANT_LOOKUP`, and `None` otherwise. */
  function FindExact(table: seq<(string, string)>, key: string): (r: Option<string>)
    ensures r.None? <==> forall i | 0 <= i < |table| :: table[i].0 != key
    ensures r.Some? ==> exists i | 0 <= i < |table| :: table[i] == (key, r.value)
  {
    if table == [] then None
    else if table[0].0 == key then Some(table[0].1)
    else
      var r := FindExact(table[1..], key);
      assert r.Some? ==> exists i | 0 <= i < |table[1..]| :: table[1..][i] == (key, r.value);
      r
  }

  /** In a dict, the entry whose key is `key` is the one found. */
  lemma {:induction false} FindExactAt(table: seq<(string, string)>, key: string, i: nat)
    requires UniqueKeys(table)
    requires i < |table| && table[i].0 == key
    ensures FindExact(table, key) == Some(table[i].1)
  {
    if i > 0 {
      assert table[0].0 != key;
      FindExactAt(table[1..], key, i - 1);
    }
  }

  /** The category of the first entry, in declaration order, whose key occurs in `key`. */
  function FirstContained(table: seq<(string, string)>, key: string): (r: Option<string>)
    ensures r.None? <==> forall i | 0 <= i < |table| :: !Contains(key, table[i].0)
    ensures r.Some? ==> exists i | 0 <= i < |table| :: table[i].1 == r.value && Contains(key, table[i].0)
  {
    if table == [] then None
    else if Contains(key, table[0].0) then Some(table[0].1)
    else
      var r := FirstContained(table[1..], key);
      assert r.Some? ==> exists i | 0 <= i < |table[1..]| ::
        table[1..][i].1 == r.value && Contains(key, table[1..][i].0);
      r
  }

  /** The entry found by the scan is the earliest-declared one whose key occurs in `key`. */
  lemma {:induction false} FirstContainedAt(table: seq<(string, string)>, key: string, i: nat)
    requires i < |table| && Contains(key, table[i].0)
    requires forall j | 0 <= j < i :: !Contains(key, table[j].0)
    ensures FirstContained(table, key) == Some(table[i].1)
  {
    if i > 0 {
      FirstContainedAt(table[1..], key, i - 1);
    }
  }

  /**
    * `_lookup_table`: an exact match on the normalized merchant first, then
    * the first declared key that occurs in it. The result is `None` exactly
    * when no key occurs in the normalized merchant (an exact match is one
    * such occurrence), and otherwise the category of a key that does.
    */
  function Lookup(table: seq<(string, string)>, merchant: string): (r: Option<string>)
    ensures r.None? <==> forall i | 0 <= i < |table| :: !Contains(Normalize(merchant), table[i].0)
    ensures r.Some? ==> exists i | 0 <= i < |table| ::
      table[i].1 == r.value && Contains(Normalize(merchant), table[i].0)
  {
    var key := Normalize(merchant);
    var exact := FindExact(table, key);
    if exact.Some? then
      ContainsSelf(key);
      exact
    else
      FirstContained(table, key)
  }

  /**
    * `_lookup_table` as the source runs it: a dict membership test, then a
    * `for` loop over the table's items that returns at the first key
    * contained in the normalized merchant.
    */
  method ScanLookupTable(table: seq<(string, string)>, merchant: string) returns (r: Option<string>)
    ensures r == Lookup(table, merchant)
  {
    var key := Normalize(merchant);
    var exact := FindExact(table, key);
    if exact.Some? {
      return exact;
    }
    var i := 0;
    while i < |table|
      invariant 0 <= i <= |table|
      invariant FirstContained(table[i..], key) == FirstContained(table, key)
    {
      if Contains(key, table[i].0) {
        return Some(table[i].1);
      }
      assert table[i..][1..] == table[i + 1..];
      i := i + 1;
    }
    return None;
  }

  /**
    * An exact key match decides the lookup, even when a key declared
    * earlier also occurs in the normalized merchant.
    */
  lemma LookupExactWins(table: seq<(string, string)>, merchant: string, i: nat)
    requires UniqueKeys(table)
    requires i < |table| && table[i].0 == Normalize(merchant)
    ensures Lookup(table, merchant) == Some(table[i].1)
  {
    FindExactAt(table, Normalize(merchant), i);
  }

  /**
    * With no exact match, the lookup returns the category of the
    * earliest-declared key that occurs in the normalized merchant.
    */
  lemma LookupFirstSubstring(table: seq<(string, string)>, merchant: string, i: nat)
    requires forall j | 0 <= j < |table| :: table[j].0 != Normalize(merchant)
    requires i < |table| && Contains(Normalize(merchant), table[i].0)
    requires forall j | 0 <= j < i :: !Contains(Normalize(merchant), table[j].0)
    ensures Lookup(table, merchant) == Some(table[i].1)
  {
    FirstContainedAt(table, Normalize(merchant), i);
  }

  /**
    * The validation in `_llm_suggest`: the stripped reply when it is exactly
    * one of the category names, and the fallback category otherwise.
    */
  function ValidateSuggestion(reply: string, names: seq<string>): (c: string)
    ensures c in names || c == FALLBACK_CATEGORY
    ensures Strip(reply) in names ==> c == Strip(reply)
    ensures c != FALLBACK_CATEGORY ==> c == Strip(reply)
  {
    var suggestion := Strip(reply);
    if suggestion in names then suggestion else FALLBACK_CATEGORY
  }

  /**
    * A reply that is not a category name once stripped (a different case,
    * extra punctuation, an explanation, nothing at all) becomes the fallback.
    */
  lemma InexactReplyFallsBack(reply: string, names: seq<string>)
    requires Strip(reply) !in names
    ensures ValidateSuggestion(reply, names) == FALLBACK_CATEGORY
  {
  }

  /** `if remembered and remembered in CATEGORY_LINE`: a usable correction. */
  predicate RememberedHit(remembered: Option<string>, lines: map<string, string>) {
    remembered.Some? && remembered.value != "" && remembered.value in lines
  }

  /** `if from_table`: the lookup found a non-empty category. */
  predicate TableHit(fromTable: Option<string>) {
    fromTable.Some? && fromTable.value != ""
  }

  /**
    * `suggest_category`: correction memory, then the lookup table, then the
    * classifier, each tagged with its source and its Schedule C line.
    */
  function SuggestCategory(merchant: string, catalog: Catalog, correction: string -> Option<string>, llmReply: string)
    : (r: Suggestion)
    requires WellFormed(catalog)
    ensures r.source == FromCorrection <==> RememberedHit(correction(merchant), catalog.lines)
    ensures r.source == FromLlm <==>
      !RememberedHit(correction(merchant), catalog.lines) && !TableHit(Lookup(catalog.lookup, merchant))
    ensures r.source == FromCorrection ==> r.category == correction(merchant).value
    ensures r.source == FromLookup ==> Lookup(catalog.lookup, merchant) == Some(r.category)
    ensures r.source == FromLlm ==> r.category == ValidateSuggestion(llmReply, catalog.names)
    ensures r.source != FromLlm ==> r.category in catalog.lines
    ensures r.source == FromLlm ==> r.category in catalog.names || r.category == FALLBACK_CATEGORY
    ensures r.category in catalog.lines ==> r.scheduleCLine == catalog.lines[r.category]
    ensures r.category !in catalog.lines ==> r.source == FromLlm && r.scheduleCLine == FALLBACK_LINE
  {
    var remembered := correction(merchant);
    if RememberedHit(remembered, catalog.lines) then
      Suggestion(remembered.value, catalog.lines[remembered.value], FromCorrection)
    else
      var fromTable := Lookup(catalog.lookup, merchant);
      if TableHit(fromTable) then
        Suggestion(fromTable.value, catalog.lines[fromTable.value], FromLookup)
      else
        var c := ValidateSuggestion(llmReply, catalog.names);
        Suggestion(c, if c in catalog.lines then catalog.lines[c] else FALLBACK_LINE, FromLlm)
  }

  /** A usable correction is returned whatever the lookup table and the classifier say. */
  lemma CorrectionWins(merchant: string, catalog: Catalog, correction: string -> Option<string>, llmReply: string)
    requires WellFormed(catalog)
    requires RememberedHit(correction(merchant), catalog.lines)
    ensures var c := correction(merchant).value;
      SuggestCategory(merchant, catalog, correction, llmReply) == Suggestion(c, catalog.lines[c], FromCorrection)
  {
  }

  /**
    * A remembered category that is empty or not in `CATEGORY_LINE` is a
    * miss: the answer is the one given with no correction at all.
    */
  lemma CorrectionMissFallsThrough(merchant: string, catalog: Catalog, correction: string -> Option<string>, llmReply: string)
    requires WellFormed(catalog)
    requires !RememberedHit(correction(merchant), catalog.lines)
    ensures SuggestCategory(merchant, catalog, correction, llmReply)
         == SuggestCategory(merchant, catalog, _ => None, llmReply)
  {
  }

  /** The classifier's reply matters only when both earlier tiers miss. */
  lemma LlmConsultedLast(merchant: string, catalog: Catalog, correction: string -> Option<string>, reply1: string, reply2: string)
    requires WellFormed(catalog)
    requires SuggestCategory(merchant, catalog, correction, reply1).source != FromLlm
    ensures SuggestCategory(merchant, catalog, correction, reply1)
         == SuggestCategory(merchant, catalog, correction, reply2)
  {
  }

  /**
    * When both earlier tiers miss, a reply that is a category name once
    * stripped is the suggestion, with the classifier as its source.
    */
  lemma ValidReplySuggested(merchant: string, catalog: Catalog, correction: string -> Option<string>, llmReply: string)
    requires WellFormed(catalog)
    requires !RememberedHit(correction(merchant), catalog.lines)
    requires !TableHit(Lookup(catalog.lookup, merchant))
    requires Strip(llmReply) in catalog.names
    ensures var r := SuggestCategory(merchant, catalog, correction, llmReply);
      r.category == Strip(llmReply) && r.source == FromLlm
  {
  }

  /**
    * With no usable correction, a merchant whose normalized name is exactly
    * a lookup key gets that key's category from the lookup tier.
    */
  lemma ExactLookupSuggested(merchant: string, catalog: Catalog, correction: string -> Option<string>, llmReply: string, i: nat)
    requires WellFormed(catalog)
    requires !RememberedHit(correction(merchant), catalog.lines)
    requires i < |catalog.lookup| && catalog.lookup[i].0 == Normalize(merchant) && catalog.lookup[i].1 != ""
    ensures var c := catalog.lookup[i].1;
      SuggestCategory(merchant, catalog, correction, llmReply) == Suggestion(c, catalog.lines[c], FromLookup)
  {
    LookupExactWins(catalog.lookup, merchant, i);
  }

  /**
    * With no usable correction and no exact key, the earliest-declared key
    * contained in the normalized merchant decides the lookup tier.
    */
  lemma SubstringLookupSuggested(merchant: string, catalog: Catalog, correction: string -> Option<string>, llmReply: string, i: nat)
    requires WellFormed(catalog)
    requires !RememberedHit(correction(merchant), catalog.lines)
    requires forall j | 0 <= j < |catalog.lookup| :: catalog.lookup[j].0 != Normalize(merchant)
    requires i < |catalog.lookup| && Contains(Normalize(merchant), catalog.lookup[i].0) && catalog.lookup[i].1 != ""
    requires forall j | 0 <= j < i :: !Contains(Normalize(merchant), catalog.lookup[j].0)
    ensures var c := catalog.lookup[i].1;
      SuggestCategory(merchant, catalog, correction, llmReply) == Suggestion(c, catalog.lines[c], FromLookup)
  {
    LookupFirstSubstring(catalog.lookup, merchant, i);
  }

  /**
    * When every category name has a Schedule C line, every suggestion is a
    * known category with its own line, except the classifier fallback,
    * which carries line "27a" if `CATEGORY_LINE` lacks it.
    */
  lemma SuggestionInCatalog(merchant: string, catalog: Catalog, correction: string -> Option<string>, llmReply: string)
    requires WellFormed(catalog)
    requires forall n | n in catalog.names :: n in catalog.lines
    ensures var r := SuggestCategory(merchant, catalog, correction, llmReply);
      (r.category in catalog.lines && r.scheduleCLine == catalog.lines[r.category])
      || r == Suggestion(FALLBACK_CATEGORY, FALLBACK_LINE, FromLlm)
  {
  }
}
