/** The discovery catalog: its validation, lookup by binary search, and the rules of its history. */
module PluginCatalog {
  import opened Basics
  import opened Ordering
  import opened Context

  const CATALOG_VERSION := 1
  const MAX_CATALOG_ENTRIES := 4096
  const FIRST_PARTY_OWNER := "cameroncooper"

  datatype GithubSource = GithubSource(owner: string, repository: string)

  datatype Tier = Listed | Curated | FirstParty

  datatype EntryState = Active | Retired

  datatype CatalogEntry = CatalogEntry(
    alias: string,
    source: GithubSource,
    name: string,
    description: string,
    categories: seq<string>,
    tier: Tier,
    state: EntryState)

  datatype Catalog = Catalog(version: u32, plugins: seq<CatalogEntry>)

  // ----- identifiers and texts -----

  predicate IsLower(c: char) {
    'a' <= c <= 'z'
  }

  predicate IsIdentifierChar(c: char) {
    IsLower(c) || '0' <= c <= '9' || c == '-'
  }

  /** `validate_identifier`; only ASCII passes, so bytes and characters coincide. */
  predicate IsIdentifier(value: string, maximum: nat) {
    && 0 < |value| <= maximum
    && IsLower(value[0]) && value[|value| - 1] != '-'
    && (forall i :: 0 <= i < |value| ==> IsIdentifierChar(value[i]))
    && (forall i :: 0 <= i < |value| - 1 ==> !(value[i] == '-' && value[i + 1] == '-'))
  }

  predicate IsUnsafe(c: char) {
    var n := c as int;
    || n < 0x20 || 0x7F <= n <= 0x9F
    || n == 0x200B || n == 0x200E || n == 0x200F || 0x202A <= n <= 0x202E || 0x2066 <= n <= 0x2069 || n == 0xFEFF
  }

  /** `validate_text` */
  predicate IsCatalogText(value: string, maximum: nat) {
    && 0 < |value| <= maximum
    && !IsWhitespace(value[0]) && !IsWhitespace(value[|value| - 1])
    && forall i :: 0 <= i < |value| ==> !IsUnsafe(value[i])
  }

  // ----- validation -----

  datatype Issue =
    | UnsupportedVersion
    | TooManyEntries
    | BadAlias(index: nat)
    | BadName(index: nat)
    | BadDescription(index: nat)
    | LocalSource(index: nat)
    | CategoryCount(index: nat)
    | BadCategory(index: nat, category: nat)
    | DuplicateCategory(index: nat, category: nat)
    | UnsortedCategories(index: nat)
    | DuplicateAlias(index: nat)
    | DuplicateSource(index: nat)
    | UnsortedEntries
    | ForeignFirstParty(index: nat)

  predicate StringLt(a: string, b: string) {
    StringLe(a, b) && a != b
  }

  ghost predicate SortedStrings(names: seq<string>) {
    forall i, j :: 0 <= i < j < |names| ==> StringLt(names[i], names[j])
  }

  function Aliases(plugins: seq<CatalogEntry>): (r: seq<string>)
    ensures |r| == |plugins| && forall i :: 0 <= i < |plugins| ==> r[i] == plugins[i].alias
  {
    seq(|plugins|, i requires 0 <= i < |plugins| => plugins[i].alias)
  }

  ghost predicate SoundEntry(entry: CatalogEntry) {
    && IsIdentifier(entry.alias, 64) && IsCatalogText(entry.name, 80) && IsCatalogText(entry.description, 280)
    && entry.source.owner != "local"
    && 1 <= |entry.categories| <= 8
    && (forall i :: 0 <= i < |entry.categories| ==> IsIdentifier(entry.categories[i], 32))
    && SortedStrings(entry.categories)
    && (entry.tier.FirstParty? ==> entry.source.owner == FIRST_PARTY_OWNER)
  }

  ghost predicate AllSound(plugins: seq<CatalogEntry>) {
    forall i :: 0 <= i < |plugins| ==> SoundEntry(plugins[i])
  }

  ghost predicate DistinctSources(plugins: seq<CatalogEntry>) {
    forall i, j :: 0 <= i < j < |plugins| ==> plugins[i].source != plugins[j].source
  }

  ghost predicate SoundPlugins(plugins: seq<CatalogEntry>) {
    AllSound(plugins) && SortedStrings(Aliases(plugins)) && DistinctSources(plugins)
  }

  ghost predicate ValidCatalog(catalog: Catalog) {
    catalog.version == CATALOG_VERSION && |catalog.plugins| <= MAX_CATALOG_ENTRIES && SoundPlugins(catalog.plugins)
  }

  /** Names that ascend one by one ascend throughout. */
  lemma {:induction false} StepwiseSorted(names: seq<string>, next: string)
    requires SortedStrings(names)
    ensures SortedStrings(names + [next]) <==> (names == [] || StringLt(names[|names| - 1], next))
  {
    var all := names + [next];
    assert forall i :: 0 <= i < |names| ==> all[i] == names[i];
    if names != [] && StringLt(names[|names| - 1], next) {
      forall i, j | 0 <= i < j < |all| ensures StringLt(all[i], all[j]) {
        if j == |names| && i < |names| - 1 {
          StringLtTransitive(names[i], names[|names| - 1], next);
        }
      }
    }
    if SortedStrings(all) && names != [] {
      assert StringLt(all[|names| - 1], all[|names|]);
    }
  }

  lemma {:induction false} StringLtTransitive(a: string, b: string, c: string)
    requires StringLt(a, b) && StringLt(b, c)
    ensures StringLt(a, c)
  {
    StringIsTotalOrder();
    assert StringLe(a, c);
    StringLtAsymmetric(a, b);
  }

  method ValidateCategories(index: nat, categories: seq<string>) returns (issues: seq<Issue>)
    ensures issues == [] <==>
              (forall i :: 0 <= i < |categories| ==> IsIdentifier(categories[i], 32)) && SortedStrings(categories)
  {
    issues := [];
    var seen: set<string> := {};
    var previous: Option<string> := None;
    var i := 0;
    while i < |categories|
      invariant 0 <= i <= |categories|
      invariant seen == Elements(categories[..i])
      invariant previous == if i == 0 then None else Some(categories[i - 1])
      invariant issues == [] <==> (forall k :: 0 <= k < i ==> IsIdentifier(categories[k], 32)) && SortedStrings(categories[..i])
    {
      ghost var before := categories[..i];
      assert categories[..i + 1] == before + [categories[i]];
      NextName(before, categories[i]);
      if !IsIdentifier(categories[i], 32) {
        issues := issues + [BadCategory(index, i)];
      }
      if categories[i] in seen {
        issues := issues + [DuplicateCategory(index, i)];
      }
      seen := seen + {categories[i]};
      if previous.Some? && !StringLt(previous.value, categories[i]) {
        issues := issues + [UnsortedCategories(index)];
      }
      previous := Some(categories[i]);
      i := i + 1;
    }
    assert categories[..i] == categories;
  }

  lemma {:induction false} NextName(names: seq<string>, next: string)
    ensures SortedStrings(names + [next]) <==> SortedStrings(names) && (names == [] || StringLt(names[|names| - 1], next))
    ensures SortedStrings(names + [next]) ==> next !in Elements(names)
    ensures Elements(names + [next]) == Elements(names) + {next}
  {
    var all := names + [next];
    if SortedStrings(all) {
      forall i, j | 0 <= i < j < |names| ensures StringLt(names[i], names[j]) {
        assert StringLt(all[i], all[j]);
      }
      forall i | 0 <= i < |names| ensures names[i] != next {
        assert StringLt(all[i], all[|names|]);
      }
    }
    if SortedStrings(names) {
      StepwiseSorted(names, next);
    }
  }

  method ValidateEntry(index: nat, entry: CatalogEntry) returns (issues: seq<Issue>)
    ensures issues == [] <==> SoundEntry(entry)
  {
    issues := [];
    if !IsIdentifier(entry.alias, 64) {
      issues := issues + [BadAlias(index)];
    }
    if !IsCatalogText(entry.name, 80) {
      issues := issues + [BadName(index)];
    }
    if !IsCatalogText(entry.description, 280) {
      issues := issues + [BadDescription(index)];
    }
    if entry.source.owner == "local" {
      issues := issues + [LocalSource(index)];
    }
    if entry.categories == [] || |entry.categories| > 8 {
      issues := issues + [CategoryCount(index)];
    }
    var more := ValidateCategories(index, entry.categories);
    issues := issues + more;
    if entry.tier == FirstParty && entry.source.owner != FIRST_PARTY_OWNER {
      issues := issues + [ForeignFirstParty(index)];
    }
  }

  function Sources(plugins: seq<CatalogEntry>): set<GithubSource> {
    set entry | entry in plugins :: entry.source
  }

  lemma {:induction false} NextEntry(plugins: seq<CatalogEntry>, next: CatalogEntry)
    ensures Aliases(plugins + [next]) == Aliases(plugins) + [next.alias]
    ensures Sources(plugins + [next]) == Sources(plugins) + {next.source}
    ensures DistinctSources(plugins + [next]) <==> DistinctSources(plugins) && next.source !in Sources(plugins)
  {
    var all := plugins + [next];
    assert forall i :: 0 <= i < |plugins| ==> all[i] == plugins[i];
    forall source ensures source in Sources(all) <==> source in Sources(plugins) || source == next.source {
      if source == next.source {
        assert all[|plugins|] == next;
      }
    }
    if DistinctSources(all) {
      forall i | 0 <= i < |plugins| ensures plugins[i].source != next.source {
        assert all[i].source != all[|plugins|].source;
      }
      forall i, j | 0 <= i < j < |plugins| ensures plugins[i].source != plugins[j].source {
        assert all[i].source != all[j].source;
      }
    }
    if DistinctSources(plugins) && next.source !in Sources(plugins) {
      forall i, j | 0 <= i < j < |all| ensures all[i].source != all[j].source {
        assert plugins[i] in plugins;
      }
    }
  }

  /** `Catalog::validate`: no issue is found exactly when the catalog is valid. */
  method Validate(catalog: Catalog) returns (issues: seq<Issue>)
    ensures issues == [] <==> ValidCatalog(catalog)
  {
    issues := [];
    if catalog.version != CATALOG_VERSION {
      issues := issues + [UnsupportedVersion];
    }
    if |catalog.plugins| > MAX_CATALOG_ENTRIES {
      issues := issues + [TooManyEntries];
    }
    var more := ValidatePlugins(catalog.plugins);
    issues := issues + more;
  }

  method ValidatePlugins(plugins: seq<CatalogEntry>) returns (issues: seq<Issue>)
    ensures issues == [] <==> SoundPlugins(plugins)
  {
    issues := [];
    var aliases: set<string>, sources: set<GithubSource> := {}, {};
    var previous: Option<string> := None;
    var i := 0;
    while i < |plugins|
      invariant 0 <= i <= |plugins|
      invariant aliases == Elements(Aliases(plugins[..i])) && sources == Sources(plugins[..i])
      invariant previous == if i == 0 then None else Some(plugins[i - 1].alias)
      invariant issues == [] <==> SoundPlugins(plugins[..i])
    {
      PluginStep(plugins, i);
      var more := ValidateEntry(i, plugins[i]);
      issues := issues + more;
      if plugins[i].alias in aliases {
        issues := issues + [DuplicateAlias(i)];
      }
      aliases := aliases + {plugins[i].alias};
      if plugins[i].source in sources {
        issues := issues + [DuplicateSource(i)];
      }
      sources := sources + {plugins[i].source};
      if previous.Some? && !StringLt(previous.value, plugins[i].alias) {
        issues := issues + [UnsortedEntries];
      }
      previous := Some(plugins[i].alias);
      i := i + 1;
    }
    assert plugins[..i] == plugins;
  }

  lemma {:induction false} PluginStep(plugins: seq<CatalogEntry>, i: nat)
    requires i < |plugins|
    ensures Elements(Aliases(plugins[..i + 1])) == Elements(Aliases(plugins[..i])) + {plugins[i].alias}
    ensures Sources(plugins[..i + 1]) == Sources(plugins[..i]) + {plugins[i].source}
    ensures SoundPlugins(plugins[..i + 1]) <==>
              && SoundPlugins(plugins[..i]) && SoundEntry(plugins[i])
              && plugins[i].alias !in Elements(Aliases(plugins[..i]))
              && plugins[i].source !in Sources(plugins[..i])
              && (i == 0 || StringLt(plugins[i - 1].alias, plugins[i].alias))
  {
    assert plugins[..i + 1] == plugins[..i] + [plugins[i]];
    SoundNext(plugins[..i], plugins[i]);
  }

  lemma {:induction false} AllSoundNext(plugins: seq<CatalogEntry>, next: CatalogEntry)
    ensures AllSound(plugins + [next]) <==> AllSound(plugins) && SoundEntry(next)
  {
    var all := plugins + [next];
    assert forall i :: 0 <= i < |plugins| ==> all[i] == plugins[i];
    assert all[|plugins|] == next;
  }

  lemma {:induction false} SoundNext(plugins: seq<CatalogEntry>, next: CatalogEntry)
    ensures SoundPlugins(plugins + [next]) <==>
              && SoundPlugins(plugins) && SoundEntry(next)
              && (plugins == [] || StringLt(plugins[|plugins| - 1].alias, next.alias))
              && next.source !in Sources(plugins)
    ensures SoundPlugins(plugins + [next]) ==> next.alias !in Elements(Aliases(plugins))
    ensures Elements(Aliases(plugins + [next])) == Elements(Aliases(plugins)) + {next.alias}
    ensures Sources(plugins + [next]) == Sources(plugins) + {next.source}
  {
    AllSoundNext(plugins, next);
    NextEntry(plugins, next);
    NextName(Aliases(plugins), next.alias);
  }

  // ----- lookup -----

  /** Position of the entry with an alias, found by looking at every entry. */
  function Position(plugins: seq<CatalogEntry>, alias: string): (r: Option<nat>)
    ensures r.None? <==> forall i :: 0 <= i < |plugins| ==> plugins[i].alias != alias
    ensures r.Some? ==> r.value < |plugins| && plugins[r.value].alias == alias
  {
    if plugins == [] then None
    else if plugins[|plugins| - 1].alias == alias then Some(|plugins| - 1)
    else Position(plugins[..|plugins| - 1], alias)
  }

  /** The search of the standard library: halve the part that may hold the alias until one entry is
      left, then compare it. */
  function Narrow(plugins: seq<CatalogEntry>, alias: string, base: nat, size: nat): (r: nat)
    requires 0 < size && base + size <= |plugins|
    ensures base <= r < base + size
    decreases size
  {
    if size == 1 then base
    else
      var half := size / 2;
      Narrow(plugins, alias, if StringLt(alias, plugins[base + half].alias) then base else base + half, size - half)
  }

  function Search(plugins: seq<CatalogEntry>, alias: string): Option<nat> {
    if plugins == [] then None
    else
      var i := Narrow(plugins, alias, 0, |plugins|);
      if plugins[i].alias == alias then Some(i) else None
  }

  function Find(catalog: Catalog, alias: string): Option<CatalogEntry> {
    match Search(catalog.plugins, alias)
    case None => None
    case Some(i) => if i < |catalog.plugins| then Some(catalog.plugins[i]) else None
  }

  function Resolve(catalog: Catalog, alias: string): Option<CatalogEntry> {
    match Find(catalog, alias)
    case Some(entry) => if entry.state.Active? then Some(entry) else None
    case None => None
  }

  /** `find` as it runs. */
  method FindEntry(catalog: Catalog, alias: string) returns (r: Option<CatalogEntry>)
    ensures r == Find(catalog, alias)
    ensures r.Some? ==> r.value in catalog.plugins && r.value.alias == alias
  {
    var plugins := catalog.plugins;
    var size := |plugins|;
    if size == 0 {
      return None;
    }
    var base := 0;
    while size > 1
      invariant 0 < size && 0 <= base && base + size <= |plugins|
      invariant Narrow(plugins, alias, base, size) == Narrow(plugins, alias, 0, |plugins|)
      decreases size
    {
      var half := size / 2;
      if !StringLt(alias, plugins[base + half].alias) {
        base := base + half;
      }
      size := size - half;
    }
    r := if plugins[base].alias == alias then Some(plugins[base]) else None;
  }

  /** The alias comes before exactly the entries behind `k`. */
  ghost predicate StandsAt(plugins: seq<CatalogEntry>, alias: string, k: nat) {
    forall j :: 0 <= j < |plugins| ==> (StringLt(alias, plugins[j].alias) <==> k < j)
  }

  /** The position stays within the part that is kept. */
  lemma {:induction false} NarrowFinds(plugins: seq<CatalogEntry>, alias: string, base: nat, size: nat, k: nat)
    requires StandsAt(plugins, alias, k) && 0 < size && base + size <= |plugins| && base <= k < base + size
    ensures Narrow(plugins, alias, base, size) == k
    decreases size
  {
    if size > 1 {
      var half := size / 2;
      NarrowFinds(plugins, alias, if k < base + half then base else base + half, size - half, k);
    }
  }

  lemma {:induction false} EntryStandsAt(plugins: seq<CatalogEntry>, k: nat)
    requires SortedStrings(Aliases(plugins)) && k < |plugins|
    ensures StandsAt(plugins, plugins[k].alias, k)
  {
    forall j | 0 <= j < |plugins| ensures StringLt(plugins[k].alias, plugins[j].alias) <==> k < j {
      OrderedPositions(Aliases(plugins), k, j);
    }
  }

  lemma {:induction false} OrderedPositions(names: seq<string>, i: nat, j: nat)
    requires SortedStrings(names) && i < |names| && j < |names|
    ensures StringLt(names[i], names[j]) <==> i < j
  {
    StringLtAsymmetric(names[i], names[j]);
    if i > j {
      assert StringLt(names[j], names[i]);
    }
  }

  lemma {:induction false} StringLtAsymmetric(a: string, b: string)
    ensures !(StringLt(a, b) && StringLt(b, a))
  {
    if StringLe(a, b) && StringLe(b, a) {
      LexAntisymmetric(Codes(a), Codes(b));
      CodesInjective(a, b);
    }
  }

  /** On a valid catalog the binary search finds exactly what a look at every entry finds. */
  lemma {:induction false} SearchIsLookup(catalog: Catalog, alias: string)
    requires ValidCatalog(catalog)
    ensures Search(catalog.plugins, alias) == Position(catalog.plugins, alias)
    ensures Find(catalog, alias).Some? <==> exists i :: 0 <= i < |catalog.plugins| && catalog.plugins[i].alias == alias
    ensures forall i :: 0 <= i < |catalog.plugins| && catalog.plugins[i].alias == alias ==> Find(catalog, alias) == Some(catalog.plugins[i])
  {
    var plugins := catalog.plugins;
    forall i | 0 <= i < |plugins| && plugins[i].alias == alias ensures Search(plugins, alias) == Some(i) {
      EntryStandsAt(plugins, i);
      NarrowFinds(plugins, alias, 0, |plugins|, i);
    }
  }

  // ----- history -----

  datatype TransitionIssue = AliasGone(alias: string) | SourceChanged(alias: string) | Reactivated(alias: string)

  ghost predicate Continues(entry: CatalogEntry, next: Catalog) {
    var found := Find(next, entry.alias);
    && found.Some? && found.value.source == entry.source
    && (entry.state.Retired? ==> found.value.state.Retired?)
  }

  ghost predicate ContinuesAll(plugins: seq<CatalogEntry>, next: Catalog) {
    plugins == [] || (ContinuesAll(plugins[..|plugins| - 1], next) && Continues(plugins[|plugins| - 1], next))
  }

  /** Every entry of the previous catalog is continued in the next one. */
  ghost predicate Accepts(next: Catalog, previous: Catalog) {
    ContinuesAll(previous.plugins, next)
  }

  lemma {:induction false} ContinuesAt(plugins: seq<CatalogEntry>, next: Catalog, i: nat)
    requires ContinuesAll(plugins, next) && i < |plugins|
    ensures Continues(plugins[i], next)
  {
    if i < |plugins| - 1 {
      ContinuesAt(plugins[..|plugins| - 1], next, i);
    }
  }

  lemma {:induction false} ContinuesEach(plugins: seq<CatalogEntry>, next: Catalog)
    requires forall i :: 0 <= i < |plugins| ==> Continues(plugins[i], next)
    ensures ContinuesAll(plugins, next)
  {
    if plugins != [] {
      ContinuesEach(plugins[..|plugins| - 1], next);
    }
  }

  /** `validate_transition` */
  method ValidateTransition(next: Catalog, previous: Catalog) returns (issues: seq<TransitionIssue>)
    ensures issues == [] <==> Accepts(next, previous)
  {
    issues := [];
    var i := 0;
    while i < |previous.plugins|
      invariant 0 <= i <= |previous.plugins|
      invariant issues == [] <==> ContinuesAll(previous.plugins[..i], next)
    {
      assert previous.plugins[..i + 1][..i] == previous.plugins[..i];
      var entry := previous.plugins[i];
      var found := FindEntry(next, entry.alias);
      if found.None? {
        issues := issues + [AliasGone(entry.alias)];
      } else {
        if found.value.source != entry.source {
          issues := issues + [SourceChanged(entry.alias)];
        }
        if entry.state == Retired && found.value.state != Retired {
          issues := issues + [Reactivated(entry.alias)];
        }
      }
      i := i + 1;
    }
    assert previous.plugins[..i] == previous.plugins;
  }

  /** Acceptance composes, on valid catalogs. */
  lemma {:induction false} AcceptsIsTransitive(last: Catalog, middle: Catalog, first: Catalog)
    requires ValidCatalog(middle) && ValidCatalog(last)
    requires Accepts(middle, first) && Accepts(last, middle)
    ensures Accepts(last, first)
  {
    forall i | 0 <= i < |first.plugins| ensures Continues(first.plugins[i], last) {
      var entry := first.plugins[i];
      ContinuesAt(first.plugins, middle, i);
      var found := Find(middle, entry.alias).value;
      SearchIsLookup(middle, entry.alias);
      var k :| 0 <= k < |middle.plugins| && middle.plugins[k].alias == entry.alias;
      assert found == middle.plugins[k];
      ContinuesAt(middle.plugins, last, k);
    }
    ContinuesEach(first.plugins, last);
  }

  /** Valid catalogs, each accepted as the successor of the one before. */
  ghost predicate AcceptedChain(history: seq<Catalog>) {
    var last := |history| - 1;
    history == [] ||
    (ValidCatalog(history[last]) && AcceptedChain(history[..last]) && (last > 0 ==> Accepts(history[last], history[last - 1])))
  }

  lemma {:induction false} SelfAccepts(catalog: Catalog)
    requires ValidCatalog(catalog)
    ensures Accepts(catalog, catalog)
  {
    forall i | 0 <= i < |catalog.plugins| ensures Continues(catalog.plugins[i], catalog) {
      SearchIsLookup(catalog, catalog.plugins[i].alias);
    }
    ContinuesEach(catalog.plugins, catalog);
  }

  lemma {:induction false} ChainLast(history: seq<Catalog>)
    requires AcceptedChain(history) && history != []
    ensures var last := |history| - 1;
            ValidCatalog(history[last]) && AcceptedChain(history[..last]) && (last > 0 ==> Accepts(history[last], history[last - 1]))
  {
  }

  /** The last catalog of a chain accepts every earlier one. */
  lemma {:induction false} ChainAccepts(history: seq<Catalog>, i: nat)
    requires AcceptedChain(history) && i < |history|
    ensures ValidCatalog(history[i]) && ValidCatalog(history[|history| - 1])
    ensures Accepts(history[|history| - 1], history[i])
  {
    var last := |history| - 1;
    ChainLast(history);
    if i == last {
      SelfAccepts(history[i]);
    } else {
      ChainAccepts(history[..last], i);
      AcceptsIsTransitive(history[last], history[last - 1], history[i]);
    }
  }

  /** Along any chain of accepted catalogs an alias never disappears, never changes source, and once
      retired never resolves again. */
  lemma {:induction false} AliasesAreForever(history: seq<Catalog>, i: nat, alias: string)
    requires AcceptedChain(history) && i < |history| && Find(history[i], alias).Some?
    ensures var entry, found := Find(history[i], alias).value, Find(history[|history| - 1], alias);
            && found.Some? && found.value.source == entry.source
            && (entry.state.Retired? ==> found.value.state.Retired? && Resolve(history[|history| - 1], alias) == None)
  {
    ChainAccepts(history, i);
    var earlier := history[i];
    SearchIsLookup(earlier, alias);
    var k :| 0 <= k < |earlier.plugins| && earlier.plugins[k].alias == alias;
    ContinuesAt(earlier.plugins, history[|history| - 1], k);
  }
}
