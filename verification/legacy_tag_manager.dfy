/** The older tree's `TagManager`. It differs from the current one in its
    CSV filter (only the post count and meta checks, no banned tags), its
    category conversion (which rejects 99), a `Vec` of allowed statuses, two
    fewer default implications, no transitive closure, and a
    `closest_matching_tags` that drops the queries it cannot resolve. */
module LegacyTagManager {
  import opened Wrappers
  import opened Strings
  import opened Ordering
  import opened Decimal
  import opened Categories
  import opened TagMaps

  datatype LegacyTagManager = LegacyTagManager(
    tags: Tags,
    aliases: Aliases,
    implications: Implications,
    matchDistance: real,
    allowedStatuses: seq<string>,
    inverse: Implications)

  /** `TagManager::new`: empty maps, match distance 0.5, and only `active`
      relations allowed. */
  function New(): (r: LegacyTagManager)
    ensures r.tags == map[] && r.aliases == map[] && r.implications == map[] && r.inverse == map[]
    ensures r.matchDistance == 0.5 && r.allowedStatuses == ["active"]
  {
    LegacyTagManager(map[], map[], map[], 0.5, ["active"], map[])
  }

  /** The allowed statuses as a set (`iter().any(|s| s == status)`). */
  function Allowed(tm: LegacyTagManager): (r: set<string>)
    ensures forall s :: s in r <==> s in tm.allowedStatuses
  {
    set s | s in tm.allowedStatuses
  }

  /** `Category::try_from(i8)`: the seven e621 categories; anything else,
      99 included, is an error naming the value. */
  function TryFrom(n: int): (r: Result<Category, string>)
    ensures r.Success? <==> n in {0, 1, 3, 4, 5, 7, 8}
    ensures r.Success? ==> ToU8(r.value) == n && r.value != Rating
    ensures r.Failure? ==> r.error == "invalid category: " + IntToString(n)
  {
    if n == 0 then Success(General)
    else if n == 1 then Success(Artist)
    else if n == 3 then Success(Copyright)
    else if n == 4 then Success(Character)
    else if n == 5 then Success(Species)
    else if n == 7 then Success(Meta)
    else if n == 8 then Success(Lore)
    else Failure("invalid category: " + IntToString(n))
  }

  /** The two trees agree on every category number except 99, which only
      the current tree reads (as a rating). */
  lemma TryFromAgrees(n: int)
    ensures n != 99 ==> (TryFrom(n).Success? <==> (n >= 0 && FromU8(n).Some?))
    ensures n != 99 && TryFrom(n).Success? ==> FromU8(n) == Some(TryFrom(n).value)
    ensures TryFrom(99).Failure? && FromU8(99) == Some(Rating)
  {
  }

  /** The checks of the CSV loop: enough posts, a valid category, and not a
      meta tag while those are ignored. */
  function Admit(row: TagRow, minPostCount: int, ignoreMeta: bool): (r: Option<Category>)
    ensures r.Some? <==> row.postCount >= minPostCount && TryFrom(row.category).Success? &&
                         !(ignoreMeta && row.category == 7)
    ensures r.Some? ==> Success(r.value) == TryFrom(row.category)
  {
    if row.postCount < minPostCount then None
    else match TryFrom(row.category)
      case Failure(_) => None
      case Success(c) => if ignoreMeta && c == Meta then None else Some(c)
  }

  /** `add_default_tags`: the fixed table (a constant of the source, passed
      in here) is inserted over the existing tags. */
  function AddDefaultTags(tm: LegacyTagManager, defaults: seq<(string, Category)>): (r: LegacyTagManager)
    ensures forall i :: 0 <= i < |defaults| ==> defaults[i].0 in r.tags
    ensures forall k :: k in r.tags ==> k in tm.tags || exists i :: 0 <= i < |defaults| && defaults[i].0 == k
    ensures forall i :: 0 <= i < |defaults| && LastPair(defaults, i) ==> r.tags[defaults[i].0] == defaults[i].1
    ensures forall k :: k in tm.tags && (forall i :: 0 <= i < |defaults| ==> defaults[i].0 != k) ==> k in r.tags && r.tags[k] == tm.tags[k]
    ensures r.aliases == tm.aliases && r.implications == tm.implications && r.inverse == tm.inverse
  {
    tm.(tags := InsertPairs(tm.tags, defaults))
  }

  /** Adding the default tags a second time changes nothing. */
  lemma AddDefaultTagsIdempotent(tm: LegacyTagManager, defaults: seq<(string, Category)>)
    ensures AddDefaultTags(AddDefaultTags(tm, defaults), defaults) == AddDefaultTags(tm, defaults)
  {
    InsertPairsIdempotent(tm.tags, defaults);
  }

  /** `add_tags_from_csv`. A rating can never be imported, since 99 is not
      a valid category here. */
  function AddTagsFromCsv(tm: LegacyTagManager, rows: seq<TagRow>, minPostCount: int, ignoreMeta: bool): (r: LegacyTagManager)
    ensures forall i :: 0 <= i < |rows| && Admit(rows[i], minPostCount, ignoreMeta).Some? ==> rows[i].name in r.tags
    ensures forall k :: k in r.tags ==>
              (k in tm.tags && r.tags[k] == tm.tags[k]) ||
              (exists i :: 0 <= i < |rows| && rows[i].name == k && rows[i].postCount >= minPostCount &&
                           TryFrom(rows[i].category) == Success(r.tags[k]))
    ensures forall k :: k in r.tags && r.tags[k] == Rating ==> k in tm.tags && tm.tags[k] == Rating
    ensures forall k :: k in r.tags && r.tags[k] == Meta && ignoreMeta ==> k in tm.tags && tm.tags[k] == Meta
    ensures r.aliases == tm.aliases && r.implications == tm.implications
  {
    tm.(tags := InsertTagRows(tm.tags, rows, (row: TagRow) => Admit(row, minPostCount, ignoreMeta)))
  }

  /** `add_default_aliases`: the fixed table (a constant of the source,
      passed in here) is inserted over the existing aliases. */
  function AddDefaultAliases(tm: LegacyTagManager, defaults: seq<(string, string)>): (r: LegacyTagManager)
    ensures forall i :: 0 <= i < |defaults| ==> defaults[i].0 in r.aliases
    ensures forall k :: k in r.aliases ==> k in tm.aliases || exists i :: 0 <= i < |defaults| && defaults[i].0 == k
    ensures forall i :: 0 <= i < |defaults| && LastPair(defaults, i) ==> r.aliases[defaults[i].0] == defaults[i].1
    ensures forall k :: k in tm.aliases && (forall i :: 0 <= i < |defaults| ==> defaults[i].0 != k) ==> k in r.aliases && r.aliases[k] == tm.aliases[k]
    ensures r.tags == tm.tags && r.implications == tm.implications
  {
    tm.(aliases := InsertPairs(tm.aliases, defaults))
  }

  /** Adding the default aliases a second time changes nothing. */
  lemma AddDefaultAliasesIdempotent(tm: LegacyTagManager, defaults: seq<(string, string)>)
    ensures AddDefaultAliases(AddDefaultAliases(tm, defaults), defaults) == AddDefaultAliases(tm, defaults)
  {
    InsertPairsIdempotent(tm.aliases, defaults);
  }

  /** `add_aliases_from_csv`: only rows with an allowed status whose target
      is a known tag are inserted. */
  function AddAliasesFromCsv(tm: LegacyTagManager, rows: seq<RelationRow>): (r: LegacyTagManager)
    ensures forall i :: 0 <= i < |rows| && rows[i].status in tm.allowedStatuses && rows[i].consequent in tm.tags ==>
              rows[i].antecedent in r.aliases
    ensures forall k :: k in r.aliases && !(k in tm.aliases && r.aliases[k] == tm.aliases[k]) ==>
              r.aliases[k] in tm.tags &&
              exists i :: 0 <= i < |rows| && rows[i].status in tm.allowedStatuses &&
                          rows[i].antecedent == k && rows[i].consequent == r.aliases[k]
    ensures AliasesKnown(tm.tags, tm.aliases) ==> AliasesKnown(r.tags, r.aliases)
    ensures r.tags == tm.tags && r.implications == tm.implications
  {
    tm.(aliases := InsertAliasRows(tm.aliases, rows, tm.tags, Allowed(tm)))
  }

  /** `add_default_implications`: three fixed consequents are appended;
      no other list changes. */
  function AddDefaultImplications(tm: LegacyTagManager): (r: LegacyTagManager)
    ensures forall a :: a != "attribution" && a != "thumbs_up" && a != "thumbs_down" ==>
              Entries(r.implications, a) == Entries(tm.implications, a)
    ensures Entries(r.implications, "attribution") == Entries(tm.implications, "attribution") + ["meta_sticker"]
    ensures Entries(r.implications, "thumbs_up") == Entries(tm.implications, "thumbs_up") + ["yes"]
    ensures Entries(r.implications, "thumbs_down") == Entries(tm.implications, "thumbs_down") + ["no"]
    ensures r.tags == tm.tags && r.aliases == tm.aliases
  {
    var imps := Push(tm.implications, "attribution", "meta_sticker");
    var imps := Push(imps, "thumbs_up", "yes");
    var imps := Push(imps, "thumbs_down", "no");
    tm.(implications := imps)
  }

  /** `add_implications_from_csv`: the consequents of the rows with an
      allowed status and two known tags are appended in CSV order. */
  function AddImplicationsFromCsv(tm: LegacyTagManager, rows: seq<RelationRow>): (r: LegacyTagManager)
    ensures forall a :: Entries(r.implications, a) == Entries(tm.implications, a) + AcceptedConsequents(rows, tm.tags, Allowed(tm), a)
    ensures forall a, c :: c in Entries(r.implications, a) && c !in Entries(tm.implications, a) ==> a in tm.tags && c in tm.tags
    ensures r.tags == tm.tags && r.aliases == tm.aliases
  {
    tm.(implications := AppendImplicationRows(tm.implications, rows, tm.tags, Allowed(tm)))
  }

  /** `compute_inverse_implications`; `order` is the iteration order of the
      implication map. */
  function ComputeInverseImplications(tm: LegacyTagManager, order: seq<string>): (r: LegacyTagManager)
    requires forall a :: a in order <==> a in tm.implications
    ensures forall c :: c in r.inverse ==> StrictlySorted(r.inverse[c])
    ensures forall c :: Elems(Entries(r.inverse, c)) == Elems(Entries(tm.inverse, c)) + Antecedents(tm.implications, tm.implications.Keys, c)
    ensures r.tags == tm.tags && r.implications == tm.implications
  {
    tm.(inverse := ComputeInverse(tm.inverse, tm.implications, order))
  }

  /** `closest_matching_tag`: the lowercased query resolved exactly, else
      the best fuzzy match `fuzzy` gives for it. */
  function ClosestMatchingTag(tm: LegacyTagManager, q: string, fuzzy: string -> Option<string>): (r: Option<string>)
    ensures AsciiLower(q) in tm.tags ==> r == Some(AsciiLower(q))
    ensures AsciiLower(q) !in tm.tags && AsciiLower(q) in tm.aliases ==> r == Some(tm.aliases[AsciiLower(q)])
    ensures AsciiLower(q) !in tm.tags && AsciiLower(q) !in tm.aliases ==> r == fuzzy(AsciiLower(q))
  {
    var lower := AsciiLower(q);
    match ResolveExact(tm.tags, tm.aliases, lower)
    case Some(t) => Some(t)
    case None => fuzzy(lower)
  }

  /** `closest_matching_tags`: the matches of the queries that have one, in
      query order; the others are dropped. */
  function ClosestMatchingTags(tm: LegacyTagManager, qs: seq<string>, fuzzy: string -> Option<string>): (r: seq<string>)
    ensures |r| <= |qs|
    ensures forall t :: t in r <==> exists i :: 0 <= i < |qs| && ClosestMatchingTag(tm, qs[i], fuzzy) == Some(t)
    ensures |r| == |qs| <==> forall i :: 0 <= i < |qs| ==> ClosestMatchingTag(tm, qs[i], fuzzy).Some?
  {
    if |qs| == 0 then []
    else
      var rest := ClosestMatchingTags(tm, qs[1..], fuzzy);
      assert forall i :: 1 <= i < |qs| ==> qs[i] == qs[1..][i - 1];
      match ClosestMatchingTag(tm, qs[0], fuzzy)
      case Some(t) => [t] + rest
      case None => rest
  }
}
