/** The current tree's `TagManager`: the tag, alias, implication and
    inverse-implication maps, built by a chain of `add_*` / `compute_*`
    steps and queried by exact resolution. The fuzzy (Sørensen–Dice)
    fallback of `closest_matching_tag` is a parameter. */
module TagManager {
  import opened Wrappers
  import opened Strings
  import opened Ordering
  import opened Categories
  import opened TagMaps
  import opened ImplicationClosure

  datatype TagManager = TagManager(
    tags: Tags,
    aliases: Aliases,
    implications: Implications,
    matchDistance: real,
    allowedStatuses: set<string>,
    inverse: Implications,
    banned: set<string>)

  /** Tags that are never imported. */
  const BannedTags: set<string> := {"sticker", "telegram_sticker", "sticker_pack"}

  /** `TagManager::new`: empty maps, match distance 0.5, only `active`
      relations allowed, and the three sticker tags banned. */
  function New(): (r: TagManager)
    ensures r.tags == map[] && r.aliases == map[] && r.implications == map[] && r.inverse == map[]
    ensures r.matchDistance == 0.5 && r.allowedStatuses == {"active"}
    ensures "sticker" in r.banned && "telegram_sticker" in r.banned && "sticker_pack" in r.banned && |r.banned| == 3
  {
    TagManager(map[], map[], map[], 0.5, {"active"}, map[], BannedTags)
  }

  /** The CSV's `i8` category through the derived `FromPrimitive`: a
      negative number names no category. */
  function CategoryOf(n: int): (r: Option<Category>)
    ensures r.Some? <==> n in {0, 1, 3, 4, 5, 7, 8, 99}
    ensures r.Some? ==> ToU8(r.value) == n
  {
    if n < 0 then None else FromU8(n)
  }

  /** The checks of the CSV loop, in source order; `Some(category)` when the
      row is inserted. */
  function Admit(row: TagRow, minPostCount: int, minPostCountCharacter: int,
                 ignoreMeta: bool, ignoreArtist: bool, banned: set<string>): Option<Category>
  {
    if row.postCount < minPostCount then None
    else match CategoryOf(row.category)
      case None => None
      case Some(c) =>
        if ignoreMeta && c == Meta then None
        else if ignoreArtist && c == Artist then None
        else if c == Character && row.postCount < minPostCountCharacter then None
        else if row.name in banned then None
        else Some(c)
  }

  /** The reasons a row is skipped, as a list of independent conditions. */
  predicate Skipped(row: TagRow, minPostCount: int, minPostCountCharacter: int,
                    ignoreMeta: bool, ignoreArtist: bool, banned: set<string>)
  {
    || row.postCount < minPostCount
    || CategoryOf(row.category).None?
    || (ignoreMeta && row.category == 7)
    || (ignoreArtist && row.category == 1)
    || (row.category == 4 && row.postCount < minPostCountCharacter)
    || row.name in banned
  }

  /** A row is inserted exactly when none of the skip conditions holds, and
      then with the category its number names. */
  lemma AdmitSkips(row: TagRow, minPostCount: int, minPostCountCharacter: int,
                   ignoreMeta: bool, ignoreArtist: bool, banned: set<string>)
    ensures var a := Admit(row, minPostCount, minPostCountCharacter, ignoreMeta, ignoreArtist, banned);
            (a.None? <==> Skipped(row, minPostCount, minPostCountCharacter, ignoreMeta, ignoreArtist, banned)) &&
            (a.Some? ==> a == CategoryOf(row.category))
  {
  }

  /** `add_default_tags`: the fixed table (a constant of the source, passed
      in here) is inserted over the existing tags. */
  function AddDefaultTags(tm: TagManager, defaults: seq<(string, Category)>): (r: TagManager)
    ensures forall i :: 0 <= i < |defaults| ==> defaults[i].0 in r.tags
    ensures forall k :: k in r.tags ==> k in tm.tags || exists i :: 0 <= i < |defaults| && defaults[i].0 == k
    ensures forall i :: 0 <= i < |defaults| && LastPair(defaults, i) ==> r.tags[defaults[i].0] == defaults[i].1
    ensures forall k :: k in tm.tags && (forall i :: 0 <= i < |defaults| ==> defaults[i].0 != k) ==> k in r.tags && r.tags[k] == tm.tags[k]
    ensures r.aliases == tm.aliases && r.implications == tm.implications && r.inverse == tm.inverse
  {
    tm.(tags := InsertPairs(tm.tags, defaults))
  }

  /** Adding the default tags a second time changes nothing. */
  lemma AddDefaultTagsIdempotent(tm: TagManager, defaults: seq<(string, Category)>)
    ensures AddDefaultTags(AddDefaultTags(tm, defaults), defaults) == AddDefaultTags(tm, defaults)
  {
    InsertPairsIdempotent(tm.tags, defaults);
  }

  /** `add_tags_from_csv`. */
  function AddTagsFromCsv(tm: TagManager, rows: seq<TagRow>, minPostCount: int, minPostCountCharacter: int,
                          ignoreMeta: bool, ignoreArtist: bool): (r: TagManager)
    ensures forall i :: 0 <= i < |rows| && !Skipped(rows[i], minPostCount, minPostCountCharacter, ignoreMeta, ignoreArtist, tm.banned) ==>
              rows[i].name in r.tags
    ensures forall k :: k in r.tags ==>
              (k in tm.tags && r.tags[k] == tm.tags[k]) ||
              (exists i :: 0 <= i < |rows| && rows[i].name == k &&
                 !Skipped(rows[i], minPostCount, minPostCountCharacter, ignoreMeta, ignoreArtist, tm.banned) &&
                 CategoryOf(rows[i].category) == Some(r.tags[k]))
    ensures forall k :: k in r.tags ==> k !in tm.banned || k in tm.tags
    ensures forall k :: k in tm.tags ==> k in r.tags
    ensures r.aliases == tm.aliases && r.implications == tm.implications && r.banned == tm.banned
  {
    var admit := (row: TagRow) => Admit(row, minPostCount, minPostCountCharacter, ignoreMeta, ignoreArtist, tm.banned);
    var tags := InsertTagRows(tm.tags, rows, admit);
    forall i | 0 <= i < |rows| {
      AdmitSkips(rows[i], minPostCount, minPostCountCharacter, ignoreMeta, ignoreArtist, tm.banned);
    }
    tm.(tags := tags)
  }

  /** `add_default_aliases`: the fixed table (a constant of the source,
      passed in here) is inserted over the existing aliases. */
  function AddDefaultAliases(tm: TagManager, defaults: seq<(string, string)>): (r: TagManager)
    ensures forall i :: 0 <= i < |defaults| ==> defaults[i].0 in r.aliases
    ensures forall k :: k in r.aliases ==> k in tm.aliases || exists i :: 0 <= i < |defaults| && defaults[i].0 == k
    ensures forall i :: 0 <= i < |defaults| && LastPair(defaults, i) ==> r.aliases[defaults[i].0] == defaults[i].1
    ensures forall k :: k in tm.aliases && (forall i :: 0 <= i < |defaults| ==> defaults[i].0 != k) ==> k in r.aliases && r.aliases[k] == tm.aliases[k]
    ensures r.tags == tm.tags && r.implications == tm.implications
  {
    tm.(aliases := InsertPairs(tm.aliases, defaults))
  }

  /** Adding the default aliases a second time changes nothing. */
  lemma AddDefaultAliasesIdempotent(tm: TagManager, defaults: seq<(string, string)>)
    ensures AddDefaultAliases(AddDefaultAliases(tm, defaults), defaults) == AddDefaultAliases(tm, defaults)
  {
    InsertPairsIdempotent(tm.aliases, defaults);
  }

  /** `add_aliases_from_csv`: only rows with an allowed status whose target
      is a known tag are inserted. */
  function AddAliasesFromCsv(tm: TagManager, rows: seq<RelationRow>): (r: TagManager)
    ensures forall i :: 0 <= i < |rows| && rows[i].status in tm.allowedStatuses && rows[i].consequent in tm.tags ==>
              rows[i].antecedent in r.aliases
    ensures forall k :: k in r.aliases && !(k in tm.aliases && r.aliases[k] == tm.aliases[k]) ==>
              r.aliases[k] in tm.tags &&
              exists i :: 0 <= i < |rows| && rows[i].status in tm.allowedStatuses &&
                          rows[i].antecedent == k && rows[i].consequent == r.aliases[k]
    ensures AliasesKnown(tm.tags, tm.aliases) ==> AliasesKnown(r.tags, r.aliases)
    ensures r.tags == tm.tags && r.implications == tm.implications
  {
    tm.(aliases := InsertAliasRows(tm.aliases, rows, tm.tags, tm.allowedStatuses))
  }

  /** `add_default_implications`: each fixed consequent is appended to its
      antecedent's list, creating it when missing; no other list changes. */
  function AddDefaultImplications(tm: TagManager): (r: TagManager)
    ensures forall a :: a != "attribution" && a != "thumbs_up" && a != "thumbs_down" && a != "holding_heart" ==>
              Entries(r.implications, a) == Entries(tm.implications, a)
    ensures Entries(r.implications, "attribution") == Entries(tm.implications, "attribution") + ["meta_sticker"]
    ensures Entries(r.implications, "thumbs_up") == Entries(tm.implications, "thumbs_up") + ["yes"]
    ensures Entries(r.implications, "thumbs_down") == Entries(tm.implications, "thumbs_down") + ["no"]
    ensures Entries(r.implications, "holding_heart") == Entries(tm.implications, "holding_heart") + ["holding_object"]
    ensures r.tags == tm.tags && r.aliases == tm.aliases
  {
    var imps := Push(tm.implications, "attribution", "meta_sticker");
    var imps := Push(imps, "thumbs_up", "yes");
    var imps := Push(imps, "thumbs_down", "no");
    var imps := Push(imps, "holding_heart", "holding_object");
    tm.(implications := imps)
  }

  /** `compute_transitive_implications`: afterwards every list is closed
      under implication and holds exactly the tags reachable from its key;
      the original entries stay in front, and nothing is added twice. */
  function ComputeTransitiveImplications(tm: TagManager): (r: TagManager)
    ensures r.implications.Keys == tm.implications.Keys
    ensures Transitive(r.implications)
    ensures forall t :: t in tm.implications ==> tm.implications[t] <= r.implications[t]
    ensures forall t :: t in tm.implications ==> FreshFrom(r.implications[t], |tm.implications[t]|)
    ensures forall t, v :: t in r.implications ==> (v in r.implications[t] <==> Reaches(tm.implications, t, v))
    ensures r.tags == tm.tags && r.aliases == tm.aliases
  {
    var imps := Closure(tm.implications);
    FixpointTransitive(imps);
    forall t, v | t in imps ensures v in imps[t] <==> Reaches(tm.implications, t, v) {
      ClosureExact(tm.implications, t, v);
    }
    tm.(implications := imps)
  }

  /** `add_implications_from_csv`: the consequents of the rows with an
      allowed status and two known tags are appended in CSV order. */
  function AddImplicationsFromCsv(tm: TagManager, rows: seq<RelationRow>): (r: TagManager)
    ensures forall a :: Entries(r.implications, a) == Entries(tm.implications, a) + AcceptedConsequents(rows, tm.tags, tm.allowedStatuses, a)
    ensures forall a, c :: c in Entries(r.implications, a) && c !in Entries(tm.implications, a) ==> a in tm.tags && c in tm.tags
    ensures r.tags == tm.tags && r.aliases == tm.aliases
  {
    tm.(implications := AppendImplicationRows(tm.implications, rows, tm.tags, tm.allowedStatuses))
  }

  /** `compute_inverse_implications`; `order` is the iteration order of the
      implication map. */
  function ComputeInverseImplications(tm: TagManager, order: seq<string>): (r: TagManager)
    requires forall a :: a in order <==> a in tm.implications
    ensures forall c :: c in r.inverse ==> StrictlySorted(r.inverse[c])
    ensures tm.inverse == map[] ==>
              forall a, c :: a in Entries(r.inverse, c) <==> c in Entries(tm.implications, a)
    ensures r.tags == tm.tags && r.implications == tm.implications
  {
    var inv := ComputeInverse(tm.inverse, tm.implications, order);
    forall a, c | tm.inverse == map[] ensures a in Entries(inv, c) <==> c in Entries(tm.implications, a) {
      InverseFromEmpty(tm.implications, order, a, c);
    }
    tm.(inverse := inv)
  }

  /** `closest_matching_tag`: the lowercased query resolved exactly, else
      the best fuzzy match `fuzzy` gives for it. */
  function ClosestMatchingTag(tm: TagManager, q: string, fuzzy: string -> Option<string>): (r: Option<string>)
    ensures AsciiLower(q) in tm.tags ==> r == Some(AsciiLower(q))
    ensures AsciiLower(q) !in tm.tags && AsciiLower(q) in tm.aliases ==> r == Some(tm.aliases[AsciiLower(q)])
    ensures AsciiLower(q) !in tm.tags && AsciiLower(q) !in tm.aliases ==> r == fuzzy(AsciiLower(q))
  {
    var lower := AsciiLower(q);
    match ResolveExact(tm.tags, tm.aliases, lower)
    case Some(t) => Some(t)
    case None => fuzzy(lower)
  }

  /** `closest_matching_tags`: one `(query, match)` pair per query, in order. */
  function ClosestMatchingTags(tm: TagManager, qs: seq<string>, fuzzy: string -> Option<string>): (r: seq<(string, Option<string>)>)
    ensures |r| == |qs|
    ensures forall i :: 0 <= i < |qs| ==> r[i].0 == qs[i] && r[i].1 == ClosestMatchingTag(tm, qs[i], fuzzy)
  {
    seq(|qs|, i requires 0 <= i < |qs| => (qs[i], ClosestMatchingTag(tm, qs[i], fuzzy)))
  }

  /** With consistent aliases and a fuzzy matcher that only proposes known
      tags, every match is a known tag. */
  lemma MatchesAreKnown(tm: TagManager, q: string, fuzzy: string -> Option<string>)
    requires AliasesKnown(tm.tags, tm.aliases)
    requires forall s :: fuzzy(s).Some? ==> fuzzy(s).value in tm.tags
    ensures ClosestMatchingTag(tm, q, fuzzy).Some? ==> ClosestMatchingTag(tm, q, fuzzy).value in tm.tags
  {
    ResolvesToKnown(tm.tags, tm.aliases, AsciiLower(q));
  }
}
