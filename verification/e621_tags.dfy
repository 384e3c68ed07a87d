/** `E621Tags`: the raw e621 tag, alias and implication maps, filled by the
    same CSV loops as the current `TagManager` but with the banned tags and
    allowed statuses passed in. Downloading the exports is left out;
    `Load` is what `E621Tags::new` does with them. */
module E621Tags {
  import opened Wrappers
  import opened Categories
  import opened TagMaps
  import TagManager

  datatype E621Tags = E621Tags(tags: Tags, aliases: Aliases, implications: Implications)

  /** `add_tags_from_csv`, with the current tree's filter and `banned` as a
      parameter. */
  function AddTagsFromCsv(e: E621Tags, rows: seq<TagRow>, minPostCount: int, minPostCountCharacter: int,
                          ignoreMeta: bool, ignoreArtist: bool, banned: set<string>): (r: E621Tags)
    ensures forall i :: 0 <= i < |rows| && !TagManager.Skipped(rows[i], minPostCount, minPostCountCharacter, ignoreMeta, ignoreArtist, banned) ==>
              rows[i].name in r.tags
    ensures forall k :: k in r.tags ==>
              (k in e.tags && r.tags[k] == e.tags[k]) ||
              (exists i :: 0 <= i < |rows| && rows[i].name == k &&
                 !TagManager.Skipped(rows[i], minPostCount, minPostCountCharacter, ignoreMeta, ignoreArtist, banned) &&
                 TagManager.CategoryOf(rows[i].category) == Some(r.tags[k]))
    ensures forall k :: k in r.tags ==> k !in banned || k in e.tags
    ensures r.aliases == e.aliases && r.implications == e.implications
  {
    var admit := (row: TagRow) => TagManager.Admit(row, minPostCount, minPostCountCharacter, ignoreMeta, ignoreArtist, banned);
    forall i | 0 <= i < |rows| {
      TagManager.AdmitSkips(rows[i], minPostCount, minPostCountCharacter, ignoreMeta, ignoreArtist, banned);
    }
    e.(tags := InsertTagRows(e.tags, rows, admit))
  }

  /** `add_aliases_from_csv`: only rows with a status in `allowed` whose
      target is a known tag are inserted. */
  function AddAliasesFromCsv(e: E621Tags, rows: seq<RelationRow>, allowed: set<string>): (r: E621Tags)
    ensures forall i :: 0 <= i < |rows| && rows[i].status in allowed && rows[i].consequent in e.tags ==>
              rows[i].antecedent in r.aliases
    ensures forall k :: k in r.aliases && !(k in e.aliases && r.aliases[k] == e.aliases[k]) ==>
              r.aliases[k] in e.tags &&
              exists i :: 0 <= i < |rows| && rows[i].status in allowed &&
                          rows[i].antecedent == k && rows[i].consequent == r.aliases[k]
    ensures AliasesKnown(e.tags, e.aliases) ==> AliasesKnown(r.tags, r.aliases)
    ensures r.tags == e.tags && r.implications == e.implications
  {
    e.(aliases := InsertAliasRows(e.aliases, rows, e.tags, allowed))
  }

  /** `add_implications_from_csv`: the consequents of the rows with a status
      in `allowed` and two known tags are appended in CSV order. */
  function AddImplicationsFromCsv(e: E621Tags, rows: seq<RelationRow>, allowed: set<string>): (r: E621Tags)
    ensures forall a :: Entries(r.implications, a) == Entries(e.implications, a) + AcceptedConsequents(rows, e.tags, allowed, a)
    ensures forall a, c :: c in Entries(r.implications, a) && c !in Entries(e.implications, a) ==> a in e.tags && c in e.tags
    ensures r.tags == e.tags && r.aliases == e.aliases
  {
    e.(implications := AppendImplicationRows(e.implications, rows, e.tags, allowed))
  }

  /** What `E621Tags::new` builds from the three exports: tags with at
      least 400 posts (characters at least 1000), no meta or artist tags,
      no banned sticker tags; then `active` aliases and implications among
      them. */
  function Load(tagRows: seq<TagRow>, aliasRows: seq<RelationRow>, implicationRows: seq<RelationRow>): (r: E621Tags)
    ensures forall k :: k in r.tags ==> k !in TagManager.BannedTags
    ensures forall k :: k in r.tags ==> r.tags[k] != Meta && r.tags[k] != Artist
    ensures forall k :: k in r.tags ==> exists i :: 0 <= i < |tagRows| && tagRows[i].name == k && tagRows[i].postCount >= 400
    ensures AliasesKnown(r.tags, r.aliases)
    ensures forall a, c :: c in Entries(r.implications, a) ==> a in r.tags && c in r.tags
  {
    var empty := E621Tags(map[], map[], map[]);
    var e := AddTagsFromCsv(empty, tagRows, 400, 1_000, true, true, TagManager.BannedTags);
    forall k | k in e.tags ensures e.tags[k] != Meta && e.tags[k] != Artist {
      var i :| 0 <= i < |tagRows| && tagRows[i].name == k &&
               !TagManager.Skipped(tagRows[i], 400, 1_000, true, true, TagManager.BannedTags) &&
               TagManager.CategoryOf(tagRows[i].category) == Some(e.tags[k]);
    }
    var e := AddAliasesFromCsv(e, aliasRows, {"active"});
    AddImplicationsFromCsv(e, implicationRows, {"active"})
  }
}
