/** The per-user dialog state the command and callback handlers read and
    write: normal mode, continuous tagging, the sticker recommender and the
    tag creator. */
module DialogStates {
  import opened Wrappers
  import opened Categories
  import opened Ordering

  /** Continuous tag mode: tags to add to and remove from every sticker sent,
      and the stickers already suggested in this mode. */
  datatype ContinuousTag = ContinuousTag(addTags: seq<string>, removeTags: seq<string>, alreadyRecommended: seq<string>)

  /** The tag creator's form. A linked channel is its chat id and name; a
      linked user is the user id. */
  datatype TagCreator = TagCreator(
    tagId: string,
    linkedChannel: Option<(int, string)>,
    linkedUser: Option<int>,
    category: Option<Category>,
    exampleStickerIds: seq<string>,
    aliases: seq<string>)

  datatype DialogState =
    | Normal
    | InContinuousTag(continuous: ContinuousTag)
    | StickerRecommender(positive: seq<string>, negative: seq<string>)
    | InTagCreator(creator: TagCreator)

  /** `ContinuousTag::default()` */
  const EmptyContinuousTag := ContinuousTag([], [], [])

  /** `TagCreator { tag_id, ..Default::default() }` */
  function FreshCreator(tagId: string): TagCreator {
    TagCreator(tagId, None, None, None, [], [])
  }

  predicate Disjoint(a: seq<string>, b: seq<string>) {
    forall x :: x in a ==> x !in b
  }

  predicate NoDuplicates<T(==)>(xs: seq<T>) {
    forall i, j :: 0 <= i < j < |xs| ==> xs[i] != xs[j]
  }

  /** The shape the continuous-tag lists keep: each sorted without
      duplicates, and no tag both added and removed. */
  predicate WellFormed(ct: ContinuousTag) {
    StrictlySorted(ct.addTags) && StrictlySorted(ct.removeTags) && Disjoint(ct.addTags, ct.removeTags)
  }
}
