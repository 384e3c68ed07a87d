/** The character-count and rating tags of the older tree: two small
    enumerations, each recognised from and printed as a fixed tag name. */
module TagUtil {
  import opened Wrappers

  /** How many characters a sticker shows; the declaration order is the
      derived ordering, `Zero < One < Two < Three < Multiple`. */
  datatype Characters = Zero | One | Two | Three | Multiple

  datatype Rating = Safe | Questionable | Explicit

  const ZeroCharacters: string := "zero_pictured"
  const OneCharacter: string := "solo"
  const TwoCharacters: string := "duo"
  const ThreeCharacters: string := "trio"
  const MultipleCharacters: string := "group"

  const RatingSafe: string := "safe"
  const RatingQuestionable: string := "questionable"
  const RatingExplicit: string := "explicit"

  /** The discriminant, which the derived `Ord` compares. */
  function Rank(c: Characters): nat {
    match c
    case Zero => 0
    case One => 1
    case Two => 2
    case Three => 3
    case Multiple => 4
  }

  /** The derived ordering on `Characters`. */
  predicate CharactersLess(a: Characters, b: Characters) {
    Rank(a) < Rank(b)
  }

  /** `Display for Characters`. */
  function CharactersName(c: Characters): string {
    match c
    case Zero => ZeroCharacters
    case One => OneCharacter
    case Two => TwoCharacters
    case Three => ThreeCharacters
    case Multiple => MultipleCharacters
  }

  /** `Display for Rating`. */
  function RatingName(r: Rating): string {
    match r
    case Safe => RatingSafe
    case Questionable => RatingQuestionable
    case Explicit => RatingExplicit
  }

  /** `character_count`: the count a tag names, if it names one. */
  function CharacterCount(tag: string): (r: Option<Characters>)
    ensures r.Some? <==> tag in AllCountTags()
    ensures r.Some? ==> CharactersName(r.value) == tag
  {
    if tag == ZeroCharacters then Some(Zero)
    else if tag == OneCharacter then Some(One)
    else if tag == TwoCharacters then Some(Two)
    else if tag == ThreeCharacters then Some(Three)
    else if tag == MultipleCharacters then Some(Multiple)
    else None
  }

  /** `rating`: the rating a tag names, if it names one. */
  function RatingOf(tag: string): (r: Option<Rating>)
    ensures r.Some? <==> tag in AllRatingTags()
    ensures r.Some? ==> RatingName(r.value) == tag
  {
    if tag == RatingSafe then Some(Safe)
    else if tag == RatingQuestionable then Some(Questionable)
    else if tag == RatingExplicit then Some(Explicit)
    else None
  }

  /** `all_count_tags`, in the order of the counts. */
  function AllCountTags(): (r: seq<string>)
    ensures |r| == 5
  {
    [ZeroCharacters, OneCharacter, TwoCharacters, ThreeCharacters, MultipleCharacters]
  }

  /** `all_rating_tags`. */
  function AllRatingTags(): (r: seq<string>)
    ensures |r| == 3
  {
    [RatingSafe, RatingQuestionable, RatingExplicit]
  }

  /** Printing a count and recognising it again gives the same count. */
  lemma CountRoundTrip(c: Characters)
    ensures CharacterCount(CharactersName(c)) == Some(c)
  {
  }

  /** Printing a rating and recognising it again gives the same rating. */
  lemma RatingRoundTrip(r: Rating)
    ensures RatingOf(RatingName(r)) == Some(r)
  {
  }

  /** The listed count tags are the names of the counts, in ascending order,
      and none of them is a rating. */
  lemma CountTagsListed()
    ensures forall i :: 0 <= i < 5 ==> CharacterCount(AllCountTags()[i]).Some?
    ensures forall i, j :: 0 <= i < j < 5 ==>
      CharactersLess(CharacterCount(AllCountTags()[i]).value, CharacterCount(AllCountTags()[j]).value)
    ensures forall t :: t in AllCountTags() ==> RatingOf(t).None?
  {
  }

  /** The count tags and the rating tags are disjoint. */
  lemma CountNotRating(t: string)
    ensures !(CharacterCount(t).Some? && RatingOf(t).Some?)
  {
  }
}
