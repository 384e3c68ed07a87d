/** The e621 tag category of the current tree, a C-like enum whose
    discriminants are the e621 category numbers (with 99 for ratings);
    `FromPrimitive`/`ToPrimitive` convert between it and `u8`. */
module Categories {
  import opened Wrappers

  datatype Category = General | Artist | Copyright | Character | Species | Meta | Lore | Rating

  /** `Category::to_u8`: the discriminant. */
  function ToU8(c: Category): (n: nat)
    ensures n <= 99
    ensures n == 99 <==> c == Rating
  {
    match c
    case General => 0
    case Artist => 1
    case Copyright => 3
    case Character => 4
    case Species => 5
    case Meta => 7
    case Lore => 8
    case Rating => 99
  }

  /** `Category::from_u8`: the variant with that discriminant, if any. */
  function FromU8(n: nat): (r: Option<Category>)
    ensures r.Some? <==> n in {0, 1, 3, 4, 5, 7, 8, 99}
    ensures r.Some? ==> ToU8(r.value) == n
  {
    if n == 0 then Some(General)
    else if n == 1 then Some(Artist)
    else if n == 3 then Some(Copyright)
    else if n == 4 then Some(Character)
    else if n == 5 then Some(Species)
    else if n == 7 then Some(Meta)
    else if n == 8 then Some(Lore)
    else if n == 99 then Some(Rating)
    else None
  }

  /** The two conversions are inverse on the variants. */
  lemma FromToU8(c: Category)
    ensures FromU8(ToU8(c)) == Some(c)
  {
  }

  /** `Category::to_human_name` */
  function HumanName(c: Category): string {
    match c
    case General => "General"
    case Artist => "Artist"
    case Character => "Character"
    case Species => "Species"
    case Lore => "Lore"
    case Meta => "Meta"
    case Rating => "Rating"
    case Copyright => "Copyright"
  }
}
