/** Helpers around the Telegram API: recognising harmless API errors and
    splitting a sticker set's numeric id into owner and set parts. */
module BotUtil {
  import opened Wrappers
  import opened Decimal

  /** The API error shapes the classifiers look at; every other error is
      `OtherApiError`/`OtherRequestError`. */
  datatype ApiError = Unknown(message: string) | OtherApiError
  datatype RequestError = Api(error: ApiError) | OtherRequestError

  const QUERY_TOO_OLD: string :=
    "Bad Request: query is too old and response timeout expired or query ID is invalid"
  const WRONG_FILE_ID: string := "Bad Request: wrong file_id or the file is temporarily unavailable"
  const INVALID_FILE_ID: string := "Bad Request: invalid file_id"

  /** Answering a callback query after Telegram's deadline is the only
      request error that may be ignored. */
  predicate TeloxideErrorCanSafelyBeIgnored(err: RequestError) {
    err.Api? && err.error.Unknown? && err.error.message == QUERY_TOO_OLD
  }

  /** The two messages Telegram sends for a broken or changed file id. */
  predicate IsWrongFileIdError(err: ApiError) {
    err.Unknown? && (err.message == WRONG_FILE_ID || err.message == INVALID_FILE_ID)
  }

  /** No error is both ignorable and a wrong-file-id error. */
  lemma ClassifiersDisjoint(err: ApiError)
    ensures !(TeloxideErrorCanSafelyBeIgnored(Api(err)) && IsWrongFileIdError(err))
  {
    assert |QUERY_TOO_OLD| != |WRONG_FILE_ID|;
    assert |QUERY_TOO_OLD| != |INVALID_FILE_ID|;
  }

  datatype DecodedStickerId = DecodedStickerId(ownerId: int, setId: int)

  const TWO_24: nat := 0x100_0000
  const TWO_32: nat := 0x1_0000_0000

  /** `id >> k` on `i64`: an arithmetic shift, i.e. division rounding down,
      which is what Dafny's `/` does for a positive divisor. */
  function Shr(id: int, twoToK: nat): int
    requires twoToK > 0
  {
    id / twoToK
  }

  /** `id & mask` for `mask == 2^k - 1` on a two's-complement `i64`: the low
      `k` bits, never negative, which is Dafny's `%` for a positive modulus. */
  function LowBits(id: int, twoToK: nat): int
    requires twoToK > 0
  {
    id % twoToK
  }

  /** Bits 24 to 31 of the id are all ones. */
  predicate IsLongFormat(id: int) { LowBits(Shr(id, TWO_24), 0x100) == 0xff }

  /** Reads the id as an `i64`. For ids whose bits 24..31 are all set the
      owner is the upper half plus 2^32 and the set is the low 4 bits;
      otherwise the owner is the upper half and the set the lower half. */
  function DecodeStickerSetId(text: string): (r: Result<DecodedStickerId, string>)
    ensures r.Success? <==> ParseSigned(text, I64_MIN, I64_MAX).Some?
    ensures r.Success? ==> 0 <= r.value.setId < TWO_32
    ensures r.Success? ==> var id := ParseSigned(text, I64_MIN, I64_MAX).value;
      if IsLongFormat(id) then r.value.setId == id % 16 && r.value.ownerId == id / TWO_32 + TWO_32
      else r.value.ownerId * TWO_32 + r.value.setId == id
  {
    match ParseSigned(text, I64_MIN, I64_MAX)
    case None => Failure("invalid digit found in string")
    case Some(id) =>
      if IsLongFormat(id) then
        Success(DecodedStickerId(Shr(id, TWO_32) + TWO_32, LowBits(id, 16)))
      else
        Success(DecodedStickerId(Shr(id, TWO_32), LowBits(id, TWO_32)))
  }

  /** Every in-range owner/set pair whose set part `low` does not have bits 24..31
      all set is encoded by `owner * 2^32 + set` and decodes back to itself. */
  lemma DecodeInvertsEncoding(owner: int, low: int)
    requires -0x8000_0000 <= owner < 0x8000_0000 && 0 <= low < TWO_32
    requires low / TWO_24 != 0xff
    ensures var id := owner * TWO_32 + low;
      DecodeStickerSetId(IntToString(id)) == Success(DecodedStickerId(owner, low))
  {
    var id := owner * TWO_32 + low;
    ParseSignedRoundTrip(id, I64_MIN, I64_MAX);
    assert Shr(id, TWO_32) == owner;
    assert LowBits(id, TWO_32) == low;
    assert id / TWO_24 == owner * 0x100 + low / TWO_24;
    assert Shr(id, TWO_24) % 0x100 == low / TWO_24;
  }
}
