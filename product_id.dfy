/** The value object `ProductId`: a trimmed, non-blank string, built by `of` from a stored
    value or by `generate` from a random UUID. Its constructor is private, so every
    `ProductId` in the system satisfies `Valid()`. */
module ProductIds {
  import opened Wrappers
  import opened JavaStrings

  datatype ProductId = ProductId(value: string) {
    /** What the factories guarantee of every id. */
    predicate Valid() {
      value != [] && IsTrimmed(value)
    }
  }

  const IdBlankMessage := "Product ID cannot be null or empty"

  /** `ProductId.of(value)`: rejects a null or blank value, otherwise keeps it trimmed. */
  function Of(value: Option<string>): (r: Result<ProductId>)
    ensures r.Success? <==> value.Some? && !IsBlank(value.value)
    ensures r.Failure? ==> r.error == IllegalArgument(IdBlankMessage)
    ensures r.Success? ==> r.value.value == Trim(value.value) && r.value.Valid()
  {
    if value.None? || IsBlank(value.value) then Failure(IllegalArgument(IdBlankMessage))
    else
      NonBlankTrim(value.value);
      Success(ProductId(Trim(value.value)))
  }

  /** Parsing the value of a parsed id gives the same id back. */
  lemma OfIdempotent(value: Option<string>)
    requires Of(value).Success?
    ensures Of(Some(Of(value).value.value)) == Of(value)
  {
    TrimIdempotent(value.value);
  }

  /** A valid id survives `of` unchanged: what lets a stored id be read back. */
  lemma OfValid(id: ProductId)
    requires id.Valid()
    ensures Of(Some(id.value)) == Success(id)
  {
    TrimFixpoint(id.value);
  }

  /** The text of `UUID.toString()`: 36 chars, lower-case hex digits in groups of
      8-4-4-4-12 separated by dashes. */
  predicate IsUuidText(s: string) {
    |s| == 36 &&
    forall i :: 0 <= i < |s| ==>
      if i == 8 || i == 13 || i == 18 || i == 23 then s[i] == '-'
      else ('0' <= s[i] <= '9' || 'a' <= s[i] <= 'f')
  }

  /** `ProductId.generate()`: wraps the text of a fresh random UUID, which is a parameter
      here. The result is a valid id that `of` reads back unchanged. */
  function Generate(uuid: string): (r: ProductId)
    requires IsUuidText(uuid)
    ensures r.Valid()
    ensures Of(Some(r.value)) == Success(r)
  {
    var id := ProductId(uuid);
    assert !IsTrimmable(uuid[0]) && !IsTrimmable(uuid[35]);
    OfValid(id);
    id
  }
}
