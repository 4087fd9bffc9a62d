/**
 * The checks the script makes on the extracted identifier before touching any
 * file: a missing or empty value, then a value `parseInt(…, 10)` turns into
 * NaN. An accepted identifier is passed on as the raw string, never as the
 * parsed number.
 */
module Validation {
  import opened Opt
  import opened ParseInt

  datatype ValidationResult = MissingArgument | InvalidArgument | Ok(id: string)

  /**
   * `!newChainIdString` (null and the empty string are both falsy), then
   * `isNaN(parseInt(newChainIdString, 10))`.
   */
  function Validate(arg: Option<string>): (r: ValidationResult)
    ensures r == MissingArgument <==> arg == None || arg == Some("")
    ensures r == InvalidArgument <==> arg.Some? && arg.value != "" && !HasLeadingInteger(arg.value)
    ensures r.Ok? <==> arg.Some? && HasLeadingInteger(arg.value)
    ensures r.Ok? ==> arg == Some(r.id) && r.id != ""
  {
    if arg.None? || arg.value == "" then MissingArgument
    else
      if ParseInt10(arg.value).None? then InvalidArgument
      else Ok(arg.value)
  }

  /** Any integer written in decimal is accepted, trailing text or not, and
      the identifier kept is the text as given. */
  lemma {:induction false} DecimalIdsAccepted(i: int, junk: string)
    requires junk == [] || !IsDecimalDigit(junk[0])
    ensures Validate(Some(IntToString(i) + junk)) == Ok(IntToString(i) + junk)
  {
    ParseIntRoundTrip(i, junk);
  }

  /** `12abc` passes; `abc` and ` ` fail as not a number. */
  lemma {:induction false} ExamplesOfValidation()
    ensures Validate(Some("12abc")) == Ok("12abc")
    ensures Validate(Some("abc")) == InvalidArgument
    ensures Validate(Some(" ")) == InvalidArgument
  {
    assert IntToString(12) == "12" by {
      assert DecimalString(1) == "1";
      assert DecimalString(12) == DecimalString(1) + [DigitChar(2)];
    }
    assert "12abc" == IntToString(12) + "abc";
    DecimalIdsAccepted(12, "abc");
    assert TrimStart("abc") == "abc";
    assert WithoutSign("abc") == "abc";
    assert DigitPrefix("abc") == [];
    assert ParseInt10("abc") == None;
    assert TrimStart(" ") == [];
    assert ParseInt10(" ") == None;
  }

  /** Validation looks only at the leading integer, so an identifier that is
      also a relative path passes and is used as written. */
  lemma {:induction false} PathLikeIdAccepted()
    ensures Validate(Some("1/../84532")) == Ok("1/../84532")
  {
    assert IntToString(1) == "1" by {
      assert DecimalString(1) == [DigitChar(1)];
    }
    assert "1/../84532" == IntToString(1) + "/../84532";
    DecimalIdsAccepted(1, "/../84532");
  }
}
