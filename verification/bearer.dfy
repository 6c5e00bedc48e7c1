/** The two ways the services strip the `Bearer ` prefix from the header. */
module Bearer {
  import opened Wrappers
  import opened Errors
  import opened Text

  const Prefix: string := "Bearer "

  /** `header.substring(7)`: drop exactly seven characters, whatever they are. */
  function DropSeven(header: string): (r: Result<string, Error>)
    ensures r.Success? <==> |header| >= 7
    ensures r.Success? ==> |r.value| == |header| - 7 && header == header[..7] + r.value
    ensures r.Failure? ==> r.error == RuntimeException(IndexOutOfBounds)
  {
    if |header| < 7 then Failure(RuntimeException(IndexOutOfBounds)) else Success(header[7..])
  }

  /** `header.replace("Bearer ", "")`: delete every occurrence, wherever it is. */
  function RemovePrefixes(header: string): (r: string)
    ensures IsSubsequence(r, header)
    ensures r == header <==> !Occurs(header, Prefix)
  {
    RemoveAllSubsequence(header, Prefix);
    RemoveAllUnchangedIff(header, Prefix);
    RemoveAll(header, Prefix)
  }

  /** On a well-formed header whose token holds no further `Bearer `, both
      strippings yield the token. */
  lemma StrippingsAgree(token: string)
    requires !Occurs(token, Prefix)
    ensures RemovePrefixes(Prefix + token) == token
    ensures DropSeven(Prefix + token) == Success(token)
  {
    RemoveAllLeading(Prefix, token);
    RemoveAllAbsent(token, Prefix);
    assert (Prefix + token)[7..] == token;
  }

  /** They differ once the token itself holds `Bearer `, and the replacing
      variant passes a header with no prefix at all through unchanged. */
  lemma StrippingsDiffer()
    ensures RemovePrefixes("Bearer Bearer x") == "x"
    ensures DropSeven("Bearer Bearer x") == Success("Bearer x")
    ensures RemovePrefixes("abc.def") == "abc.def"
    ensures DropSeven("abc") == Failure(RuntimeException(IndexOutOfBounds))
  {
    RemoveAllLeading(Prefix, "Bearer x");
    RemoveAllLeading(Prefix, "x");
    assert RemoveAll("x", Prefix) == "x";
    assert !OccursAt("abc.def", Prefix, 0);
    assert !Occurs("abc.def", Prefix);
    RemoveAllAbsent("abc.def", Prefix);
  }

  /** The replacing variant is not idempotent: removing an inner occurrence can
      join the text around it into a new one. */
  lemma RemovePrefixesCanLeaveAPrefix()
    ensures RemovePrefixes("BeBearer arer x") == "Bearer x"
  {
    var s := "BeBearer arer x";
    assert s[..7][2] != Prefix[2];
    assert s[1..][..7][0] != Prefix[0];
    assert s[1..][1..] == Prefix + "arer x";
    RemoveAllLeading(Prefix, "arer x");
    assert RemoveAll("arer x", Prefix) == "arer x";
  }
}
