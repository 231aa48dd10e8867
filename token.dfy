/**
 * A stored refresh token. Its key is the identity followed by the token's
 * issue time in Unix seconds; the issue time is kept only inside the key.
 */
module Tokens {
  import opened Wrappers
  import opened Int32
  import Strings
  import Decimal

  datatype Token = Token(id: string, refreshToken: string, identityId: string)

  /** The composite key `"{identityId}:{iat}"`, with `iat` in decimal. */
  function GetCompositeId(identityId: string, iat: int32): (id: string)
    ensures |id| == |identityId| + 1 + |Decimal.IntToDecimal(iat as int)|
    ensures id[..|identityId|] == identityId
    ensures id[|identityId|] == ':'
    ensures id[|identityId| + 1..] == Decimal.IntToDecimal(iat as int)
  {
    identityId + ":" + Decimal.IntToDecimal(iat as int)
  }

  /** The constructor: keeps token and identity, and folds `iat` into the key. */
  function NewToken(identityId: string, token: string, iat: int32): (r: Token)
    ensures r.id == GetCompositeId(identityId, iat)
    ensures r.refreshToken == token && r.identityId == identityId
  {
    Token(GetCompositeId(identityId, iat), token, identityId)
  }

  /** Reads a key back as (identityId, iat) by cutting it at its last `:`. */
  function ParseCompositeId(id: string): Option<(string, int32)> {
    match Strings.SplitOnLast(id, ':')
    case None => None
    case Some((identityId, digits)) =>
      match Decimal.ParseDecimal(digits)
      case Some(iat) =>
        if MinInt32 <= iat <= MaxInt32 then Some((identityId, iat as int32)) else None
      case None => None
  }

  /** Every key splits back into its identity and issue time, whatever the identity holds. */
  lemma CompositeIdRoundTrip(identityId: string, iat: int32)
    ensures ParseCompositeId(GetCompositeId(identityId, iat)) == Some((identityId, iat))
  {
    var digits := Decimal.IntToDecimal(iat as int);
    Decimal.DecimalHasNoColon(iat as int);
    Strings.SplitOnLastOfJoined(identityId, digits, ':');
    Decimal.DecimalRoundTrip(iat as int);
  }

  /** So the key function is injective. */
  lemma CompositeIdInjective(i1: string, iat1: int32, i2: string, iat2: int32)
    requires GetCompositeId(i1, iat1) == GetCompositeId(i2, iat2)
    ensures i1 == i2 && iat1 == iat2
  {
    CompositeIdRoundTrip(i1, iat1);
    CompositeIdRoundTrip(i2, iat2);
  }

  lemma CompositeIdExample()
    ensures GetCompositeId("identityId", 1234567890) == "identityId:1234567890"
  {
    Decimal.RenderingExample();
  }
}
