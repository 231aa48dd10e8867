/**
 * A code used to recover a first-party account. The key is built from the
 * code's type and its identity, in that order, although the key function
 * takes them the other way round; the secret code itself is not part of it.
 */
module RecoveryCodes {
  import opened Wrappers
  import Strings

  datatype RecoveryCode = RecoveryCode(id: string, code: string, identityId: string, recoveryType: string)

  /** The composite key `"{type}:{identityId}"`: the parameters appear in reverse order. */
  function GetCompositeId(identityId: string, recoveryType: string): (id: string)
    ensures |id| == |recoveryType| + |identityId| + 1
    ensures id[..|recoveryType|] == recoveryType
    ensures id[|recoveryType|] == ':'
    ensures id[|recoveryType| + 1..] == identityId
  {
    recoveryType + ":" + identityId
  }

  /** The constructor: stores code, identity and type, and derives the key from identity and type. */
  function NewRecoveryCode(identityId: string, code: string, recoveryType: string): (r: RecoveryCode)
    ensures r.id == GetCompositeId(identityId, recoveryType)
    ensures r.code == code && r.identityId == identityId && r.recoveryType == recoveryType
  {
    RecoveryCode(GetCompositeId(identityId, recoveryType), code, identityId, recoveryType)
  }

  /** Reads a key back as (type, identityId) by cutting it at its first `:`. */
  function ParseCompositeId(id: string): Option<(string, string)> {
    Strings.SplitOnFirst(id, ':')
  }

  /** A key splits back into (type, identityId) whenever the type has no `:`. */
  lemma CompositeIdRoundTrip(identityId: string, recoveryType: string)
    requires ':' !in recoveryType
    ensures ParseCompositeId(GetCompositeId(identityId, recoveryType)) == Some((recoveryType, identityId))
  {
    Strings.SplitOnFirstOfJoined(recoveryType, identityId, ':');
  }

  /** Under the same condition the key determines identity and type. */
  lemma CompositeIdInjective(i1: string, t1: string, i2: string, t2: string)
    requires ':' !in t1 && ':' !in t2
    requires GetCompositeId(i1, t1) == GetCompositeId(i2, t2)
    ensures i1 == i2 && t1 == t2
  {
    CompositeIdRoundTrip(i1, t1);
    CompositeIdRoundTrip(i2, t2);
  }

  /** Without it keys collide. */
  lemma CompositeIdsCollide()
    ensures GetCompositeId("c", "a:b") == GetCompositeId("b:c", "a")
  {
  }

  /** Two codes for the same identity and type share one key, so a new code replaces the old one. */
  lemma IdIndependentOfCode(identityId: string, code1: string, code2: string, recoveryType: string)
    ensures NewRecoveryCode(identityId, code1, recoveryType).id == NewRecoveryCode(identityId, code2, recoveryType).id
  {
  }

  lemma CompositeIdExample()
    ensures GetCompositeId("identityId", "type") == "type:identityId"
  {
  }
}
