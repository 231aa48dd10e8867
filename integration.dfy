/**
 * A third-party account integration used to log in. Its storage key is
 * derived from the platform and the user's id on that platform; the owning
 * identity plays no part in it.
 */
module Integrations {
  import opened Wrappers
  import Strings

  datatype Integration = Integration(id: string, identityId: string, platform: string, userId: string)

  /** The composite key `"{platform}:{userId}"`. */
  function GetCompositeId(platform: string, userId: string): (id: string)
    ensures |id| == |platform| + |userId| + 1
    ensures id[..|platform|] == platform
    ensures id[|platform|] == ':'
    ensures id[|platform| + 1..] == userId
  {
    platform + ":" + userId
  }

  /** The constructor: stores its three arguments and derives the key from platform and user id. */
  function NewIntegration(identityId: string, platform: string, userId: string): (r: Integration)
    ensures r.id == GetCompositeId(platform, userId)
    ensures r.identityId == identityId && r.platform == platform && r.userId == userId
  {
    Integration(GetCompositeId(platform, userId), identityId, platform, userId)
  }

  /** Reads a key back as (platform, userId) by cutting it at its first `:`. */
  function ParseCompositeId(id: string): Option<(string, string)> {
    Strings.SplitOnFirst(id, ':')
  }

  /** A key splits back into its parts whenever the platform name has no `:`. */
  lemma CompositeIdRoundTrip(platform: string, userId: string)
    requires ':' !in platform
    ensures ParseCompositeId(GetCompositeId(platform, userId)) == Some((platform, userId))
  {
    Strings.SplitOnFirstOfJoined(platform, userId, ':');
  }

  /** Under the same condition the key determines both parts. */
  lemma CompositeIdInjective(p1: string, u1: string, p2: string, u2: string)
    requires ':' !in p1 && ':' !in p2
    requires GetCompositeId(p1, u1) == GetCompositeId(p2, u2)
    ensures p1 == p2 && u1 == u2
  {
    CompositeIdRoundTrip(p1, u1);
    CompositeIdRoundTrip(p2, u2);
  }

  /** Without it keys collide: a `:` may sit in the platform or in the user id. */
  lemma CompositeIdsCollide()
    ensures GetCompositeId("a:b", "c") == GetCompositeId("a", "b:c")
  {
  }

  /** The key of one platform account is the same whichever identity owns it. */
  lemma IdIndependentOfIdentity(identity1: string, identity2: string, platform: string, userId: string)
    ensures NewIntegration(identity1, platform, userId).id == NewIntegration(identity2, platform, userId).id
  {
  }

  lemma CompositeIdExample()
    ensures GetCompositeId("platform", "userId") == "platform:userId"
  {
  }
}
