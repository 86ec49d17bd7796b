/** The blacklist of single tokens: entries that expire, and a purge of the expired ones. */
module TokenBlacklist {
  import opened Text
  import opened Wrappers

  type Jti = string
  type Time = int

  datatype Call = Add(jti: Jti, expiresAt: Time) | Purge(now: Time)

  /** An entry is added once: a token that is already listed keeps its first expiry. */
  function Apply(entries: map<Jti, Time>, c: Call): map<Jti, Time> {
    match c
    case Add(jti, expiresAt) => if IsBlank(jti) || jti in entries then entries else entries[jti := expiresAt]
    case Purge(now) => map jti | jti in entries && entries[jti] > now :: entries[jti]
  }

  function After(cs: seq<Call>): map<Jti, Time> {
    if cs == [] then map[] else Apply(After(cs[..|cs| - 1]), cs[|cs| - 1])
  }

  predicate IsBlacklisted(entries: map<Jti, Time>, jti: Jti, now: Time) {
    jti in entries && entries[jti] > now
  }

  /** A token has one expiry, so it is always blacklisted with the same one. */
  predicate OneExpiry(cs: seq<Call>, jti: Jti, expiresAt: Time) {
    forall c <- cs :: c.Add? && c.jti == jti ==> c.expiresAt == expiresAt
  }

  /** Purges are never needed for, and never change, an answer: at any time that no purge has passed, a
      token is blacklisted exactly when it was added and has not expired. */
  lemma {:induction false} PurgingIsInvisible(cs: seq<Call>, jti: Jti, expiresAt: Time, now: Time)
    requires !IsBlank(jti) && OneExpiry(cs, jti, expiresAt)
    requires forall c <- cs :: c.Purge? ==> c.now <= now
    ensures IsBlacklisted(After(cs), jti, now) <==> Add(jti, expiresAt) in cs && now < expiresAt
    ensures jti in After(cs) ==> After(cs)[jti] == expiresAt
  {
    if cs != [] {
      var pre := cs[..|cs| - 1];
      assert cs == pre + [cs[|cs| - 1]];
      PurgingIsInvisible(pre, jti, expiresAt, now);
    }
  }

  /** It takes the one expiry: re-adding an expired token with a later expiry works only after a purge. */
  lemma PurgeMattersForChangedExpiry(jti: Jti, e1: Time, e2: Time, now: Time)
    requires !IsBlank(jti) && e1 <= now < e2
    ensures !IsBlacklisted(After([Add(jti, e1), Add(jti, e2)]), jti, now)
    ensures IsBlacklisted(After([Add(jti, e1), Purge(now), Add(jti, e2)]), jti, now)
  {
    var a, b := [Add(jti, e1), Add(jti, e2)], [Add(jti, e1), Purge(now), Add(jti, e2)];
    assert a[..1] == [Add(jti, e1)] == b[..1] && b[..2] == [Add(jti, e1), Purge(now)] && b[..2][..1] == b[..1];
    assert [Add(jti, e1)][..0] == [];
    assert After(b[..1]) == map[jti := e1];
    assert After(b[..2]) == map[];
  }

  /** The table if nothing were ever purged: every token keeps its first expiry. */
  function Unpurged(cs: seq<Call>): map<Jti, Time> {
    if cs == [] then map[]
    else
      var before, last := Unpurged(cs[..|cs| - 1]), cs[|cs| - 1];
      if last.Purge? then before else Apply(before, last)
  }

  /** A token that was added before, and has been purged since, is added again until some time after now. */
  predicate AddedAgain(cs: seq<Call>, jti: Jti, now: Time) {
    && cs != []
    && var pre, last := cs[..|cs| - 1], cs[|cs| - 1];
       || AddedAgain(pre, jti, now)
       || (&& last.Add? && last.jti == jti && last.expiresAt > now
           && jti in Unpurged(pre) && jti !in After(pre))
  }

  /** For every sequence of calls whose purges are past: purging changes the answer for a token exactly when it was added
      again like that, and then it is blacklisted only thanks to the purge. */
  lemma {:induction false} PurgesMatterExactly(cs: seq<Call>, jti: Jti, now: Time)
    requires !IsBlank(jti) && forall c <- cs :: c.Purge? ==> c.now <= now
    ensures IsBlacklisted(After(cs), jti, now) != IsBlacklisted(Unpurged(cs), jti, now) <==> AddedAgain(cs, jti, now)
    ensures AddedAgain(cs, jti, now) ==> IsBlacklisted(After(cs), jti, now)
    ensures jti in After(cs) ==> jti in Unpurged(cs)
    ensures IsBlacklisted(Unpurged(cs), jti, now) ==> jti in After(cs) && After(cs)[jti] == Unpurged(cs)[jti]
  {
    if cs != [] {
      var pre := cs[..|cs| - 1];
      assert cs == pre + [cs[|cs| - 1]];
      PurgesMatterExactly(pre, jti, now);
    }
  }

  class BlacklistedTokens {
    var entries: map<Jti, Time>

    constructor ()
      ensures entries == After([])
    {
      entries := map[];
    }

    method AddToBlacklist(jti: Jti, expiration: Time)
      modifies this
      ensures entries == Apply(old(entries), Add(jti, expiration))
    {
      if IsBlank(jti) {
        return;
      }
      if jti in entries {
        return;
      }
      entries := entries[jti := expiration];
    }

    method PurgeExpired(now: Time) returns (deleted: nat)
      modifies this
      ensures entries == Apply(old(entries), Purge(now))
      ensures |entries| + deleted == |old(entries)|
    {
      var kept := map jti | jti in entries && entries[jti] > now :: entries[jti];
      assert kept.Keys <= entries.Keys;
      SubsetCount(kept.Keys, entries.Keys);
      assert |kept| == |kept.Keys| && |entries| == |entries.Keys|;
      deleted := |entries| - |kept|;
      entries := kept;
    }
  }
}
