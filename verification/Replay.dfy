/**
 The in-memory replay cache of `crypto.ts`, which forgets expired entries when it grows large, and
 its agreement with a cache that never forgets.
 */
module Replay {

  const SWEEP_ABOVE := 10000

  type Entries = map<string, int>

  /** The key is present and has not expired at `now`. */
  predicate Blocks(entries: Entries, key: string, now: int) {
    key in entries && entries[key] > now
  }

  /** The entries that have not expired at `now`. */
  function Live(entries: Entries, now: int): Entries {
    map key | key in entries && entries[key] > now :: entries[key]
  }

  /** The entries after `checkAndStore`. */
  function Stored(entries: Entries, key: string, expires: int, now: int): Entries {
    if Blocks(entries, key, now) then entries
    else
      var added := entries[key := expires];
      if |added| > SWEEP_ABOVE then Live(added, now) else added
  }

  /** What is in the cache after a call: a key still running is left as it is; otherwise the key runs until
      its expiry, and entries that have run out are gone only when there were more than 10,000. */
  lemma StoredMeans(entries: Entries, key: string, expires: int, now: int, k: string)
    ensures var after := Stored(entries, key, expires, now);
            if key in entries && entries[key] > now then after == entries
            else if |entries.Keys + {key}| <= 10000 then after == entries[key := expires]
            else
              && (k in after <==> if k == key then expires > now else k in entries && entries[k] > now)
              && (k in after ==> after[k] == if k == key then expires else entries[k])
  {
    assert entries[key := expires].Keys == entries.Keys + {key};
    assert |entries[key := expires]| == |entries[key := expires].Keys|;
  }

  class MemoryReplayCache {
    var entries: Entries

    constructor ()
      ensures entries == map[]
    {
      entries := map[];
    }

    /** Answers whether the key is fresh; a fresh key is stored, and expired entries may be swept. */
    method CheckAndStore(key: string, expires: int, now: int) returns (unseen: bool)
      modifies this
      ensures unseen <==> !Blocks(old(entries), key, now)
      ensures entries == Stored(old(entries), key, expires, now)
    {
      if key in entries && entries[key] > now {
        return false;
      }
      entries := entries[key := expires];
      if |entries| > SWEEP_ABOVE {
        ghost var added := entries;
        var candidates := entries.Keys;
        while candidates != {}
          invariant candidates <= added.Keys
          invariant entries.Keys <= added.Keys
          invariant forall k :: k in entries ==> entries[k] == added[k]
          invariant forall k :: k in added ==> (k in entries <==> k in candidates || added[k] > now)
          decreases candidates
        {
          var candidate :| candidate in candidates;
          if candidate in entries && entries[candidate] <= now {
            entries := entries - {candidate};
          }
          candidates := candidates - {candidate};
        }
        assert entries == Live(added, now);
      }
      return true;
    }
  }

  /******* Refinement of a cache that never forgets *******/

  datatype Call = Call(key: string, expires: int, now: int)

  ghost predicate NonDecreasing(calls: seq<Call>) {
    forall i, j :: 0 <= i <= j < |calls| ==> calls[i].now <= calls[j].now
  }

  /** The cache after the calls, starting empty. */
  function Swept(calls: seq<Call>): Entries {
    if calls == [] then map[]
    else
      var c := calls[|calls| - 1];
      Stored(Swept(calls[..|calls| - 1]), c.key, c.expires, c.now)
  }

  /** The same without ever forgetting. */
  function Kept(calls: seq<Call>): Entries {
    if calls == [] then map[]
    else
      var c, before := calls[|calls| - 1], Kept(calls[..|calls| - 1]);
      if Blocks(before, c.key, c.now) then before else before[c.key := c.expires]
  }

  /** Call `i` is answered "fresh" by the sweeping cache. */
  predicate Accepted(calls: seq<Call>, i: nat)
    requires i < |calls|
  {
    !Blocks(Swept(calls[..i]), calls[i].key, calls[i].now)
  }

  /** From the last call on, both caches block the same keys. */
  lemma {:induction false} SweepingIsInvisible(calls: seq<Call>, key: string, now: int)
    requires NonDecreasing(calls)
    requires calls != [] ==> calls[|calls| - 1].now <= now
    ensures Blocks(Swept(calls), key, now) <==> Blocks(Kept(calls), key, now)
  {
    if calls != [] {
      var front, c := calls[..|calls| - 1], calls[|calls| - 1];
      assert front != [] ==> front[|front| - 1] == calls[|calls| - 2];
      SweepingIsInvisible(front, key, now);
      SweepingIsInvisible(front, c.key, c.now);
    }
  }

  /** For non-decreasing times the sweeping cache answers every call like one that never forgets. */
  lemma AnswersLikeKept(calls: seq<Call>, i: nat)
    requires NonDecreasing(calls) && i < |calls|
    ensures Accepted(calls, i) <==> !Blocks(Kept(calls[..i]), calls[i].key, calls[i].now)
  {
    SweepingIsInvisible(calls[..i], calls[i].key, calls[i].now);
  }

  /** An accepted key is kept at least until its expiry, or that expiry has passed. */
  lemma {:induction false} KeptUntilExpiry(calls: seq<Call>, i: nat)
    requires NonDecreasing(calls) && i < |calls| && Accepted(calls, i)
    ensures calls[i].key in Kept(calls)
    ensures Kept(calls)[calls[i].key] >= calls[i].expires || calls[|calls| - 1].now >= calls[i].expires
  {
    var n := |calls| - 1;
    if i == n {
      AnswersLikeKept(calls, i);
    } else {
      assert calls[..n][..i] == calls[..i];
      KeptUntilExpiry(calls[..n], i);
      assert calls[..n][n - 1].now <= calls[n].now;
    }
  }

  /** No key is accepted again before the expiry it was stored with. */
  lemma NotAcceptedBeforeExpiry(calls: seq<Call>, i: nat, j: nat)
    requires NonDecreasing(calls) && i < j < |calls| && calls[i].key == calls[j].key
    requires Accepted(calls, i) && Accepted(calls, j)
    ensures calls[j].now >= calls[i].expires
  {
    assert calls[..j][..i] == calls[..i];
    KeptUntilExpiry(calls[..j], i);
    AnswersLikeKept(calls, j);
    assert calls[..j][j - 1].now <= calls[j].now;
  }

  /** The same for two calls given by the histories before and after each. */
  lemma SpentNonce(before: seq<Call>, first: seq<Call>, between: seq<Call>, second: seq<Call>)
    requires |first| == |before| + 1 && before <= first <= between && |second| == |between| + 1 && between <= second
    requires NonDecreasing(second) && first[|before|].key == second[|between|].key
    requires !Blocks(Swept(before), first[|before|].key, first[|before|].now)
    requires !Blocks(Swept(between), second[|between|].key, second[|between|].now)
    ensures second[|between|].now >= first[|before|].expires
  {
    var m, n := |before|, |between|;
    assert second[..m] == before && second[..n] == between && second[m] == first[m];
    hide Swept, Blocks;
    NotAcceptedBeforeExpiry(second, m, n);
  }

  /** A repeated call is accepted exactly when the stored expiry has been reached. */
  lemma RepeatedCall(c: Call, again: Call)
    requires again.key == c.key && c.now <= again.now
    ensures Accepted([c, again], 1) <==> again.now >= c.expires
  {
    var calls := [c, again];
    assert calls[..1] == [c] && [c][..0] == [];
    assert Swept([c]) == map[c.key := c.expires];
  }
}
