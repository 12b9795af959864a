/**
 * The tracked-address store: a map from address to the clock reading taken
 * when it was first saved. The clock is passed in by the caller.
 */
module AddressStore {
  import opened Wrappers

  /** The map after saving `a` at time `now`: a new key gets `now`, a known key keeps its reading. */
  function Inserted(m: map<string, int>, a: string, now: int): (r: map<string, int>)
    ensures r.Keys == m.Keys + {a}
    ensures forall k :: k in m ==> r[k] == m[k]
    ensures a !in m ==> r[a] == now
  {
    if a in m then m else m[a := now]
  }

  /** The entries an age sweep at time `now` leaves: those no older than `maxAgeMs`, unchanged. */
  function Survivors(m: map<string, int>, maxAgeMs: int, now: int): (r: map<string, int>)
    ensures forall k :: k in r <==> k in m && now - m[k] <= maxAgeMs
    ensures forall k :: k in r ==> r[k] == m[k]
  {
    map k | k in m && !(now - m[k] > maxAgeMs) :: m[k]
  }

  /** `addressMap` with the operations on it. */
  class TrackedAddresses {
    var entries: map<string, int>

    /** The store starts empty. */
    constructor ()
      ensures entries == map[]
    {
      entries := map[];
    }

    /** `saveAddress`: record `address` with the reading `now`, unless it is already there. */
    method Save(address: string, now: int)
      modifies this
      ensures entries == Inserted(old(entries), address, now)
    {
      if address !in entries {
        entries := entries[address := now];
      }
    }

    /** `getAddressTimestamp`: the stored reading, `undefined` for an unknown address. */
    function Timestamp(address: string): (r: Option<int>)
      reads this
      ensures r.None? <==> address !in entries
      ensures r.Some? ==> address in entries && r.value == entries[address]
    {
      if address in entries then Some(entries[address]) else None
    }

    /** `clearOldAddresses`: delete, one key at a time, every entry older than `maxAgeMs` at time `now`. */
    method ClearOld(maxAgeMs: int, now: int)
      modifies this
      ensures entries == Survivors(old(entries), maxAgeMs, now)
    {
      ghost var start := entries;
      var pending := entries.Keys;
      while pending != {}
        invariant pending <= start.Keys
        invariant entries == map k | k in start && (k in pending || now - start[k] <= maxAgeMs) :: start[k]
        decreases |pending|
      {
        var address :| address in pending;
        if now - entries[address] > maxAgeMs {
          entries := entries - {address};
        }
        pending := pending - {address};
      }
    }
  }

  /** Saving again changes nothing: the first reading stays and no other key moves. */
  lemma {:induction false} SaveIdempotent(m: map<string, int>, a: string, first: int, later: int)
    ensures Inserted(Inserted(m, a, first), a, later) == Inserted(m, a, first)
    ensures Inserted(Inserted(m, a, first), a, later)[a] == (if a in m then m[a] else first)
  {
  }

  /** An entry exactly `maxAgeMs` old survives the sweep; one a millisecond older does not. */
  lemma {:induction false} SweepBoundary(m: map<string, int>, a: string, maxAgeMs: int, now: int)
    requires a in m
    ensures now - m[a] == maxAgeMs ==> a in Survivors(m, maxAgeMs, now)
    ensures now - m[a] == maxAgeMs + 1 ==> a !in Survivors(m, maxAgeMs, now)
  {
  }

  /** A second sweep at the same time removes nothing more. */
  lemma {:induction false} SweepIdempotent(m: map<string, int>, maxAgeMs: int, now: int)
    ensures Survivors(Survivors(m, maxAgeMs, now), maxAgeMs, now) == Survivors(m, maxAgeMs, now)
  {
  }

  /** An address saved at `now` survives a sweep at `now` with any non-negative age limit. */
  lemma {:induction false} FreshSaveSurvives(m: map<string, int>, a: string, maxAgeMs: int, now: int)
    requires a !in m && maxAgeMs >= 0
    ensures Survivors(Inserted(m, a, now), maxAgeMs, now) == Survivors(m, maxAgeMs, now)[a := now]
  {
  }
}
