/**
 * The per-address relay loops of both handlers, as functions: for each
 * extracted address that the skip test lets through, one send attempt per
 * destination in order; each delivered attempt saves the address with the
 * clock reading taken right after it. Failed attempts are recorded and the
 * loops carry on.
 *
 * Sends are an oracle `send(destination, address, k)` where `k` is the
 * attempt's position in the handler's trace; `clock(k)` is the reading
 * `Date.now()` gives when the address is saved after attempt `k`.
 */
module Relay {
  import opened AddressStore

  /** One call to `sendMessage`: where, what, and whether it went through. */
  datatype Attempt = Attempt(destination: string, address: string, delivered: bool)

  /** The attempts made so far and the store's entries. */
  datatype Progress = Progress(trace: seq<Attempt>, entries: map<string, int>)

  /**
   * How an address is judged already forwarded: `SentinelOne` is the test
   * `addressMap.get(address) !== 1` the handlers use; `Membership` is the
   * `!addressMap.has(address)` test next to it, left commented out.
   */
  datatype SkipRule = SentinelOne | Membership

  /**
   * The skip test of `rule`: only an address the store holds is ever
   * skipped, and while no stored reading is `1` only the membership test
   * skips anything.
   */
  predicate Skips(rule: SkipRule, entries: map<string, int>, a: string)
    ensures Skips(rule, entries, a) ==> a in entries
    ensures NoSentinel(entries) ==> (Skips(rule, entries, a) <==> rule == Membership && a in entries)
  {
    match rule
    case SentinelOne => a in entries && entries[a] == 1
    case Membership => a in entries
  }

  /**
   * One attempt to send `a` to `dest`: it is appended to the trace with the
   * oracle's outcome; `a` is recorded exactly when it was delivered or already
   * stored, under the clock reading of this attempt if it is new, and no
   * stored reading changes.
   */
  function Step(p: Progress, dest: string, a: string,
                send: (string, string, nat) -> bool, clock: nat -> int): (q: Progress)
    ensures q.trace == p.trace + [Attempt(dest, a, send(dest, a, |p.trace|))]
    ensures forall b :: b in q.entries <==> b in p.entries || (b == a && send(dest, a, |p.trace|))
    ensures forall b :: b in p.entries ==> q.entries[b] == p.entries[b]
    ensures a !in p.entries && send(dest, a, |p.trace|) ==> q.entries[a] == clock(|p.trace|)
  {
    var k := |p.trace|;
    var ok := send(dest, a, k);
    Progress(p.trace + [Attempt(dest, a, ok)], if ok then Inserted(p.entries, a, clock(k)) else p.entries)
  }

  /**
   * The innermost loop: `a` is sent to every destination, in order, one
   * attempt each; the store keeps every key and gains at most `a`.
   */
  function SendEach(p: Progress, dests: seq<string>, a: string,
                    send: (string, string, nat) -> bool, clock: nat -> int): (r: Progress)
    ensures |r.trace| == |p.trace| + |dests|
    ensures p.entries.Keys <= r.entries.Keys <= p.entries.Keys + {a}
    decreases |dests|
  {
    if dests == [] then p
    else SendEach(Step(p, dests[0], a, send, clock), dests[1..], a, send, clock)
  }

  /**
   * The loop over the extracted addresses, each judged against the entries
   * as they stand: at most one attempt per address and destination, every
   * stored key kept, and only listed addresses added.
   */
  function RelayEach(rule: SkipRule, p: Progress, addrs: seq<string>, dests: seq<string>,
                     send: (string, string, nat) -> bool, clock: nat -> int): (r: Progress)
    ensures |p.trace| <= |r.trace|
    ensures p.entries.Keys <= r.entries.Keys
    ensures forall b :: b in r.entries ==> b in p.entries || b in addrs
    decreases |addrs|
  {
    if addrs == [] then p
    else
      var a := addrs[0];
      var q := if Skips(rule, p.entries, a) then p else SendEach(p, dests, a, send, clock);
      var r := RelayEach(rule, q, addrs[1..], dests, send, clock);
      assert forall b :: b in addrs[1..] ==> b in addrs;
      r
  }

  // ---------------------------------------------------------------------
  // What the sends of one address do
  // ---------------------------------------------------------------------

  /** Some destination took `a` among the attempts starting at position `k`. */
  ghost predicate DeliveredFrom(dests: seq<string>, a: string, k: nat, send: (string, string, nat) -> bool)
  {
    exists j :: 0 <= j < |dests| && send(dests[j], a, k + j)
  }

  /**
   * Sending one address: exactly one attempt per destination, in order, each
   * with the oracle's outcome, a failure never stopping the rest; earlier
   * attempts untouched.
   */
  lemma {:induction false} SendEachAttempts(p: Progress, dests: seq<string>, a: string,
                                           send: (string, string, nat) -> bool, clock: nat -> int)
    ensures |SendEach(p, dests, a, send, clock).trace| == |p.trace| + |dests|
    ensures SendEach(p, dests, a, send, clock).trace[..|p.trace|] == p.trace
    ensures forall j :: 0 <= j < |dests| ==>
      SendEach(p, dests, a, send, clock).trace[|p.trace| + j] == Attempt(dests[j], a, send(dests[j], a, |p.trace| + j))
    decreases |dests|
  {
    if dests != [] {
      var q := Step(p, dests[0], a, send, clock);
      SendEachAttempts(q, dests[1..], a, send, clock);
      var r := SendEach(p, dests, a, send, clock);
      assert r.trace[..|p.trace|] == r.trace[..|q.trace|][..|p.trace|];
      forall j | 0 <= j < |dests|
        ensures r.trace[|p.trace| + j] == Attempt(dests[j], a, send(dests[j], a, |p.trace| + j))
      {
        if j == 0 {
          assert r.trace[..|q.trace|][|p.trace|] == q.trace[|p.trace|];
        } else {
          assert dests[1..][j - 1] == dests[j];
        }
      }
    }
  }

  /** A delivery among the attempts is either the first one or one of the rest. */
  lemma {:induction false} DeliveredFromShift(dests: seq<string>, a: string, k: nat, send: (string, string, nat) -> bool)
    requires dests != []
    ensures DeliveredFrom(dests, a, k, send) <==> send(dests[0], a, k) || DeliveredFrom(dests[1..], a, k + 1, send)
  {
    if DeliveredFrom(dests[1..], a, k + 1, send) {
      var j :| 0 <= j < |dests[1..]| && send(dests[1..][j], a, k + 1 + j);
      assert send(dests[j + 1], a, k + (j + 1));
    }
    if DeliveredFrom(dests, a, k, send) && !send(dests[0], a, k) {
      var j :| 0 <= j < |dests| && send(dests[j], a, k + j);
      assert j != 0 && dests[1..][j - 1] == dests[j];
    }
  }

  /**
   * Sending one address changes the store only at `a`: it is recorded
   * exactly when some attempt was delivered, and a reading already stored
   * is never changed.
   */
  lemma {:induction false} SendEachRecords(p: Progress, dests: seq<string>, a: string,
                                          send: (string, string, nat) -> bool, clock: nat -> int)
    ensures forall b :: b in SendEach(p, dests, a, send, clock).entries <==>
      b in p.entries || (b == a && DeliveredFrom(dests, a, |p.trace|, send))
    ensures forall k :: k in p.entries ==> SendEach(p, dests, a, send, clock).entries[k] == p.entries[k]
    decreases |dests|
  {
    if dests == [] {
      assert !DeliveredFrom(dests, a, |p.trace|, send);
    } else {
      var q := Step(p, dests[0], a, send, clock);
      SendEachRecords(q, dests[1..], a, send, clock);
      DeliveredFromShift(dests, a, |p.trace|, send);
    }
  }

  /** The position, among the destinations, of the first attempt that delivered `a`. */
  function FirstDelivered(dests: seq<string>, a: string, k: nat, send: (string, string, nat) -> bool): (j: nat)
    requires DeliveredFrom(dests, a, k, send)
    ensures j < |dests| && send(dests[j], a, k + j)
    ensures forall i :: 0 <= i < j ==> !send(dests[i], a, k + i)
    decreases |dests|
  {
    DeliveredFromShift(dests, a, k, send);
    if send(dests[0], a, k) then 0
    else
      var j := 1 + FirstDelivered(dests[1..], a, k + 1, send);
      assert forall i :: 1 <= i < j ==> dests[i] == dests[1..][i - 1];
      j
  }

  /** An address new to the store and delivered by the first attempt keeps that attempt's reading. */
  lemma {:induction false} SendEachStampFirst(p: Progress, dests: seq<string>, a: string,
                                             send: (string, string, nat) -> bool, clock: nat -> int)
    requires a !in p.entries && dests != [] && send(dests[0], a, |p.trace|)
    ensures a in SendEach(p, dests, a, send, clock).entries
    ensures SendEach(p, dests, a, send, clock).entries[a] == clock(|p.trace|)
  {
    var q := Step(p, dests[0], a, send, clock);
    assert a in q.entries && q.entries[a] == clock(|p.trace|);
    SendEachRecords(q, dests[1..], a, send, clock);
  }

  /** An address new to the store first delivered by attempt `j` keeps the reading taken after it. */
  lemma {:induction false} SendEachStampAt(p: Progress, dests: seq<string>, a: string,
                                          send: (string, string, nat) -> bool, clock: nat -> int, j: nat)
    requires a !in p.entries && j < |dests| && send(dests[j], a, |p.trace| + j)
    requires forall i :: 0 <= i < j ==> !send(dests[i], a, |p.trace| + i)
    ensures a in SendEach(p, dests, a, send, clock).entries
    ensures SendEach(p, dests, a, send, clock).entries[a] == clock(|p.trace| + j)
    decreases j
  {
    if j == 0 {
      SendEachStampFirst(p, dests, a, send, clock);
    } else {
      assert !send(dests[0], a, |p.trace| + 0);
      var q := Step(p, dests[0], a, send, clock);
      var n := |q.trace|;
      assert a !in q.entries && n == |p.trace| + 1;
      assert dests[1..][j - 1] == dests[j] && n + (j - 1) == |p.trace| + j;
      forall i | 0 <= i < j - 1
        ensures !send(dests[1..][i], a, n + i)
      {
        assert dests[1..][i] == dests[i + 1] && n + i == |p.trace| + (i + 1);
      }
      SendEachStampAt(q, dests[1..], a, send, clock, j - 1);
    }
  }

  /** A newly recorded address carries the clock reading taken after its first delivered attempt. */
  lemma {:induction false} SendEachStamp(p: Progress, dests: seq<string>, a: string,
                                        send: (string, string, nat) -> bool, clock: nat -> int)
    requires a !in p.entries && DeliveredFrom(dests, a, |p.trace|, send)
    ensures a in SendEach(p, dests, a, send, clock).entries
    ensures SendEach(p, dests, a, send, clock).entries[a] == clock(|p.trace| + FirstDelivered(dests, a, |p.trace|, send))
  {
    SendEachStampAt(p, dests, a, send, clock, FirstDelivered(dests, a, |p.trace|, send));
  }

  // ---------------------------------------------------------------------
  // What the whole loop does
  // ---------------------------------------------------------------------

  /** The new attempts starting at `from` are for listed addresses and destinations. */
  ghost predicate AttemptsWithin(trace: seq<Attempt>, from: nat, addrs: seq<string>, dests: seq<string>)
  {
    forall k :: from <= k < |trace| ==> trace[k].address in addrs && trace[k].destination in dests
  }

  /** Some attempt from position `from` on delivered `a`. */
  ghost predicate DeliveredIn(trace: seq<Attempt>, from: nat, a: string)
  {
    exists k :: from <= k < |trace| && trace[k].address == a && trace[k].delivered
  }

  /** In a run of attempts of `a`, one per destination, `b` is delivered exactly when it is `a` and some destination took it. */
  lemma {:induction false} DeliveredInRun(t: seq<Attempt>, n: nat, dests: seq<string>, a: string, b: string,
                                         send: (string, string, nat) -> bool)
    requires |t| == n + |dests|
    requires forall j :: 0 <= j < |dests| ==> t[n + j] == Attempt(dests[j], a, send(dests[j], a, n + j))
    ensures DeliveredIn(t, n, b) <==> b == a && DeliveredFrom(dests, a, n, send)
  {
    if DeliveredIn(t, n, b) {
      var k :| n <= k < |t| && t[k].address == b && t[k].delivered;
      assert t[n + (k - n)] == Attempt(dests[k - n], a, send(dests[k - n], a, n + (k - n)));
    }
    if b == a && DeliveredFrom(dests, a, n, send) {
      var j :| 0 <= j < |dests| && send(dests[j], a, n + j);
      assert t[n + j].address == a && t[n + j].delivered;
    }
  }

  /** Among one address's attempts, `b` is delivered exactly when it is `a` and some destination took it. */
  lemma {:induction false} DeliveredInSendEach(p: Progress, dests: seq<string>, a: string, b: string,
                                              send: (string, string, nat) -> bool, clock: nat -> int)
    ensures DeliveredIn(SendEach(p, dests, a, send, clock).trace, |p.trace|, b) <==>
      b == a && DeliveredFrom(dests, a, |p.trace|, send)
  {
    SendEachAttempts(p, dests, a, send, clock);
    DeliveredInRun(SendEach(p, dests, a, send, clock).trace, |p.trace|, dests, a, b, send);
  }

  /**
   * `r` carries on from `p`: the earlier attempts stand, the new ones carry
   * listed addresses to listed destinations, an address is newly recorded
   * exactly when one of the new attempts delivered it, and no stored reading
   * changes.
   */
  ghost predicate Extends(p: Progress, r: Progress, addrs: seq<string>, dests: seq<string>)
  {
    && |p.trace| <= |r.trace|
    && r.trace[..|p.trace|] == p.trace
    && AttemptsWithin(r.trace, |p.trace|, addrs, dests)
    && (forall b :: b in r.entries <==> b in p.entries || DeliveredIn(r.trace, |p.trace|, b))
    && (forall b :: b in p.entries ==> b in r.entries && r.entries[b] == p.entries[b])
  }

  lemma {:induction false} ExtendsRefl(p: Progress, addrs: seq<string>, dests: seq<string>)
    ensures Extends(p, p, addrs, dests)
  {
    assert forall b :: !DeliveredIn(p.trace, |p.trace|, b);
  }

  /** A later run of the loop carries on from an earlier one. */
  lemma {:induction false} ExtendsTrans(p: Progress, q: Progress, r: Progress, addrs: seq<string>, dests: seq<string>)
    requires Extends(p, q, addrs, dests) && Extends(q, r, addrs, dests)
    ensures Extends(p, r, addrs, dests)
  {
    var n, m := |p.trace|, |q.trace|;
    assert r.trace[..n] == r.trace[..m][..n];
    forall k | n <= k < m
      ensures r.trace[k] == q.trace[k]
    {
      assert r.trace[k] == r.trace[..m][k];
    }
    forall b
      ensures b in r.entries <==> b in p.entries || DeliveredIn(r.trace, n, b)
    {
      if DeliveredIn(r.trace, n, b) && b !in p.entries {
        var k :| n <= k < |r.trace| && r.trace[k].address == b && r.trace[k].delivered;
        if k < m {
          assert DeliveredIn(q.trace, n, b);
        } else {
          assert DeliveredIn(r.trace, m, b);
        }
      }
      if DeliveredIn(q.trace, n, b) {
        var k :| n <= k < m && q.trace[k].address == b && q.trace[k].delivered;
        assert r.trace[k] == q.trace[k];
      }
      if DeliveredIn(r.trace, m, b) {
        var k :| m <= k < |r.trace| && r.trace[k].address == b && r.trace[k].delivered;
      }
    }
  }

  /** Carrying on within fewer addresses is carrying on within more. */
  lemma {:induction false} ExtendsWiden(p: Progress, r: Progress, few: seq<string>, many: seq<string>, dests: seq<string>)
    requires Extends(p, r, few, dests)
    requires forall x :: x in few ==> x in many
    ensures Extends(p, r, many, dests)
  {
  }

  /** One address's sends carry on from where they start, naming only that address. */
  lemma {:induction false} SendEachShape(p: Progress, dests: seq<string>, a: string,
                                        send: (string, string, nat) -> bool, clock: nat -> int)
    ensures Extends(p, SendEach(p, dests, a, send, clock), [a], dests)
  {
    SendEachAttempts(p, dests, a, send, clock);
    SendEachRecords(p, dests, a, send, clock);
    var r := SendEach(p, dests, a, send, clock);
    var n := |p.trace|;
    forall k | n <= k < |r.trace|
      ensures r.trace[k].address in [a] && r.trace[k].destination in dests
    {
      assert r.trace[n + (k - n)] == Attempt(dests[k - n], a, send(dests[k - n], a, n + (k - n)));
    }
    forall b
      ensures b in r.entries <==> b in p.entries || DeliveredIn(r.trace, n, b)
    {
      DeliveredInSendEach(p, dests, a, b, send, clock);
    }
  }

  /**
   * The relay loop appends to the trace, attempts only listed addresses at
   * listed destinations, records an address exactly when one of its
   * attempts was delivered, and never changes a reading already stored.
   */
  lemma {:induction false} RelayEachShape(rule: SkipRule, p: Progress, addrs: seq<string>, dests: seq<string>,
                                         send: (string, string, nat) -> bool, clock: nat -> int)
    ensures Extends(p, RelayEach(rule, p, addrs, dests, send, clock), addrs, dests)
    decreases |addrs|
  {
    if addrs == [] {
      ExtendsRefl(p, addrs, dests);
    } else {
      var a := addrs[0];
      var q := if Skips(rule, p.entries, a) then p else SendEach(p, dests, a, send, clock);
      if Skips(rule, p.entries, a) {
        ExtendsRefl(p, addrs, dests);
      } else {
        SendEachShape(p, dests, a, send, clock);
        ExtendsWiden(p, q, [a], addrs, dests);
      }
      RelayEachShape(rule, q, addrs[1..], dests, send, clock);
      ExtendsWiden(q, RelayEach(rule, q, addrs[1..], dests, send, clock), addrs[1..], addrs, dests);
      ExtendsTrans(p, q, RelayEach(rule, p, addrs, dests, send, clock), addrs, dests);
    }
  }

  // ---------------------------------------------------------------------
  // The sentinel test against clock readings
  // ---------------------------------------------------------------------

  /** Where each attempt went and what it carried. */
  function Targets(trace: seq<Attempt>): (ts: seq<(string, string)>)
    ensures |ts| == |trace|
    ensures forall k :: 0 <= k < |trace| ==> ts[k] == (trace[k].destination, trace[k].address)
  {
    seq(|trace|, k requires 0 <= k < |trace| => (trace[k].destination, trace[k].address))
  }

  /** `a` paired with every destination, in order. */
  function Row(a: string, dests: seq<string>): (ts: seq<(string, string)>)
    ensures |ts| == |dests|
    ensures forall j :: 0 <= j < |dests| ==> ts[j] == (dests[j], a)
  {
    Targets(seq(|dests|, j requires 0 <= j < |dests| => Attempt(dests[j], a, true)))
  }

  /** Every address paired with every destination: addresses in order, destinations in order within each. */
  function Plan(addrs: seq<string>, dests: seq<string>): (pl: seq<(string, string)>)
    ensures |pl| == |addrs| * |dests|
    decreases |addrs|
  {
    if addrs == [] then []
    else Row(addrs[0], dests) + Plan(addrs[1..], dests)
  }

  /** No stored reading equals the sentinel `1`. */
  predicate NoSentinel(entries: map<string, int>)
  {
    forall a :: a in entries ==> entries[a] != 1
  }

  /** With the clock never reading 1, sending keeps the sentinel out of the store. */
  lemma {:induction false} SendEachKeepsNoSentinel(p: Progress, dests: seq<string>, a: string,
                                                  send: (string, string, nat) -> bool, clock: nat -> int)
    requires NoSentinel(p.entries)
    requires forall k :: clock(k) != 1
    ensures NoSentinel(SendEach(p, dests, a, send, clock).entries)
    decreases |dests|
  {
    if dests != [] {
      SendEachKeepsNoSentinel(Step(p, dests[0], a, send, clock), dests[1..], a, send, clock);
    }
  }

  /** A run of attempts of `a`, one per destination, goes to every destination in order. */
  lemma {:induction false} TargetsOfRun(t: seq<Attempt>, u: seq<Attempt>, dests: seq<string>, a: string,
                                       send: (string, string, nat) -> bool)
    requires |t| == |u| + |dests| && t[..|u|] == u
    requires forall j :: 0 <= j < |dests| ==> t[|u| + j] == Attempt(dests[j], a, send(dests[j], a, |u| + j))
    ensures Targets(t) == Targets(u) + Row(a, dests)
  {
    var n := |u|;
    var x, y := Targets(t), Targets(u) + Row(a, dests);
    assert |x| == |y|;
    forall k | 0 <= k < |x|
      ensures x[k] == y[k]
    {
      if n <= k {
        assert t[n + (k - n)] == Attempt(dests[k - n], a, send(dests[k - n], a, n + (k - n)));
      } else {
        assert t[k] == t[..n][k];
      }
    }
  }

  /** One address's sends go to every destination in order. */
  lemma {:induction false} SendEachTargets(p: Progress, dests: seq<string>, a: string,
                                          send: (string, string, nat) -> bool, clock: nat -> int)
    ensures Targets(SendEach(p, dests, a, send, clock).trace) == Targets(p.trace) + Row(a, dests)
  {
    SendEachAttempts(p, dests, a, send, clock);
    TargetsOfRun(SendEach(p, dests, a, send, clock).trace, p.trace, dests, a, send);
  }

  /**
   * The test `get(address) !== 1` against a store of clock readings: as long
   * as the clock never reads 1 and no stored value is 1, no address is ever
   * skipped. Every extracted address, repeats included and already-tracked
   * ones included, is sent to every destination.
   */
  lemma {:induction false} SentinelNeverSkips(p: Progress, addrs: seq<string>, dests: seq<string>,
                                             send: (string, string, nat) -> bool, clock: nat -> int)
    requires NoSentinel(p.entries)
    requires forall k :: clock(k) != 1
    ensures Targets(RelayEach(SentinelOne, p, addrs, dests, send, clock).trace) == Targets(p.trace) + Plan(addrs, dests)
    ensures NoSentinel(RelayEach(SentinelOne, p, addrs, dests, send, clock).entries)
    decreases |addrs|
  {
    if addrs != [] {
      var a := addrs[0];
      assert !Skips(SentinelOne, p.entries, a);
      var q := SendEach(p, dests, a, send, clock);
      SendEachTargets(p, dests, a, send, clock);
      SendEachKeepsNoSentinel(p, dests, a, send, clock);
      SentinelNeverSkips(q, addrs[1..], dests, send, clock);
      assert RelayEach(SentinelOne, p, addrs, dests, send, clock) == RelayEach(SentinelOne, q, addrs[1..], dests, send, clock);
      assert Targets(p.trace) + Row(a, dests) + Plan(addrs[1..], dests) ==
             Targets(p.trace) + (Row(a, dests) + Plan(addrs[1..], dests));
    }
  }

  // ---------------------------------------------------------------------
  // The skip test as written and as evidently intended
  // ---------------------------------------------------------------------

  /**
   * As written: an address the store already holds under a real timestamp is
   * sent again, and an address repeated in one message is sent twice.
   */
  lemma {:induction false} TrackedAddressResent(a: string, dest: string, seen: int,
                                               send: (string, string, nat) -> bool, clock: nat -> int)
    requires seen != 1 && clock(0) != 1
    requires send(dest, a, 0) && send(dest, a, 1)
    ensures RelayEach(SentinelOne, Progress([], map[a := seen]), [a], [dest], send, clock).trace
            == [Attempt(dest, a, true)]
    ensures RelayEach(SentinelOne, Progress([], map[]), [a, a], [dest], send, clock).trace
            == [Attempt(dest, a, true), Attempt(dest, a, true)]
  {
    var p1 := Step(Progress([], map[a := seen]), dest, a, send, clock);
    assert SendEach(Progress([], map[a := seen]), [dest], a, send, clock) == SendEach(p1, [], a, send, clock) == p1;
    assert RelayEach(SentinelOne, p1, [], [dest], send, clock) == p1;
    var q1 := Step(Progress([], map[]), dest, a, send, clock);
    assert q1.entries == map[a := clock(0)];
    assert SendEach(Progress([], map[]), [dest], a, send, clock) == SendEach(q1, [], a, send, clock) == q1;
    var q2 := Step(q1, dest, a, send, clock);
    assert SendEach(q1, [dest], a, send, clock) == SendEach(q2, [], a, send, clock) == q2;
    assert [a, a][1..] == [a];
    assert RelayEach(SentinelOne, q2, [], [dest], send, clock) == q2;
  }

  /** No attempt from position `from` on carries an address of `entries`. */
  ghost predicate AvoidsTracked(trace: seq<Attempt>, from: nat, entries: map<string, int>)
  {
    forall k :: from <= k < |trace| ==> trace[k].address !in entries
  }

  /** From position `from` on, no address is attempted again after a delivered attempt of it. */
  ghost predicate NoResendAfterDelivery(trace: seq<Attempt>, from: nat)
  {
    forall k, l :: from <= k < l < |trace| && trace[k].delivered ==> trace[l].address != trace[k].address
  }

  /** With the membership test, an address already in the store is never attempted. */
  lemma {:induction false} MembershipSkipsTracked(p: Progress, addrs: seq<string>, dests: seq<string>,
                                                 send: (string, string, nat) -> bool, clock: nat -> int)
    ensures AvoidsTracked(RelayEach(Membership, p, addrs, dests, send, clock).trace, |p.trace|, p.entries)
    decreases |addrs|
  {
    if addrs != [] {
      var a := addrs[0];
      var q := if a in p.entries then p else SendEach(p, dests, a, send, clock);
      SendEachShape(p, dests, a, send, clock);
      MembershipSkipsTracked(q, addrs[1..], dests, send, clock);
      RelayEachShape(Membership, q, addrs[1..], dests, send, clock);
      var r := RelayEach(Membership, p, addrs, dests, send, clock);
      forall k | |p.trace| <= k < |r.trace|
        ensures r.trace[k].address !in p.entries
      {
        if k < |q.trace| {
          assert r.trace[k] == r.trace[..|q.trace|][k] == q.trace[k];
        }
      }
    }
  }

  /**
   * With the membership test and a single destination, as in the Discord
   * handler, an address once delivered is never attempted again.
   */
  lemma {:induction false} MembershipDeliversOnce(p: Progress, addrs: seq<string>, dest: string,
                                                 send: (string, string, nat) -> bool, clock: nat -> int)
    ensures NoResendAfterDelivery(RelayEach(Membership, p, addrs, [dest], send, clock).trace, |p.trace|)
    decreases |addrs|
  {
    if addrs != [] {
      var a := addrs[0];
      var r := RelayEach(Membership, p, addrs, [dest], send, clock);
      var n := |p.trace|;
      if a in p.entries {
        MembershipDeliversOnce(p, addrs[1..], dest, send, clock);
      } else {
        var q := SendEach(p, [dest], a, send, clock);
        SendEachAttempts(p, [dest], a, send, clock);
        SendEachRecords(p, [dest], a, send, clock);
        MembershipDeliversOnce(q, addrs[1..], dest, send, clock);
        MembershipSkipsTracked(q, addrs[1..], [dest], send, clock);
        RelayEachShape(Membership, q, addrs[1..], [dest], send, clock);
        assert r.trace[n] == r.trace[..n + 1][n] == q.trace[n];
        forall k, l | n <= k < l < |r.trace| && r.trace[k].delivered
          ensures r.trace[l].address != r.trace[k].address
        {
          if k == n {
            assert DeliveredFrom([dest], a, n, send) by {
              assert send([dest][0], a, n + 0);
            }
          }
        }
      }
    }
  }
}
