/** The theory behind the analytics consumer's lazily evicted windows.

    Each window keeps a FIFO deque of `(timestamp, payload)` pairs and, for
    the keyed windows, a dictionary from key to timestamp.  Eviction pops
    the head of the deque while its timestamp is older than `now - window`.
    This module defines what that pop loop removes (`ExpiredCount`), what
    the dictionary should look like afterwards (`Unexpired`), the invariant
    tying dictionary and deque together (`Latest`), and the count of
    failure-flagged events a `FailureWindow` keeps incrementally
    (`CountTrue`). */
module Sliding {

  /** One deque entry: the clock reading at which it was appended and what it records. */
  datatype Stamped<T> = Stamped(ts: real, item: T)

  /** Timestamps never decrease from the head of the deque to its tail. */
  ghost predicate Sorted<T>(q: seq<Stamped<T>>) {
    forall i, j :: 0 <= i < j < |q| ==> q[i].ts <= q[j].ts
  }

  /** No entry is stamped later than `now`: the clock has not gone back. */
  ghost predicate NotAfter<T>(q: seq<Stamped<T>>, now: real) {
    forall i :: 0 <= i < |q| ==> q[i].ts <= now
  }

  /** No key occurs twice in the deque. */
  ghost predicate Distinct<K>(q: seq<Stamped<K>>) {
    forall i, j :: 0 <= i < j < |q| ==> q[i].item != q[j].item
  }

  /** The length of the longest prefix of `q` stamped strictly before
      `cutoff`: exactly what the eviction loop pops. */
  function ExpiredCount<T>(q: seq<Stamped<T>>, cutoff: real): (n: nat)
    ensures n <= |q|
    ensures forall i :: 0 <= i < n ==> q[i].ts < cutoff
    ensures n < |q| ==> q[n].ts >= cutoff
  {
    if q == [] || q[0].ts >= cutoff then 0 else 1 + ExpiredCount(q[1..], cutoff)
  }

  /** On a sorted deque the popped prefix is precisely the set of entries
      older than the cutoff, so every survivor is within the window. */
  lemma ExpiredAreExactlyTheOld<T>(q: seq<Stamped<T>>, cutoff: real)
    requires Sorted(q)
    ensures forall i :: 0 <= i < |q| ==> (i < ExpiredCount(q, cutoff) <==> q[i].ts < cutoff)
  {
  }

  /** A pop loop that stopped after `n` pops, having popped only expired
      entries and stopped at an unexpired head, popped `ExpiredCount`. */
  lemma PoppedIsExpiredCount<T>(q: seq<Stamped<T>>, cutoff: real, n: nat)
    requires n <= |q|
    requires forall i :: 0 <= i < n ==> q[i].ts < cutoff
    requires n == |q| || q[n].ts >= cutoff
    ensures ExpiredCount(q, cutoff) == n
  {
  }

  /** Evicting again at the same cutoff pops nothing. */
  lemma EvictionIsIdempotent<T>(q: seq<Stamped<T>>, cutoff: real)
    ensures ExpiredCount(q[ExpiredCount(q, cutoff)..], cutoff) == 0
  {
    var n := ExpiredCount(q, cutoff);
    assert n < |q| ==> q[n..][0] == q[n];
  }

  /** Appending an entry stamped no earlier than everything held keeps the
      deque sorted. */
  lemma AppendKeepsSorted<T>(q: seq<Stamped<T>>, e: Stamped<T>)
    requires Sorted(q) && NotAfter(q, e.ts)
    ensures Sorted(q + [e]) && NotAfter(q + [e], e.ts)
  {
  }

  /** A suffix of a sorted deque is sorted and stamped no later than the whole. */
  lemma SuffixKeepsOrder<T>(q: seq<Stamped<T>>, n: nat, now: real)
    requires n <= |q| && Sorted(q) && NotAfter(q, now)
    ensures Sorted(q[n..]) && NotAfter(q[n..], now)
  {
  }

  /** Popping the head of a suffix leaves the next suffix. */
  lemma PopSuffix<T>(q: seq<Stamped<T>>, n: nat)
    requires n < |q|
    ensures q[n..][0] == q[n] && q[n..][1..] == q[n + 1..]
  {
  }

  /** What is left after popping a prefix of a sorted deque is sorted. */
  lemma SuffixSorted<T>(q: seq<Stamped<T>>, n: nat)
    requires n <= |q| && Sorted(q)
    ensures Sorted(q[n..])
  {
  }

  /** The dictionary restricted to keys whose timestamp is not older than `cutoff`. */
  ghost function Unexpired<K>(m: map<K, real>, cutoff: real): map<K, real> {
    map k | k in m && m[k] >= cutoff :: m[k]
  }

  /** `m` holds, for every key in the deque, the timestamp of its latest
      entry: every deque entry's key is in `m` with a timestamp at least the
      entry's, and every `m` entry is witnessed by a deque entry. */
  ghost predicate Latest<K>(m: map<K, real>, q: seq<Stamped<K>>) {
    Covers(m, q) && Witnessed(m, q)
  }

  /** Every deque entry's key is in `m`, stamped at least as late. */
  ghost predicate Covers<K>(m: map<K, real>, q: seq<Stamped<K>>) {
    forall i :: 0 <= i < |q| ==> q[i].item in m && q[i].ts <= m[q[i].item]
  }

  /** Every `m` entry is witnessed by a deque entry. */
  ghost predicate Witnessed<K>(m: map<K, real>, q: seq<Stamped<K>>) {
    forall k :: k in m ==> exists i :: 0 <= i < |q| && q[i] == Stamped(m[k], k)
  }

  /** The deque determines the dictionary: two dictionaries that are both
      `Latest` for the same deque are equal. */
  lemma LatestUnique<K>(m1: map<K, real>, m2: map<K, real>, q: seq<Stamped<K>>)
    requires Latest(m1, q) && Latest(m2, q)
    ensures m1 == m2
  {
    forall k | k in m1
      ensures k in m2 && m2[k] >= m1[k]
    {
      var i :| 0 <= i < |q| && q[i] == Stamped(m1[k], k);
    }
    forall k | k in m2
      ensures k in m1 && m1[k] >= m2[k]
    {
      var i :| 0 <= i < |q| && q[i] == Stamped(m2[k], k);
    }
    assert m1.Keys == m2.Keys;
  }

  /** Under `Latest`, the dictionary's keys are exactly the keys queued
      in the deque. */
  lemma LatestKeys<K>(m: map<K, real>, q: seq<Stamped<K>>)
    requires Latest(m, q)
    ensures m.Keys == set i | 0 <= i < |q| :: q[i].item
  {
    forall k | k in m
      ensures k in set i | 0 <= i < |q| :: q[i].item
    {
      var i :| 0 <= i < |q| && q[i] == Stamped(m[k], k);
    }
  }

  /** Evicting the expired prefix of a sorted deque turns the `Latest`
      dictionary into its unexpired part: a key survives exactly when its
      latest timestamp is within the window. */
  lemma {:induction false} ExpireLatest<K>(m: map<K, real>, q: seq<Stamped<K>>, cutoff: real)
    requires Sorted(q) && Latest(m, q)
    ensures Latest(Unexpired(m, cutoff), q[ExpiredCount(q, cutoff)..])
  {
    var n := ExpiredCount(q, cutoff);
    SurvivorsKeepTheirKeys(m, q, cutoff, n);
    SurvivingKeysKeepWitnesses(m, q, cutoff, n);
  }

  lemma SurvivorsKeepTheirKeys<K>(m: map<K, real>, q: seq<Stamped<K>>, cutoff: real, n: nat)
    requires Sorted(q) && Covers(m, q)
    requires n == ExpiredCount(q, cutoff)
    ensures Covers(Unexpired(m, cutoff), q[n..])
  {
    var rest := q[n..];
    forall i | 0 <= i < |rest|
      ensures rest[i].item in Unexpired(m, cutoff) && rest[i].ts <= Unexpired(m, cutoff)[rest[i].item]
    {
      assert rest[i] == q[n + i];
      assert q[n].ts <= q[n + i].ts;
    }
  }

  lemma SurvivingKeysKeepWitnesses<K>(m: map<K, real>, q: seq<Stamped<K>>, cutoff: real, n: nat)
    requires Witnessed(m, q)
    requires n == ExpiredCount(q, cutoff)
    ensures Witnessed(Unexpired(m, cutoff), q[n..])
  {
    var u := Unexpired(m, cutoff);
    var rest := q[n..];
    forall k | k in u
      ensures exists i :: 0 <= i < |rest| && rest[i] == Stamped(u[k], k)
    {
      var j :| 0 <= j < |q| && q[j] == Stamped(m[k], k);
      assert j >= n;
      assert rest[j - n] == q[j];
    }
  }

  /** Popping the head of a deque without repeated keys, and dropping its
      key from the dictionary, keeps the dictionary `Latest`. */
  lemma {:induction false} PopDistinct<K>(m: map<K, real>, q: seq<Stamped<K>>)
    requires q != [] && Distinct(q) && Latest(m, q)
    ensures Distinct(q[1..]) && Latest(m - {q[0].item}, q[1..])
  {
    var m' := m - {q[0].item};
    var rest := q[1..];
    forall i | 0 <= i < |rest|
      ensures rest[i].item in m' && rest[i].ts <= m'[rest[i].item]
    {
      assert rest[i] == q[i + 1];
    }
    forall k | k in m'
      ensures exists i :: 0 <= i < |rest| && rest[i] == Stamped(m'[k], k)
    {
      var j :| 0 <= j < |q| && q[j] == Stamped(m[k], k);
      assert j != 0;
      assert rest[j - 1] == q[j];
    }
  }

  /** Appending a key the dictionary does not hold keeps the deque free of
      repeated keys. */
  lemma PushDistinct<K>(m: map<K, real>, q: seq<Stamped<K>>, key: K, now: real)
    requires Covers(m, q) && Distinct(q) && key !in m
    ensures Distinct(q + [Stamped(now, key)])
  {
    var q' := q + [Stamped(now, key)];
    forall i, j | 0 <= i < j < |q'|
      ensures q'[i].item != q'[j].item
    {
      assert q'[i] == q[i];
      if j < |q| {
        assert q'[j] == q[j];
      }
    }
  }

  /** Recording `key` at `now` and appending `(now, key)` keeps the
      dictionary `Latest`, provided nothing held is stamped after `now`. */
  lemma {:induction false} PushLatest<K>(m: map<K, real>, q: seq<Stamped<K>>, key: K, now: real)
    requires Latest(m, q) && NotAfter(q, now)
    ensures Latest(m[key := now], q + [Stamped(now, key)])
  {
    var m' := m[key := now];
    var q' := q + [Stamped(now, key)];
    forall i | 0 <= i < |q'|
      ensures q'[i].item in m' && q'[i].ts <= m'[q'[i].item]
    {
      if i < |q| {
        assert q'[i] == q[i];
      }
    }
    forall k | k in m'
      ensures exists i :: 0 <= i < |q'| && q'[i] == Stamped(m'[k], k)
    {
      if k == key {
        assert q'[|q|] == Stamped(m'[k], k);
      } else {
        var j :| 0 <= j < |q| && q[j] == Stamped(m[k], k);
        assert q'[j] == q[j];
      }
    }
  }

  /** The state of a guarded pop loop after `n` pops from `q0`: starting
      from `m0`, a key was removed exactly when one of the popped entries
      carried its latest stamp, and surviving keys kept their stamp. */
  ghost predicate GuardedPops<K>(m0: map<K, real>, q0: seq<Stamped<K>>, n: nat, m: map<K, real>) {
    && n <= |q0|
    && m.Keys <= m0.Keys
    && (forall k :: k in m ==> m[k] == m0[k])
    && (forall k :: k in m0 && k !in m ==> exists j :: 0 <= j < n && q0[j] == Stamped(m0[k], k))
    && (forall k, j :: k in m && 0 <= j < n ==> q0[j] != Stamped(m0[k], k))
  }

  /** One more pop: the popped key is removed only if its stamp is still
      the one recorded for it. */
  lemma GuardedPopStep<K>(m0: map<K, real>, q0: seq<Stamped<K>>, n: nat, m: map<K, real>)
    requires n < |q0| && GuardedPops(m0, q0, n, m)
    ensures GuardedPops(m0, q0, n + 1,
      if q0[n].item in m && m[q0[n].item] == q0[n].ts then m - {q0[n].item} else m)
  {
    var m' := if q0[n].item in m && m[q0[n].item] == q0[n].ts then m - {q0[n].item} else m;
    forall k | k in m0 && k !in m'
      ensures exists j :: 0 <= j < n + 1 && q0[j] == Stamped(m0[k], k)
    {
      if k in m {
        assert q0[n] == Stamped(m0[k], k);
      } else {
        var j :| 0 <= j < n && q0[j] == Stamped(m0[k], k);
        assert 0 <= j < n + 1;
      }
    }
  }

  /** One guarded pop: the popped entry's key goes only if the entry
      carries the key's current stamp. */
  function PopIfLatest<K>(m: map<K, real>, e: Stamped<K>): map<K, real> {
    if e.item in m && m[e.item] == e.ts then m - {e.item} else m
  }

  /** The dictionary after the first `n` guarded pops from `q0`, starting from `m0`. */
  function GuardedReplay<K>(m0: map<K, real>, q0: seq<Stamped<K>>, n: nat): map<K, real>
    requires n <= |q0|
  {
    if n == 0 then m0 else PopIfLatest(GuardedReplay(m0, q0, n - 1), q0[n - 1])
  }

  /** Replaying `n` guarded pops removes exactly the keys whose latest
      stamp was popped. */
  lemma {:induction false} GuardedReplayPops<K>(m0: map<K, real>, q0: seq<Stamped<K>>, n: nat)
    requires n <= |q0|
    ensures GuardedPops(m0, q0, n, GuardedReplay(m0, q0, n))
  {
    if n > 0 {
      GuardedReplayPops(m0, q0, n - 1);
      GuardedPopStep(m0, q0, n - 1, GuardedReplay(m0, q0, n - 1));
    }
  }

  /** Replaying the guarded pops over the expired prefix of a sorted deque
      leaves exactly the keys last stamped within the window, still
      `Latest` for what remains of the deque. */
  lemma GuardedReplayDone<K>(m0: map<K, real>, q0: seq<Stamped<K>>, cutoff: real)
    requires Sorted(q0) && Latest(m0, q0)
    ensures GuardedReplay(m0, q0, ExpiredCount(q0, cutoff)) == Unexpired(m0, cutoff)
    ensures Latest(Unexpired(m0, cutoff), q0[ExpiredCount(q0, cutoff)..])
  {
    GuardedReplayPops(m0, q0, ExpiredCount(q0, cutoff));
    GuardedPopsDone(m0, q0, cutoff, GuardedReplay(m0, q0, ExpiredCount(q0, cutoff)));
  }

  /** Once the guarded loop has popped the expired prefix of a sorted deque,
      the dictionary is the unexpired part of the one it started from and is
      still `Latest` for what remains: a key re-tracked after a stale entry
      is not lost. */
  lemma {:induction false} GuardedPopsDone<K>(m0: map<K, real>, q0: seq<Stamped<K>>, cutoff: real, m: map<K, real>)
    requires Sorted(q0) && Latest(m0, q0)
    requires GuardedPops(m0, q0, ExpiredCount(q0, cutoff), m)
    ensures m == Unexpired(m0, cutoff)
    ensures Latest(m, q0[ExpiredCount(q0, cutoff)..])
  {
    GuardedPopsLeaveUnexpired(m0, q0, cutoff, m);
    ExpireLatest(m0, q0, cutoff);
  }

  /** The guarded loop removed exactly the keys whose latest stamp expired. */
  lemma GuardedPopsLeaveUnexpired<K>(m0: map<K, real>, q0: seq<Stamped<K>>, cutoff: real, m: map<K, real>)
    requires Sorted(q0) && Witnessed(m0, q0)
    requires GuardedPops(m0, q0, ExpiredCount(q0, cutoff), m)
    ensures m == Unexpired(m0, cutoff)
  {
    ExpiredKeysGone(m0, q0, cutoff, m);
    LiveKeysKept(m0, q0, cutoff, m);
    assert m.Keys == Unexpired(m0, cutoff).Keys;
  }

  /** A key whose latest stamp is expired was popped by the guarded loop. */
  lemma ExpiredKeysGone<K>(m0: map<K, real>, q0: seq<Stamped<K>>, cutoff: real, m: map<K, real>)
    requires Sorted(q0) && Witnessed(m0, q0)
    requires GuardedPops(m0, q0, ExpiredCount(q0, cutoff), m)
    ensures forall k :: k in m ==> k in m0 && m0[k] >= cutoff
  {
    forall k | k in m
      ensures k in m0 && m0[k] >= cutoff
    {
      var i :| 0 <= i < |q0| && q0[i] == Stamped(m0[k], k);
    }
  }

  /** A key whose latest stamp is within the window was never popped. */
  lemma LiveKeysKept<K>(m0: map<K, real>, q0: seq<Stamped<K>>, cutoff: real, m: map<K, real>)
    requires GuardedPops(m0, q0, ExpiredCount(q0, cutoff), m)
    ensures forall k :: k in m0 && m0[k] >= cutoff ==> k in m
  {
  }

  /** The number of failure-flagged entries in the deque. */
  function CountTrue(q: seq<Stamped<bool>>): (n: nat)
    ensures n <= |q|
  {
    if q == [] then 0 else (if q[0].item then 1 else 0) + CountTrue(q[1..])
  }

  /** Appending an entry raises the count by one exactly when the entry is flagged. */
  lemma {:induction false} CountTrueAppend(q: seq<Stamped<bool>>, e: Stamped<bool>)
    ensures CountTrue(q + [e]) == CountTrue(q) + (if e.item then 1 else 0)
  {
    if q == [] {
      assert [] + [e] == [e];
    } else {
      assert (q + [e])[1..] == q[1..] + [e];
      CountTrueAppend(q[1..], e);
    }
  }

  /** The positions of the failure-flagged entries: an independent reading
      of "the number of true-flagged entries". */
  ghost function FlaggedPositions(q: seq<Stamped<bool>>): set<nat> {
    set i: nat | i < |q| && q[i].item
  }

  /** The incrementally maintained count equals the number of flagged positions. */
  lemma {:induction false} CountTrueIsFlaggedPositions(q: seq<Stamped<bool>>)
    ensures CountTrue(q) == |FlaggedPositions(q)|
    decreases |q|
  {
    if q != [] {
      var init, last := q[..|q| - 1], q[|q| - 1];
      assert q == init + [last];
      CountTrueIsFlaggedPositions(init);
      CountTrueAppend(init, last);
      var before := FlaggedPositions(init);
      var extra: set<nat> := if last.item then {|init|} else {};
      forall i: nat
        ensures i in FlaggedPositions(q) <==> i in before + extra
      {
        if i < |init| {
          assert q[i] == init[i];
        }
      }
      assert FlaggedPositions(q) == before + extra;
      assert |init| !in before;
    }
  }
}
