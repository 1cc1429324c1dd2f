/** What the ring of slots, the ring position and the cache of `findWeakInput` hold after
    each value, and what the sum test then decides. */
module ValidatorRing {
  import opened Words
  import opened Outcomes
  import opened Windows
  import opened Validator

  /** First position of the window after `k` values. */
  function Lo(k: nat, n: nat): nat {
    if k >= n then k - n else 0
  }

  /** The input position whose value slot `idx` holds after `k` values with the ring at `pos`:
      slots before `pos` hold the current lap, the others the previous one (negative: never
      written). */
  function SlotSource(k: nat, n: nat, pos: nat, idx: nat): int {
    if idx < pos then k - pos + idx else k - pos - n + idx
  }

  /** The slot that holds input position `j` of the window. */
  function SlotOf(k: nat, n: nat, pos: nat, j: nat): (idx: nat)
    requires pos <= k && pos < n && k - n <= j < k
    ensures idx < n && SlotSource(k, n, pos, idx) == j
  {
    if j >= k - pos then j - (k - pos) else j - (k - pos - n)
  }

  /** The content of slot `idx`: the value and an iterator to that same value, or the
      default-constructed slot. */
  function SlotContent(s: seq<Input>, n: nat, pos: nat, idx: nat): Slot
    requires pos <= |s| && idx < n
  {
    var j := SlotSource(|s|, n, pos, idx);
    if j < 0 then Slot(0, None) else Slot(s[j], Some(s[j]))
  }

  /** The set of values at positions `lo` to `hi` of `s`. */
  function Values(s: seq<Input>, lo: nat, hi: nat): set<Input>
    requires lo <= hi <= |s|
  {
    set j | lo <= j < hi :: s[j]
  }

  /** The ring and the list of read values after reading `s`. */
  ghost predicate RingHolds(n: nat, s: seq<Input>, st: Validator) {
    && Valid(n, st)
    && st.inputs == s
    && st.pos <= |s|
    && (|s| < n ==> st.pos == |s|)
    && forall idx :: 0 <= idx < n ==> st.slots[idx] == SlotContent(s, n, st.pos, idx)
  }

  /** The cache after reading `s`: the values of the window. */
  ghost predicate CacheHolds(n: nat, s: seq<Input>, st: Validator) {
    st.cache == Values(s, Lo(|s|, n), |s|)
  }

  lemma InitHolds(n: nat)
    requires n > 0
    ensures RingHolds(n, [], Init(n)) && CacheHolds(n, [], Init(n))
  {
  }

  /** One step keeps the ring invariant, whatever the values. */
  lemma {:induction false} StepKeepsRing(n: nat, t: SumTest, s: seq<Input>, st: Validator, v: Input)
    requires n > 0 && RingHolds(n, s, st)
    ensures RingHolds(n, s + [v], Step(n, t, st, v))
  {
    var s' := s + [v];
    var r := Step(n, t, st, v);
    var pos := st.pos;
    forall idx | 0 <= idx < n
      ensures r.slots[idx] == SlotContent(s', n, r.pos, idx)
    {
      if idx == pos {
        assert SlotSource(|s'|, n, r.pos, idx) == |s|;
      } else {
        assert SlotSource(|s'|, n, r.pos, idx) == SlotSource(|s|, n, pos, idx);
      }
    }
  }

  /** The ring invariant holds after any input. */
  lemma {:induction false} RunKeepsRing(n: nat, t: SumTest, s: seq<Input>)
    requires n > 0
    ensures RingHolds(n, s, Run(n, t, s))
    decreases |s|
  {
    if s == [] {
      InitHolds(n);
    } else {
      var p := s[..|s| - 1];
      RunKeepsRing(n, t, p);
      StepKeepsRing(n, t, p, Run(n, t, p), s[|s| - 1]);
      assert p + [s[|s| - 1]] == s;
    }
  }

  /** Distinct values make the window set as large as the window. */
  lemma {:induction false} DistinctValuesCount(s: seq<Input>, lo: nat, hi: nat)
    requires lo <= hi <= |s|
    requires forall i, j :: lo <= i < j < hi ==> s[i] != s[j]
    ensures |Values(s, lo, hi)| == hi - lo
    decreases hi - lo
  {
    if lo < hi {
      var prev := Values(s, lo, hi - 1);
      var x := s[hi - 1];
      DistinctValuesCount(s, lo, hi - 1);
      assert Values(s, lo, hi) == prev + {x};
      assert x !in prev by {
        forall j | lo <= j < hi - 1
          ensures s[j] != x
        {
        }
      }
    } else {
      assert Values(s, lo, hi) == {};
    }
  }

  /** With distinct windows the cache is complete exactly when `n` values have been read. */
  lemma CompleteIffFull(n: nat, s: seq<Input>, st: Validator)
    requires n > 0 && DistinctWindows(n, s) && CacheHolds(n, s, st)
    ensures IsPreambleComplete(n, st.cache) <==> |s| >= n
  {
    DistinctValuesCount(s, Lo(|s|, n), |s|);
  }

  /** One step keeps the cache equal to the window set when windows are distinct: before the
      cache is full the value is inserted; afterwards the oldest value leaves and the new one
      enters. */
  lemma StepKeepsCache(n: nat, t: SumTest, s: seq<Input>, st: Validator, v: Input)
    requires n > 0 && RingHolds(n, s, st) && CacheHolds(n, s, st)
    requires DistinctWindows(n, s + [v])
    ensures CacheHolds(n, s + [v], Step(n, t, st, v))
  {
    StepCache(n, t, st, v);
    var h := st.slots[st.pos].handle;
    if |s| >= n {
      assert st.slots[st.pos] == SlotContent(s, n, st.pos, st.pos);
    }
    CacheStep(n, s, st.cache, h, v);
  }

  /** The cache update of one step, on the cache alone: with `h` the iterator of the recycled
      slot, the window set moves along by one value. */
  lemma CacheStep(n: nat, s: seq<Input>, cache: set<Input>, h: Option<Input>, v: Input)
    requires n > 0 && DistinctWindows(n, s + [v])
    requires cache == Values(s, Lo(|s|, n), |s|)
    requires |s| >= n ==> h == Some(s[|s| - n])
    ensures (if IsPreambleComplete(n, cache) then (cache - Designated(h)) + {v} else cache + {v})
      == Values(s + [v], Lo(|s| + 1, n), |s| + 1)
  {
    PrefixWindowsDistinct(n, s, v);
    DistinctValuesCount(s, Lo(|s|, n), |s|);
    if |s| < n {
      PreambleInsertKeepsCache(n, s, v);
    } else {
      EvictionKeepsCache(n, s, v);
    }
  }

  /** Distinct windows of `s + [v]` are distinct windows of `s`. */
  lemma PrefixWindowsDistinct(n: nat, s: seq<Input>, v: Input)
    requires DistinctWindows(n, s + [v])
    ensures DistinctWindows(n, s)
  {
    var s' := s + [v];
    forall i, j | 0 <= i < j < |s| && j - i < n
      ensures s[i] != s[j]
    {
      assert s'[i] == s[i] && s'[j] == s[j];
    }
  }

  /** The cache after one step: the value is inserted, and once the cache is full the element
      of the recycled slot is taken out first. */
  lemma StepCache(n: nat, t: SumTest, st: Validator, v: Input)
    requires Valid(n, st)
    ensures Step(n, t, st, v).cache
      == if IsPreambleComplete(n, st.cache) then (st.cache - Designated(st.slots[st.pos].handle)) + {v}
         else st.cache + {v}
  {
  }

  /** Before the cache is full, inserting the value extends the set of values read. */
  lemma PreambleInsertKeepsCache(n: nat, s: seq<Input>, v: Input)
    requires |s| < n
    ensures Values(s + [v], 0, |s| + 1) == Values(s, 0, |s|) + {v}
  {
    var s' := s + [v];
    var k := |s|;
    var after := Values(s', 0, k + 1);
    var before := Values(s, 0, k) + {v};
    forall x | x in after
      ensures x in before
    {
      var j :| 0 <= j < k + 1 && s'[j] == x;
      if j < k { assert s[j] == x; }
    }
    forall x | x in before
      ensures x in after
    {
      if x != v {
        var j :| 0 <= j < k && s[j] == x;
        assert s'[j] == x;
      } else {
        assert s'[k] == x;
      }
    }
  }

  /** Once the cache is full, taking out the oldest value and putting in the new one moves the
      window set along by one. */
  lemma EvictionKeepsCache(n: nat, s: seq<Input>, v: Input)
    requires 0 < n <= |s| && DistinctWindows(n, s + [v])
    ensures Values(s + [v], |s| + 1 - n, |s| + 1) == (Values(s, |s| - n, |s|) - {s[|s| - n]}) + {v}
  {
    var s' := s + [v];
    var k := |s|;
    var oldest := s[k - n];
    var after := Values(s', k + 1 - n, k + 1);
    var before := (Values(s, k - n, k) - {oldest}) + {v};
    forall x | x in after
      ensures x in before
    {
      var j :| k + 1 - n <= j < k + 1 && s'[j] == x;
      if j < k {
        assert s[j] == x;
        assert s'[k - n] != s'[j];
      }
    }
    forall x | x in before
      ensures x in after
    {
      if x != v {
        var j :| k - n <= j < k && s[j] == x;
        assert j != k - n;
        assert s'[j] == x;
      } else {
        assert s'[k] == x;
      }
    }
  }

  /** With distinct windows the cache holds the window set after any input. */
  lemma {:induction false} RunKeepsCache(n: nat, t: SumTest, s: seq<Input>)
    requires n > 0 && DistinctWindows(n, s)
    ensures CacheHolds(n, s, Run(n, t, s))
    decreases |s|
  {
    if s == [] {
      InitHolds(n);
    } else {
      var p := s[..|s| - 1];
      assert p + [s[|s| - 1]] == s;
      RunKeepsCache(n, t, p);
      RunKeepsRing(n, t, p);
      StepKeepsCache(n, t, p, Run(n, t, p), s[|s| - 1]);
    }
  }

  /** Counting one more value moves the remainder by one, wrapping at `n`. */
  lemma NextRemainder(k: nat, n: nat)
    requires n > 0
    ensures (k + 1) % n == if k % n + 1 == n then 0 else k % n + 1
  {
    var r := k % n;
    var q := k / n;
    assert k == q * n + r;
    if r + 1 == n {
      assert (q + 1) * n == q * n + n;
      RemainderOf(k + 1, n, q + 1, 0);
    } else {
      RemainderOf(k + 1, n, q, r + 1);
    }
  }

  /** The ring position after `k` values is `k mod n`. */
  lemma {:induction false} RunPosition(n: nat, t: SumTest, s: seq<Input>)
    requires n > 0
    ensures Run(n, t, s).pos == |s| % n
    decreases |s|
  {
    if s == [] {
      RemainderOf(0, n, 0, 0);
    } else {
      var p := s[..|s| - 1];
      RunPosition(n, t, p);
      NextRemainder(|p|, n);
    }
  }

  /** With the ring position at `k mod n`, window position `j` sits in slot `j mod n`. */
  lemma SlotOfIsRemainder(k: nat, n: nat, pos: nat, j: nat)
    requires n > 0 && pos == k % n && Lo(k, n) <= j < k
    ensures j % n < n && SlotSource(k, n, pos, j % n) == j
  {
    var q := k / n;
    assert k == q * n + pos;
    if k < n {
      RemainderOf(k, n, 0, k);
      RemainderOf(j, n, 0, j);
    } else {
      var idx := SlotOf(k, n, pos, j);
      if idx < pos {
        RemainderOf(j, n, q, idx);
      } else {
        assert (q - 1) * n == q * n - n;
        RemainderOf(j, n, q - 1, idx);
      }
    }
  }

  /** `getNextInputReferenceLocation` as seen from the whole input: the ring position advances by
      one per value and wraps at `n`, and value `j` sits in slot `j mod n`, together with an
      iterator to it, until `n` later values have overwritten it. Every value read is kept in
      `inputList`, in order. */
  lemma RingHoldsLastValues(n: nat, t: SumTest, s: seq<Input>)
    requires n > 0
    ensures Run(n, t, s).inputs == s
    ensures Run(n, t, s).pos == |s| % n
    ensures forall j :: Lo(|s|, n) <= j < |s| ==> Run(n, t, s).slots[j % n] == Slot(s[j], Some(s[j]))
  {
    RunKeepsRing(n, t, s);
    RunPosition(n, t, s);
    var st := Run(n, t, s);
    forall j | Lo(|s|, n) <= j < |s|
      ensures st.slots[j % n] == Slot(s[j], Some(s[j]))
    {
      SlotOfIsRemainder(|s|, n, st.pos, j);
      assert st.slots[j % n] == SlotContent(s, n, st.pos, j % n);
    }
  }

  /** The cache never holds more values than have been read. */
  lemma {:induction false} CacheAtMostRead(n: nat, t: SumTest, s: seq<Input>)
    requires n > 0
    ensures |Run(n, t, s).cache| <= |s|
    decreases |s|
  {
    if s != [] {
      var p := s[..|s| - 1];
      CacheAtMostRead(n, t, p);
      var c := Run(n, t, p).cache;
      var v := s[|s| - 1];
      assert |c + {v}| <= |c| + 1;
      assert |c - Designated(Run(n, t, p).slots[Run(n, t, p).pos].handle)| <= |c|;
    }
  }

  /** Values read while the cache is not yet full are only inserted, never tested: with at most
      `n` values nothing is recorded, whatever the values. */
  lemma {:induction false} PreambleRecordsNothing(n: nat, t: SumTest, s: seq<Input>)
    requires n > 0 && |s| <= n
    ensures Run(n, t, s).weak == 0
    decreases |s|
  {
    if s != [] {
      var p := s[..|s| - 1];
      PreambleRecordsNothing(n, t, p);
      CacheAtMostRead(n, t, p);
    }
  }

  /** Once recorded, the weak value is never overwritten (the `!weakInput` guard). */
  lemma {:induction false} WeakRecordedOnce(n: nat, t: SumTest, s: seq<Input>, m: nat)
    requires n > 0 && m <= |s| && Run(n, t, s[..m]).weak != 0
    ensures Run(n, t, s).weak == Run(n, t, s[..m]).weak
    decreases |s|
  {
    if m < |s| {
      var p := s[..|s| - 1];
      assert p[..m] == s[..m];
      WeakRecordedOnce(n, t, p, m);
    } else {
      assert s[..m] == s;
    }
  }
}
