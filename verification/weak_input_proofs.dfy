/** The weak-value search decides, value by value, what `Windows` says it should: the sum test
    of `isInputComputableAsCacheSum` against "a sum of two window values", and the recorded
    value against "the first weak value". */
module WeakInputProofs {
  import opened Words
  import opened Outcomes
  import opened Windows
  import opened Validator
  import opened ValidatorRing

  /** A slot holding window value `s[j]` with an iterator to it finds a partner only at
      another window position: the two add up to `v` on the word. */
  lemma SlotFindsWindowPair(s: seq<Input>, lo: nat, j: nat, cache: set<Input>, v: Input)
    requires lo <= j < |s| && cache == Values(s, lo, |s|)
    requires Finds(Slot(s[j], Some(s[j])), cache, v)
    ensures IsWrappingSumOfTwo(s[lo..], v)
  {
    var d := Sub(v, s[j]);
    var m :| lo <= m < |s| && s[m] == d;
    SubFindsAddend(s[j], d, v);
    assert m != j;
    var w := s[lo..];
    assert w[j - lo] == s[j] && w[m - lo] == s[m];
  }

  /** Conversely two distinct window positions adding up to `v` make the slot of the first one
      find the second. */
  lemma WindowPairFindsSlot(s: seq<Input>, lo: nat, j: nat, m: nat, cache: set<Input>, v: Input)
    requires lo <= j < |s| && lo <= m < |s| && j != m
    requires s[j] != s[m]
    requires cache == Values(s, lo, |s|)
    requires Add(s[j], s[m]) == v
    ensures Finds(Slot(s[j], Some(s[j])), cache, v)
  {
    SubFindsAddend(s[j], s[m], v);
    assert s[m] in cache;
  }

  /** The window before the new value, as a suffix of what has been read. */
  lemma WindowIsSuffix(n: nat, s: seq<Input>, v: Input)
    requires n <= |s|
    ensures Window(s + [v], |s|, n) == s[|s| - n..]
  {
  }

  /** Tested before the slot write, the cache test is exactly the wrapping two-sum test on the
      window: every slot holds a window value and an iterator to it, and a slot is never paired
      with itself because its own iterator is excluded. */
  lemma SumTestBeforeWrite(n: nat, s: seq<Input>, st: Validator, v: Input)
    requires n > 0 && |s| >= n
    requires RingHolds(n, s, st) && CacheHolds(n, s, st)
    requires DistinctWindows(n, s)
    ensures IsComputableAsCacheSum(st.slots, st.cache, v) <==> IsWrappingSumOfTwo(Window(s + [v], |s|, n), v)
  {
    WindowIsSuffix(n, s, v);
    if IsComputableAsCacheSum(st.slots, st.cache, v) {
      CacheTestFindsPair(n, s, st, v);
    }
    if IsWrappingSumOfTwo(s[|s| - n..], v) {
      PairPassesCacheTest(n, s, st, v);
    }
  }

  /** A slot that finds its partner in the cache names two window positions adding up to `v`. */
  lemma CacheTestFindsPair(n: nat, s: seq<Input>, st: Validator, v: Input)
    requires n > 0 && |s| >= n
    requires RingHolds(n, s, st) && CacheHolds(n, s, st)
    requires IsComputableAsCacheSum(st.slots, st.cache, v)
    ensures IsWrappingSumOfTwo(s[|s| - n..], v)
  {
    var i :| 0 <= i < |st.slots| && Finds(st.slots[i], st.cache, v);
    assert st.slots[i] == SlotContent(s, n, st.pos, i);
    SlotFindsWindowPair(s, |s| - n, SlotSource(|s|, n, st.pos, i), st.cache, v);
  }

  /** Two window positions adding up to `v` make the slot of the first find the second, so the
      cache test passes; when the first is not the oldest position this holds even after the
      oldest slot has been overwritten with the new value. */
  lemma PairPassesCacheTest(n: nat, s: seq<Input>, st: Validator, v: Input)
    requires n > 0 && |s| >= n
    requires RingHolds(n, s, st) && CacheHolds(n, s, st)
    requires DistinctWindows(n, s)
    requires IsWrappingSumOfTwo(s[|s| - n..], v)
    ensures IsComputableAsCacheSum(st.slots, st.cache, v)
    ensures IsComputableAsCacheSum(NextReferenceLocation(n, st, v).slots, st.cache, v)
  {
    var k := |s|;
    var lo := k - n;
    var w := s[lo..];
    var p, q :| 0 <= p < |w| && 0 <= q < |w| && p != q && Add(w[p], w[q]) == v;
    if p == 0 {
      p, q := q, p;
      assert Add(w[p], w[q]) == v;
    }
    var j := lo + p;
    var m := lo + q;
    var idx := SlotOf(k, n, st.pos, j);
    assert st.slots[idx] == SlotContent(s, n, st.pos, idx);
    assert s[j] != s[m] by {
      if j < m { assert s[j] != s[m]; } else { assert s[m] != s[j]; }
    }
    WindowPairFindsSlot(s, lo, j, m, st.cache, v);
    assert idx != st.pos;
    assert NextReferenceLocation(n, st, v).slots[idx] == st.slots[idx];
  }

  /** Tested after the slot write, as the program does, the recycled slot holds the new value
      and an iterator to the oldest one; it asks for `v - v`, that is 0. So the test also
      succeeds whenever 0 is among the window values other than the oldest. */
  lemma SumTestAfterWrite(n: nat, s: seq<Input>, st: Validator, v: Input)
    requires n > 0 && |s| >= n
    requires RingHolds(n, s, st) && CacheHolds(n, s, st)
    requires DistinctWindows(n, s)
    ensures IsComputableAsCacheSum(NextReferenceLocation(n, st, v).slots, st.cache, v)
        <==> IsWrappingSumOfTwo(Window(s + [v], |s|, n), v) || 0 in Values(s, |s| - n + 1, |s|)
  {
    WindowIsSuffix(n, s, v);
    if IsComputableAsCacheSum(NextReferenceLocation(n, st, v).slots, st.cache, v) {
      WrittenCacheTestFindsPairOrZero(n, s, st, v);
    }
    if 0 in Values(s, |s| - n + 1, |s|) {
      ZeroPassesWrittenCacheTest(n, s, st, v);
    }
    if IsWrappingSumOfTwo(s[|s| - n..], v) {
      PairPassesCacheTest(n, s, st, v);
    }
  }

  /** After the write, a slot that finds its partner is either an ordinary window slot, naming a
      pair, or the recycled slot, which finds 0 among the newer window values. */
  lemma WrittenCacheTestFindsPairOrZero(n: nat, s: seq<Input>, st: Validator, v: Input)
    requires n > 0 && |s| >= n
    requires RingHolds(n, s, st) && CacheHolds(n, s, st)
    requires IsComputableAsCacheSum(NextReferenceLocation(n, st, v).slots, st.cache, v)
    ensures IsWrappingSumOfTwo(s[|s| - n..], v) || 0 in Values(s, |s| - n + 1, |s|)
  {
    var k := |s|;
    var lo := k - n;
    var slots := NextReferenceLocation(n, st, v).slots;
    assert st.slots[st.pos] == SlotContent(s, n, st.pos, st.pos);
    var i :| 0 <= i < |slots| && Finds(slots[i], st.cache, v);
    if i == st.pos {
      assert slots[i] == Slot(v, Some(s[lo]));
      assert Sub(v, v) == 0;
      var m :| lo <= m < k && s[m] == 0;
      assert m != lo;
      assert 0 in Values(s, lo + 1, k);
    } else {
      assert slots[i] == st.slots[i] == SlotContent(s, n, st.pos, i);
      SlotFindsWindowPair(s, lo, SlotSource(k, n, st.pos, i), st.cache, v);
    }
  }

  /** 0 among the newer window values makes the recycled slot find `v - v`. */
  lemma ZeroPassesWrittenCacheTest(n: nat, s: seq<Input>, st: Validator, v: Input)
    requires n > 0 && |s| >= n
    requires RingHolds(n, s, st) && CacheHolds(n, s, st)
    requires DistinctWindows(n, s)
    requires 0 in Values(s, |s| - n + 1, |s|)
    ensures IsComputableAsCacheSum(NextReferenceLocation(n, st, v).slots, st.cache, v)
  {
    var k := |s|;
    var lo := k - n;
    var slots := NextReferenceLocation(n, st, v).slots;
    assert st.slots[st.pos] == SlotContent(s, n, st.pos, st.pos);
    assert slots[st.pos] == Slot(v, Some(s[lo]));
    assert Sub(v, v) == 0;
    var m :| lo + 1 <= m < k && s[m] == 0;
    assert s[lo] != s[m];
    assert 0 in st.cache;
    assert Finds(slots[st.pos], st.cache, v);
  }

  /** The test the step applies to a value after the preamble decides `Passes`: in the program's
      order provided no value is 0, in the corrected order always (below half the word, so that
      no sum wraps). */
  lemma StepTestIsPasses(n: nat, t: SumTest, s: seq<Input>, st: Validator, v: Input)
    requires n > 0 && |s| >= n
    requires RingHolds(n, s, st) && CacheHolds(n, s, st)
    requires DistinctWindows(n, s) && BelowHalfWord(s)
    requires t == AfterSlotWrite ==> NoZero(s)
    ensures IsComputableAsCacheSum(if t == AfterSlotWrite then NextReferenceLocation(n, st, v).slots else st.slots, st.cache, v)
        <==> Passes(n, s + [v], |s|)
  {
    var w := Window(s + [v], |s|, n);
    WindowIsSuffix(n, s, v);
    WrappingSumIsSum(w, v);
    if t == AfterSlotWrite {
      SumTestAfterWrite(n, s, st, v);
      assert 0 !in Values(s, |s| - n + 1, |s|);
    } else {
      SumTestBeforeWrite(n, s, st, v);
    }
  }

  /** Appending a value does not change whether an earlier value passes. */
  lemma PassesOfPrefix(n: nat, s: seq<Input>, v: Input, j: nat)
    requires n <= j < |s|
    ensures Passes(n, s + [v], j) == Passes(n, s, j)
  {
    assert Window(s + [v], j, n) == Window(s, j, n);
  }

  /** What the recorded weak value says about the values read: 0 exactly when no value after
      the first `n` is weak, and otherwise the first weak value. */
  ghost predicate WeakHolds(n: nat, s: seq<Input>, weak: Input) {
    && (weak == 0 <==> NoWeak(n, s))
    && (weak != 0 ==> exists k: nat :: IsFirstWeak(n, s, k) && weak == s[k])
  }

  /** One step keeps `WeakHolds`: a recorded value stays, and a new one is recorded only for
      the first value failing the test. */
  lemma StepRecordsFirstWeak(n: nat, t: SumTest, p: seq<Input>, st: Validator, v: Input)
    requires n > 0 && RingHolds(n, p, st) && CacheHolds(n, p, st) && WeakHolds(n, p, st.weak)
    requires DistinctWindows(n, p) && BelowHalfWord(p)
    requires t == AfterSlotWrite ==> NoZero(p)
    ensures WeakHolds(n, p + [v], Step(n, t, st, v).weak)
  {
    var s := p + [v];
    forall j | n <= j < |p|
      ensures Passes(n, s, j) == Passes(n, p, j)
    {
      PassesOfPrefix(n, p, v, j);
    }
    CompleteIffFull(n, p, st);
    if st.weak != 0 {
      var k: nat :| IsFirstWeak(n, p, k) && st.weak == p[k];
      assert IsFirstWeak(n, s, k);
    } else if |p| >= n {
      StepTestIsPasses(n, t, p, st, v);
      if !Passes(n, s, |p|) && v != 0 {
        assert IsFirstWeak(n, s, |p|);
      }
    }
  }

  /** The weak value recorded after any input is the first weak value, or 0 when there is none. */
  lemma {:induction false} RunRecordsFirstWeak(n: nat, t: SumTest, s: seq<Input>)
    requires n > 0 && DistinctWindows(n, s) && BelowHalfWord(s)
    requires t == AfterSlotWrite ==> NoZero(s)
    ensures WeakHolds(n, s, Run(n, t, s).weak)
    decreases |s|
  {
    if s == [] {
      return;
    }
    var p := s[..|s| - 1];
    var v := s[|s| - 1];
    assert p + [v] == s;
    PrefixWindowsDistinct(n, p, v);
    RunRecordsFirstWeak(n, t, p);
    RunKeepsRing(n, t, p);
    RunKeepsCache(n, t, p);
    StepRecordsFirstWeak(n, t, p, Run(n, t, p), v);
  }

  /** What a search for the first weak value should return: the failure exactly when every
      non-zero value after the preamble passes, and otherwise the first value that does not. */
  ghost predicate IsFirstWeakResult(n: nat, s: seq<Input>, r: Result<Input>) {
    && (r.Failure? <==> NoWeak(n, s))
    && (r.Success? ==> exists k: nat :: IsFirstWeak(n, s, k) && r.value == s[k])
  }

  /** `findWeakInput`, under the conditions that make its bookkeeping exact (no value repeats
      within `n` consecutive values, none is 0, none reaches 2^63): it returns the first value
      after the preamble that is not a sum of two of the `n` values before it, and throws when
      there is none. */
  lemma WeakInputIsFirstWeak(n: nat, s: seq<Input>)
    requires n > 0 && DistinctWindows(n, s) && NoZero(s) && BelowHalfWord(s)
    ensures IsFirstWeakResult(n, s, WeakInputOf(n, s))
  {
    RunRecordsFirstWeak(n, AfterSlotWrite, s);
  }

  /** The corrected search (test before the slot write) returns the first weak non-zero value
      even when zeros occur. */
  lemma CorrectedWeakInputIsFirstWeak(n: nat, s: seq<Input>)
    requires n > 0 && DistinctWindows(n, s) && BelowHalfWord(s)
    ensures IsFirstWeakResult(n, s, CorrectedWeakInputOf(n, s))
  {
    RunRecordsFirstWeak(n, BeforeSlotWrite, s);
  }
}
