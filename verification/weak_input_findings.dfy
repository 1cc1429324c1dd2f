/** The sum test of `findWeakInput` runs after `getNextInputReferenceLocation` has written the
    new value into the slot it recycles. That slot then looks up `v - v`, that is 0, and finds it
    whenever 0 is one of the newer window values: such a value passes the test although it is
    not a sum of two window values. With window size 2 and input 5, 0, 7, the value 7 is weak
    (5 + 0 is 5) yet nothing is recorded; testing before the write records 7.

    Also here: a value repeated within the window leaves a stale element in the cache, which
    the test then finds in either order. */
module WeakInputFindings {
  import opened Words
  import opened Outcomes
  import opened Windows
  import opened Validator
  import opened ValidatorRing
  import opened WeakInputProofs

  /** 7 is not a sum of the two values 5 and 0 before it. */
  lemma SevenIsWeak()
    ensures !Passes(2, [5, 0, 7], 2)
  {
    var s: seq<Input> := [5, 0, 7];
    var w := Window(s, 2, 2);
    assert w == [5, 0];
    forall i, j | 0 <= i < 2 && 0 <= j < 2 && i != j
      ensures w[i] as int + w[j] as int != 7
    {
    }
  }

  /** A value the step tests and finds computable leaves "nothing recorded" as it was. */
  lemma PassingValueRecordsNothing(n: nat, st: Validator, v: Input)
    requires Valid(n, st) && st.weak == 0 && IsPreambleComplete(n, st.cache)
    requires IsComputableAsCacheSum(NextReferenceLocation(n, st, v).slots, st.cache, v)
    ensures Step(n, AfterSlotWrite, st, v).weak == 0
  {
  }

  /** As written: 7 is weak in 5, 0, 7 with window size 2, and the program throws. */
  lemma ZeroInWindowHidesWeakInput()
    ensures !Passes(2, [5, 0, 7], 2)
    ensures WeakInputOf(2, [5, 0, 7]) == Failure(UnableToFindWeakInput)
  {
    SevenIsWeak();
    var s: seq<Input> := [5, 0, 7];
    var p: seq<Input> := [5, 0];
    assert s[..2] == p;
    assert DistinctWindows(2, p) by {
      forall i, j | 0 <= i < j < |p| && j - i < 2
        ensures p[i] != p[j]
      {
        assert i == 0 && j == 1;
      }
    }
    var st := Run(2, AfterSlotWrite, p);
    RunKeepsRing(2, AfterSlotWrite, p);
    RunKeepsCache(2, AfterSlotWrite, p);
    PreambleRecordsNothing(2, AfterSlotWrite, p);
    CompleteIffFull(2, p, st);
    assert 0 in Values(p, 1, 2) by {
      assert p[1] == 0;
    }
    ZeroPassesWrittenCacheTest(2, p, st, 7);
    PassingValueRecordsNothing(2, st, 7);
    assert Run(2, AfterSlotWrite, s) == Step(2, AfterSlotWrite, st, 7);
  }

  /** Corrected: testing before the slot write, the search records the first weak non-zero
      value whatever zeros the input holds; here 7. */
  lemma CorrectedOrderFindsWeakInput()
    ensures CorrectedWeakInputOf(2, [5, 0, 7]) == Success(7)
  {
    var s: seq<Input> := [5, 0, 7];
    ZeroInWindowHidesWeakInput();
    assert DistinctWindows(2, s) by {
      forall i, j | 0 <= i < j < |s| && j - i < 2
        ensures s[i] != s[j]
      {
        assert (i == 0 && j == 1) || (i == 1 && j == 2);
      }
    }
    assert BelowHalfWord(s);
    CorrectedWeakInputIsFirstWeak(2, s);
    assert !NoWeak(2, s) by {
      assert s[2] != 0 && !Passes(2, s, 2);
    }
  }

  /** The states after each prefix of 1, 2, 2, 3 with window size 3: the second 2 and the 3
      arrive while the cache holds two elements, so both are only inserted. */
  function StaleState(k: nat): Validator
    requires k <= 4
  {
    var none := Slot(0, None);
    if k == 0 then Init(3)
    else if k == 1 then Validator([Slot(1, Some(1)), none, none], 1, {1}, 0, [1])
    else if k == 2 then Validator([Slot(1, Some(1)), Slot(2, Some(2)), none], 2, {1, 2}, 0, [1, 2])
    else if k == 3 then Validator([Slot(1, Some(1)), Slot(2, Some(2)), Slot(2, Some(2))], 0, {1, 2}, 0, [1, 2, 2])
    else Validator([Slot(3, Some(3)), Slot(2, Some(2)), Slot(2, Some(2))], 1, {1, 2, 3}, 0, [1, 2, 2, 3])
  }

  /** One step of the example: before the cache is full each value is only inserted. */
  lemma StaleStep(t: SumTest, k: nat)
    requires 1 <= k <= 4
    ensures Step(3, t, StaleState(k - 1), [1, 2, 2, 3][k - 1]) == StaleState(k)
  {
    if k == 1 {
      StaleStep1(t);
    } else if k == 2 {
      StaleStep2(t);
    } else if k == 3 {
      StaleStep3(t);
    } else {
      StaleStep4(t);
    }
  }

  lemma StaleStep1(t: SumTest)
    ensures Step(3, t, StaleState(0), 1) == StaleState(1)
  {
    assert StaleState(0).cache == {};
  }

  lemma StaleStep2(t: SumTest)
    ensures Step(3, t, StaleState(1), 2) == StaleState(2)
  {
    assert |StaleState(1).cache| == 1;
  }

  lemma StaleStep3(t: SumTest)
    ensures Step(3, t, StaleState(2), 2) == StaleState(3)
  {
    var c := StaleState(2).cache;
    assert c == {1} + {2};
    assert |c| == 2;
    assert c + {2} == c;
  }

  lemma StaleStep4(t: SumTest)
    ensures Step(3, t, StaleState(3), 3) == StaleState(4)
  {
    var c := StaleState(3).cache;
    assert c == {1} + {2};
    assert |c| == 2;
  }

  lemma {:induction false} StaleRun(t: SumTest, k: nat)
    requires k <= 4
    ensures Run(3, t, [1, 2, 2, 3][..k]) == StaleState(k)
  {
    var s: seq<Input> := [1, 2, 2, 3];
    if k > 0 {
      var p := s[..k];
      assert p[..k - 1] == s[..k - 1] && p[k - 1] == s[k - 1];
      StaleRun(t, k - 1);
      StaleStep(t, k);
      assert Run(3, t, p) == Step(3, t, Run(3, t, p[..k - 1]), p[k - 1]);
    }
  }

  /** The last 3 of the example is not a sum of two of the window values 2, 2, 3. */
  lemma StaleLastIsWeak()
    ensures !Passes(3, [1, 2, 2, 3, 3], 4)
  {
    var s: seq<Input> := [1, 2, 2, 3, 3];
    var w := Window(s, 4, 3);
    assert w == [2, 2, 3];
    forall i, j | 0 <= i < 3 && 0 <= j < 3 && i != j
      ensures w[i] as int + w[j] as int != 3
    {
    }
  }

  /** The last step of the example: the cache {1, 2, 3} is full, and the slot holding 2 finds the
      stale 1, before and after the slot write. */
  lemma StaleLastStep(t: SumTest)
    ensures Step(3, t, StaleState(4), 3).weak == 0
  {
    var st := StaleState(4);
    assert |st.cache| == 3 by {
      assert st.cache == {1} + {2} + {3};
    }
    var tested := if t == AfterSlotWrite then NextReferenceLocation(3, st, 3).slots else st.slots;
    assert tested[2] == Slot(2, Some(2));
    assert Finds(tested[2], st.cache, 3) by {
      assert Sub(3, 2) == 1;
    }
  }

  /** A value repeated within the window leaves a stale element in the cache: with window size
      3 and input 1, 2, 2, 3, 3 the fourth value is inserted while the cache holds only {1, 2},
      so 1 is never extracted. The last 3 is not a sum of two of 2, 2, 3, yet the slot holding
      2 finds the stale 1, in either order of test and write, and nothing is recorded. */
  lemma StaleElementPassesTest(t: SumTest)
    ensures !Passes(3, [1, 2, 2, 3, 3], 4)
    ensures Run(3, t, [1, 2, 2, 3, 3]).weak == 0
  {
    var s: seq<Input> := [1, 2, 2, 3, 3];
    StaleLastIsWeak();
    StaleRun(t, 4);
    StaleLastStep(t);
    assert s[..4] == [1, 2, 2, 3][..4];
    assert Run(3, t, s) == Step(3, t, Run(3, t, s[..4]), 3);
  }
}
