/** `findWeakInput` and `isInputComputableAsCacheSum` as imperative code over a ring-buffer
    array, checked against the state machine of `Validator`. */
module WeakInput {
  import opened Words
  import opened Outcomes
  import opened Windows
  import opened Validator
  import opened ValidatorRing
  import opened WeakInputProofs

  /** `isInputComputableAsCacheSum`: the `find_if` over the slots, stopping at the first slot
      whose partner `v - value` is in the cache and is not the slot's own element. */
  method IsInputComputableAsCacheSum(ring: array<Slot>, cache: set<Input>, v: Input) returns (b: bool)
    ensures b <==> exists i :: 0 <= i < ring.Length && Finds(ring[i], cache, v)
  {
    var i := 0;
    while i < ring.Length
      invariant 0 <= i <= ring.Length
      invariant forall j :: 0 <= j < i ==> !Finds(ring[j], cache, v)
    {
      var d := Sub(v, ring[i].value);
      if d in cache && ring[i].handle != Some(d) {
        return true;
      }
      i := i + 1;
    }
    return false;
  }

  /** One iteration of the read loop: `getNextInputReferenceLocation` writes `v` into the slot
      at the ring position and advances it; before the cache is full `v` is only inserted,
      afterwards it is tested (while nothing is recorded yet) and replaces the slot's old
      element in the cache. */
  method ReadValue(n: nat, ring: array<Slot>, pos: nat, cache: set<Input>, weak: Input, inputs: seq<Input>, v: Input)
    returns (pos': nat, cache': set<Input>, weak': Input, inputs': seq<Input>)
    requires ring.Length == n && pos < n
    modifies ring
    ensures Validator(ring[..], pos', cache', weak', inputs')
      == Step(n, AfterSlotWrite, Validator(old(ring[..]), pos, cache, weak, inputs), v)
  {
    ghost var before := Validator(ring[..], pos, cache, weak, inputs);
    inputs' := inputs + [v];
    cache', weak' := cache, weak;
    var i := pos;
    ring[i] := ring[i].(value := v);
    pos' := if pos + 1 == n then 0 else pos + 1;
    if |cache| != n {
      cache' := cache + {v};
      ring[i] := Slot(v, Some(v));
    } else {
      if weak == 0 {
        assert ring[..] == NextReferenceLocation(n, before, v).slots;
        var computable := IsInputComputableAsCacheSum(ring, cache, v);
        assert computable == IsComputableAsCacheSum(ring[..], cache, v) by {
          if computable {
            var j :| 0 <= j < ring.Length && Finds(ring[j], cache, v);
            assert ring[..][j] == ring[j];
          }
        }
        if !computable {
          weak' := v;
        }
      }
      cache' := (cache - Designated(ring[i].handle)) + {v};
      ring[i] := Slot(v, Some(v));
    }
  }

  /** The read loop of `findWeakInput` over the values `input` (the stream read until it is
      exhausted): the ring, position, cache, recorded value and `inputList` it leaves are the
      state of the state machine after the whole input. */
  method ReadAll(n: nat, input: seq<Input>)
    returns (ring: array<Slot>, pos: nat, cache: set<Input>, weak: Input, inputList: seq<Input>)
    requires n > 0
    ensures Validator(ring[..], pos, cache, weak, inputList) == Run(n, AfterSlotWrite, input)
  {
    ring := new Slot[n](_ => Slot(0, None));
    pos, cache, weak := 0, {}, 0;
    inputList := [];
    var k := 0;
    while k < |input|
      invariant 0 <= k <= |input|
      invariant ring.Length == n
      invariant Validator(ring[..], pos, cache, weak, inputList) == Run(n, AfterSlotWrite, input[..k])
    {
      var v := input[k];
      assert input[..k + 1][..k] == input[..k];
      pos, cache, weak, inputList := ReadValue(n, ring, pos, cache, weak, inputList, v);
      k := k + 1;
    }
    assert input[..k] == input;
  }

  /** `findWeakInput`: the read loop, then the exception when no weak value was recorded.
      Returns the outcome and the `inputList` the loop fills. */
  method FindWeakInput(n: nat, input: seq<Input>) returns (r: Result<Input>, inputList: seq<Input>)
    requires n > 0
    ensures inputList == input
    ensures r == WeakInputOf(n, input)
    ensures r.Success? ==> r.value != 0
    ensures |input| <= n ==> r == Failure(UnableToFindWeakInput)
    ensures DistinctWindows(n, input) && NoZero(input) && BelowHalfWord(input) ==>
      IsFirstWeakResult(n, input, r)
  {
    var ring, pos, cache, weak;
    ring, pos, cache, weak, inputList := ReadAll(n, input);
    r := if weak == 0 then Failure(UnableToFindWeakInput) else Success(weak);
    if |input| <= n {
      PreambleRecordsNothing(n, AfterSlotWrite, input);
    }
    if DistinctWindows(n, input) && NoZero(input) && BelowHalfWord(input) {
      WeakInputIsFirstWeak(n, input);
    }
  }
}
