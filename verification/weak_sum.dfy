/** `findWeakMinMaxSum`: the two-pointer search for a contiguous run of `inputList` adding up
    to the weak value. The running sum is a `std::uint64_t`, so it is kept modulo 2^64; its
    exact properties hold when the whole list adds up to less than 2^64. */
module WeakSum {
  import opened Words
  import opened Outcomes
  import opened MinMax

  /** Reference definition: the integer sum of `w`. */
  function Sum(w: seq<Input>): nat {
    if |w| == 0 then 0 else Sum(w[..|w| - 1]) + w[|w| - 1]
  }

  /** Dropping the first value of a run takes it off the sum. */
  lemma {:induction false} SumFront(w: seq<Input>)
    requires |w| > 0
    ensures Sum(w) == w[0] + Sum(w[1..])
    decreases |w|
  {
    if |w| > 1 {
      var init := w[..|w| - 1];
      SumFront(init);
      assert init[1..] == w[1..][..|w| - 2];
    } else {
      assert w[1..] == [];
    }
  }

  /** A run inside a longer run adds up to no more than it (values are never negative). */
  lemma {:induction false} SumOfInnerRun(s: seq<Input>, a: nat, b: nat, a': nat, b': nat)
    requires a' <= a <= b <= b' <= |s|
    ensures Sum(s[a..b]) <= Sum(s[a'..b'])
    decreases (a - a') + (b' - b)
  {
    if b < b' {
      SumOfInnerRun(s, a, b, a', b' - 1);
      var w := s[a'..b'];
      assert w[..|w| - 1] == s[a'..b' - 1];
      assert Sum(w) == Sum(s[a'..b' - 1]) + w[|w| - 1];
    } else if a' < a {
      SumOfInnerRun(s, a, b, a' + 1, b');
      SumFront(s[a'..b']);
      assert s[a'..b'][1..] == s[a' + 1..b'];
    }
  }

  /** The whole list adds up to less than 2^64, so no running sum wraps. */
  predicate NoOverflow(s: seq<Input>) {
    Sum(s) < TWO_TO_THE_64
  }

  /** The run from `a` to `b` (`b` excluded) adds up to `target` and ends before the last
      value. A run ending at the last value is never examined by the search. */
  predicate IsSeenRun(s: seq<Input>, target: int, a: nat, b: nat) {
    a <= b < |s| && Sum(s[a..b]) == target
  }

  /** The run from `a` to `b` is the first such run: no other ends earlier, and none that ends
      at `b` starts earlier. */
  ghost predicate IsFirstSeenRun(s: seq<Input>, target: int, a: nat, b: nat) {
    && IsSeenRun(s, target, a, b)
    && forall a': nat, b': nat :: IsSeenRun(s, target, a', b') ==> b < b' || (b == b' && a <= a')
  }

  /** No run ending before `right` adds up to `target`. */
  ghost predicate NoRunEndsBefore(s: seq<Input>, target: int, right: nat) {
    forall a: nat, b: nat :: a <= b < right && b <= |s| ==> Sum(s[a..b]) != target
  }

  /** Every run ending at `right` and starting before `left` adds up to more than `target`. */
  ghost predicate EarlierStartsExceed(s: seq<Input>, target: int, left: nat, right: nat)
    requires right <= |s|
  {
    forall a: nat :: a < left && a <= right ==> Sum(s[a..right]) > target
  }

  /** `findWeakMinMaxSum(target)` over `inputList`: `min + max` (on the word) of the first run
      found, or the "Unable to find weak sum" exception. */
  method FindWeakMinMaxSum(inputList: seq<Input>, target: Input) returns (r: Result<Input>)
    ensures r.Failure? ==> r.error == UnableToFindWeakSum
    ensures r.Success? ==> exists a: nat, b: nat ::
      && a <= b < |inputList|
      && Sum(inputList[a..b]) % TWO_TO_THE_64 == target
      && r.value == Add(SeqMin(inputList[a..b]), SeqMax(inputList[a..b]))
    ensures NoOverflow(inputList) ==>
      (r.Success? <==> exists a: nat, b: nat :: IsSeenRun(inputList, target, a, b))
    ensures NoOverflow(inputList) && r.Success? ==> exists a: nat, b: nat ::
      && IsFirstSeenRun(inputList, target, a, b)
      && r.value == Add(SeqMin(inputList[a..b]), SeqMax(inputList[a..b]))
  {
    var s := inputList;
    var sum: Input := 0;
    var left: nat := 0;
    var right: nat := 0;
    while right != |s|
      invariant left <= right <= |s|
      invariant sum == Sum(s[left..right]) % TWO_TO_THE_64
      invariant NoOverflow(s) ==> NoRunEndsBefore(s, target, right)
      invariant EarlierStartsExceed(s, target, left, right)
      decreases |s| - right, if sum < target then 0 else 1
    {
      if sum < target {
        SumStepRight(s, left, right, sum, target);
        sum := Add(sum, s[right]);
        right := right + 1;
      } else {
        while sum > target && left != right
          invariant left <= right
          invariant sum == Sum(s[left..right]) % TWO_TO_THE_64
          invariant EarlierStartsExceed(s, target, left, right)
          decreases right - left
        {
          SumStepLeft(s, left, right, sum, target);
          sum := Sub(sum, s[left]);
          left := left + 1;
        }
        if left == right {
          assert s[left..right] == [];
        }
        if sum == target {
          var mn, mx := FindMinMax(s, left, right);
          if NoOverflow(s) {
            FoundRunIsFirst(s, target, left, right);
          }
          return Success(Add(mn, mx));
        }
      }
    }
    if NoOverflow(s) {
      assert forall a: nat, b: nat :: !IsSeenRun(s, target, a, b);
    }
    return Failure(UnableToFindWeakSum);
  }

  /** Taking in `s[right]` while the sum is below the target: the running sum follows modulo
      2^64, every start before `left` stays above the target, and, when the list adds up to less
      than 2^64, no run ending at `right` adds up to the target (those starting at `left` or
      later are below it, those starting earlier above it). */
  lemma SumStepRight(s: seq<Input>, left: nat, right: nat, sum: Input, target: Input)
    requires left <= right < |s| && sum == Sum(s[left..right]) % TWO_TO_THE_64 && sum < target
    requires NoOverflow(s) ==> NoRunEndsBefore(s, target, right)
    requires EarlierStartsExceed(s, target, left, right)
    ensures Add(sum, s[right]) == Sum(s[left..right + 1]) % TWO_TO_THE_64
    ensures NoOverflow(s) ==> NoRunEndsBefore(s, target, right + 1)
    ensures EarlierStartsExceed(s, target, left, right + 1)
  {
    assert s[left..right + 1][..right - left] == s[left..right];
    assert Sum(s[left..right + 1]) == Sum(s[left..right]) + s[right];
    CongruentPlus(Sum(s[left..right]) % TWO_TO_THE_64, Sum(s[left..right]), s[right], TWO_TO_THE_64);
    if NoOverflow(s) {
      SumOfInnerRun(s, left, right, 0, |s|);
      assert s[0..|s|] == s;
      forall a: nat, b: nat | a <= b < right + 1 && b <= |s|
        ensures Sum(s[a..b]) != target
      {
        if b == right {
          if a >= left {
            SumOfInnerRun(s, a, right, left, right);
          }
        }
      }
    }
    var next := right + 1;
    forall a: nat | a < left && a <= next
      ensures Sum(s[a..next]) > target
    {
      SumOfInnerRun(s, a, right, a, next);
    }
  }

  /** Letting `s[left]` go while the sum is above the target: the running sum follows modulo
      2^64, and the run from `left` to `right` itself adds up to more than the target, since an
      integer sum is never below its remainder modulo 2^64. */
  lemma SumStepLeft(s: seq<Input>, left: nat, right: nat, sum: Input, target: Input)
    requires left < right <= |s| && sum == Sum(s[left..right]) % TWO_TO_THE_64 && sum > target
    requires EarlierStartsExceed(s, target, left, right)
    ensures Sub(sum, s[left]) == Sum(s[left + 1..right]) % TWO_TO_THE_64
    ensures EarlierStartsExceed(s, target, left + 1, right)
  {
    SumFront(s[left..right]);
    assert s[left..right][1..] == s[left + 1..right];
    CongruentPlus(Sum(s[left..right]) % TWO_TO_THE_64, Sum(s[left..right]), 0 - s[left] as int, TWO_TO_THE_64);
    assert Sum(s[left..right]) >= sum;
  }

  /** A run the search stops at, with no run ending earlier and every earlier start above the
      target, is the first run. */
  lemma FoundRunIsFirst(s: seq<Input>, target: Input, left: nat, right: nat)
    requires left <= right < |s| && NoOverflow(s)
    requires Sum(s[left..right]) % TWO_TO_THE_64 == target
    requires NoRunEndsBefore(s, target, right) && EarlierStartsExceed(s, target, left, right)
    ensures IsFirstSeenRun(s, target, left, right)
  {
    SumOfInnerRun(s, left, right, 0, |s|);
    assert s[0..|s|] == s;
  }
}
