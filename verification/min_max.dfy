/** `findMinMax`: the least and the greatest value of a range of `inputList`, folded from the
    sentinels `UINT64_MAX` and 0. */
module MinMax {
  import opened Words

  /** Reference definition: the least value of `w`, `UINT64_MAX` when `w` is empty. */
  function SeqMin(w: seq<Input>): Input {
    if |w| == 0 then UINT64_MAX
    else
      var m := SeqMin(w[1..]);
      if w[0] < m then w[0] else m
  }

  /** Reference definition: the greatest value of `w`, 0 when `w` is empty. */
  function SeqMax(w: seq<Input>): Input {
    if |w| == 0 then 0
    else
      var m := SeqMax(w[1..]);
      if w[0] > m then w[0] else m
  }

  /** `m` is at most every value of `w`, is one of them when there is one, and is the
      sentinel `UINT64_MAX` otherwise. */
  predicate IsRangeMin(w: seq<Input>, m: Input) {
    && (forall i :: 0 <= i < |w| ==> m <= w[i])
    && (|w| == 0 ==> m == UINT64_MAX)
    && (|w| > 0 ==> exists i :: 0 <= i < |w| && w[i] == m)
  }

  /** `m` is at least every value of `w`, is one of them when there is one, and is 0
      otherwise. */
  predicate IsRangeMax(w: seq<Input>, m: Input) {
    && (forall i :: 0 <= i < |w| ==> w[i] <= m)
    && (|w| == 0 ==> m == 0)
    && (|w| > 0 ==> exists i :: 0 <= i < |w| && w[i] == m)
  }

  lemma {:induction false} SeqMinIsRangeMin(w: seq<Input>)
    ensures IsRangeMin(w, SeqMin(w))
  {
    if |w| > 0 {
      var tail := w[1..];
      SeqMinIsRangeMin(tail);
      forall i | 1 <= i < |w|
        ensures SeqMin(tail) <= w[i]
      {
        assert w[i] == tail[i - 1];
      }
      if SeqMin(tail) <= w[0] && |tail| > 0 {
        var i :| 0 <= i < |tail| && tail[i] == SeqMin(tail);
        assert w[i + 1] == tail[i];
      }
    }
  }

  lemma {:induction false} SeqMaxIsRangeMax(w: seq<Input>)
    ensures IsRangeMax(w, SeqMax(w))
  {
    if |w| > 0 {
      var tail := w[1..];
      SeqMaxIsRangeMax(tail);
      forall i | 1 <= i < |w|
        ensures w[i] <= SeqMax(tail)
      {
        assert w[i] == tail[i - 1];
      }
      if SeqMax(tail) >= w[0] && |tail| > 0 {
        var i :| 0 <= i < |tail| && tail[i] == SeqMax(tail);
        assert w[i + 1] == tail[i];
      }
    }
  }

  /** The characterisation pins the value down: it is `SeqMin`. */
  lemma RangeMinIsSeqMin(w: seq<Input>, m: Input)
    requires IsRangeMin(w, m)
    ensures m == SeqMin(w)
  {
    SeqMinIsRangeMin(w);
    if |w| > 0 {
      var i :| 0 <= i < |w| && w[i] == m;
      var j :| 0 <= j < |w| && w[j] == SeqMin(w);
    }
  }

  /** The characterisation pins the value down: it is `SeqMax`. */
  lemma RangeMaxIsSeqMax(w: seq<Input>, m: Input)
    requires IsRangeMax(w, m)
    ensures m == SeqMax(w)
  {
    SeqMaxIsRangeMax(w);
    if |w| > 0 {
      var i :| 0 <= i < |w| && w[i] == m;
      var j :| 0 <= j < |w| && w[j] == SeqMax(w);
    }
  }

  /** `findMinMax(begin, end)` over the range `lo` to `hi` of `s`. */
  method FindMinMax(s: seq<Input>, lo: nat, hi: nat) returns (mn: Input, mx: Input)
    requires lo <= hi <= |s|
    ensures IsRangeMin(s[lo..hi], mn) && IsRangeMax(s[lo..hi], mx)
    ensures mn == SeqMin(s[lo..hi]) && mx == SeqMax(s[lo..hi])
  {
    mx := 0;
    mn := UINT64_MAX;
    var i := lo;
    while i != hi
      invariant lo <= i <= hi
      invariant forall j :: lo <= j < i ==> mn <= s[j] && s[j] <= mx
      invariant i == lo ==> mn == UINT64_MAX && mx == 0
      invariant i > lo ==> (exists j :: lo <= j < i && s[j] == mn) && (exists j :: lo <= j < i && s[j] == mx)
    {
      if s[i] < mn {
        mn := s[i];
      }
      if s[i] > mx {
        mx := s[i];
      }
      i := i + 1;
    }
    var w := s[lo..hi];
    if hi > lo {
      var a :| lo <= a < hi && s[a] == mn;
      var b :| lo <= b < hi && s[b] == mx;
      assert w[a - lo] == mn && w[b - lo] == mx;
    }
    RangeMinIsSeqMin(w, mn);
    RangeMaxIsSeqMax(w, mx);
  }
}
