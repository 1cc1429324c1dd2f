/** What the weak-value search is meant to compute, stated over the input sequence alone:
    a value after the first `n` is weak when it is not the sum of two values in different
    positions among the `n` values just before it. */
module Windows {
  import opened Words

  /** The `n` values read just before position `k`. */
  function Window(s: seq<Input>, k: nat, n: nat): seq<Input>
    requires n <= k <= |s|
  {
    s[k - n..k]
  }

  /** `v` is `a + b` for two values at different positions of `w`. */
  predicate IsSumOfTwo(w: seq<Input>, v: int) {
    exists p, q :: 0 <= p < |w| && 0 <= q < |w| && p != q && w[p] as int + w[q] as int == v
  }

  /** The same with the sum taken on the 64-bit word. */
  predicate IsWrappingSumOfTwo(w: seq<Input>, v: Input) {
    exists p, q :: 0 <= p < |w| && 0 <= q < |w| && p != q && Add(w[p], w[q]) == v
  }

  /** No value repeats within any `n` consecutive values. */
  predicate DistinctWindows(n: nat, s: seq<Input>) {
    forall i, j :: 0 <= i < j < |s| && j - i < n ==> s[i] != s[j]
  }

  predicate NoZero(s: seq<Input>) {
    forall j :: 0 <= j < |s| ==> s[j] != 0
  }

  /** Every value is below 2^63, so no two of them overflow the word when added. */
  predicate BelowHalfWord(s: seq<Input>) {
    forall j :: 0 <= j < |s| ==> s[j] < TWO_TO_THE_63
  }

  /** The value at `k` is a sum of two of the `n` values before it. */
  predicate Passes(n: nat, s: seq<Input>, k: nat)
    requires n <= k < |s|
  {
    IsSumOfTwo(Window(s, k, n), s[k])
  }

  /** No value after the first `n` is weak (zero never counts, it is the "not found" mark). */
  predicate NoWeak(n: nat, s: seq<Input>) {
    forall j :: n <= j < |s| ==> s[j] == 0 || Passes(n, s, j)
  }

  /** Position `k` holds the first weak non-zero value. */
  predicate IsFirstWeak(n: nat, s: seq<Input>, k: nat) {
    && n <= k < |s|
    && s[k] != 0
    && !Passes(n, s, k)
    && forall j :: n <= j < k ==> s[j] == 0 || Passes(n, s, j)
  }

  /** Below half the word the wrapping sum test and the integer one agree. */
  lemma WrappingSumIsSum(w: seq<Input>, v: Input)
    requires BelowHalfWord(w)
    ensures IsWrappingSumOfTwo(w, v) <==> IsSumOfTwo(w, v)
  {
    if IsWrappingSumOfTwo(w, v) {
      var p, q :| 0 <= p < |w| && 0 <= q < |w| && p != q && Add(w[p], w[q]) == v;
      AddWithoutWrap(w[p], w[q]);
    }
    if IsSumOfTwo(w, v) {
      var p, q :| 0 <= p < |w| && 0 <= q < |w| && p != q && w[p] as int + w[q] as int == v;
      AddWithoutWrap(w[p], w[q]);
    }
  }
}
