/** The rolling-window weak-value finder (`findWeakInput` and its helpers in main.cpp) as a
    pure state machine. One `Step` consumes one input value exactly as one iteration of the
    read loop does; `Run` folds the steps over the input read so far.

    The program keeps three globals and one function-local `static`:
    - `inputList`, every value read, in order;
    - `inputCache`, an `unordered_set` of values;
    - `inputReferenceCache`, `PREAMBLE_SIZE` (here `n`) slots, each a value and an iterator into the cache;
    - the ring position `nextInputPosition`.
    They become the fields of `Validator`. The iterator of a slot is modelled by the cache
    element it designates (`Some(x)`), or `None` for the default-constructed iterator a slot
    holds before its first write. */
module Validator {
  import opened Words
  import opened Outcomes

  /** One `InputReference`: the value of the slot and the cache element its iterator points at. */
  datatype Slot = Slot(value: Input, handle: Option<Input>)

  datatype Validator = Validator(
    slots: seq<Slot>,     // inputReferenceCache
    pos: nat,             // nextInputPosition
    cache: set<Input>,    // inputCache
    weak: Input,          // weakInput; 0 means "none found yet"
    inputs: seq<Input>)   // inputList

  /** Which ring the sum test looks at: the program tests after it has written the new value
      into the slot it is about to recycle; the corrected order tests before. */
  datatype SumTest = AfterSlotWrite | BeforeSlotWrite

  predicate Valid(n: nat, st: Validator) {
    |st.slots| == n && st.pos < n
  }

  /** The state before the first value is read. */
  function Init(n: nat): Validator
    requires n > 0
  {
    Validator(seq(n, _ => Slot(0, None)), 0, {}, 0, [])
  }

  /** `getNextInputReferenceLocation`: writes the value into the slot at the ring position and
      advances the position, wrapping to 0 at `n`. The slot written is the old `st.pos`; its
      iterator is left for the caller to replace. */
  function NextReferenceLocation(n: nat, st: Validator, v: Input): (r: Validator)
    requires Valid(n, st)
    ensures Valid(n, r)
    ensures r.pos == (st.pos + 1) % n
    ensures r.slots == st.slots[st.pos := Slot(v, st.slots[st.pos].handle)]
    ensures r.cache == st.cache && r.weak == st.weak && r.inputs == st.inputs
  {
    var next := if st.pos + 1 == n then 0 else st.pos + 1;
    RemainderOf(st.pos + 1, n, if st.pos + 1 == n then 1 else 0, next);
    st.(slots := st.slots[st.pos := st.slots[st.pos].(value := v)], pos := next)
  }

  /** `isPreambleComplete` */
  predicate IsPreambleComplete(n: nat, cache: set<Input>) {
    |cache| == n
  }

  /** The `find_if` predicate for one slot: the cache holds `v - slot.value` (on the word) and
      that element is not the one the slot's own iterator designates. */
  predicate Finds(slot: Slot, cache: set<Input>, v: Input) {
    var d := Sub(v, slot.value);
    d in cache && slot.handle != Some(d)
  }

  /** A slot finds `v` exactly when the cache holds a partner `b` with `value + b == v` on the
      word, other than the element the slot's own iterator designates. */
  lemma FindsIffPartner(slot: Slot, cache: set<Input>, v: Input)
    ensures Finds(slot, cache, v) <==> exists b :: b in cache && slot.handle != Some(b) && Add(slot.value, b) == v
  {
    if Finds(slot, cache, v) {
      SubFindsAddend(slot.value, Sub(v, slot.value), v);
    }
    if exists b :: b in cache && slot.handle != Some(b) && Add(slot.value, b) == v {
      var b :| b in cache && slot.handle != Some(b) && Add(slot.value, b) == v;
      SubFindsAddend(slot.value, b, v);
    }
  }

  /** `isInputComputableAsCacheSum`, over a given ring. */
  predicate IsComputableAsCacheSum(slots: seq<Slot>, cache: set<Input>, v: Input) {
    exists i :: 0 <= i < |slots| && Finds(slots[i], cache, v)
  }

  /** The cache element an iterator designates, as a set (empty for the default iterator). */
  function Designated(h: Option<Input>): set<Input> {
    if h.Some? then {h.value} else {}
  }

  /** One iteration of the read loop of `findWeakInput`. While the cache holds fewer than `n`
      values the value is only inserted; afterwards it is tested (unless a weak value is already
      recorded), and the element of the recycled slot is replaced by the value in the cache. */
  function Step(n: nat, t: SumTest, st: Validator, v: Input): (r: Validator)
    requires Valid(n, st)
    ensures Valid(n, r)
    ensures r.inputs == st.inputs + [v]
    ensures r.slots == st.slots[st.pos := Slot(v, Some(v))]
    ensures v in r.cache && |r.cache| <= |st.cache| + 1
    ensures r.weak != st.weak ==> st.weak == 0 && r.weak == v && IsPreambleComplete(n, st.cache)
  {
    var i := st.pos;
    var moved := NextReferenceLocation(n, st, v).(inputs := st.inputs + [v]);
    if !IsPreambleComplete(n, moved.cache) then
      moved.(slots := moved.slots[i := Slot(v, Some(v))], cache := moved.cache + {v})
    else
      var tested := if t == AfterSlotWrite then moved.slots else st.slots;
      var weak := if moved.weak == 0 && !IsComputableAsCacheSum(tested, moved.cache, v) then v else moved.weak;
      moved.(slots := moved.slots[i := Slot(v, Some(v))],
             cache := (moved.cache - Designated(moved.slots[i].handle)) + {v},
             weak := weak)
  }

  /** The state after reading all of `s`. */
  function Run(n: nat, t: SumTest, s: seq<Input>): (r: Validator)
    requires n > 0
    ensures Valid(n, r)
    ensures r.inputs == s
    ensures r.weak != 0 ==> r.weak in s
    decreases |s|
  {
    if s == [] then Init(n) else Step(n, t, Run(n, t, s[..|s| - 1]), s[|s| - 1])
  }

  /** The outcome of `findWeakInput` on the input `s`: the recorded weak value, or the
      "Unable to find any weak input" exception when none was recorded. */
  function WeakInputOf(n: nat, s: seq<Input>): (r: Result<Input>)
    requires n > 0
    ensures r.Failure? ==> r.error == UnableToFindWeakInput
    ensures r.Success? ==> r.value != 0 && r.value in s
  {
    var st := Run(n, AfterSlotWrite, s);
    if st.weak == 0 then Failure(UnableToFindWeakInput) else Success(st.weak)
  }

  /** The same search with the sum test moved before the slot write. */
  function CorrectedWeakInputOf(n: nat, s: seq<Input>): (r: Result<Input>)
    requires n > 0
    ensures r.Failure? ==> r.error == UnableToFindWeakInput
    ensures r.Success? ==> r.value != 0 && r.value in s
  {
    var st := Run(n, BeforeSlotWrite, s);
    if st.weak == 0 then Failure(UnableToFindWeakInput) else Success(st.weak)
  }
}
