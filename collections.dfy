/** Collection helpers of `CommonUtilities.swift`: `Dictionary.merge`,
    `Array.peekObjectAt`, `CommonUtilities.RangeIntToRangeStringIndex` and
    the nil-or-empty tests on optional collections. */
module Collections {
  import opened Wrappers

  // ------------------------------------------------------- Dictionary.merge

  /** The dictionary `merge` leaves behind: every key of `dict` with `dict`'s
      value, every other key as it was. */
  function Merged<K, V>(self: map<K, V>, dict: map<K, V>): map<K, V>
  {
    self + dict
  }

  /** `Dictionary.merge(with:onlyNonNilValues:)`: `updateValue` for each
      entry of `dict`, in the dictionary's own order. The flag is not read. */
  method Merge<K, V>(self: map<K, V>, dict: map<K, V>, onlyNonNilValues: bool) returns (merged: map<K, V>)
    ensures merged == Merged(self, dict)
    ensures merged.Keys == self.Keys + dict.Keys
    ensures forall k :: k in dict ==> merged[k] == dict[k]
    ensures forall k :: k in self && k !in dict ==> merged[k] == self[k]
  {
    merged := self;
    var pending := dict.Keys;
    while pending != {}
      invariant pending <= dict.Keys
      invariant merged.Keys == self.Keys + (dict.Keys - pending)
      invariant forall k :: k in dict && k !in pending ==> merged[k] == dict[k]
      invariant forall k :: k in self && (k !in dict || k in pending) ==> merged[k] == self[k]
      decreases pending
    {
      var key :| key in pending;
      merged := merged[key := dict[key]];
      pending := pending - {key};
    }
  }

  /** With optional values, a `nil` in `dict` overwrites a present value
      even when `onlyNonNilValues` is true. */
  lemma MergeStoresNil()
    ensures Merged(map["a" := Some(1)], map["a" := None])["a"] == None
  {
  }

  /** `merge` as its flag suggests: with `onlyNonNilValues`, entries of
      `dict` holding `nil` are skipped. */
  method MergeNonNil<K, V>(self: map<K, Option<V>>, dict: map<K, Option<V>>, onlyNonNilValues: bool)
    returns (merged: map<K, Option<V>>)
    ensures forall k :: k in dict && (dict[k].Some? || !onlyNonNilValues) ==> k in merged && merged[k] == dict[k]
    ensures forall k :: k in self && (k !in dict || (onlyNonNilValues && dict[k].None?)) ==> k in merged && merged[k] == self[k]
    ensures forall k :: k in merged ==> k in self || (k in dict && (dict[k].Some? || !onlyNonNilValues))
    ensures forall k :: k in merged ==> merged[k].Some? || !onlyNonNilValues || (k in self && self[k].None?)
  {
    merged := self;
    var pending := dict.Keys;
    while pending != {}
      invariant pending <= dict.Keys
      invariant forall k :: k in dict && k !in pending && (dict[k].Some? || !onlyNonNilValues) ==> k in merged && merged[k] == dict[k]
      invariant forall k :: k in self && (k !in dict || k in pending || (onlyNonNilValues && dict[k].None?)) ==> k in merged && merged[k] == self[k]
      invariant forall k :: k in merged ==> k in self || (k in dict && k !in pending && (dict[k].Some? || !onlyNonNilValues))
      invariant forall k :: k in merged ==> merged[k].Some? || !onlyNonNilValues || (k in self && self[k].None? && merged[k] == self[k])
      decreases pending
    {
      var key :| key in pending;
      if dict[key].Some? || !onlyNonNilValues {
        merged := merged[key := dict[key]];
      }
      pending := pending - {key};
    }
  }

  // ---------------------------------------------------- Array.peekObjectAt

  /** `Array.peekObjectAt(index:)` as written: only `index < count` is
      checked, so a negative index reaches the subscript and traps. */
  function PeekObjectAt<T>(a: seq<T>, index: Int64): (r: Checked<Option<T>>)
    ensures r.Trapped? <==> index < 0
    ensures 0 <= index < |a| ==> r == Returned(Some(a[index]))
    ensures index >= |a| ==> r == Returned(None)
  {
    if index < |a| then
      if index < 0 then Trapped else Returned(Some(a[index]))
    else
      Returned(None)
  }

  lemma PeekNegativeIndexTraps()
    ensures PeekObjectAt([7], -1).Trapped?
  {
  }

  /** `peekObjectAt` with both bounds checked: an element exactly for the
      indices of the array. */
  function PeekObjectAtChecked<T>(a: seq<T>, index: Int64): (r: Option<T>)
    ensures r.Some? <==> 0 <= index < |a|
    ensures r.Some? ==> r.value == a[index]
  {
    if 0 <= index < |a| then Some(a[index]) else None
  }

  /** The two agree wherever the original does not trap. */
  lemma PeekCheckedAgrees<T>(a: seq<T>, index: Int64)
    requires index >= 0
    ensures PeekObjectAt(a, index) == Returned(PeekObjectAtChecked(a, index))
  {
  }

  // ------------------------------------------------ RangeIntToRangeStringIndex

  /** A `Range<Int>`: its lower bound never exceeds its upper bound. */
  datatype IntRange = IntRange(lowerBound: Int64, upperBound: Int64)

  /** A range of `String.Index` values, as character offsets from the start. */
  datatype IndexRange = IndexRange(lower: nat, upper: nat)

  /** `RangeIntToRangeStringIndex(str:range:)` as written: both bounds are
      compared with `count` only, so a negative lower bound reaches
      `index(_:offsetBy:)` and traps. */
  function RangeIntToRangeStringIndex(str: string, range: IntRange): (r: Checked<Option<IndexRange>>)
    requires range.lowerBound <= range.upperBound
    ensures r.Trapped? <==> range.lowerBound < 0 && range.upperBound <= |str|
    ensures r.Returned? && r.value.Some? ==>
      var ir := r.value.value;
      ir.lower == range.lowerBound && ir.upper == range.upperBound && ir.lower <= ir.upper <= |str|
    ensures r.Returned? ==> (r.value.Some? <==> range.upperBound <= |str|)
  {
    if range.lowerBound <= |str| && range.upperBound <= |str| then
      if range.lowerBound < 0 then Trapped
      else Returned(Some(IndexRange(range.lowerBound, range.upperBound)))
    else
      Returned(None)
  }

  lemma RangeNegativeLowerBoundTraps()
    ensures RangeIntToRangeStringIndex("abc", IntRange(-1, 2)).Trapped?
  {
  }

  /** The conversion with the lower bound checked as well: a range of
      indices exactly when the whole range lies within the string, with
      both bounds kept. */
  function RangeIntToRangeStringIndexChecked(str: string, range: IntRange): (r: Option<IndexRange>)
    requires range.lowerBound <= range.upperBound
    ensures r.Some? <==> 0 <= range.lowerBound && range.upperBound <= |str|
    ensures r.Some? ==> r.value.lower == range.lowerBound && r.value.upper == range.upperBound
  {
    if 0 <= range.lowerBound && range.upperBound <= |str| then
      Some(IndexRange(range.lowerBound, range.upperBound))
    else
      None
  }

  lemma RangeCheckedAgrees(str: string, range: IntRange)
    requires 0 <= range.lowerBound <= range.upperBound
    ensures RangeIntToRangeStringIndex(str, range) == Returned(RangeIntToRangeStringIndexChecked(str, range))
  {
  }

  // ------------------------------------------------------- nil-or-empty tests

  /** `Optional<Collection>.nilOrEmptyCollection()` (and `isArrayNilOrEmpty`,
      which says the same with a switch). */
  predicate NilOrEmptyCollection<T>(c: Option<seq<T>>)
  {
    match c
    case None => true
    case Some(v) => |v| == 0
  }

  /** `Optional<Collection>.hasElements()`. */
  predicate HasElements<T>(c: Option<seq<T>>)
  {
    !NilOrEmptyCollection(c)
  }

  /** A collection has elements exactly when its first element can be peeked. */
  lemma HasElementsIffFirstPeekable<T>(c: Option<seq<T>>)
    ensures HasElements(c) <==> c.Some? && PeekObjectAtChecked(c.value, 0).Some?
    ensures HasElements(c) ==> PeekObjectAt(c.value, 0) == Returned(Some(c.value[0]))
  {
  }
}
