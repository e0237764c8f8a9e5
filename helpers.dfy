/**
 * The generic array helpers: slices with and without padding, copies,
 * appending and concatenation, and filling an array with one value.
 *
 * C# fills a new array with `default(T)`; Dafny has no such value for an
 * arbitrary type, so the helpers that allocate take it as `zero`.
 */
module ArrayHelpers {
  import opened Common

  /** The contents of each array, in order. */
  function Contents<T>(arrays: seq<array<T>>): (r: seq<seq<T>>)
    reads arrays
    ensures |r| == |arrays| && forall i :: 0 <= i < |arrays| ==> r[i] == arrays[i][..]
  {
    seq(|arrays|, i requires 0 <= i < |arrays| reads arrays => arrays[i][..])
  }

  /** The sum of the lengths of the parts. */
  function TotalLength<T>(parts: seq<seq<T>>): nat
  {
    if parts == [] then 0 else |parts[0]| + TotalLength(parts[1..])
  }

  /** Concatenating the parts keeps every element: the length is the sum of theirs. */
  lemma {:induction false} FlattenLength<T>(parts: seq<seq<T>>)
    ensures |Flatten(parts)| == TotalLength(parts)
  {
    if parts != [] {
      FlattenLength(parts[1..]);
    }
  }

  /**
   * `Array.Copy(src, srcIndex, dst, dstIndex, len)`: the elements are copied as
   * if through a temporary array, so overlapping ranges are safe.
   */
  method ArrayCopy<T>(src: array<T>, srcIndex: nat, dst: array<T>, dstIndex: nat, len: nat)
    requires srcIndex + len <= src.Length && dstIndex + len <= dst.Length
    modifies dst
    ensures dst[..] == old(dst[..dstIndex]) + old(src[srcIndex..srcIndex + len]) + old(dst[dstIndex + len..])
  {
    forall k | 0 <= k < len {
      dst[dstIndex + k] := src[srcIndex + k];
    }
    assert dst[..] == old(dst[..dstIndex]) + old(src[srcIndex..srcIndex + len]) + old(dst[dstIndex + len..]);
  }

  /**
   * `SubArray(data, index, length, padding)` as written: the copied part is
   * `min(length, |data| - index)` long, but padding is written only from
   * position `|data|` on, so the positions in between keep `default(T)`.
   */
  function SliceAsWritten<T>(data: seq<T>, index: nat, length: nat, padding: T, zero: T): (r: seq<T>)
    requires index <= |data|
    ensures |r| == length
  {
    var len := Min(length, |data| - index);
    seq(length, i requires 0 <= i < length =>
      if i < len then data[index + i] else if i >= |data| then padding else zero)
  }

  /** The evidently intended slice: the copied part, then padding up to `length`. */
  function Slice<T>(data: seq<T>, index: nat, length: nat, padding: T): (r: seq<T>)
    requires index <= |data|
    ensures |r| == length
  {
    var len := Min(length, |data| - index);
    data[index..index + len] + seq(length - len, _ => padding)
  }

  /**
   * The intended slice starts with `data[index..]`, cut to `length`, and every
   * position after the copied part holds the padding.
   */
  lemma SliceLayout<T>(data: seq<T>, index: nat, length: nat, padding: T)
    requires index <= |data|
    ensures var r, len := Slice(data, index, length, padding), Min(length, |data| - index);
      r[..len] == data[index..index + len] &&
      forall i :: len <= i < length ==> r[i] == padding
  {
  }

  /**
   * The two agree whenever the copy reaches position `|data|` or the slice
   * stops first: when `index` is 0, or when `length` fits in what is left.
   */
  lemma SliceAsWrittenAgrees<T>(data: seq<T>, index: nat, length: nat, padding: T, zero: T)
    requires index <= |data| && (index == 0 || length <= |data| - index)
    ensures SliceAsWritten(data, index, length, padding, zero) == Slice(data, index, length, padding)
  {
    var a, b := SliceAsWritten(data, index, length, padding, zero), Slice(data, index, length, padding);
    var len := Min(length, |data| - index);
    forall i | 0 <= i < length
      ensures a[i] == b[i]
    {
      if i < len {
        assert b[i] == data[index..index + len][i];
      }
    }
  }

  /** Slicing `[1, 2]` from index 1 to length 2 with padding 9 leaves the default at position 1. */
  lemma SliceAsWrittenMissesPadding()
    ensures SliceAsWritten([1, 2], 1, 2, 9, 0) == [2, 0]
    ensures Slice([1, 2], 1, 2, 9) == [2, 9]
  {
    var r := SliceAsWritten([1, 2], 1, 2, 9, 0);
    assert r[0] == 2 && r[1] == 0;
    var s := Slice([1, 2], 1, 2, 9);
    assert s == [2] + [9];
  }

  /** `SubArray(data, index, length, padding)`, as written. */
  method SubArray<T>(data: array<T>, index: nat, length: nat, padding: T, zero: T) returns (result: array<T>)
    requires index <= data.Length
    ensures fresh(result)
    ensures result[..] == SliceAsWritten(data[..], index, length, padding, zero)
  {
    result := new T[length](_ => zero);
    var len := Min(length, data.Length - index);
    ArrayCopy(data, index, result, 0, len);
    var i := data.Length;
    while i < length
      invariant data.Length <= i
      invariant forall k :: 0 <= k < length ==>
        result[k] == if k < len then data[index + k] else if data.Length <= k < i then padding else zero
    {
      result[i] := padding;
      i := i + 1;
    }
    assert result[..] == SliceAsWritten(data[..], index, length, padding, zero);
  }

  /** `SubArray` with padding written from the end of the copied part: the intended slice. */
  method SubArrayPadded<T>(data: array<T>, index: nat, length: nat, padding: T, zero: T) returns (result: array<T>)
    requires index <= data.Length
    ensures fresh(result)
    ensures result[..] == Slice(data[..], index, length, padding)
  {
    result := new T[length](_ => zero);
    var len := Min(length, data.Length - index);
    ArrayCopy(data, index, result, 0, len);
    var i := len;
    while i < length
      invariant len <= i <= length
      invariant forall k :: 0 <= k < length ==>
        result[k] == if k < len then data[index + k] else if k < i then padding else zero
    {
      result[i] := padding;
      i := i + 1;
    }
    assert result[..] == Slice(data[..], index, length, padding) by {
      forall k | 0 <= k < length
        ensures result[k] == Slice(data[..], index, length, padding)[k]
      {
        if k < len {
          assert Slice(data[..], index, length, padding)[k] == data[index..index + len][k];
        }
      }
    }
  }

  /** `SubArray(data, index)`: a new array holding everything from `index` on. */
  method SubArrayFrom<T>(data: array<T>, index: nat, zero: T) returns (result: array<T>)
    requires index <= data.Length
    ensures fresh(result)
    ensures result[..] == data[index..] && result.Length == data.Length - index
  {
    result := new T[data.Length - index](_ => zero);
    ArrayCopy(data, index, result, 0, data.Length - index);
  }

  /** `Copy`: a new array, equal in length and element by element. */
  method Copy<T>(data: array<T>, zero: T) returns (result: array<T>)
    ensures fresh(result)
    ensures result[..] == data[..]
  {
    result := new T[data.Length](_ => zero);
    ArrayCopy(data, 0, result, 0, data.Length);
  }

  /**
   * `Array.Resize`: the same array when the size is unchanged, otherwise a new
   * one holding the old elements that fit and `default(T)` after them.
   */
  method Resize<T>(a: array<T>, newSize: nat, zero: T) returns (r: array<T>)
    ensures newSize == a.Length ==> r == a
    ensures newSize != a.Length ==> fresh(r)
    ensures r.Length == newSize
    ensures r[..Min(a.Length, newSize)] == a[..Min(a.Length, newSize)]
  {
    if newSize == a.Length {
      return a;
    }
    r := new T[newSize](_ => zero);
    ArrayCopy(a, 0, r, 0, Min(a.Length, newSize));
  }

  /**
   * One step of `Append`: grows `result` by `next`'s length and copies `next`
   * after the old elements. Appending nothing gives back the same array.
   */
  method AppendOne<T>(result: array<T>, next: array<T>, zero: T) returns (r: array<T>)
    ensures next.Length == 0 ==> r == result
    ensures next.Length > 0 ==> fresh(r)
    ensures r[..] == result[..] + next[..]
  {
    var originalLength := result.Length;
    r := Resize(result, originalLength + next.Length, zero);
    if next.Length > 0 {
      ArrayCopy(next, 0, r, originalLength, next.Length);
    }
    assert r[..] == result[..] + next[..];
  }

  /**
   * `Append(array1, arrays...)`: the result holds `array1` and then every array
   * of `arrays` in order. `array1` itself is never written: each step that
   * grows the result grows a new array.
   */
  method Append<T>(array1: array<T>, arrays: seq<array<T>>, zero: T) returns (result: array<T>)
    ensures result[..] == array1[..] + Flatten(Contents(arrays))
  {
    ghost var parts := Contents(arrays);
    result := array1;
    var k := 0;
    while k < |arrays|
      invariant k <= |arrays|
      invariant result[..] == array1[..] + Flatten(parts[..k])
    {
      var next := arrays[k];
      assert next[..] == parts[k];
      result := AppendOne(result, next, zero);
      assert parts[..k + 1] == parts[..k] + [next[..]];
      FlattenSnoc(parts[..k], next[..]);
      k := k + 1;
    }
    assert parts[..k] == parts;
  }

  /** `Concat(ts...)`: every array's elements in order, in an array as long as all of them together. */
  method Concat<T>(ts: seq<array<T>>, zero: T) returns (result: array<T>)
    ensures result[..] == Flatten(Contents(ts))
    ensures result.Length == TotalLength(Contents(ts))
  {
    result := new T[0](_ => zero);
    var k := 0;
    while k < |ts|
      invariant k <= |ts|
      invariant result[..] == Flatten(Contents(ts[..k]))
    {
      result := Append(result, [ts[k]], zero);
      assert Contents([ts[k]]) == [ts[k][..]];
      assert Flatten([ts[k][..]]) == ts[k][..];
      assert Contents(ts[..k + 1]) == Contents(ts[..k]) + [ts[k][..]];
      FlattenSnoc(Contents(ts[..k]), ts[k][..]);
      k := k + 1;
    }
    assert ts[..k] == ts;
    FlattenLength(Contents(ts));
  }

  /** `Populate`: every element becomes `value`, in place; the length is the array's own and stays. */
  method Populate<T>(arr: array<T>, value: T)
    modifies arr
    ensures forall i :: 0 <= i < arr.Length ==> arr[i] == value
  {
    for i := 0 to arr.Length
      invariant forall k :: 0 <= k < i ==> arr[k] == value
    {
      arr[i] := value;
    }
  }
}
