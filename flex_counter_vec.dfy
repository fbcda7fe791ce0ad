/** The growable vector of flex counters: a slice (a length within a
    backing array whose size is the capacity) that callers grow in place,
    either by a relative amount or up to an index they are about to use. */
module Tomahawk {

  import opened Wrappers

  function Max(a: nat, b: nat): nat {
    if a < b then b else a
  }

  /** A flex_counter_vec, generic in its element type.  zeroValue is the
      element Go's make fills new storage with; nextResizeCap is the capacity
      policy of the vector library, which never returns less than asked. */
  class FlexCounterVec<T> {
    var data: array<T>
    var len: nat
    const zeroValue: T
    const nextResizeCap: nat -> nat

    ghost predicate Valid()
      reads this
    {
      len <= data.Length && forall n :: nextResizeCap(n) >= n
    }

    /** The elements the slice shows. */
    ghost function Elements(): seq<T>
      requires Valid()
      reads this, data
    {
      data[..len]
    }

    /** The nil vector: no elements and no storage. */
    constructor (zeroValue: T, nextResizeCap: nat -> nat)
      requires forall n :: nextResizeCap(n) >= n
      ensures Valid() && len == 0 && data.Length == 0
      ensures this.zeroValue == zeroValue && this.nextResizeCap == nextResizeCap
    {
      this.zeroValue := zeroValue;
      this.nextResizeCap := nextResizeCap;
      data := new T[0];
      len := 0;
    }

    /** Len: the number of elements. */
    function Len(): (n: nat)
      requires Valid()
      reads this, data
      ensures n == |Elements()| && n <= data.Length
    {
      len
    }

    /** Resize: n more elements.  The old ones keep their values.  Storage is
        reallocated, to nextResizeCap of the new length, only when the new
        length exceeds the capacity; the new elements are then the zero value,
        and otherwise whatever the storage held past the old length. */
    method Resize(n: nat)
      requires Valid()
      modifies this
      ensures Valid() && len == old(len) + n
      ensures Elements()[..old(len)] == old(Elements())
      ensures len <= old(data.Length) ==> data == old(data) && data[..] == old(data[..])
      ensures len > old(data.Length) ==>
        fresh(data) && data.Length == nextResizeCap(len) &&
        forall k :: old(len) <= k < data.Length ==> data[k] == zeroValue
    {
      var c := data.Length;
      var l := len + n;
      if l > c {
        c := nextResizeCap(l);
        var z := zeroValue;
        var q := new T[c](_ => z);
        forall k | 0 <= k < len {
          q[k] := data[k];
        }
        data := q;
      }
      len := l;
    }

    /** validate: at least newLen elements, and the index of element
        newLen - 1.  The vector never shrinks.  Within the capacity only the
        length changes, exposing what the storage already held; past it the
        slow path reallocates. */
    method ValidateUpTo(newLen: nat, zero: Option<T>) returns (index: nat)
      requires Valid() && newLen >= 1
      modifies this
      ensures Valid() && len == Max(old(len), newLen)
      ensures index == newLen - 1 && index < len
      ensures Elements()[..old(len)] == old(Elements())
      ensures newLen <= old(data.Length) ==> data == old(data) && data[..] == old(data[..])
      ensures newLen > old(data.Length) ==> fresh(data) && SlowPathStorage(old(len), old(data.Length), newLen, zero)
    {
      var c := data.Length;
      var lPrev := len;
      var l := newLen;
      if l <= c {
        if l >= lPrev {
          len := l;
        }
        return l - 1;
      }
      index := ValidateSlowPath(zero, c, l, lPrev);
    }

    /** The storage after a reallocation for length l, from a vector of old
        length lPrev and capacity c: nextResizeCap(l) slots, past the old
        elements the zero value up to c (what the old storage held there is
        not copied), and from c on the zero given (the zero value when none
        is). */
    ghost predicate SlowPathStorage(lPrev: nat, c: nat, l: nat, zero: Option<T>)
      reads this, data
    {
      data.Length == nextResizeCap(l) &&
      (forall k :: lPrev <= k < c && k < data.Length ==> data[k] == zeroValue) &&
      forall k :: c <= k < data.Length ==> data[k] == if zero.Some? then zero.value else zeroValue
    }

    /** validateSlowPath: past the capacity c, fresh storage of
        nextResizeCap(l) slots gets the lPrev old elements and, when zero is
        given, zero in every slot from c on; the length becomes l if that is
        more. */
    method ValidateSlowPath(zero: Option<T>, c: nat, l: nat, lPrev: nat) returns (index: nat)
      requires Valid() && c == data.Length && lPrev == len && l >= 1
      modifies this
      ensures Valid() && len == Max(lPrev, l)
      ensures index == l - 1 && index < len
      ensures Elements()[..lPrev] == old(Elements())
      ensures l <= c ==> data == old(data) && data[..] == old(data[..])
      ensures l > c ==> fresh(data) && SlowPathStorage(lPrev, c, l, zero)
    {
      if l > c {
        var cNext := nextResizeCap(l);
        var z := zeroValue;
        var q := new T[cNext](_ => z);
        forall k | 0 <= k < len {
          q[k] := data[k];
        }
        if zero.Some? {
          var i := c;
          while i < cNext
            invariant c <= i <= cNext
            invariant q[..len] == old(data[..len])
            invariant forall k :: len <= k < c ==> q[k] == zeroValue
            invariant forall k :: c <= k < i ==> q[k] == zero.value
            modifies q
          {
            q[i] := zero.value;
            i := i + 1;
          }
        }
        data := q;
        len := l;
      }
      if l > lPrev {
        len := l;
      }
      return l - 1;
    }

    /** Validate(i): element i exists; its index is returned. */
    method Validate(i: nat) returns (index: nat)
      requires Valid()
      modifies this
      ensures Valid() && len == Max(old(len), i + 1) && index == i
      ensures Elements()[..old(len)] == old(Elements())
      ensures i < old(data.Length) ==> data == old(data) && data[..] == old(data[..])
      ensures i >= old(data.Length) ==> fresh(data) && SlowPathStorage(old(len), old(data.Length), i + 1, None)
    {
      index := ValidateUpTo(i + 1, None);
    }

    /** ValidateInit(i, zero): element i exists, and storage allocated past
        the old capacity holds zero; the index of element i is returned. */
    method ValidateInit(i: nat, zero: T) returns (index: nat)
      requires Valid()
      modifies this
      ensures Valid() && len == Max(old(len), i + 1) && index == i
      ensures Elements()[..old(len)] == old(Elements())
      ensures i < old(data.Length) ==> data == old(data) && data[..] == old(data[..])
      ensures i >= old(data.Length) ==> fresh(data) && SlowPathStorage(old(len), old(data.Length), i + 1, Some(zero))
      ensures i >= old(data.Length) ==> Elements()[i] == zero
    {
      index := ValidateUpTo(i + 1, Some(zero));
    }

    /** ValidateLen(l): at least l elements, and the index of the last of
        them; for l = 0 nothing changes and there is no element to return. */
    method ValidateLen(l: nat) returns (v: Option<nat>)
      requires Valid()
      modifies this
      ensures Valid() && len == Max(old(len), l)
      ensures v.None? <==> l == 0
      ensures v.Some? ==> v.value == l - 1
      ensures Elements()[..old(len)] == old(Elements())
      ensures l == 0 ==> data == old(data) && len == old(len)
      ensures 0 < l <= old(data.Length) ==> data == old(data) && data[..] == old(data[..])
      ensures l > old(data.Length) ==> fresh(data) && SlowPathStorage(old(len), old(data.Length), l, None)
    {
      v := None;
      if l > 0 {
        var index := ValidateUpTo(l, None);
        v := Some(index);
      }
    }

    /** ValidateLenInit(l, zero): as ValidateLen, with zero filling storage
        allocated past the old capacity. */
    method ValidateLenInit(l: nat, zero: T) returns (v: Option<nat>)
      requires Valid()
      modifies this
      ensures Valid() && len == Max(old(len), l)
      ensures v.None? <==> l == 0
      ensures v.Some? ==> v.value == l - 1
      ensures Elements()[..old(len)] == old(Elements())
      ensures l == 0 ==> data == old(data) && len == old(len)
      ensures 0 < l <= old(data.Length) ==> data == old(data) && data[..] == old(data[..])
      ensures l > old(data.Length) ==> fresh(data) && SlowPathStorage(old(len), old(data.Length), l, Some(zero))
    {
      v := None;
      if l > 0 {
        var index := ValidateUpTo(l, Some(zero));
        v := Some(index);
      }
    }
  }
}
