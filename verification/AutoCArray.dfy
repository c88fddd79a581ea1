/** The self-sizing C array of common_utils.py: first as a machine on values, so that whole
    histories can be reasoned about, then as the class that updates its fields in place. */
module AutoCArrays {
  import opened Wrappers
  import opened CInterface

  /** What can be observed: the size cell, if there is one, and the allocated elements, if any. */
  datatype View<T> = View(size: Option<nat>, buffer: Option<seq<T>>)

  function Zeros<T>(zero: T, n: nat): (s: seq<T>)
    ensures |s| == n && forall i :: 0 <= i < n ==> s[i] == zero
  {
    seq(n, _ => zero)
  }

  /** Reading `array`: allocates on first use once a size is known. */
  function ReadArray<T>(v: View<T>, zero: T): View<T>
  {
    if v.size.Some? && v.buffer.None? then v.(buffer := Some(Zeros(zero, v.size.value))) else v
  }

  /** Reading `size`: the cell springs into existence holding zero. */
  function ReadSize<T>(v: View<T>): View<T>
  {
    if v.size.None? then v.(size := Some(0)) else v
  }

  predicate WellFormed<T>(v: View<T>)
  {
    v.buffer.Some? ==> v.size.Some?
  }

  /** Everything that can happen to an array: its two properties are read, and whoever holds
      the pointers they returned writes the cell or overwrites a prefix of the elements. */
  datatype Event<T> = ArrayRead | SizeRead | CellWritten(value: nat) | ElementsWritten(prefix: seq<T>)

  function Apply<T>(v: View<T>, zero: T, e: Event<T>): View<T>
  {
    match e
    case ArrayRead => ReadArray(v, zero)
    case SizeRead => ReadSize(v)
    case CellWritten(n) => if v.size.Some? then v.(size := Some(n)) else v
    case ElementsWritten(p) =>
      if v.buffer.Some? && |p| <= |v.buffer.value| then v.(buffer := Some(p + v.buffer.value[|p|..])) else v
  }

  function After<T>(v: View<T>, zero: T, events: seq<Event<T>>): View<T>
  {
    if events == [] then v
    else Apply(After(v, zero, events[..|events| - 1]), zero, events[|events| - 1])
  }

  /** Length of the allocated buffer. */
  function Capacity<T>(v: View<T>): Option<nat>
  {
    if v.buffer.Some? then Some(|v.buffer.value|) else None
  }

  /** A size exists exactly once it was given or read; a buffer, once there, keeps its
      capacity through every later event. */
  lemma {:induction false} SizeAndCapacityPersist<T>(v: View<T>, zero: T, events: seq<Event<T>>, i: nat)
    requires WellFormed(v) && i <= |events|
    ensures WellFormed(After(v, zero, events))
    ensures After(v, zero, events).size.Some? <==> v.size.Some? || SizeRead in events
    ensures var c := Capacity(After(v, zero, events[..i])); c.Some? ==> Capacity(After(v, zero, events)) == c
  {
    if i == |events| {
      assert events[..i] == events;
    }
    if events != [] {
      var front := events[..|events| - 1];
      assert events == front + [events[|events| - 1]];
      SizeAndCapacityPersist(v, zero, front, if i < |events| then i else 0);
      if i < |events| {
        assert events[..i] == front[..i];
      }
    }
  }

  /** A capacity has one origin: the first `array` read that found a size, whose value then
      it still is, whatever was written to the cell afterwards. */
  lemma {:induction false} CapacityOrigin<T>(v: View<T>, zero: T, events: seq<Event<T>>) returns (k: nat)
    requires WellFormed(v) && v.buffer.None? && After(v, zero, events).buffer.Some?
    ensures k < |events| && events[k] == ArrayRead
    ensures After(v, zero, events[..k]).buffer.None? && After(v, zero, events[..k + 1]).buffer.Some?
    ensures Capacity(After(v, zero, events)) == After(v, zero, events[..k]).size
    ensures forall j :: 0 <= j < |events| && events[j] == ArrayRead && After(v, zero, events[..j]).size.Some? ==> k <= j
  {
    k := AllocationPoint(v, zero, events);
    forall j | 0 <= j < k && events[j] == ArrayRead && After(v, zero, events[..j]).size.Some?
      ensures false
    {
      assert events[..k][..j + 1] == events[..j + 1] && events[..j + 1][..j] == events[..j];
      SizeAndCapacityPersist(v, zero, events[..k], j + 1);
    }
  }

  lemma {:induction false} AllocationPoint<T>(v: View<T>, zero: T, events: seq<Event<T>>) returns (k: nat)
    requires WellFormed(v) && v.buffer.None? && After(v, zero, events).buffer.Some?
    ensures k < |events| && events[k] == ArrayRead
    ensures After(v, zero, events[..k]).buffer.None? && After(v, zero, events[..k + 1]).buffer.Some?
    ensures Capacity(After(v, zero, events)) == After(v, zero, events[..k]).size
  {
    var front := events[..|events| - 1];
    if After(v, zero, front).buffer.Some? {
      k := AllocationPoint(v, zero, front);
      assert front[..k] == events[..k] && front[..k + 1] == events[..k + 1];
    } else {
      k := |events| - 1;
      assert events[..k + 1] == events;
    }
  }

  /** The pointer handed out is NULL exactly while no size has been given or read. */
  lemma NullOnlyWhileUnsized<T>(v: View<T>, zero: T, events: seq<Event<T>>, k: nat)
    requires WellFormed(v) && k < |events| && events[k] == ArrayRead
    ensures After(v, zero, events[..k + 1]).buffer.None? <==> v.size.None? && SizeRead !in events[..k]
  {
    assert events[..k + 1][..k] == events[..k];
    SizeAndCapacityPersist(v, zero, events[..k], 0);
  }

  class AutoCArray<T> {
    const zero: T
    var buffer: array?<T>
    var cell: Ulong?

    ghost predicate Valid()
      reads this
    {
      buffer != null ==> cell != null
    }

    ghost function Value(): (v: View<T>)
      reads this, cell, buffer
    {
      View(if cell == null then None else Some(cell.value), if buffer == null then None else Some(buffer[..]))
    }

    /** The claimed size does not exceed the room there is. */
    ghost predicate Honest()
      reads this, cell
    {
      buffer != null && cell != null ==> cell.value <= buffer.Length
    }

    constructor Unsized(zero: T)
      ensures Valid() && this.zero == zero && buffer == null && cell == null
    {
      this.zero, buffer, cell := zero, null, null;
    }

    /** The cell is the caller's own object, shared with the array. */
    constructor Sized(zero: T, size: Ulong)
      ensures Valid() && this.zero == zero && buffer == null && cell == size
    {
      this.zero, buffer, cell := zero, null, size;
    }

    constructor FromData(zero: T, data: seq<T>)
      ensures Valid() && this.zero == zero && fresh(buffer) && fresh(cell)
      ensures Value() == View(Some(|data|), Some(data))
    {
      this.zero := zero;
      buffer := new T[|data|](i requires 0 <= i < |data| => data[i]);
      cell := new Ulong(|data|);
      new;
      assert buffer[..] == data;
    }

    method Array() returns (p: array?<T>)
      requires Valid()
      modifies this`buffer
      ensures Valid() && p == buffer
      ensures Value() == ReadArray(old(Value()), zero)
      ensures old(buffer) != null ==> buffer == old(buffer)
      ensures buffer != old(buffer) ==> fresh(buffer)
    {
      if cell == null {
        return null;
      }
      if buffer == null {
        buffer := new T[cell.value](_ => zero);
        assert buffer[..] == Zeros(zero, cell.value);
      }
      p := buffer;
    }

    method Size() returns (p: Ulong)
      requires Valid()
      modifies this`cell
      ensures Valid() && p == cell
      ensures Value() == ReadSize(old(Value()))
      ensures old(cell) != null ==> cell == old(cell)
      ensures cell != old(cell) ==> fresh(cell)
    {
      if cell == null {
        cell := new Ulong(0);
      }
      p := cell;
    }

    method Len() returns (n: nat)
      ensures n == if Value().buffer.Some? then |Value().buffer.value| else 0
    {
      n := if buffer != null then buffer.Length else 0;
    }

    /** The elements a for-loop over the array yields. */
    method Iterate() returns (items: seq<T>)
      ensures items == if Value().buffer.Some? then Value().buffer.value else []
    {
      items := [];
      if buffer != null && buffer.Length != 0 {
        for i := 0 to buffer.Length
          invariant items == buffer[..i]
        {
          items := items + [buffer[i]];
        }
        assert items == buffer[..];
      }
    }
  }
}
