/** ringbuffer.c called without interference: a class with the C functions as
    methods, proved against a bounded first-in first-out queue of bytes. */
module RingBuffer {
  import opened CTypes
  import opened RingArith

  /** A copy of data to virtual index x, seen through both mappings. */
  function Splice(mem: seq<byte>, x: nat, data: seq<byte>): (m: seq<byte>)
    requires 0 < |mem| && x < 2 * |mem| && |data| <= |mem|
    ensures |m| == |mem|
  {
    seq(|mem|, c requires 0 <= c < |mem| =>
      var offset := Lag(|mem|, x, c);
      if offset < |data| then data[offset] else mem[c])
  }

  /** How far cell c lies behind virtual index x, going round the ring. */
  function Lag(capacity: nat, x: nat, c: nat): (d: nat)
    requires x < 2 * capacity && c < capacity
    ensures d < capacity
  {
    var start := if x < capacity then x else x - capacity;
    if start <= c then c - start else c + capacity - start
  }

  class Ring {
    const capacity: size_t
    const buffer: array<byte>
    var head: size_t
    var tail: size_t

    ghost predicate Valid()
      reads this, buffer
    {
      && ValidCapacity(capacity)
      && buffer.Length == capacity
      && head < capacity
      && head <= tail <= head + capacity
    }

    /** The queue this ring stands for. */
    ghost function Contents(): (q: seq<byte>)
      requires Valid()
      reads this, buffer
      ensures |q| == tail - head
    {
      View(buffer[..], capacity, head, tail - head)
    }

    ghost function Free(): nat
      requires Valid()
      reads this, buffer
    {
      capacity - |Contents()|
    }

    constructor (capacity: size_t)
      requires ValidCapacity(capacity)
      ensures Valid() && fresh(buffer) && this.capacity == capacity && Contents() == []
    {
      this.capacity := capacity;
      buffer := new byte[capacity](_ => 0);
      head, tail := 0, 0;
    }

    method WritePtr(size: size_t) returns (ptr: Option<size_t>)
      requires Valid()
      ensures ptr == if size <= Free() then Some(tail) else None
    {
      var h := head;
      var t := tail;
      var mapSize := 2 * capacity;
      if t < h {
        return None;
      }
      if Sub(capacity, Sub(t, h)) < size {
        return None;
      }
      if t >= mapSize || size > Sub(mapSize, t) {
        return None;
      }
      return Some(t);
    }

    /** The caller's memcpy into a granted region. */
    method Copy(ptr: size_t, data: Block)
      requires Valid() && ptr == tail && |data| <= Free()
      modifies buffer
      ensures Valid() && buffer[..] == Splice(old(buffer[..]), ptr, data)
      ensures Contents() == old(Contents())
      ensures View(buffer[..], capacity, ptr, |data|) == data
    {
      ghost var was := buffer[..];
      var i := 0;
      while i < |data|
        invariant 0 <= i <= |data|
        invariant forall c :: 0 <= c < capacity ==>
          buffer[c] == if Lag(capacity, ptr, c) < i then data[Lag(capacity, ptr, c)] else was[c]
      {
        buffer[Cell(capacity, ptr + i)] := data[i];
        i := i + 1;
      }
      assert buffer[..] == Splice(was, ptr, data);
      SpliceKeepsQueue(was, capacity, head, tail, data);
    }

    method WriteFinished(size: size_t) returns (r: int)
      requires Valid()
      modifies this`tail
      ensures Valid()
      ensures r == if size <= old(Free()) then 0 else 1
      ensures r == 0 ==> Contents() == old(Contents()) + View(buffer[..], capacity, old(tail), size)
      ensures r == 0 ==> tail == old(tail) + size
      ensures r == 1 ==> tail == old(tail)
    {
      var h := head;
      var t := tail;
      var mapSize := 2 * capacity;
      if t < h {
        return 1;
      }
      if Sub(capacity, Sub(t, h)) < size {
        return 1;
      }
      if t >= mapSize || size > Sub(mapSize, t) {
        return 1;
      }
      tail := Add(tail, size);
      return 0;
    }

    method Put(data: Block) returns (r: int)
      requires Valid()
      modifies this`tail, buffer
      ensures Valid()
      ensures r == if |data| <= old(Free()) then 0 else 1
      ensures r == 0 ==> Contents() == old(Contents()) + data
      ensures r == 1 ==> Contents() == old(Contents())
    {
      var h := head;
      var t := tail;
      var mapSize := 2 * capacity;
      if t < h {
        return 1;
      }
      if Sub(capacity, Sub(t, h)) < |data| {
        return 1;
      }
      if t >= mapSize || |data| > Sub(mapSize, t) {
        return 1;
      }
      Copy(t, data);
      tail := Add(tail, |data|);
      ViewConcat(buffer[..], capacity, head, t - head, |data|);
      return 0;
    }

    method ReadPtr(size: size_t) returns (ptr: Option<size_t>)
      requires Valid()
      ensures ptr == if size <= |Contents()| then Some(head) else None
      ensures ptr.Some? ==> View(buffer[..], capacity, ptr.value, size) == Contents()[..size]
    {
      var h := head;
      var t := tail;
      var mapSize := 2 * capacity;
      if t < h {
        return None;
      }
      if Sub(t, h) < size {
        return None;
      }
      if h >= mapSize || size > Sub(mapSize, h) {
        return None;
      }
      return Some(h);
    }

    method ReadFinished(size: size_t) returns (r: int)
      requires Valid()
      modifies this`head, this`tail
      ensures Valid()
      ensures r == if size <= |old(Contents())| then 0 else 1
      ensures r == 0 ==> Contents() == old(Contents())[size..]
      ensures r == 1 ==> head == old(head) && tail == old(tail)
    {
      if Sub(tail, head) < size {
        return 1;
      }
      ghost var q := Contents();
      head := Add(head, size);
      assert View(buffer[..], capacity, head, tail - head) == q[size..];
      if head >= capacity {
        ViewOneLapDown(buffer[..], capacity, head, tail - head);
        head := Sub(head, capacity);
        tail := Sub(tail, capacity);
      }
      return 0;
    }
  }

  lemma ViewConcat(mem: seq<byte>, capacity: size_t, start: nat, m: nat, n: nat)
    requires |mem| == capacity && start + m + n <= 2 * capacity
    ensures View(mem, capacity, start, m + n) == View(mem, capacity, start, m) + View(mem, capacity, start + m, n)
  {
    var v, a, b := View(mem, capacity, start, m + n), View(mem, capacity, start, m), View(mem, capacity, start + m, n);
    forall i | 0 <= i < m + n ensures v[i] == (a + b)[i] {
      if i >= m {
        assert v[i] == mem[Cell(capacity, start + m + (i - m))];
      }
    }
  }

  /** A region in the second mapping shows the same bytes one lap lower. */
  lemma ViewOneLapDown(mem: seq<byte>, capacity: size_t, start: nat, n: nat)
    requires |mem| == capacity && capacity <= start && start + n <= 2 * capacity
    ensures View(mem, capacity, start, n) == View(mem, capacity, start - capacity, n)
  {
    var a, b := View(mem, capacity, start, n), View(mem, capacity, start - capacity, n);
    forall i | 0 <= i < n ensures a[i] == b[i] {
      assert Cell(capacity, start + i) == Cell(capacity, start - capacity + i);
    }
  }

  /** A copy behind the queue leaves the queue alone and shows up behind it. */
  lemma SpliceKeepsQueue(mem: seq<byte>, capacity: size_t, head: nat, tail: nat, data: seq<byte>)
    requires |mem| == capacity && ValidCapacity(capacity) && head < capacity && head <= tail
    requires tail + |data| <= head + capacity && tail < 2 * capacity
    ensures var m := Splice(mem, tail, data);
      && View(m, capacity, head, tail - head) == View(mem, capacity, head, tail - head)
      && View(m, capacity, tail, |data|) == data
  {
    var m := Splice(mem, tail, data);
    forall i | 0 <= i < |data| ensures View(m, capacity, tail, |data|)[i] == data[i] {
      assert Lag(capacity, tail, Cell(capacity, tail + i)) == i;
    }
    var a, b := View(m, capacity, head, tail - head), View(mem, capacity, head, tail - head);
    forall i | 0 <= i < tail - head ensures a[i] == b[i] {
      assert Lag(capacity, tail, Cell(capacity, head + i)) >= |data|;
    }
  }

  /** Without interference the tests against the end of the mapping never refuse
      anything that the amount of room or data allows. */
  lemma MapGuardsNeverFire(capacity: size_t, head: size_t, tail: size_t, size: size_t)
    requires ValidCapacity(capacity) && head < capacity && head <= tail <= head + capacity
    ensures WriteAccepts(capacity, head, tail, size) <==> tail - head + size <= capacity
    ensures ReadAccepts(capacity, head, tail, size) <==> size <= tail - head
  {
  }
}
