/** Index arithmetic of the double-mapped ring: size_t values that wrap modulo
    2^64, the mirror that makes index x and x + capacity the same byte, and the
    two admission decisions of ringbuffer.c. */
module RingArith {
  import opened CTypes

  const SIZE_MODULUS: int := 0x1_0000_0000_0000_0000

  type size_t = x: int | 0 <= x < SIZE_MODULUS

  type Block = d: seq<byte> | |d| < SIZE_MODULUS

  function Add(a: size_t, b: size_t): size_t {
    if a + b < SIZE_MODULUS then a + b else a + b - SIZE_MODULUS
  }

  function Sub(a: size_t, b: size_t): size_t {
    if b <= a then a - b else a - b + SIZE_MODULUS
  }

  /** Capacities whose two mappings fit into the address space. */
  predicate ValidCapacity(capacity: size_t) {
    0 < capacity && 2 * capacity < SIZE_MODULUS
  }

  /** The physical byte behind a virtual index of the doubly mapped buffer. */
  function Cell(capacity: size_t, x: nat): (c: nat)
    requires x < 2 * capacity
    ensures c < capacity
  {
    if x < capacity then x else x - capacity
  }

  /** What a reader sees through a pointer to virtual index start. */
  function View(mem: seq<byte>, capacity: size_t, start: nat, n: nat): (v: seq<byte>)
    requires |mem| == capacity && start + n <= 2 * capacity
    ensures |v| == n
  {
    seq(n, i requires 0 <= i < n => mem[Cell(capacity, start + i)])
  }

  /** The three tests shared by rb_put, rb_write_ptr and rb_write_finished. */
  predicate WriteAccepts(capacity: size_t, head: size_t, tail: size_t, size: size_t)
    requires ValidCapacity(capacity)
  {
    var mapSize := 2 * capacity;
    if tail < head then false
    else if Sub(capacity, Sub(tail, head)) < size then false
    else !(tail >= mapSize || size > Sub(mapSize, tail))
  }

  /** The three tests of rb_read_ptr. */
  predicate ReadAccepts(capacity: size_t, head: size_t, tail: size_t, size: size_t)
    requires ValidCapacity(capacity)
  {
    var mapSize := 2 * capacity;
    if tail < head then false
    else if Sub(tail, head) < size then false
    else !(head >= mapSize || size > Sub(mapSize, head))
  }
}
