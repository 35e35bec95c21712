/**
 The ring buffer: a byte array of one slot more than its capacity, so that equal positions mean
 empty.  All amounts are bytes, multiples of the element size.
 */
module RingBuffer {
  import opened Common

  // ---------------------------------------------------------------------------------------------
  // Multiples of the element size

  ghost predicate Multiple(a: int, size: nat) {
    exists k: int :: Times(k, size) == a
  }

  function Times(k: int, size: nat): int { k * size }

  lemma MultipleSum(a: int, b: int, size: nat)
    requires Multiple(a, size) && Multiple(b, size)
    ensures Multiple(a + b, size) && Multiple(a - b, size)
  {
    var j: int :| Times(j, size) == a;
    var k: int :| Times(k, size) == b;
    assert Times(j + k, size) == a + b;
    assert Times(j - k, size) == a - b;
  }

  lemma MultipleGap(a: int, b: int, size: nat)
    requires Multiple(a, size) && Multiple(b, size) && b < a
    ensures b + size <= a
  {
    MultipleSum(a, b, size);
    var k: int :| Times(k, size) == a - b;
    assert k >= 1 ==> k * size >= size;
    assert k <= 0 ==> k * size <= 0;
  }

  lemma MultipleBasics(size: nat)
    ensures Multiple(0, size) && Multiple(size, size)
  {
    assert Times(0, size) == 0 && Times(1, size) == size;
  }

  lemma MultipleDivides(a: nat, size: nat)
    requires size > 0 && Multiple(a, size)
    ensures a % size == 0 && a / size * size == a
  {
    var k: int :| Times(k, size) == a;
    var q, r := a / size, a % size;
    assert (k - q) * size == r;
    assert k - q >= 1 ==> (k - q) * size >= size;
    assert k - q <= -1 ==> (k - q) * size <= -1 * size;
  }

  lemma MultipleMin(a: nat, b: nat, size: nat)
    requires Multiple(a, size) && Multiple(b, size)
    ensures Multiple(Min(a, b), size)
  {
  }

  // ---------------------------------------------------------------------------------------------
  // The buffer

  /** The bytes between the two positions, across the end of the storage. */
  function Between<T>(s: seq<T>, front: nat, back: nat): seq<T>
    requires front <= |s| && back <= |s|
  {
    if front <= back then s[front..back] else s[front..] + s[..back]
  }

  class Ring<T(0)> {
    var storage: array<T>
    var front: nat      // the first byte that can be read
    var back: nat       // the first byte after the last byte of data
    const size: nat     // of one element

    ghost predicate Valid()
      reads this
    {
      && size > 0 && front < storage.Length && back < storage.Length
      && Multiple(front, size) && Multiple(back, size) && Multiple(storage.Length, size)
    }

    ghost function Contents(): seq<T>
      requires Valid()
      reads this, storage
    {
      Between(storage[..], front, back)
    }

    ghost function Capacity(): int
      reads this
    {
      storage.Length - size
    }

    /** How many bytes can be written. */
    ghost function Room(): nat
      requires Valid()
      reads this, storage
    {
      RoomForChunk();
      Capacity() - |Contents()|
    }

    /** `ringbuff_init`: room for `len` elements takes one slot more. */
    constructor (len: nat, size: nat)
      requires size > 0
      ensures Valid() && fresh(storage) && this.size == size
      ensures Contents() == [] && Capacity() == len * size && front == back == 0
    {
      this.size := size;
      storage := new T[(len + 1) * size];
      front, back := 0, 0;
      assert Times(len + 1, size) == (len + 1) * size == len * size + size;
      MultipleBasics(size);
    }

    /** `_ringbuff_chunksize_read` and `_ringbuff_chunksize_write` */
    function ReadChunk(): (n: nat)
      requires Valid()
      reads this
    {
      if front <= back then back - front else storage.Length - front
    }

    function WriteChunk(): (n: nat)
      requires Valid()
      reads this
    {
      MultipleGap(storage.Length, back, size);
      if front <= back then (storage.Length - back) - (if front == 0 then size else 0)
      else MultipleGap(front, back, size); front - back - size
    }

    /** `_do_ringbuff_read_chunk` */
    method ReadOnce(len: nat) returns (data: seq<T>)
      requires Valid() && Multiple(len, size)
      modifies `front
      ensures Valid()
      ensures data == old(Contents())[..Min(len, old(ReadChunk()))]
      ensures Contents() == old(Contents())[Min(len, old(ReadChunk()))..]
      ensures len >= old(ReadChunk()) ==> ReadChunk() == |Contents()|
    {
      hide Multiple;
      var amt := Min(len, ReadChunk());
      data := storage[front..front + amt];
      ReadChunkMultiple();
      MultipleMin(len, ReadChunk(), size);
      MultipleSum(front, amt, size);
      MultipleBasics(size);
      ReadMoves(storage[..], front, back, amt);
      front := front + amt;
      if front == storage.Length {
        front := 0;
      }
      assert front < storage.Length;
    }

    /** `ringbuff_read`: removes from the front as many bytes as are wanted and there. */
    method Read(len: nat) returns (data: seq<T>)
      requires Valid() && Multiple(len, size)
      modifies `front
      ensures Valid()
      ensures var n := Min(len, |old(Contents())|);
              data == old(Contents())[..n] && Contents() == old(Contents())[n..]
    {
      hide Multiple, Between;
      ReadChunkMultiple();
      ChunkOfContents();
      ghost var chunk, c := ReadChunk(), Contents();
      data := ReadOnce(len);
      if len > |data| && front != back {
        MultipleSum(len, chunk, size);
        var more := ReadOnce(len - |data|);
        TakeTwice(c, |data|, |more|);
        data := data + more;
      } else if front == back {
        EmptyContents();
      }
    }

    method MemCpy(at: nat, d: seq<T>)
      requires at + |d| <= storage.Length
      modifies storage
      ensures storage[..] == old(storage[..])[..at] + d + old(storage[..])[at + |d|..]
    {
      ghost var s := storage[..];
      for k := 0 to |d|
        invariant storage[..] == s[..at] + d[..k] + s[at + k..]
      {
        storage[at + k] := d[k];
      }
    }

    /** `_do_ringbuff_write_chunk` */
    method WriteOnce(buff: seq<T>) returns (amt: nat)
      requires Valid() && Multiple(|buff|, size)
      modifies `back, storage
      ensures Valid() && storage == old(storage)
      ensures amt == Min(|buff|, old(WriteChunk()))
      ensures Contents() == old(Contents()) + buff[..amt]
      ensures amt == old(WriteChunk()) ==> WriteChunk() == Room()
    {
      hide Multiple;
      amt := Min(|buff|, WriteChunk());
      ReadChunkMultiple();
      MultipleMin(|buff|, WriteChunk(), size);
      MultipleSum(back, amt, size);
      MultipleBasics(size);
      MultipleGap(storage.Length, back, size);
      if back < front {
        MultipleGap(front, back, size);
      }
      if 0 < front {
        MultipleGap(front, 0, size);
      }
      ghost var s := storage[..];
      MemCpy(back, buff[..amt]);
      WriteMoves(s, front, back, buff[..amt], storage[..]);
      back := back + amt;
      if back == storage.Length {
        back := 0;
      }
      assert back < storage.Length;
    }

    /** `ringbuff_write`: appends as many bytes as fit. */
    method Write(buff: seq<T>) returns (amt: nat)
      requires Valid() && Multiple(|buff|, size)
      modifies `back, storage
      ensures Valid() && storage == old(storage)
      ensures amt == Min(|buff|, old(Room()))
      ensures Contents() == old(Contents()) + buff[..amt]
    {
      hide Multiple, Between;
      ReadChunkMultiple();
      RoomForChunk();
      ghost var chunk := WriteChunk();
      amt := WriteOnce(buff);
      if |buff| > amt && front != back + size {
        MultipleSum(|buff|, chunk, size);
        var more := WriteOnce(buff[amt..]);
        assert buff[..amt] + buff[amt..][..more] == buff[..amt + more];
        amt := amt + more;
      }
    }

    /** There is always room for the contiguous part. */
    lemma RoomForChunk()
      requires Valid()
      ensures WriteChunk() <= Capacity() - |Contents()|
      ensures front == back + size ==> |Contents()| == Capacity()
    {
      MultipleGap(storage.Length, back, size);
      if back < front {
        MultipleGap(front, back, size);
      } else if 0 < front {
        MultipleBasics(size);
        MultipleGap(front, 0, size);
      }
    }

    /** `ringbuff_is_full` misses the full buffer whose data starts at the start of the storage. */
    method IsFull() returns (full: bool)
      requires Valid()
      ensures full <==> |Contents()| == Capacity() && front != 0
    {
      MultipleGap(storage.Length, back, size);
      full := front == back + size;
    }

    /** `ringbuff_space_used` and `ringbuff_space_left`, in elements */
    method SpaceUsed() returns (n: nat)
      requires Valid()
      ensures n * size == |Contents()|
    {
      var bytes := if front <= back then back - front else (storage.Length - front) + back;
      SpaceMultiple();
      MultipleDivides(bytes, size);
      assert bytes % size == 0;
      n := bytes / size;
    }

    method SpaceLeft() returns (n: int)
      requires Valid()
      ensures n * size == Capacity() - |Contents()|
    {
      var bytes := if back < front then front - back else (storage.Length - back) + front;
      SpaceMultiple();
      MultipleDivides(bytes, size);
      assert bytes % size == 0;
      n := bytes / size - 1;
      assert n * size == bytes / size * size - size;
    }

    lemma SpaceMultiple()
      requires Valid()
      ensures Multiple(|Contents()|, size) && Multiple(storage.Length - |Contents()|, size)
    {
      MultipleSum(back, front, size);
      MultipleSum(storage.Length, front, size);
      MultipleSum(storage.Length - front, back, size);
      MultipleSum(storage.Length, |Contents()|, size);
    }

    lemma ChunkOfContents()
      requires Valid()
      ensures ReadChunk() <= |Contents()|
    {
    }

    lemma EmptyContents()
      requires Valid() && front == back
      ensures Contents() == []
    {
    }

    lemma ReadChunkMultiple()
      requires Valid()
      ensures Multiple(ReadChunk(), size) && Multiple(WriteChunk(), size)
    {
      MultipleSum(back, front, size);
      MultipleSum(storage.Length, front, size);
      MultipleSum(storage.Length, back, size);
      MultipleSum(storage.Length - back, size, size) by { MultipleBasics(size); }
      MultipleSum(front, back, size);
      MultipleSum(front - back, size, size) by { MultipleBasics(size); }
    }
  }

  lemma TakeTwice<T>(c: seq<T>, a: nat, b: nat)
    requires a + b <= |c|
    ensures c[..a] + c[a..][..b] == c[..a + b] && c[a..][b..] == c[a + b..]
  {
  }

  lemma ReadMoves<T>(s: seq<T>, front: nat, back: nat, amt: nat)
    requires front < |s| && back < |s| && amt <= (if front <= back then back - front else |s| - front)
    ensures amt <= |Between(s, front, back)| && s[front..front + amt] == Between(s, front, back)[..amt]
    ensures Between(s, if front + amt == |s| then 0 else front + amt, back) == Between(s, front, back)[amt..]
  {
  }

  lemma WriteMoves<T>(s: seq<T>, front: nat, back: nat, d: seq<T>, t: seq<T>)
    requires front < |s| && back < |s|
    requires if front <= back then back + |d| <= |s| && (back + |d| == |s| ==> front > 0) else back + |d| < front
    requires t == s[..back] + d + s[back + |d|..]
    ensures Between(t, front, if back + |d| == |s| then 0 else back + |d|) == Between(s, front, back) + d
  {
    if front <= back {
      assert t[front..back + |d|] == s[front..back] + d;
    } else {
      assert t[front..] == s[front..];
    }
  }

  /** A buffer for one byte, with one byte in it: it is full, and `ringbuff_is_full` says that it is not. */
  method FullRingDenied() returns (r: Ring<bv8>, full: bool)
    ensures fresh(r) && r.Valid() && |r.Contents()| == r.Capacity() == 1 && !full
  {
    r := new Ring(1, 1);
    MultipleBasics(1);
    var n := r.Write([7]);
    full := r.IsFull();
  }
}
