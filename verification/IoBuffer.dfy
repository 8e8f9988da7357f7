/** The growable, compacting byte buffer of source/net/io_buffer.h, refined to a byte sequence. */
module IoBuffers {
  import opened Bytes

  /** The capacity that repeated doubling reaches before `need` bytes fit. */
  ghost function Grown(capacity: nat, need: nat): (r: nat)
    ensures need <= r <==> capacity >= 1 || need == 0
    ensures r == capacity || r < 2 * need
    decreases need - capacity
  {
    if capacity >= need || capacity == 0 then capacity else Grown(2 * capacity, need)
  }

  function Doubled(capacity: nat, times: nat): nat
    decreases times
  {
    if times == 0 then capacity else Doubled(2 * capacity, times - 1)
  }

  /** Doubling ends, with room for `need` bytes, before it leaves 32 bits. */
  ghost predicate Fits(capacity: nat, need: nat) {
    need <= Grown(capacity, need) < U32
  }

  lemma {:induction false} GrownIsDoubled(capacity: nat, need: nat) returns (times: nat)
    ensures Doubled(capacity, times) == Grown(capacity, need)
    decreases need - capacity
  {
    if capacity >= need || capacity == 0 {
      times := 0;
    } else {
      var more := GrownIsDoubled(2 * capacity, need);
      times := more + 1;
    }
  }

  lemma {:induction false} GrownIsLeast(capacity: nat, need: nat, times: nat)
    requires Doubled(capacity, times) >= need
    ensures (capacity >= 1 || need == 0) && capacity <= Doubled(capacity, times)
    ensures need <= Grown(capacity, need) <= Doubled(capacity, times)
    decreases times
  {
    if times > 0 {
      GrownIsLeast(2 * capacity, need, times - 1);
    }
  }

  /** Reserving stays within 32 bits exactly when some number of doublings makes room and is a 32-bit number. */
  lemma FitsIff(capacity: nat, need: nat)
    ensures Fits(capacity, need) <==> exists times: nat :: need <= Doubled(capacity, times) < U32
  {
    if Fits(capacity, need) {
      var times := GrownIsDoubled(capacity, need);
      assert need <= Doubled(capacity, times) < U32;
    }
    forall times: nat | need <= Doubled(capacity, times) < U32 ensures Fits(capacity, need) {
      GrownIsLeast(capacity, need, times);
    }
  }

  /** The big-endian image of a 32-bit word, as push_back(uint32_t) lays it out. */
  function WordBytes(word: nat): (r: seq<Byte>)
    requires word < U32
    ensures |r| == 4
  {
    [word / 0x100_0000, word / 0x1_0000 % 0x100, word / 0x100 % 0x100, word % 0x100]
  }

  class IoBuffer {
    var data: array<Byte>
    var capacity: nat
    var head: nat
    var tail: nat

    ghost predicate Valid()
      reads this
    {
      capacity == data.Length && capacity < U32 && head <= tail <= capacity
    }

    ghost function Contents(): seq<Byte>
      requires Valid()
      reads this, data
    {
      data[head..tail]
    }

    /** What `reserve(n)` demands: FitsIff says what it means. */
    ghost predicate CanReserve(n: nat)
      reads this
    {
      Fits(capacity, tail + n)
    }

    constructor (capacity: nat)
      requires capacity < U32
      ensures Valid() && fresh(data)
      ensures this.capacity == capacity && head == 0 && Contents() == []
    {
      data := new Byte[capacity];
      this.capacity := capacity;
      head, tail := 0, 0;
    }

    method Size() returns (n: nat)
      requires Valid()
      ensures n == |Contents()|
    {
      n := tail - head;
    }

    /** Drops a prefix. Only the two offsets change, so bytes a decoder has just pointed at stay in place. */
    method ReadN(n: nat)
      requires Valid() && n <= |Contents()|
      modifies this`head, this`tail
      ensures Valid() && Contents() == old(Contents())[n..]
    {
      head := head + n;
      if head == tail {
        head, tail := 0, 0;
      }
    }

    /** Accepts `n` bytes already placed behind the tail; shifts everything left once the end is reached. */
    method WriteN(n: nat)
      requires Valid() && n <= capacity - tail
      modifies this`head, this`tail, data
      ensures Valid()
      ensures Contents() == old(data[head..tail + n])
      ensures tail == capacity ==> head == 0
    {
      var dataSize := tail - head + n;
      tail := tail + n;
      if tail == capacity && head != 0 {
        var i := 0;
        while i < dataSize
          invariant 0 <= i <= dataSize
          invariant forall k :: 0 <= k < i ==> data[k] == old(data[..])[k + head]
          invariant forall k :: i <= k < capacity ==> data[k] == old(data[..])[k]
          modifies data
        {
          data[i] := data[i + head];
          i := i + 1;
        }
        ghost var shifted := old(data[..])[head..tail];
        assert data[0..dataSize] == shifted;
        head, tail := 0, dataSize;
      }
    }

    method DoubleCapacity()
      requires Valid() && 2 * capacity < U32
      modifies this`data, this`capacity
      ensures Valid() && fresh(data)
      ensures capacity == 2 * old(capacity) && Contents() == old(Contents())
    {
      var bigger := new Byte[2 * capacity];
      forall i | 0 <= i < capacity {
        bigger[i] := data[i];
      }
      assert bigger[head..tail] == data[head..tail];
      data := bigger;
      capacity := 2 * capacity;
    }

    method Reserve(n: nat)
      requires Valid() && CanReserve(n)
      modifies this`data, this`capacity
      ensures Valid() && (data == old(data) || fresh(data))
      ensures capacity - tail >= n && Contents() == old(Contents())
      ensures capacity == old(Grown(capacity, tail + n))
      ensures capacity == old(capacity) || capacity < 2 * (tail + n)
    {
      while capacity - tail < n
        invariant Valid() && CanReserve(n)
        invariant Contents() == old(Contents())
        invariant data == old(data) || fresh(data)
        invariant Grown(capacity, tail + n) == old(Grown(capacity, tail + n))
        decreases tail + n - capacity
      {
        DoubleCapacity();
      }
    }

    method PushBack(bytes: seq<Byte>)
      requires Valid() && CanReserve(|bytes|)
      modifies this`data, this`capacity, this`tail, data
      ensures Valid() && (data == old(data) || fresh(data))
      ensures Contents() == old(Contents()) + bytes
      ensures capacity == old(Grown(capacity, tail + |bytes|)) && tail == old(tail) + |bytes|
    {
      Reserve(|bytes|);
      Place(bytes);
      tail := tail + |bytes|;
      assert Contents() == old(Contents()) + bytes;
    }

    /** Copies bytes behind the tail without accepting them: memcpy, or the kernel filling the buffer in read(2). */
    method Place(bytes: seq<Byte>)
      requires Valid() && |bytes| <= capacity - tail
      modifies data
      ensures data[head..tail + |bytes|] == old(Contents()) + bytes
    {
      forall i | 0 <= i < |bytes| {
        data[tail + i] := bytes[i];
      }
    }

    /** push_back(uint32_t). */
    method PushWord(word: nat)
      requires Valid() && CanReserve(4) && word < U32
      modifies this`data, this`capacity, this`tail, data
      ensures Valid() && (data == old(data) || fresh(data))
      ensures Contents() == old(Contents()) + WordBytes(word)
      ensures capacity == old(Grown(capacity, tail + 4)) && tail == old(tail) + 4
    {
      Reserve(4);
      PlaceWord(word);
      tail := tail + 4;
    }

    /** The four stores of push_back(uint32_t): the low byte first, into the highest position. */
    method PlaceWord(word: nat)
      requires Valid() && capacity - tail >= 4 && word < U32
      modifies data
      ensures data[head..tail + 4] == old(Contents()) + WordBytes(word)
    {
      var rest := word;
      var i := 0;
      while i < 4
        invariant 0 <= i <= 4
        invariant i == 0 ==> rest == word
        invariant i == 1 ==> rest == word / 0x100
        invariant i == 2 ==> rest == word / 0x1_0000
        invariant i == 3 ==> rest == word / 0x100_0000
        invariant forall k :: 4 - i <= k < 4 ==> data[tail + k] == WordBytes(word)[k]
        invariant forall k :: 0 <= k < tail ==> data[k] == old(data[k])
      {
        data[tail + (3 - i)] := rest % 0x100;
        rest := rest / 0x100;
        i := i + 1;
      }
      assert data[tail..tail + 4] == WordBytes(word);
      assert data[head..tail] == old(Contents());
    }
  }
}
