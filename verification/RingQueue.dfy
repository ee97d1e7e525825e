/** The drop-oldest ring of byte_queue.c and eru_event_queue.c, which differ only in
    the element type. */
module RingQueue {
  const MAX_BUF_SIZE: int := 64

  /** The most recent n items. */
  function KeepLast<T>(items: seq<T>, n: nat): (r: seq<T>)
    ensures |r| == if |items| <= n then |items| else n
  {
    if |items| <= n then items else items[|items| - n..]
  }

  /** What is kept is the end of what there was. */
  lemma KeepLastIsSuffix<T>(items: seq<T>, n: nat)
    ensures var lost := if |items| <= n then 0 else |items| - n;
            items[..lost] + KeepLast(items, n) == items
  {
  }

  function Next(slot: int, capacity: int): int {
    if slot + 1 == capacity then 0 else slot + 1
  }

  /** Pushing one by one keeps what pushing all at once would keep: after any pushes the
      ring holds the last items, as many as fit. */
  lemma KeepLastTwice<T>(items: seq<T>, more: seq<T>, n: nat)
    ensures KeepLast(KeepLast(items, n) + more, n) == KeepLast(items + more, n)
  {
  }

  /** The items between head and tail, wrapping at capacity. */
  function Window<T>(buffer: seq<T>, head: int, tail: int, capacity: int): seq<T>
    requires 0 <= capacity <= |buffer| && (capacity > 0 ==> 0 <= head < capacity && 0 <= tail < capacity)
  {
    if capacity == 0 then []
    else if head <= tail then buffer[head..tail]
    else buffer[head..capacity] + buffer[..tail]
  }

  lemma WindowGrows<T>(buffer: seq<T>, head: int, tail: int, capacity: int, item: T)
    requires 0 <= head < capacity <= |buffer| && 0 <= tail < capacity
    ensures var window, buffer' := Window(buffer, head, tail, capacity), buffer[tail := item];
            if Next(tail, capacity) != head then
              |window| + 1 < capacity && Window(buffer', head, Next(tail, capacity), capacity) == window + [item]
            else
              |window| + 1 == capacity &&
              Window(buffer', Next(head, capacity), Next(tail, capacity), capacity) == (window + [item])[1..]
  {
    var window, buffer' := Window(buffer, head, tail, capacity), buffer[tail := item];
    if head <= tail {
      assert window == buffer[head..tail];
      assert buffer'[head..tail + 1] == window + [item];
      if tail + 1 == capacity && head > 0 {
        assert Window(buffer', head, 0, capacity) == window + [item];
      } else if tail + 1 == capacity {
        assert Window(buffer', Next(0, capacity), 0, capacity) == (window + [item])[1..];
      }
    } else {
      WindowWrapped(buffer, head, tail, capacity, item);
    }
  }

  lemma WindowWrapped<T>(buffer: seq<T>, head: int, tail: int, capacity: int, item: T)
    requires 0 <= tail < head < capacity <= |buffer|
    ensures var window, buffer' := Window(buffer, head, tail, capacity), buffer[tail := item];
            if tail + 1 != head then
              |window| + 1 < capacity && Window(buffer', head, tail + 1, capacity) == window + [item]
            else
              |window| + 1 == capacity &&
              Window(buffer', Next(head, capacity), tail + 1, capacity) == (window + [item])[1..]
  {
    var buffer' := buffer[tail := item];
    var upper, lower := buffer[head..capacity], buffer[..tail];
    assert buffer'[..tail + 1] == lower + [item];
    assert buffer'[head..capacity] == upper;
    if tail + 1 != head {
      assert upper + (lower + [item]) == (upper + lower) + [item];
    } else if head + 1 < capacity {
      assert buffer'[head + 1..capacity] == upper[1..];
      assert upper[1..] + (lower + [item]) == ((upper + lower) + [item])[1..];
    } else {
      assert ((upper + lower) + [item])[1..] == lower + [item];
    }
  }

  /** The slot i places behind head. */
  function SlotOf(head: int, capacity: int, i: nat): int {
    if head + i < capacity then head + i else head + i - capacity
  }

  /** A push writes behind the last item and may drop the first; every other item keeps
      its slot. */
  lemma SlotsStay(head: int, tail: int, capacity: int, count: nat, lost: nat, i: nat)
    requires 0 <= head < capacity && 0 <= tail < capacity && 0 <= lost <= 1
    requires SlotOf(head, capacity, count) == tail && i + lost <= count < capacity
    ensures SlotOf(SlotOf(head, capacity, lost), capacity, i) == SlotOf(head, capacity, i + lost)
    ensures i + lost == count ==> SlotOf(SlotOf(head, capacity, lost), capacity, i) == tail
  {
  }

  lemma TailSlot<T>(buffer: seq<T>, head: int, tail: int, capacity: int)
    requires 0 <= head < capacity <= |buffer| && 0 <= tail < capacity
    ensures var count := |Window(buffer, head, tail, capacity)|;
            count < capacity && SlotOf(head, capacity, count) == tail
  {
  }

  /** (slot + 1) % capacity */
  method Increment(slot: int, capacity: int) returns (r: int)
    requires 0 <= slot < capacity
    ensures r == Next(slot, capacity)
  {
    r := (slot + 1) % capacity;
  }

  /** (slot - 1 + capacity) % capacity */
  method Decrement(slot: int, capacity: int) returns (r: int)
    requires 0 <= slot < capacity
    ensures 0 <= r < capacity && Next(r, capacity) == slot
  {
    r := (slot - 1 + capacity) % capacity;
    if slot > 0 {
      assert slot - 1 + capacity == (slot - 1) + 1 * capacity;
      Wrapped(slot - 1, capacity);
    }
  }

  lemma Wrapped(slot: nat, capacity: int)
    requires slot < capacity
    ensures (slot + capacity) % capacity == slot
  {
  }

  class Ring<T(0)> {
    const buffer: array<T>
    var head: int
    var tail: int
    var capacity: int

    ghost predicate Valid()
      reads this
    {
      && buffer.Length == MAX_BUF_SIZE
      && 0 <= capacity <= MAX_BUF_SIZE
      && (capacity == 0 ==> head == tail)
      && (capacity > 0 ==> 0 <= head < capacity && 0 <= tail < capacity)
    }

    /** The queue from the oldest to the newest item. */
    ghost function Contents(): seq<T>
      requires Valid()
      reads this, buffer
    {
      Window(buffer[..], head, tail, capacity)
    }

    /** The slot of the i-th oldest item. */
    ghost function Slot(i: nat): int
      reads this
    {
      SlotOf(head, capacity, i)
    }

    lemma SlotHolds(i: nat)
      requires Valid() && i < |Contents()|
      ensures 0 <= Slot(i) < capacity && Slot(i) != tail && Contents()[i] == buffer[Slot(i)]
    {
    }

    /** A zeroed static queue. */
    constructor ()
      ensures Valid() && capacity == 0 && fresh(buffer)
    {
      buffer := new T[MAX_BUF_SIZE];
      head, tail, capacity := 0, 0, 0;
    }

    method Init(size: int) returns (ok: bool)
      requires Valid()
      modifies this
      ensures Valid()
      ensures ok <==> 1 <= size <= 64
      ensures ok ==> capacity == size && Contents() == []
      ensures !ok ==> unchanged(this)
    {
      if size <= 0 || size > MAX_BUF_SIZE {
        return false;
      }
      head, tail, capacity := 0, 0, size;
      return true;
    }

    /** A push always succeeds on an initialised ring; when it fills the last free slot
        the oldest item goes. */
    method Push(item: T) returns (ok: bool)
      requires Valid()
      modifies this, buffer
      ensures Valid() && capacity == old(capacity)
      ensures ok <==> capacity > 0
      ensures ok ==> Contents() == KeepLast(old(Contents()) + [item], capacity - 1)
      ensures ok ==> tail == Next(old(tail), capacity)
      ensures ok ==> head == if tail == old(head) then Next(old(head), capacity) else old(head)
      ensures ok ==> var lost := |old(Contents())| + 1 - |Contents()|;
                     0 <= lost <= 1 && head == old(Slot(lost))
    {
      if capacity <= 0 {
        return false;
      }
      buffer[tail] := item;
      WindowGrows(old(buffer[..]), head, tail, capacity, item);
      assert buffer[..] == old(buffer[..])[tail := item];
      tail := Increment(tail, capacity);
      if tail == head {
        head := Increment(head, capacity);
      }
      return true;
    }

    method Pop(empty: T) returns (ok: bool, item: T)
      requires Valid()
      modifies this
      ensures Valid() && capacity == old(capacity) && tail == old(tail)
      ensures ok <==> old(Contents()) != []
      ensures ok ==> item == old(Contents())[0] && Contents() == old(Contents())[1..]
      ensures ok ==> head == old(Slot(1)) && item == buffer[old(head)]
      ensures !ok ==> Contents() == [] && head == old(head) && item == empty
    {
      if capacity <= 0 || head == tail {
        return false, empty;
      }
      item := buffer[head];
      head := Increment(head, capacity);
      return true, item;
    }
  }
}
