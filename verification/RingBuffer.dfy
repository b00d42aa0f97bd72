/** The ring buffer that overwrites its oldest element (pkg/ringbuffer/ringbuffer.go). */
module RingBuffer {
  /** The last `n` elements of `s`, or all if there are fewer. */
  function LastN<T>(s: seq<T>, n: nat): (r: seq<T>)
    ensures |r| == if |s| <= n then |s| else n
    ensures forall i :: 0 <= i < |r| ==> r[i] == s[|s| - |r| + i]
  {
    if |s| <= n then s else s[|s| - n..]
  }

  /** Keeping the last `n` as elements arrive is keeping the last `n` of all of them. */
  lemma LastNSnoc<T>(s: seq<T>, x: T, n: nat)
    requires n > 0
    ensures LastN(LastN(s, n) + [x], n) == LastN(s + [x], n)
  {
  }

  predicate InPlace(n: int, head: int, size: int) {
    0 <= head < n && 0 <= size <= n && (size < n ==> head == size)
  }

  /** The elements of the ring `d`, oldest first. */
  function Window<T>(d: seq<T>, head: int, size: int): seq<T>
    requires InPlace(|d|, head, size)
  {
    if size < |d| then d[..size] else d[head..] + d[..head]
  }

  function NextHead(n: int, head: int): int
    requires 0 <= head < n
  {
    (head + 1) % n
  }

  lemma NextHeadIs(n: int, head: int)
    requires 0 <= head < n
    ensures NextHead(n, head) == if head + 1 == n then 0 else head + 1
  {
  }

  /** Writing at the head drops the oldest element exactly when the ring is full. */
  lemma PushWindow<T>(d: seq<T>, head: int, size: int, item: T)
    requires InPlace(|d|, head, size)
    ensures var next, more := NextHead(|d|, head), if size < |d| then size + 1 else size;
            && InPlace(|d|, next, more)
            && Window(d[head := item], next, more) == LastN(Window(d, head, size) + [item], |d|)
  {
    NextHeadIs(|d|, head);
    var n := |d|;
    var w := Window(d, head, size) + [item];
    if size < n {
      assert Window(d[head := item], NextHead(n, head), size + 1) == w;
    } else if head + 1 == n {
      assert Window(d[head := item], 0, n) == w[1..];
    } else {
      assert Window(d[head := item], head + 1, n) == w[1..];
    }
  }

  class RingBuffer<T(0)> {
    const data: array<T>
    var head: int
    var size: int
    /** The elements, oldest first. */
    ghost var contents: seq<T>

    ghost predicate Valid()
      reads this, data
    {
      InPlace(data.Length, head, size) && contents == Window(data[..], head, size)
    }

    constructor (capacity: int)
      requires capacity > 0
      ensures Valid() && fresh(data) && data.Length == capacity && contents == []
    {
      data := new T[capacity];
      head, size, contents := 0, 0, [];
    }

    method Push(item: T)
      requires Valid()
      modifies this, data
      ensures Valid() && contents == LastN(old(contents) + [item], data.Length)
    {
      PushWindow(data[..], head, size, item);
      contents := LastN(contents + [item], data.Length);
      data[head] := item;
      head := NextHead(data.Length, head);
      if size < data.Length {
        size := size + 1;
      }
    }

    method GetAll() returns (result: seq<T>)
      requires Valid()
      ensures result == contents
    {
      if size == 0 {
        return [];
      }
      if size < data.Length {
        return data[..size];
      }
      result := data[head..] + data[..head];
    }

    /** `zero` is the value the cleared places are given. */
    method Clear(zero: T)
      requires Valid()
      modifies this, data
      ensures Valid() && contents == []
    {
      head, size, contents := 0, 0, [];
      for i := 0 to data.Length
        invariant Valid() && contents == []
      {
        data[i] := zero;
      }
    }
  }

  /** `New`: there is no buffer without capacity. */
  method New<T(0)>(capacity: int) returns (ok: bool, buffer: RingBuffer?<T>)
    ensures ok <==> capacity > 0
    ensures ok <==> buffer != null
    ensures ok ==> fresh(buffer) && fresh(buffer.data) && buffer.Valid()
    ensures ok ==> buffer.data.Length == capacity && buffer.contents == []
  {
    if capacity <= 0 {
      return false, null;
    }
    buffer := new RingBuffer<T>(capacity);
    ok := true;
  }
}
