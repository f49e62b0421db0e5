/**
 * The byte buffer behind every engine (src/char_buffer.c).
 *
 * Pointers become an array and offsets into it: `mem` is what `begin` points to (null before the
 * first allocation), `mem.Length` is `end - begin`, and `inBuf` with `inHead` and `inTail` is the
 * input window, which lies either in the caller's array or in `mem`.
 */
module CharBuffer {
  import opened Bytes

  const MIN_LENGTH: nat := 1024

  /** The capacity after an allocation that must hold `used + needed` octets. */
  function Grown(length: nat, used: nat, needed: nat): nat {
    if 2 * (used + needed) < 3 * length then 3 * length / 2 else used + needed
  }

  class Buffer {
    var mem: array?<byte>
    var head: nat
    var tail: nat
    var inBuf: array?<byte>
    var inHead: nat
    var inTail: nat

    /** The octets between `head` and `tail`. */
    ghost var contents: seq<byte>
    /** The unread input. */
    ghost var view: seq<byte>
    /** The largest `used + needed` ever asked for. */
    ghost var peak: nat

    ghost predicate Valid()
      reads this, mem
    {
      && head <= tail
      && (mem == null ==> tail == 0 && contents == [])
      && (mem != null ==>
            && tail <= mem.Length && contents == mem[head..tail]
            && (mem.Length <= MIN_LENGTH || 2 * mem.Length <= 3 * peak))
    }

    /** The room past `tail`. */
    function Free(): nat
      reads this
      requires mem == null || tail <= mem.Length
    {
      if mem == null then 0 else mem.Length - tail
    }

    /** The allocation is the same as before or a new one. */
    twostate predicate MemKept()
      reads this
    {
      mem == old(mem) || (mem != null && fresh(mem))
    }

    constructor ()
      ensures Valid() && contents == [] && mem == null && inBuf == null && head == tail == 0
    {
      mem, inBuf := null, null;
      head, tail, inHead, inTail := 0, 0, 0, 0;
      contents, view, peak := [], [], 0;
    }

    method Clear()
      requires Valid()
      modifies this`head, this`tail, this`contents
      ensures Valid() && contents == [] && head == 0
    {
      head, tail := 0, 0;
      contents := [];
    }

    /**
     * Keep the contents and make room for `needed` more octets: reuse the space before `head`
     * first, and enlarge the allocation only when that is not enough.
     */
    method EnsureCapacity(needed: nat)
      requires Valid()
      modifies this`mem, this`head, this`tail, this`peak, mem
      ensures Valid() && MemKept() && mem != null
      ensures needed <= Free() && head <= old(head)
      ensures head == if old(|contents|) > 0 && needed <= old(mem).Length - old(tail) then old(head) else 0
      ensures mem == old(mem) <==> old(mem) != null && old(|contents|) + needed <= old(mem).Length
      ensures old(mem) == null ==> mem.Length == if needed <= 1024 then 1024 else needed
      ensures old(mem) != null && mem != old(mem) ==>
                var length, all := old(mem).Length, old(|contents|) + needed;
                mem.Length == if length + length / 2 + length % 2 <= all then all else length + length / 2
      ensures peak == if old(peak) < old(|contents|) + needed then old(|contents|) + needed else old(peak)
    {
      var used := tail - head;
      peak := if peak < used + needed then used + needed else peak;
      if mem == null {
        Allocate(if needed > MIN_LENGTH then needed else MIN_LENGTH);
        return;
      }
      if used == 0 {
        head, tail := 0, 0;
      }
      var avail := mem.Length - tail;
      if needed > avail {
        MakeRoom(needed);
      }
    }

    /** The first allocation. */
    method Allocate(length: nat)
      requires Valid() && mem == null && (length <= MIN_LENGTH || length <= peak)
      modifies this`mem, this`head, this`tail
      ensures Valid() && mem != null && fresh(mem) && mem.Length == length && head == tail == 0
    {
      mem := new byte[length](_ => 0);
      head, tail := 0, 0;
    }

    /** Move the contents down, and if that is not enough move them to a larger allocation. */
    method MakeRoom(needed: nat)
      requires Valid() && mem != null && |contents| + needed <= peak
      modifies this`mem, this`head, this`tail, mem
      ensures Valid() && MemKept() && mem != null
      ensures needed <= Free() && head == 0
      ensures mem == old(mem) <==> |contents| + needed <= old(mem).Length
      ensures mem != old(mem) ==> mem.Length == Grown(old(mem).Length, |contents|, needed)
    {
      if head != 0 {
        Compact();
      }
      if needed > mem.Length - tail {
        Grow(Grown(mem.Length, tail, needed));
      }
    }

    /** Move the contents to the start of the allocation. */
    method Compact()
      requires Valid() && mem != null
      modifies this`head, this`tail, mem
      ensures Valid() && head == 0 && tail == |contents|
    {
      var used := tail - head;
      if used != 0 {
        forall i | 0 <= i < used {
          mem[i] := mem[head + i];
        }
      }
      head, tail := 0, used;
    }

    /** Replace the allocation by a larger one that starts with the same octets. */
    method Grow(length: nat)
      requires Valid() && mem != null && head == 0
      requires mem.Length <= length && 2 * length <= 3 * peak
      modifies this`mem
      ensures Valid() && mem != null && fresh(mem) && mem.Length == length
    {
      var grown := new byte[length](_ => 0);
      forall i | 0 <= i < mem.Length {
        grown[i] := mem[i];
      }
      mem := grown;
    }

    /** Copy `s` to the tail and advance past it, once there is room. */
    method Append(s: seq<byte>)
      requires Valid() && mem != null && |s| <= Free()
      modifies this`tail, this`contents, mem
      ensures Valid() && contents == old(contents) + s
    {
      forall i | 0 <= i < |s| {
        mem[tail + i] := s[i];
      }
      tail := tail + |s|;
      contents := contents + s;
    }

    // ----- writing past the tail first -----

    /** The first `n` octets past `tail`: written but not yet part of the contents. */
    ghost function Spare(n: nat): seq<byte>
      reads this, mem
      requires mem != null && tail + n <= mem.Length
    {
      mem[tail..tail + n]
    }

    method Poke(i: nat, b: byte)
      requires Valid() && mem != null && i < Free()
      modifies mem
      ensures Valid() && Spare(i + 1) == old(Spare(i)) + [b]
    {
      mem[tail + i] := b;
    }

    /** Make the first `n` octets past the tail part of the contents. */
    method Advance(n: nat)
      requires Valid() && mem != null && n <= Free()
      modifies this`tail, this`contents
      ensures Valid() && contents == old(contents) + old(Spare(n))
    {
      contents := contents + Spare(n);
      tail := tail + n;
    }

    // ----- the input window -----

    /** There is an input window, and it is the caller's array only when nothing was pending. */
    ghost predicate InInput()
      reads this, inBuf
    {
      && inBuf != null && inHead <= inTail <= inBuf.Length
      && view == inBuf[inHead..inTail]
      && (inBuf == mem ==> head <= inHead && inTail == tail)
      && (inBuf != mem ==> contents == [])
    }

    /** Use `buf` in place when nothing is pending, else copy it behind what is. */
    method BeginInput(buf: array<byte>, length: nat)
      requires Valid() && length <= buf.Length && buf != mem
      modifies this, mem
      ensures Valid() && MemKept() && InInput()
      ensures inBuf == buf || inBuf == mem
      ensures view == old(contents) + old(buf[..length])
    {
      var canShare := mem == null || tail == head;
      if canShare {
        inBuf, inHead, inTail := buf, 0, length;
        view := buf[..length];
      } else {
        EnsureCapacity(length);
        if length > 0 {
          Append(buf[..length]);
        }
        inBuf, inHead, inTail := mem, head, tail;
        view := contents;
      }
    }

    /** Move the start of the unread input past `n` octets. */
    method Consume(n: nat)
      requires InInput() && n <= |view|
      modifies this`inHead, this`view
      ensures InInput() && view == old(view)[n..]
    {
      inHead := inHead + n;
      view := view[n..];
    }

    /** Keep exactly the unread input. */
    method EndInput()
      requires Valid() && InInput()
      modifies this, mem
      ensures Valid() && MemKept() && contents == old(view) && inBuf == null
    {
      var didShare := mem == null || inBuf != mem || inTail != tail;
      if didShare {
        var rest := inBuf[inHead..inTail];
        if |rest| > 0 {
          EnsureCapacity(|rest|);
          Append(rest);
        }
      } else {
        head := inHead;
        contents := view;
      }
      inBuf, inHead, inTail := null, 0, 0;
    }
  }
}
