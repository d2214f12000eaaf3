/** Pipes (kernel/pipe.c): a ring of 512 bytes with 32-bit counters. A writer or reader that has to sleep
    gives up the lock, so each method runs to the next sleep; any sequence of calls is an interleaving. */
module Pipe {
  import opened Common

  const PIPESIZE := 512
  const WRAP := 0x1_0000_0000

  /** A count of bytes as a 32-bit counter, the counter after one, and a counter's place in the ring. */
  function Counter(n: nat): nat { n % WRAP }

  function Next(c: nat): nat { (c + 1) % WRAP }

  function Slot(c: nat): (k: nat)
    ensures k < PIPESIZE
  {
    c % PIPESIZE
  }

  /** nread + PIPESIZE in 32 bits. */
  function Limit(c: nat): nat { (c + PIPESIZE) % WRAP }

  lemma NextCounter(n: nat)
    ensures Next(Counter(n)) == Counter(n + 1)
  {
  }

  /** The size of the ring divides the range of the counters. */
  lemma SlotCounter(n: nat)
    ensures Slot(Counter(n)) == Slot(n)
  {
  }

  /** Bytes that are in the ring together are in different places. */
  lemma SlotsApart(k: nat, l: nat)
    requires k < l < k + PIPESIZE
    ensures Slot(k) != Slot(l)
  {
  }

  /** Comparing the counters tells an empty and a full ring, even after they have wrapped around. */
  lemma CountersTell(r: nat, w: nat)
    requires r <= w <= r + PIPESIZE
    ensures Counter(r) == Counter(w) <==> r == w
    ensures Counter(w) == Limit(Counter(r)) <==> w == r + PIPESIZE
  {
  }

  /** How a call ends: with a return value, or asleep with i bytes done. */
  datatype Outcome = Returns(value: int) | Sleeps(i: nat)

  /** The process has been killed by the time it comes to byte k. */
  predicate Killed(killed: Option<nat>, k: nat) { killed.Some? && killed.value <= k }

  class PipeBuffer {
    const data: array<Byte>
    var nread: nat
    var nwrite: nat
    var readopen: bool
    var writeopen: bool
    /** All bytes ever written and ever taken out. */
    ghost var written: seq<Byte>
    ghost var consumed: seq<Byte>

    /** The bytes taken out are the first that were written, in order; the ring holds the others. */
    ghost predicate Valid()
      reads this, data
    {
      && data.Length == PIPESIZE && consumed <= written && |written| <= |consumed| + PIPESIZE
      && nread == Counter(|consumed|) && nwrite == Counter(|written|)
      && forall k :: |consumed| <= k < |written| ==> data[Slot(k)] == written[k]
    }

    ghost function Buffered(): seq<Byte>
      requires |consumed| <= |written|
      reads this
    {
      written[|consumed|..]
    }

    /** pipealloc(), the pipe itself. */
    constructor ()
      ensures Valid() && written == [] && consumed == [] && readopen && writeopen && fresh(data)
    {
      data := new Byte[PIPESIZE](_ => 0);
      nread, nwrite, readopen, writeopen := 0, 0, true, true;
      written, consumed := [], [];
    }

    /** pipeclose(): tells whether the pipe is to be freed. */
    method Close(writable: bool) returns (gone: bool)
      requires Valid()
      modifies this`readopen, this`writeopen
      ensures Valid() && readopen == (old(readopen) && writable) && writeopen == (old(writeopen) && !writable)
      ensures gone <==> !readopen && !writeopen
    {
      if writable {
        writeopen := false;
      } else {
        readopen := false;
      }
      gone := !readopen && !writeopen;
    }

    /** pipewrite() of n bytes, from the start or after a sleep with i done. The bytes of src can be copied
        in, the one after them cannot. A kill may arrive at any byte. */
    method Write(src: seq<Byte>, n: nat, i: nat, killed: Option<nat>) returns (r: Outcome, ghost done: nat)
      requires Valid() && i <= n && i <= |src|
      modifies this`nwrite, this`written, data
      ensures Valid() && i <= done <= n && done <= |src| && written == old(written) + src[i..done]
      ensures done > i ==> readopen && !Killed(killed, done - 1)
      ensures done < n && (!readopen || Killed(killed, done)) ==> r == Returns(-1)
      ensures done == n || (readopen && !Killed(killed, done)) ==>
                if done == n || (done == |src| && |Buffered()| < PIPESIZE) then r == Returns(done)
                else r == Sleeps(done) && |Buffered()| == PIPESIZE
    {
      hide Slot, Counter, Limit;
      var at := i;
      ghost var written0 := written;
      while at < n
        invariant i <= at <= n && at <= |src| && Valid() && written == written0 + src[i..at]
        invariant at > i ==> readopen && !Killed(killed, at - 1)
      {
        if !readopen || Killed(killed, at) {
          return Returns(-1), at;
        }
        CountersTell(|consumed|, |written|);
        if nwrite == Limit(nread) {
          return Sleeps(at), at;
        }
        if at >= |src| {
          break;
        }
        Put(src[at]);
        assert src[i..at + 1] == src[i..at] + [src[at]];
        at := at + 1;
      }
      CountersTell(|consumed|, |written|);
      return Returns(at), at;
    }

    /** pi->data[pi->nwrite++ % PIPESIZE] = ch */
    method Put(ch: Byte)
      requires Valid() && |Buffered()| < PIPESIZE
      modifies this`nwrite, this`written, data
      ensures Valid() && written == old(written) + [ch]
    {
      hide Slot, Counter, Next;
      SlotCounter(|written|);
      NextCounter(|written|);
      forall k | |consumed| <= k < |written|
        ensures Slot(k) != Slot(|written|)
      {
        SlotsApart(k, |written|);
      }
      data[Slot(nwrite)] := ch;
      nwrite := Next(nwrite);
      written := written + [ch];
    }

    /** ch = pi->data[pi->nread++ % PIPESIZE] */
    method Get() returns (ch: Byte)
      requires Valid() && |Buffered()| > 0
      modifies this`nread, this`consumed
      ensures Valid() && ch == old(Buffered())[0] && consumed == old(consumed) + [ch]
    {
      hide Slot, Counter, Next;
      SlotCounter(|consumed|);
      NextCounter(|consumed|);
      ch := data[Slot(nread)];
      nread := Next(nread);
      consumed := consumed + [ch];
    }

    /** piperead() of up to n bytes, of which room can be copied out before the copy fails. What it delivers
        are the next bytes of the pipe; when the copy fails, one byte more is gone. */
    method Read(n: nat, room: nat, killed: bool) returns (r: Outcome, dst: seq<Byte>)
      requires Valid()
      modifies this`nread, this`consumed
      ensures Valid()
      ensures old(Buffered()) == [] && writeopen ==>
              dst == [] && consumed == old(consumed) && r == if killed then Returns(-1) else Sleeps(0)
      ensures old(Buffered()) != [] || !writeopen ==>
                var want := if n < |old(Buffered())| then n else |old(Buffered())|;
                && r == Returns(|dst|)
                && (want <= room ==> dst == old(Buffered())[..want] && consumed == old(consumed) + dst)
                && (want > room ==>
                    dst == old(Buffered())[..room] && consumed == old(consumed) + old(Buffered())[..room + 1])
    {
      hide Slot, Counter, Limit;
      CountersTell(|consumed|, |written|);
      dst := [];
      if nread == nwrite && writeopen {
        return (if killed then Returns(-1) else Sleeps(0)), dst;
      }
      ghost var queue, consumed0 := Buffered(), consumed;
      var i := 0;
      while i < n
        invariant 0 <= i <= n && i <= |queue| && i <= room && Valid()
        invariant dst == queue[..i] && consumed == consumed0 + queue[..i] && Buffered() == queue[i..]
      {
        CountersTell(|consumed|, |written|);
        if nread == nwrite {
          break;
        }
        var ch := Get();
        assert queue[..i + 1] == queue[..i] + [ch];
        if i >= room {
          return Returns(i), dst;
        }
        dst := dst + [ch];
        i := i + 1;
      }
      return Returns(i), dst;
    }
  }
}
