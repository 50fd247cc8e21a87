/** Pipes (kernel/pipe.c): a ring of 512 bytes with 32-bit counters that wrap, and two
  wait channels.

  Each method is what one process does while it holds the pipe's lock, from acquiring it
  (or waking up with it) to releasing it (or going to sleep on it). `stored` and `taken`
  are all bytes ever put into the pipe and ever removed from it; the asleep sets hold
  the processes sleeping on nread and nwrite.
 */
module Pipe {
  import opened Common

  const PIPESIZE := 512

  // ---------------------------------------------------------------- wrapped counters

  /** The test for a full pipe is exact, whatever the counters have wrapped to. */
  lemma FullTest(read: nat, written: nat)
    requires read <= written <= read + PIPESIZE
    ensures written % UINT32 == (read % UINT32 + PIPESIZE) % UINT32 <==> written == read + PIPESIZE
  {
  }

  lemma EmptyTest(read: nat, written: nat)
    requires read <= written <= read + PIPESIZE
    ensures read % UINT32 == written % UINT32 <==> read == written
  {
  }

  /** 512 divides 2^32, so the ring index is that of the true count. */
  lemma RingIndex(n: nat)
    ensures n % UINT32 % PIPESIZE == n % PIPESIZE && (n % UINT32 + 1) % UINT32 == (n + 1) % UINT32
  {
  }

  lemma DifferentPlaces(a: nat, b: nat)
    requires a < b < a + PIPESIZE
    ensures a % PIPESIZE != b % PIPESIZE
  {
  }

  datatype Outcome = Slept | Returned(r: int)

  class Pipe {
    var data: array<int>
    var nread: int
    var nwrite: int
    var readopen: bool
    var writeopen: bool
    ghost var stored: seq<int>
    ghost var taken: seq<int>
    ghost var readersAsleep: set<int>
    ghost var writersAsleep: set<int>

    /** What is taken is a prefix of what was stored; the rest, at most PIPESIZE bytes, is in the ring. */
    ghost predicate Ring()
      reads this, data
    {
      && data.Length == PIPESIZE && |taken| <= |stored| <= |taken| + PIPESIZE && taken == stored[..|taken|]
      && nwrite == |stored| % UINT32 && nread == |taken| % UINT32
      && forall k :: |taken| <= k < |stored| ==> data[k % PIPESIZE] == stored[k]
    }

    ghost predicate Empty()
      reads this
    {
      |stored| == |taken|
    }

    ghost predicate IsFull()
      reads this
    {
      |stored| == |taken| + PIPESIZE
    }

    /** No reader sleeps without reason. */
    ghost predicate ReadersOk()
      reads this
    {
      readersAsleep != {} ==> Empty() && writeopen
    }

    /** No writer does. */
    ghost predicate WritersOk()
      reads this
    {
      writersAsleep != {} ==> IsFull() && readopen
    }

    ghost predicate SleepOk()
      reads this
    {
      ReadersOk() && WritersOk()
    }

    /** How many bytes fit. */
    ghost function Room(): int
      reads this
    {
      PIPESIZE - (|stored| - |taken|)
    }

    ghost predicate Valid()
      reads this, data
    {
      Ring() && SleepOk()
    }

    /** pipealloc */
    constructor ()
      ensures Valid() && readopen && writeopen && fresh(data)
      ensures stored == [] && taken == [] && readersAsleep == {} && writersAsleep == {}
    {
      data := new int[PIPESIZE];
      nread, nwrite, readopen, writeopen := 0, 0, true, true;
      stored, taken, readersAsleep, writersAsleep := [], [], {}, {};
    }

    /** A reader and a writer are never asleep at the same time. */
    lemma NoDeadlock()
      requires Valid()
      ensures readersAsleep == {} || writersAsleep == {}
    {
    }

    /** pi->data[pi->nwrite++ % PIPESIZE] = ch */
    method Store(ch: int)
      requires Ring() && !IsFull()
      modifies this`nwrite, this`stored, data
      ensures Ring() && stored == old(stored) + [ch]
    {
      RingIndex(|stored|);
      data[nwrite % PIPESIZE] := ch;
      forall k | |taken| <= k < |stored|
        ensures data[k % PIPESIZE] == stored[k]
      {
        DifferentPlaces(k, |stored|);
      }
      nwrite := (nwrite + 1) % UINT32;
      stored := stored + [ch];
    }

    /** ch = pi->data[pi->nread++ % PIPESIZE] */
    method Fetch() returns (ch: int)
      requires Ring() && !Empty()
      modifies this`nread, this`taken
      ensures Ring() && ch == stored[old(|taken|)] && taken == old(taken) + [ch]
    {
      RingIndex(|taken|);
      ch := data[nread % PIPESIZE];
      nread := (nread + 1) % UINT32;
      assert stored[..|taken| + 1] == stored[..|taken|] + [stored[|taken|]];
      taken := taken + [ch];
    }

    /** pipewrite from byte i0 on: bytes go in until all are in, the pipe is full, or copyin
        fails at byte `bad`. A writer that finds the pipe full gives up if there is no reader
        or it has been killed; it then wakes nobody, and readers that were asleep stay so
        before a full pipe. Every other call leaves no reader asleep. */
    method Write(p: int, src: seq<int>, i0: nat, killed: bool, bad: nat) returns (i: nat, out: Outcome)
      requires Ring() && writeopen && i0 <= |src| && p !in writersAsleep
      modifies this, data
      ensures data == old(data) && readopen == old(readopen) && writeopen == old(writeopen)
      ensures Ring() && i0 <= i <= |src| && stored == old(stored) + src[i0..i] && taken == old(taken)
      ensures !(i0 <= bad < i) && (out == Slept ==> i < |src|)
      ensures out == Slept ==> && IsFull() && readopen && !killed && readersAsleep == {}
                               && writersAsleep == old(writersAsleep) + {p}
      ensures out != Slept ==> writersAsleep == old(writersAsleep) && (out == Returned(-1) || out == Returned(|src|))
      ensures out == Returned(|src|) ==> readersAsleep == {} && (i == |src| || i == bad)
      ensures out == Returned(-1) ==>
              i < |src| && IsFull() && (!readopen || killed) && readersAsleep == old(readersAsleep)
      ensures out == Returned(-1) <==> && (!readopen || killed) && |src| - i0 > old(Room())
                                       && !(i0 <= bad < i0 + old(Room()))
      ensures old(WritersOk()) ==> WritersOk()
      ensures ReadersOk() <==> !(out == Returned(-1) && old(readersAsleep) != {})
    {
      i := i0;
      while i < |src|
        invariant i0 <= i <= |src| && Ring() && data == old(data) && stored == old(stored) + src[i0..i]
                  && taken == old(taken)
        invariant i > i0 && old(WritersOk()) ==> writersAsleep == {} && old(writersAsleep) == {}
        invariant !(i0 <= bad < i) && |stored| == |old(stored)| + i - i0
        invariant readersAsleep == old(readersAsleep) && writersAsleep == old(writersAsleep)
        invariant readopen == old(readopen) && writeopen == old(writeopen)
      {
        FullTest(|taken|, |stored|);
        if nwrite == (nread + PIPESIZE) % UINT32 {
          if !readopen || killed {
            return i, Returned(-1);
          }
          readersAsleep := {};              // wakeup(&pi->nread)
          writersAsleep := writersAsleep + {p};
          return i, Slept;
        }
        if i == bad {
          break;
        }
        Store(src[i]);
        i := i + 1;
      }
      readersAsleep := {};
      out := Returned(|src|);
    }

    /** piperead: waits while the pipe is empty and may still be written; otherwise takes up
        to n bytes, in the order they were stored. copyout fails at byte `bad`: that byte is lost.
        Where readers were left asleep without reason, they have one again exactly if the call
        empties a pipe that may still be written. */
    method Read(p: int, n: int, killed: bool, bad: nat) returns (got: seq<int>, out: Outcome)
      requires Ring() && readopen && p !in readersAsleep
      modifies this
      ensures Ring() && data == old(data) && data[..] == old(data[..]) && stored == old(stored) && readopen
              && writeopen == old(writeopen)
      ensures out == Slept ==> Empty() && writeopen && !killed && taken == old(taken) && got == []
                               && readersAsleep == old(readersAsleep) + {p} && writersAsleep == old(writersAsleep)
      ensures out == Returned(-1) ==> Empty() && writeopen && killed && taken == old(taken) && got == []
                                      && readersAsleep == old(readersAsleep) && writersAsleep == old(writersAsleep)
      ensures out.Returned? && out.r != -1 ==>
                && out.r == |got| && readersAsleep == old(readersAsleep) && writersAsleep == {}
                && got <= stored[|old(taken)|..] && |got| <= bad && (|got| > 0 ==> |got| <= n)
                && (if |got| == bad && |got| < n
                    && !(|old(taken)| + |got| == |stored|) then |taken| == |old(taken)| + |got| + 1
                    else taken == old(taken) + got && (|got| >= n || Empty()))
      ensures out.Returned? && out.r != -1 <==> !(old(Empty()) && writeopen)
      ensures old(WritersOk()) ==> WritersOk()
      ensures if old(ReadersOk()) then ReadersOk() else ReadersOk() <==> Empty() && writeopen
    {
      got := [];
      EmptyTest(|taken|, |stored|);
      if nread == nwrite && writeopen {
        if killed {
          return [], Returned(-1);
        }
        readersAsleep := readersAsleep + {p};
        return [], Slept;
      }
      ghost var from := |taken|;
      while |got| < n
        invariant Ring() && data == old(data) && stored == old(stored) && readopen && writeopen == old(writeopen)
        invariant taken == old(taken) + got && |got| <= bad && (|got| > 0 ==> |got| <= n)
        invariant readersAsleep == old(readersAsleep) && writersAsleep == old(writersAsleep)
        decreases |stored| - |taken|
      {
        EmptyTest(|taken|, |stored|);
        if nread == nwrite {
          break;
        }
        var ch := Fetch();
        if |got| == bad {
          break;
        }
        got := got + [ch];
      }
      writersAsleep := {};                  // wakeup(&pi->nwrite)
      out := Returned(|got|);
    }

    /** pipeclose of the write end; no process is in pipewrite. Nobody is left asleep. */
    method CloseWrite()
      requires Ring() && writersAsleep == {}
      modifies this`writeopen, this`readersAsleep
      ensures Valid() && !writeopen && readersAsleep == {}
    {
      writeopen := false;
      readersAsleep := {};
    }

    /** pipeclose of the read end; no process is in piperead. */
    method CloseRead()
      requires Ring() && readersAsleep == {}
      modifies this`readopen, this`writersAsleep
      ensures Valid() && !readopen && writersAsleep == {}
    {
      readopen := false;
      writersAsleep := {};
    }

    /** kill wakes a sleeper, which will look at its condition again. */
    ghost method Kill(p: int)
      requires Ring()
      modifies this`readersAsleep, this`writersAsleep
      ensures Ring() && readersAsleep == old(readersAsleep) - {p} && writersAsleep == old(writersAsleep) - {p}
      ensures ReadersOk() <==> old(ReadersOk()) || readersAsleep == {}
      ensures WritersOk() <==> old(WritersOk()) || writersAsleep == {}
    {
      readersAsleep := readersAsleep - {p};
      writersAsleep := writersAsleep - {p};
    }
  }

  /** The killed writer: a reader sleeps on an empty pipe, and a writer that has been killed
      fills the pipe with the first of 513 bytes. The reader sleeps on before a full pipe,
      until the next writer calls. */
  method StrandedReader() returns (pipe: Pipe)
    ensures fresh(pipe) && pipe.Ring() && pipe.IsFull() && pipe.readersAsleep == {1} && !pipe.SleepOk()
  {
    pipe := new Pipe();
    var got, out := pipe.Read(1, 1, false, 1);
    var i;
    i, out := pipe.Write(2, seq(513, k => 7), 0, true, 513);
  }
}
