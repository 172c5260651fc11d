/** src/fs/pipe.c: the ring of a pipe and its two 32-bit counters, which wrap around. */
module PipeRing {

  import opened Basics

  const PIPE_SIZE: nat := 512

  // 32-bit addition
  function Add32(a: nat, b: nat): nat { (a + b) % U32 }

  // How a turn of pipe_write under the lock ends: all is written, the ring is full (the writer posts, releases the lock
  // and waits), or nobody can read.
  datatype Turn = Done | Full | Broken

  // Whether pipe_read goes on to read, returns -1 or waits.
  datatype Check = Ready | Killed | Wait

  class Pipe {
    var data: seq<Byte>
    var nread: nat
    var nwrite: nat
    var readopen: bool
    var writeopen: bool
    ghost var stored: seq<Byte>  // every byte ever stored
    ghost var taken: nat         // how many of them were delivered

    // What is in the ring is what was stored and not delivered, and never more than fits.
    ghost predicate Valid()
      reads this
    {
      && |data| == PIPE_SIZE && taken <= |stored| <= taken + PIPE_SIZE
      && nread == taken % U32 && nwrite == |stored| % U32
      && forall j :: taken <= j < |stored| ==> data[j % PIPE_SIZE] == stored[j]
    }

    constructor ()
      ensures Valid() && stored == [] && taken == 0 && readopen && writeopen
    {
      data, nread, nwrite, readopen, writeopen := seq(PIPE_SIZE, _ => 0), 0, 0, true, true;
      stored, taken := [], 0;
    }

    // The counters tell an empty and a full ring apart, even after they have wrapped around.
    lemma {:induction false} Counters()
      requires Valid()
      ensures nread == nwrite <==> taken == |stored|
      ensures nwrite == Add32(nread, PIPE_SIZE) <==> |stored| == taken + PIPE_SIZE
      ensures (nwrite + U32 - nread) % U32 == |stored| - taken
    {
      Difference(taken, |stored| - taken);
    }

    // One byte into the ring; the place is computed from the wrapped counter.
    method Store(x: Byte)
      requires Valid() && |stored| < taken + PIPE_SIZE
      modifies this`data, this`nwrite, this`stored
      ensures Valid() && stored == old(stored) + [x]
    {
      Place(|stored|);
      data := data[nwrite % PIPE_SIZE := x];
      nwrite := Add32(nwrite, 1);
      NextCount(|stored|);
      ghost var n := |stored|;
      stored := stored + [x];
      forall j | taken <= j < |stored| ensures data[j % PIPE_SIZE] == stored[j] {
        if j < n { Apart(j, n); }
      }
    }

    // One byte out of it.
    method Take() returns (x: Byte)
      requires Valid() && taken < |stored|
      modifies this`nread, this`taken
      ensures Valid() && taken == old(taken) + 1 && x == stored[old(taken)]
    {
      Place(taken);
      x := data[nread % PIPE_SIZE];
      NextCount(taken);
      nread := Add32(nread, 1);
      taken := taken + 1;
    }

    // A turn of pipe_write, from count on: as much as fits goes in, in order.
    method WriteTurn(src: seq<Byte>, count: nat, killed: bool) returns (turn: Turn, count': nat)
      requires Valid() && count <= |src|
      modifies this`data, this`nwrite, this`stored
      ensures Valid() && count <= count' <= |src| && stored == old(stored) + src[count..count']
      ensures turn == Done <==> count' == |src|
      ensures turn == Full ==> |stored| == taken + PIPE_SIZE
      ensures turn == Broken <==> count < |src| && (!readopen || killed)
      ensures turn == Broken ==> count' == count
    {
      count' := count;
      while count' < |src|
        invariant Valid() && count <= count' <= |src| && stored == old(stored) + src[count..count']
        invariant count' > count ==> readopen && !killed
      {
        if !readopen || killed {
          return Broken, count';
        }
        Counters();
        if nwrite == Add32(nread, PIPE_SIZE) {
          return Full, count';
        }
        Store(src[count']);
        assert src[count..count' + 1] == src[count..count'] + [src[count']];
        count' := count' + 1;
      }
      turn := Done;
    }

    // pipe_read once there is something to read or nobody can write: what is there, up to n bytes, in order.
    method ReadTurn(n: nat) returns (dest: seq<Byte>)
      requires Valid()
      modifies this`nread, this`taken
      ensures Valid() && old(taken) <= taken <= |stored| && dest == stored[old(taken)..taken]
      ensures |dest| == if n < |stored| - old(taken) then n else |stored| - old(taken)
    {
      dest := [];
      Counters();
      while |dest| < n && nread != nwrite
        invariant Valid() && old(taken) <= taken <= |stored| && dest == stored[old(taken)..taken] && |dest| <= n
        invariant nread == nwrite <==> taken == |stored|
        decreases n - |dest|
      {
        var x := Take();
        assert stored[old(taken)..taken] == stored[old(taken)..taken - 1] + [x];
        dest := dest + [x];
        Counters();
      }
    }

    // A round of the waiting loop of pipe_read, for a process that may have been killed.
    method ReadCheck(killed: bool) returns (check: Check)
      requires Valid()
      ensures check == if taken < |stored| || !writeopen then Ready else if killed then Killed else Wait
    {
      Counters();
      if nread != nwrite || !writeopen {
        return Ready;
      }
      if killed {
        return Killed;
      }
      return Wait;
    }
  }

  lemma {:induction false} Difference(a: nat, d: nat)
    requires d <= PIPE_SIZE
    ensures var r, w := a % U32, (a + d) % U32;
            && (r == w <==> d == 0) && (w == Add32(r, PIPE_SIZE) <==> d == PIPE_SIZE) && (w + U32 - r) % U32 == d
  {
    var q, r := a / U32, a % U32;
    assert a == U32 * q + r;
    assert (a + d) % U32 == if r + d < U32 then r + d else r + d - U32;
  }

  // The size of the ring divides the range of the counters.
  lemma {:induction false} Place(n: nat)
    ensures n % U32 % PIPE_SIZE == n % PIPE_SIZE
  {
    var q := n / U32;
    assert n == U32 * q + n % U32;
    assert U32 == PIPE_SIZE * 0x80_0000;
  }

  lemma {:induction false} NextCount(n: nat)
    ensures Add32(n % U32, 1) == (n + 1) % U32
  {
  }

  lemma {:induction false} Apart(j: nat, n: nat)
    requires j < n < j + PIPE_SIZE
    ensures j % PIPE_SIZE != n % PIPE_SIZE
  {
  }
}
