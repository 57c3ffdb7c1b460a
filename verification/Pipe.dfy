/** A pipe: a ring buffer with read and write ends, and threads parked until there is data or room. */
module Pipes {
  import opened Common
  import opened DistinctLists
  import opened PipeRings

  type EndId = nat
  type Waiter = nat

  datatype Side = ReadSide | WriteSide

  datatype End = End(side: Side, closed: bool)

  datatype ReadResult = Bytes(data: seq<Byte>) | ReadDenied | ReadClosed | ReadFault

  datatype WriteResult = Accepted(count: nat) | WriteDenied | WriteClosed | WriteFault

  datatype ParkResult = Parked | AtOnce | ParkDenied | ParkClosed | WouldBlockForever

  ghost function OpenEnds(ends: map<EndId, End>, side: Side): set<EndId> {
    set e | e in ends && ends[e] == End(side, false)
  }

  lemma OpenAdded(ends: map<EndId, End>, e: EndId, side: Side)
    requires e !in ends
    ensures var after := ends[e := End(side, false)];
      && |OpenEnds(after, ReadSide)| == |OpenEnds(ends, ReadSide)| + (if side == ReadSide then 1 else 0)
      && |OpenEnds(after, WriteSide)| == |OpenEnds(ends, WriteSide)| + (if side == WriteSide then 1 else 0)
  {
    var after := ends[e := End(side, false)];
    var other := if side == ReadSide then WriteSide else ReadSide;
    assert OpenEnds(after, side) == OpenEnds(ends, side) + {e};
    assert e !in OpenEnds(ends, side);
    assert OpenEnds(after, other) == OpenEnds(ends, other);
  }

  lemma OpenClosed(ends: map<EndId, End>, e: EndId)
    requires e in ends && !ends[e].closed
    ensures var side := ends[e].side; var after := ends[e := End(side, true)];
      && |OpenEnds(after, ReadSide)| == |OpenEnds(ends, ReadSide)| - (if side == ReadSide then 1 else 0)
      && |OpenEnds(after, WriteSide)| == |OpenEnds(ends, WriteSide)| - (if side == WriteSide then 1 else 0)
  {
    var side := ends[e].side;
    var after := ends[e := End(side, true)];
    assert OpenEnds(after, ReadSide) == OpenEnds(ends, ReadSide) - (if side == ReadSide then {e} else {});
    assert OpenEnds(after, WriteSide) == OpenEnds(ends, WriteSide) - (if side == WriteSide then {e} else {});
    assert e in OpenEnds(ends, side);
  }

  class Pipe {
    const buffer: array<Byte>
    var readOffset: nat
    var writeOffset: nat
    var size: nat
    var readerCount: nat
    var writerCount: nat
    var readWaiters: seq<Waiter>
    var writeWaiters: seq<Waiter>
    var ends: map<EndId, End>
    /** All bytes writes have accepted and reads have returned, over the whole run. */
    ghost var accepted: seq<Byte>
    ghost var returned: seq<Byte>

    ghost predicate RingOk()
      reads this, buffer
    {
      InRing(buffer[..], readOffset, size) && writeOffset == Tail(buffer[..], readOffset, size)
    }

    ghost function Contents(): seq<Byte>
      requires RingOk()
      reads this, buffer
    {
      Held(buffer[..], readOffset, size)
    }

    ghost predicate CountsOk()
      reads this
    {
      readerCount == |OpenEnds(ends, ReadSide)| && writerCount == |OpenEnds(ends, WriteSide)|
    }

    /** Whoever is parked has something to wait for and somebody to wait for. */
    ghost predicate ParkingOk()
      reads this, buffer
    {
      && (readWaiters != [] ==> size == 0 && writerCount > 0)
      && (writeWaiters != [] ==> size == buffer.Length && readerCount > 0)
    }

    /** What reads returned, followed by what the ring holds, is exactly what writes accepted. */
    ghost predicate Valid()
      reads this, buffer
    {
      RingOk() && CountsOk() && ParkingOk() && accepted == returned + Contents()
    }

    constructor (capacity: nat, first: EndId, side: Side)
      requires capacity > 0
      ensures Valid() && fresh(buffer) && accepted == [] && returned == [] && ends == map[first := End(side, false)]
      ensures buffer.Length % PAGE_SIZE == 0 && capacity <= buffer.Length < capacity + PAGE_SIZE
    {
      buffer := new Byte[(capacity + (PAGE_SIZE - 1)) / PAGE_SIZE * PAGE_SIZE];
      readOffset, writeOffset, size, readWaiters, writeWaiters := 0, 0, 0, [], [];
      ends, accepted, returned := map[first := End(side, false)], [], [];
      readerCount, writerCount := if side == ReadSide then 1 else 0, if side == WriteSide then 1 else 0;
      new;
      assert OpenEnds(ends, side) == {first};
      assert OpenEnds(ends, if side == ReadSide then WriteSide else ReadSide) == {};
    }

    /** Pipe::clone. */
    method Clone(e: EndId, side: Side, copy: EndId) returns (ok: bool)
      requires Valid() && e in ends && copy !in ends
      modifies this
      ensures Valid() && ok == !old(ends)[e].closed && accepted == old(accepted) && returned == old(returned)
      ensures ends == if ok then old(ends)[copy := End(side, false)] else old(ends)
    {
      if ends[e].closed {
        return false;
      }
      OpenAdded(ends, copy, side);
      ends := ends[copy := End(side, false)];
      if side == ReadSide {
        readerCount := readerCount + 1;
      } else {
        writerCount := writerCount + 1;
      }
      return true;
    }

    /** Takes a straight stretch off the front. */
    method TakeStretch(here: nat) returns (stretch: seq<Byte>)
      requires RingOk() && here <= size && readOffset + here <= buffer.Length
      modifies `readOffset, `size
      ensures RingOk() && |stretch| == here && old(Contents()) == stretch + Contents() && size == old(size) - here
    {
      Taken(buffer[..], readOffset, size, here);
      stretch := buffer[readOffset..readOffset + here];
      size := size - here;
      readOffset := Advanced(readOffset, here, buffer.Length);
    }

    /** Copies `n` held bytes out, in one or two stretches; a fault restores offset and size. */
    method TakeBytes(n: nat, accessible: nat) returns (ok: bool, data: seq<Byte>)
      requires RingOk() && n <= size
      modifies `readOffset, `size
      ensures RingOk() && ok == (n <= accessible)
      ensures ok ==> |data| == n && old(Contents()) == data + Contents() && size == old(size) - n
      ensures !ok ==> readOffset == old(readOffset) && size == old(size)
    {
      hide Held, Tail;
      var todo := n;
      data := [];
      var initialOffset, initialSize := readOffset, size;
      while todo > 0
        invariant 0 <= todo <= size && |data| + todo == n && RingOk()
        invariant old(Contents()) == data + Contents() && size == initialSize - |data|
        invariant |data| <= accessible
      {
        var here := if todo < buffer.Length - readOffset then todo else buffer.Length - readOffset;
        if |data| + here > accessible {
          readOffset, size := initialOffset, initialSize;
          return false, [];
        }
        var stretch := TakeStretch(here);
        assert data + (stretch + Contents()) == (data + stretch) + Contents();
        data := data + stretch;
        todo := todo - here;
      }
      return true, data;
    }

    /**
     Returns as many bytes as asked for and held, oldest first, and wakes every parked writer.
     `accessible` is how many bytes the caller's buffer takes; a fault puts the ring back as it was.
     */
    method Read(e: EndId, bytes: nat, accessible: nat) returns (result: ReadResult, woken: seq<Waiter>)
      requires Valid() && e in ends
      modifies this
      ensures Valid() && ends == old(ends) && accepted == old(accepted)
      ensures var n := if bytes < old(size) then bytes else old(size);
        && (result.ReadDenied? <==> ends[e].side == WriteSide)
        && (result.ReadClosed? <==> ends[e].side == ReadSide && ends[e].closed)
        && (result.ReadFault? <==> ends[e] == End(ReadSide, false) && n > accessible)
        && (result.Bytes? ==> |result.data| == n && old(Contents()) == result.data + Contents())
        && (!result.Bytes? ==> Contents() == old(Contents()) && woken == [])
      ensures returned == old(returned) + (if result.Bytes? then result.data else [])
      ensures readWaiters == old(readWaiters)
      ensures woken == (if result.Bytes? then old(writeWaiters) else [])
      ensures writeWaiters == if result.Bytes? then [] else old(writeWaiters)
    {
      hide Held, OpenEnds;
      woken := [];
      if ends[e].side == WriteSide {
        return ReadDenied, woken;
      }
      if ends[e].closed {
        return ReadClosed, woken;
      }
      if size == 0 {
        assert [] + Contents() == Contents();
        return Bytes([]), woken;
      }
      var ok, data := TakeBytes(if bytes < size then bytes else size, accessible);
      if !ok {
        return ReadFault, woken;
      }
      woken, writeWaiters := writeWaiters, [];
      assert returned + (data + Contents()) == (returned + data) + Contents();
      returned := returned + data;
      return Bytes(data), woken;
    }

    method Store(at: nat, data: seq<Byte>)
      requires at + |data| <= buffer.Length
      modifies buffer
      ensures buffer[..] == Overwritten(old(buffer[..]), at, data)
    {
      forall i | 0 <= i < |data| {
        buffer[at + i] := data[i];
      }
    }

    /** Puts a straight stretch behind what is held; the `older` first bytes stay as they are. */
    method PutStretch(stretch: seq<Byte>, counted: bool, ghost older: nat)
      requires RingOk() && size + |stretch| <= buffer.Length && writeOffset + |stretch| <= buffer.Length
      requires older <= size
      modifies `writeOffset, `size, buffer
      ensures InRing(buffer[..], readOffset, older)
      ensures Held(buffer[..], readOffset, older) == old(Held(buffer[..], readOffset, older))
      ensures Tail(buffer[..], readOffset, older) == old(Tail(buffer[..], readOffset, older))
      ensures counted ==> RingOk() && Contents() == old(Contents()) + stretch && size == old(size) + |stretch|
    {
      Appended(buffer[..], readOffset, size, stretch);
      StillHeld(buffer[..], readOffset, older, size, stretch);
      Store(writeOffset, stretch);
      if counted {
        writeOffset := Advanced(writeOffset, |stretch|, buffer.Length);
        size := size + |stretch|;
      }
    }

    /** Copies `data` in, in one or two stretches; a fault may scribble on free space but changes nothing held. */
    method PutBytes(data: seq<Byte>, accessible: nat) returns (ok: bool)
      requires RingOk() && size + |data| <= buffer.Length
      modifies `writeOffset, `size, buffer
      ensures RingOk() && ok == (|data| <= accessible) && size == old(size) + (if ok then |data| else 0)
      ensures Contents() == old(Contents()) + (if ok then data else [])
    {
      hide Held, Tail;
      var done := 0;
      var initialOffset, initialSize := writeOffset, size;
      while done < |data|
        invariant 0 <= done <= |data| && done <= accessible && RingOk() && size == initialSize + done
        invariant Contents() == old(Contents()) + data[..done]
        invariant InRing(buffer[..], readOffset, initialSize)
        invariant Held(buffer[..], readOffset, initialSize) == old(Contents())
        invariant initialOffset == Tail(buffer[..], readOffset, initialSize)
      {
        var left := |data| - done;
        OffsetInside();
        var here := if left < buffer.Length - writeOffset then left else buffer.Length - writeOffset;
        if done + here > accessible {
          PutStretch(data[done..accessible], false, initialSize);
          writeOffset, size := initialOffset, initialSize;
          return false;
        }
        PutStretch(data[done..done + here], true, initialSize);
        assert data[..done] + data[done..done + here] == data[..done + here];
        done := done + here;
      }
      assert data[..done] == data;
      return true;
    }

    lemma OffsetInside()
      requires RingOk()
      ensures writeOffset < buffer.Length
    {
    }

    /**
     Accepts as many bytes as there is room for and wakes every parked reader.
     A fault while copying changes nothing that is held.
     */
    method Write(e: EndId, data: seq<Byte>, accessible: nat) returns (result: WriteResult, woken: seq<Waiter>)
      requires Valid() && e in ends
      modifies this, buffer
      ensures Valid() && ends == old(ends) && returned == old(returned)
      ensures var room := buffer.Length - old(size); var n := if |data| < room then |data| else room;
        && (result.WriteDenied? <==> ends[e].side == ReadSide)
        && (result.WriteClosed? <==> ends[e].side == WriteSide && ends[e].closed)
        && (result.WriteFault? <==> ends[e] == End(WriteSide, false) && n > accessible)
        && (result.Accepted? ==>
          result.count == n && Contents() == old(Contents()) + data[..n] && accepted == old(accepted) + data[..n])
        && (!result.Accepted? ==> Contents() == old(Contents()) && accepted == old(accepted) && woken == [])
      ensures writeWaiters == old(writeWaiters)
      ensures woken == (if result.Accepted? then old(readWaiters) else [])
      ensures readWaiters == if result.Accepted? then [] else old(readWaiters)
    {
      hide Held, Tail, OpenEnds;
      woken := [];
      if ends[e].side == ReadSide {
        return WriteDenied, woken;
      }
      if ends[e].closed {
        return WriteClosed, woken;
      }
      if buffer.Length - size == 0 {
        assert data[..0] == [] && Contents() + [] == Contents() && accepted + [] == accepted;
        return Accepted(0), woken;
      }
      var n := if |data| < buffer.Length - size then |data| else buffer.Length - size;
      var ok := PutBytes(data[..n], accessible);
      if !ok {
        assert old(Contents()) + [] == old(Contents());
        return WriteFault, woken;
      }
      woken, readWaiters := readWaiters, [];
      assert returned + (old(Contents()) + data[..n]) == (returned + old(Contents())) + data[..n];
      accepted := accepted + data[..n];
      return Accepted(n), woken;
    }

    /** Closing the last reader wakes the writers, and the other way round: nobody is left waiting for nobody. */
    method Close(e: EndId) returns (ok: bool, woken: seq<Waiter>)
      requires Valid() && e in ends
      modifies this
      ensures Valid() && ok == !old(ends)[e].closed && accepted == old(accepted) && returned == old(returned)
      ensures ends == old(ends)[e := End(old(ends)[e].side, true)] && Contents() == old(Contents())
      ensures var side := old(ends)[e].side; var last := ok && OpenEnds(ends, side) == {};
        && woken == (if !last then [] else if side == ReadSide then old(writeWaiters) else old(readWaiters))
        && readWaiters == (if last && side == WriteSide then [] else old(readWaiters))
        && writeWaiters == (if last && side == ReadSide then [] else old(writeWaiters))
    {
      hide Held, Tail, OpenEnds;
      woken := [];
      if ends[e].closed {
        assert ends == ends[e := End(ends[e].side, true)];
        return false, woken;
      }
      OpenClosed(ends, e);
      if ends[e].side == ReadSide {
        readerCount := readerCount - 1;
        if readerCount == 0 {
          woken, writeWaiters := writeWaiters, [];
        }
      } else {
        writerCount := writerCount - 1;
        if writerCount == 0 {
          woken, readWaiters := readWaiters, [];
        }
      }
      ends := ends[e := End(ends[e].side, true)];
      return true, woken;
    }

    /** The locked part of block_until_readable: parks only on an empty pipe that somebody can still write to. */
    method ParkReader(e: EndId, w: Waiter) returns (result: ParkResult)
      requires Valid() && e in ends
      modifies this
      ensures Valid() && ends == old(ends) && accepted == old(accepted) && returned == old(returned)
      ensures Contents() == old(Contents())
      ensures result.Parked? <==> ends[e] == End(ReadSide, false) && size == 0 && OpenEnds(ends, WriteSide) != {}
      ensures result.AtOnce? <==> ends[e] == End(ReadSide, false) && Contents() != []
      ensures readWaiters == old(readWaiters) + (if result.Parked? then [w] else [])
    {
      if ends[e].side == WriteSide {
        return ParkDenied;
      }
      if ends[e].closed {
        return ParkClosed;
      }
      if size != 0 {
        return AtOnce;
      }
      if writerCount == 0 {
        return WouldBlockForever;
      }
      readWaiters := readWaiters + [w];
      return Parked;
    }

    /** The locked part of block_until_writable. */
    method ParkWriter(e: EndId, w: Waiter) returns (result: ParkResult)
      requires Valid() && e in ends
      modifies this
      ensures Valid() && ends == old(ends) && accepted == old(accepted) && returned == old(returned)
      ensures Contents() == old(Contents())
      ensures result.Parked? <==>
        ends[e] == End(WriteSide, false) && |Contents()| == buffer.Length && OpenEnds(ends, ReadSide) != {}
      ensures result.AtOnce? <==> ends[e] == End(WriteSide, false) && |Contents()| < buffer.Length
      ensures writeWaiters == old(writeWaiters) + (if result.Parked? then [w] else [])
    {
      if ends[e].side == ReadSide {
        return ParkDenied;
      }
      if ends[e].closed {
        return ParkClosed;
      }
      if buffer.Length != size {
        return AtOnce;
      }
      if readerCount == 0 {
        return WouldBlockForever;
      }
      writeWaiters := writeWaiters + [w];
      return Parked;
    }

    /** A thread that is running again takes itself off the lists if nobody has. */
    method Leave(w: Waiter)
      requires Valid()
      modifies this
      ensures Valid() && Contents() == old(Contents()) && accepted == old(accepted) && returned == old(returned)
      ensures ends == old(ends)
      ensures w !in readWaiters && w !in writeWaiters
      ensures forall x :: x != w ==>
        (x in readWaiters <==> x in old(readWaiters)) && (x in writeWaiters <==> x in old(writeWaiters))
    {
      WithoutElements(readWaiters, w);
      WithoutElements(writeWaiters, w);
      readWaiters, writeWaiters := Without(readWaiters, w), Without(writeWaiters, w);
    }

    /** What reads have returned is always a prefix of what writes have accepted. */
    lemma ReadsArePrefix()
      requires Valid()
      ensures returned <= accepted && accepted[|returned|..] == Contents()
    {
    }
  }
}
