/** The ring buffer of a pipe as a sequence, and what moving its ends does to the bytes it holds. */
module PipeRings {
  type Byte = bv8

  ghost predicate InRing(b: seq<Byte>, from: nat, size: nat) {
    from < |b| && size <= |b|
  }

  /** The `size` bytes from `from` on, going around the end of the buffer. */
  ghost function Held(b: seq<Byte>, from: nat, size: nat): (s: seq<Byte>)
    requires InRing(b, from, size)
    ensures |s| == size
  {
    if from + size <= |b| then b[from..from + size] else b[from..] + b[..from + size - |b|]
  }

  /** An offset in the buffer after moving `n` bytes on. */
  function Advanced(at: nat, n: nat, capacity: nat): nat
    requires at + n <= capacity
  {
    if at + n == capacity then 0 else at + n
  }

  /** Where the next byte goes. */
  ghost function Tail(b: seq<Byte>, from: nat, size: nat): nat
    requires InRing(b, from, size)
  {
    if from + size < |b| then from + size else from + size - |b|
  }

  /** Reading a straight stretch takes that many bytes off the front. */
  lemma Taken(b: seq<Byte>, from: nat, size: nat, n: nat)
    requires InRing(b, from, size) && n <= size && from + n <= |b|
    ensures var after := Advanced(from, n, |b|);
      && InRing(b, after, size - n)
      && Held(b, from, size) == b[from..from + n] + Held(b, after, size - n)
      && Tail(b, after, size - n) == Tail(b, from, size)
  {
  }

  /** The buffer with a straight stretch overwritten. */
  ghost function Overwritten(b: seq<Byte>, at: nat, data: seq<Byte>): (c: seq<Byte>)
    requires at + |data| <= |b|
    ensures |c| == |b|
  {
    b[..at] + data + b[at + |data|..]
  }

  /** Writing a straight stretch into free space leaves the bytes held as they are. */
  lemma Untouched(b: seq<Byte>, from: nat, size: nat, data: seq<Byte>)
    requires InRing(b, from, size) && size + |data| <= |b| && Tail(b, from, size) + |data| <= |b|
    ensures Held(Overwritten(b, Tail(b, from, size), data), from, size) == Held(b, from, size)
  {
    var at := Tail(b, from, size);
    var c := Overwritten(b, at, data);
    forall i | 0 <= i < size ensures Held(c, from, size)[i] == Held(b, from, size)[i] {
      var p := if from + i < |b| then from + i else from + i - |b|;
      assert Held(b, from, size)[i] == b[p] && Held(c, from, size)[i] == c[p];
      assert c[p] == b[p];
    }
  }

  /** Counting the stretch as held then appends it. */
  lemma Appended(b: seq<Byte>, from: nat, size: nat, data: seq<Byte>)
    requires InRing(b, from, size) && size + |data| <= |b| && Tail(b, from, size) + |data| <= |b|
    ensures var at := Tail(b, from, size); var c := Overwritten(b, at, data);
      && Held(c, from, size + |data|) == Held(b, from, size) + data
      && Tail(c, from, size + |data|) == Advanced(at, |data|, |b|)
  {
    var at := Tail(b, from, size);
    var c := Overwritten(b, at, data);
    Untouched(b, from, size, data);
    assert c[at..at + |data|] == data;
    HeldSplit(c, from, size, |data|);
  }

  lemma HeldSplit(c: seq<Byte>, from: nat, size: nat, n: nat)
    requires InRing(c, from, size) && size + n <= |c| && Tail(c, from, size) + n <= |c|
    ensures Held(c, from, size + n) == Held(c, from, size) + c[Tail(c, from, size)..Tail(c, from, size) + n]
  {
  }

  lemma HeldPrefix(b: seq<Byte>, from: nat, older: nat, size: nat)
    requires InRing(b, from, size) && older <= size
    ensures Held(b, from, older) == Held(b, from, size)[..older]
  {
  }

  /** Writing behind `size` held bytes leaves the first `older` of them as they are. */
  lemma StillHeld(b: seq<Byte>, from: nat, older: nat, size: nat, data: seq<Byte>)
    requires InRing(b, from, size) && older <= size && size + |data| <= |b| && Tail(b, from, size) + |data| <= |b|
    ensures Held(Overwritten(b, Tail(b, from, size), data), from, older) == Held(b, from, older)
    ensures Tail(Overwritten(b, Tail(b, from, size), data), from, older) == Tail(b, from, older)
  {
    HeldPrefix(b, from, older, size);
    HeldPrefix(Overwritten(b, Tail(b, from, size), data), from, older, size);
    Untouched(b, from, size, data);
    hide Held;
  }
}
