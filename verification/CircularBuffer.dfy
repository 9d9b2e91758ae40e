/** The 1024-byte circular buffer behind a named pipe. */
module CircularBuffer {
  import opened Common
  import opened LinkedQueue

  const BUF_SIZE: nat := 1024

  type Byte = bv8

  function Min(a: int, b: int): int {
    if a < b then a else b
  }

  /** Positions below 2 * BUF_SIZE, taken round without a division. */
  function Wrap(x: nat): (w: nat)
    requires x < 2 * BUF_SIZE
    ensures w < BUF_SIZE
  {
    if x < BUF_SIZE then x else x - BUF_SIZE
  }

  /** The `len` bytes found going round from `start`. */
  function Unwrap(d: seq<Byte>, start: nat, len: nat): (s: seq<Byte>)
    requires |d| == BUF_SIZE && start < BUF_SIZE && len <= BUF_SIZE
  {
    seq(len, i requires 0 <= i < len => d[Wrap(start + i)])
  }

  method Advance(at: nat, n: nat) returns (next: nat)
    requires at < BUF_SIZE && n <= BUF_SIZE
    ensures next == Wrap(at + n)
  {
    next := (at + n) % BUF_SIZE;
  }

  /** The two memcpy calls of a write or a read of n bytes at position `at`: the sizes the
      code computes, signed. */
  function FirstPiece(at: nat, n: nat): int {
    if at < (at + n) % BUF_SIZE then n else BUF_SIZE - at
  }

  function SecondPiece(at: nat, n: nat): int {
    if at < (at + n) % BUF_SIZE then 0 else n - (BUF_SIZE - at)
  }

  /** Both pieces are sizes, stay inside the buffer, and add up to n. */
  predicate PiecesInRange(at: nat, n: nat) {
    && 0 <= FirstPiece(at, n) <= BUF_SIZE - at
    && 0 <= SecondPiece(at, n) <= at
    && FirstPiece(at, n) + SecondPiece(at, n) == n
  }

  /** With nothing to copy the code takes the wrapping branch and the second size is negative. */
  lemma PiecesInRangeIff(at: nat, n: nat)
    requires at < BUF_SIZE
    ensures PiecesInRange(at, n) <==> 0 < n <= BUF_SIZE
  {}

  /** The sum of two ints that are not negative. */
  function Sum32(a: nat, b: nat): int {
    if a + b <= MAX_INT then a + b else a + b - 0x1_0000_0000
  }

  function WriteSize(fill: nat, bytes: nat): int {
    if Sum32(fill, bytes) > BUF_SIZE then BUF_SIZE - fill else bytes
  }

  /** The size of a write is what fits exactly if the sum does not overflow. */
  lemma WriteSizeFitsIff(fill: nat, bytes: nat)
    requires fill <= BUF_SIZE && 0 < bytes <= MAX_INT
    ensures WriteSize(fill, bytes) == Min(bytes, BUF_SIZE - fill) <==> fill + bytes <= MAX_INT
    ensures 0 < WriteSize(fill, bytes) <= BUF_SIZE <==> fill < BUF_SIZE && fill + bytes <= MAX_INT
  {}

  /** Position k of `d` after `src` has been laid into it going round from `at`. */
  function LaidAt(d: seq<Byte>, at: nat, src: seq<Byte>, k: nat): Byte
    requires |d| == BUF_SIZE && at < BUF_SIZE && k < BUF_SIZE && |src| <= BUF_SIZE
  {
    if at <= k < at + |src| then src[k - at]
    else if k + BUF_SIZE < at + |src| then src[k + BUF_SIZE - at]
    else d[k]
  }

  class Buffer {
    const data: array<Byte>
    var freeSlot: nat
    var current: nat
    var fill: nat

    ghost predicate Valid()
      reads this
    {
      && data.Length == BUF_SIZE
      && current < BUF_SIZE && fill <= BUF_SIZE
      && freeSlot == Wrap(current + fill)
    }

    ghost function Contents(): seq<Byte>
      requires Valid()
      reads this, data
    {
      Unwrap(data[..], current, fill)
    }

    constructor ()
      ensures Valid() && Contents() == [] && fill == 0 && fresh(data)
    {
      data := new Byte[BUF_SIZE](_ => 0);
      freeSlot, current, fill := 0, 0, 0;
    }

    method CopyIn(at: nat, source: seq<Byte>)
      requires at + |source| <= data.Length
      modifies data
      ensures forall k :: 0 <= k < data.Length ==>
                data[k] == if at <= k < at + |source| then source[k - at] else old(data[k])
    {
      for i := 0 to |source|
        invariant forall k :: 0 <= k < data.Length ==>
            data[k] == if at <= k < at + i then source[k - at] else old(data[k])
      {
        data[at + i] := source[i];
      }
    }

    /** Lays the source into the buffer going round from `at`, in one piece or two. */
    method CopyRound(at: nat, source: seq<Byte>)
      requires data.Length == BUF_SIZE && at < BUF_SIZE && 0 < |source| <= BUF_SIZE
      modifies data
      ensures forall k :: 0 <= k < BUF_SIZE ==>
                data[k] == LaidAt(old(data[..]), at, source, k)
    {
      PiecesInRangeIff(at, |source|);
      if at < (at + |source|) % BUF_SIZE {
        CopyIn(at, source);
      } else {
        var first := BUF_SIZE - at;
        CopyIn(at, source[..first]);
        CopyIn(0, source[first..]);
      }
    }

    /** Appends as much of the source as fits and reports how much. None stands for a copy that
        leaves the buffer, with no defined result: exactly into a full buffer, or with a size
        whose sum with the fill overflows. */
    method Write(source: seq<Byte>, bytes: nat) returns (written: Option<nat>)
      requires Valid() && 0 < bytes <= |source| && bytes <= MAX_INT
      modifies this, data
      ensures Valid()
      ensures written.None? <==> old(fill) == BUF_SIZE || old(fill) + bytes > MAX_INT
      ensures written.None? ==> fill == old(fill) && Contents() == old(Contents())
      ensures written.Some? ==>
                && written.value == Min(bytes, BUF_SIZE - old(fill))
                && fill == old(fill) + written.value
                && Contents() == old(Contents()) + source[..written.value]
    {
      var n := WriteSize(fill, bytes);
      WriteSizeFitsIff(fill, bytes);
      PiecesInRangeIff(freeSlot, n);
      if !PiecesInRange(freeSlot, n) {
        return None;
      }
      Append(source[..n]);
      written := Some(n);
    }

    method Append(source: seq<Byte>)
      requires Valid() && 0 < |source| <= BUF_SIZE - fill
      modifies this, data
      ensures Valid() && fill == old(fill) + |source| && Contents() == old(Contents()) + source
    {
      ghost var before := data[..];
      CopyRound(freeSlot, source);
      freeSlot := Advance(freeSlot, |source|);
      AppendRefinesConcat(before, data[..], current, fill, source);
      fill := fill + |source|;
    }

    /** Collects n bytes going round from `at`, in one piece or two. */
    method CopyOut(at: nat, n: nat) returns (dest: seq<Byte>)
      requires data.Length == BUF_SIZE && at < BUF_SIZE && 0 < n <= BUF_SIZE
      ensures dest == Unwrap(data[..], at, n)
    {
      PiecesInRangeIff(at, n);
      if at < (at + n) % BUF_SIZE {
        dest := data[at..at + n];
      } else {
        var first := BUF_SIZE - at;
        dest := data[at..at + first] + data[..n - first];
      }
      ghost var all := Unwrap(data[..], at, n);
      forall i | 0 <= i < n
        ensures dest[i] == all[i]
      {}
    }

    /** Removes as much as is there, up to `bytes`, from the front. */
    method Read(bytes: nat) returns (dest: seq<Byte>)
      requires Valid() && 0 < bytes && 0 < fill
      modifies this
      ensures Valid()
      ensures |dest| == Min(bytes, old(fill)) && fill == old(fill) - |dest|
      ensures dest == old(Contents())[..|dest|] && Contents() == old(Contents())[|dest|..]
    {
      var n := if fill < bytes then fill else bytes;
      dest := CopyOut(current, n);
      DropRefinesSuffix(data[..], current, fill, n);
      current := Advance(current, n);
      fill := fill - n;
    }
  }

  /** Laying bytes at the free slot leaves the old contents alone and puts them after it. */
  lemma LaidAfterContents(d: seq<Byte>, start: nat, len: nat, src: seq<Byte>, i: nat)
    requires |d| == BUF_SIZE && start < BUF_SIZE && len + |src| <= BUF_SIZE && i < len + |src|
    ensures LaidAt(d, Wrap(start + len), src, Wrap(start + i)) ==
              if i < len then d[Wrap(start + i)] else src[i - len]
  {}

  lemma AppendRefinesConcat(d: seq<Byte>, d': seq<Byte>, start: nat, len: nat, src: seq<Byte>)
    requires |d| == |d'| == BUF_SIZE && start < BUF_SIZE && len + |src| <= BUF_SIZE
    requires forall k :: 0 <= k < BUF_SIZE ==> d'[k] == LaidAt(d, Wrap(start + len), src, k)
    ensures Unwrap(d', start, len + |src|) == Unwrap(d, start, len) + src
  {
    var whole, parts := Unwrap(d', start, len + |src|), Unwrap(d, start, len) + src;
    forall i | 0 <= i < len + |src|
      ensures whole[i] == parts[i]
    {
      LaidAfterContents(d, start, len, src, i);
    }
  }

  lemma DropRefinesSuffix(d: seq<Byte>, start: nat, len: nat, n: nat)
    requires |d| == BUF_SIZE && start < BUF_SIZE && 0 < n <= len <= BUF_SIZE
    ensures Unwrap(d, start, n) == Unwrap(d, start, len)[..n]
    ensures Unwrap(d, Wrap(start + n), len - n) == Unwrap(d, start, len)[n..]
  {
    var tail, rest := Unwrap(d, Wrap(start + n), len - n), Unwrap(d, start, len)[n..];
    forall i | 0 <= i < len - n
      ensures tail[i] == rest[i]
    {
      assert Wrap(Wrap(start + n) + i) == Wrap(start + (n + i));
    }
  }
}
