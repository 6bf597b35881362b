/** The contents of a fisopfs file: a fixed buffer that behaves as a sequence of
    bytes with zero-filled holes (fisopfs/fisopfs.c). */
module FsData {

  type Byte = x: int | 0 <= x < 256

  const MAX_DATA := 1024

  // The byte at position i; what lies beyond the end counts as zero.
  function At(s: seq<Byte>, i: nat): Byte { if i < |s| then s[i] else 0 }

  function Max(a: nat, b: nat): nat { if a > b then a else b }

  /** A file after a write of buf at offset: the hole, if any, is zero. */
  function WriteAt(s: seq<Byte>, buf: seq<Byte>, offset: nat): (r: seq<Byte>)
    ensures |r| == Max(|s|, offset + |buf|)
    ensures forall i: nat :: i < |r| ==> r[i] == if offset <= i < offset + |buf| then buf[i - offset] else At(s, i)
  {
    seq(Max(|s|, offset + |buf|), i requires 0 <= i => if offset <= i < offset + |buf| then buf[i - offset] else At(s, i))
  }

  // What a read of at most n bytes at offset returns.
  function ReadAt(s: seq<Byte>, n: nat, offset: nat): (r: seq<Byte>)
    ensures |r| == if offset >= |s| then 0 else if n < |s| - offset then n else |s| - offset
    ensures forall i :: 0 <= i < |r| ==> r[i] == s[offset + i]
  {
    if offset >= |s| then [] else if n < |s| - offset then s[offset..offset + n] else s[offset..]
  }

  function Resized(s: seq<Byte>, n: nat): (r: seq<Byte>)
    ensures |r| == n && forall i: nat :: i < n ==> r[i] == At(s, i)
  {
    seq(n, i requires 0 <= i => At(s, i))
  }

  /** Reading back a written range gives the bytes written. */
  lemma ReadBack(s: seq<Byte>, buf: seq<Byte>, offset: nat)
    ensures ReadAt(WriteAt(s, buf, offset), |buf|, offset) == buf
  {
    var r := WriteAt(s, buf, offset);
    if offset < |r| { assert r[offset..][..|buf|] == buf; }
  }

  /** Reading in two steps gives the same as reading at once, also past the end. */
  lemma ReadsCompose(s: seq<Byte>, n: nat, m: nat, offset: nat)
    ensures ReadAt(s, n + m, offset) == ReadAt(s, n, offset) + ReadAt(s, m, offset + n)
  {
  }

  /** A write is not seen by reads of other ranges, except as zeros in the hole
      before it. */
  lemma ReadElsewhere(s: seq<Byte>, buf: seq<Byte>, offset: nat, n: nat, at: nat)
    requires at + n <= offset || offset + |buf| <= at
    ensures at + n <= |s| ==> ReadAt(WriteAt(s, buf, offset), n, at) == ReadAt(s, n, at)
    ensures |s| <= at && at + n <= offset ==> ReadAt(WriteAt(s, buf, offset), n, at) == Resized([], n)
  {
  }

  /** The later of two writes to a range is the one that counts. */
  lemma LastWriteWins(s: seq<Byte>, a: seq<Byte>, b: seq<Byte>, offset: nat)
    requires |a| <= |b|
    ensures WriteAt(WriteAt(s, a, offset), b, offset) == WriteAt(s, b, offset)
  {
  }

  /** Cutting a file and growing it again leaves zeros where the bytes were. */
  lemma CutAndGrow(s: seq<Byte>, k: nat, n: nat)
    requires k <= n
    ensures Resized(Resized(s, k), n) == Resized(s, k) + Resized([], n - k)
    ensures k <= |s| ==> Resized(s, k) == s[..k]
  {
  }

  lemma SliceOfSlice(s: seq<Byte>, base: nat, size: nat, from: nat, n: nat)
    requires base + size <= |s| && from + n <= size
    ensures s[base..base + size][from..from + n] == s[base + from..base + from + n]
  {
    var a, b := s[base..base + size][from..from + n], s[base + from..base + from + n];
    assert forall i :: 0 <= i < n ==> a[i] == b[i];
  }

  datatype WriteStatus = Wrote(n: nat) | NoSpace | NoAccess | Fault

  datatype TruncStatus = Done | TooBig | Denied

  /** A regular file: its size, owner, and buffer, which lies at `base` in the memory
      of the file system. */
  class FileData {
    const memory: array<Byte>
    const base: nat
    var size: nat
    const uid: int

    // Every byte of the buffer past the end of the file is zero.
    ghost predicate Valid()
      reads this, memory
    {
      && base + MAX_DATA <= memory.Length && size <= MAX_DATA
      && forall i :: base + size <= i < base + MAX_DATA ==> memory[i] == 0
    }

    ghost function Contents(): seq<Byte>
      reads this, memory
      requires Valid()
    {
      memory[base..base + size]
    }

    // init_inode, the data part.
    constructor (memory: array<Byte>, base: nat, uid: int)
      requires base + MAX_DATA <= memory.Length
      modifies memory
      ensures Valid() && Contents() == [] && this.memory == memory && this.base == base && this.uid == uid
      ensures forall i :: 0 <= i < memory.Length && !(base <= i < base + MAX_DATA) ==> memory[i] == old(memory[i])
    {
      this.memory := memory;
      this.base := base;
      this.uid := uid;
      size := 0;
      new;
      Clear(0, MAX_DATA);
    }

    // memset(data + from, 0, n).
    method Clear(from: nat, n: nat)
      requires base + from + n <= memory.Length
      modifies memory
      ensures forall i :: 0 <= i < memory.Length ==> memory[i] == if base + from <= i < base + from + n then 0 else old(memory[i])
    {
      for i := 0 to n
        invariant forall j :: 0 <= j < memory.Length ==> memory[j] == if base + from <= j < base + from + i then 0 else old(memory[j])
      {
        memory[base + from + i] := 0;
      }
    }

    // memcpy(data + at, buffer, |buffer|).
    method Copy(at: nat, buffer: seq<Byte>)
      requires base + at + |buffer| <= memory.Length
      modifies memory
      ensures forall i :: 0 <= i < memory.Length ==>
                memory[i] == if base + at <= i < base + at + |buffer| then buffer[i - base - at] else old(memory[i])
    {
      for i := 0 to |buffer|
        invariant forall j :: 0 <= j < memory.Length ==>
                    memory[j] == if base + at <= j < base + at + i then buffer[j - base - at] else old(memory[j])
      {
        memory[base + at + i] := buffer[i];
      }
    }

    method Read(n: nat, offset: nat) returns (buffer: seq<Byte>)
      requires Valid()
      ensures buffer == ReadAt(Contents(), n, offset)
      ensures |buffer| == if offset >= size then 0 else if n < size - offset then n else size - offset
      ensures forall i :: 0 <= i < |buffer| ==> buffer[i] == Contents()[offset + i]
    {
      if offset >= size {
        return [];
      }
      var len := size - offset;
      if len > n {
        len := n;
      }
      buffer := memory[base + offset..base + offset + len];
      SliceOfSlice(memory[..], base, size, offset, len);
      assert Contents() == memory[..][base..base + size] && buffer == memory[..][base + offset..base + offset + len];
    }

    /** fisopfs_write clears the hole before it checks anything. A write that is then
        rejected leaves the contents as they are. For an offset beyond the buffer it
        clears what follows the buffer, up to the offset, and nothing else outside;
        beyond the memory it faults. */
    method Write(buffer: seq<Byte>, offset: nat, caller: int) returns (r: WriteStatus)
      requires Valid()
      modifies this`size, memory
      ensures Valid()
      ensures r == if base + offset > memory.Length then Fault else if offset + |buffer| > MAX_DATA then NoSpace
                   else if caller != uid then NoAccess else Wrote(|buffer|)
      ensures Contents() == if r.Wrote? then WriteAt(old(Contents()), buffer, offset) else old(Contents())
      ensures forall i :: 0 <= i < memory.Length && !(base <= i < base + MAX_DATA) ==>
                memory[i] == if base + MAX_DATA <= i < base + offset then 0 else old(memory[i])
    {
      if size < offset {
        if base + offset > memory.Length {
          Clear(size, memory.Length - base - size);
          return Fault;
        }
        Clear(size, offset - size);
      }
      if offset + |buffer| > MAX_DATA {
        return NoSpace;
      }
      if caller != uid {
        return NoAccess;
      }
      Copy(offset, buffer);
      if size < offset + |buffer| {
        size := offset + |buffer|;
      }
      return Wrote(|buffer|);
    }

    method Truncate(n: nat, caller: int) returns (r: TruncStatus)
      requires Valid()
      modifies this`size, memory
      ensures Valid()
      ensures r == if n > MAX_DATA then TooBig else if caller != uid then Denied else Done
      ensures Contents() == if r == Done then Resized(old(Contents()), n) else old(Contents())
      ensures forall i :: 0 <= i < memory.Length && !(base <= i < base + MAX_DATA) ==> memory[i] == old(memory[i])
    {
      if n > MAX_DATA {
        return TooBig;
      }
      if caller != uid {
        return Denied;
      }
      if n < size {
        Clear(n, size - n);
      }
      size := n;
      return Done;
    }
  }
}
