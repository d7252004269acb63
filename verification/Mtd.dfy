/** Block input and output on a flash partition: two buffers that turn transfers of
    any length into transfers of whole erase blocks. A `char` stands for one byte. */
module Mtd {
  import opened Alignment
  import opened Memory

  function Repeat(c: char, n: nat): (s: string)
    ensures |s| == n && forall i :: 0 <= i < n ==> s[i] == c
  {
    seq(n, _ => c)
  }

  const ZERO: char := '\0'
  const ERASED: char := 0xff as char

  /** The bytes of the blocks `n` bytes need. */
  function RoundUp(n: nat, block: pos): (m: nat)
    ensures n <= m < n + block && Aligned(m, block)
  {
    if n == 0 then 0 else if n <= block then block else block + RoundUp(n - block, block)
  }

  /** Rounding from a whole number of blocks plus a remainder. */
  lemma {:induction false} RoundUpFrom(whole: nat, rest: nat, block: pos)
    requires Aligned(whole, block) && rest < block
    ensures RoundUp(whole + rest, block) == if rest == 0 then whole else whole + block
  {
    if whole > 0 {
      RoundUpFrom(whole - block, rest, block);
    }
  }

  /** The text followed by zeros up to a whole number of blocks. */
  function Padded(s: string, block: pos): (p: string)
    ensures |p| == RoundUp(|s|, block)
  {
    s + Repeat(ZERO, RoundUp(|s|, block) - |s|)
  }

  /** The partition: what it holds, and how the kernel serves transfers. The n-th
      transfer moves at most `moves(n)` bytes; `short` counts those that moved fewer
      than asked. */
  class Partition {
    const eraseSize: pos
    const moves: nat -> nat
    var bytes: string
    var transfers: nat
    var short: nat

    constructor (bytes: string, eraseSize: pos, moves: nat -> nat)
      ensures this.bytes == bytes && this.eraseSize == eraseSize && short == 0
    {
      this.bytes := bytes;
      this.eraseSize := eraseSize;
      this.moves := moves;
      transfers, short := 0, 0;
    }

    /** How many of `size` bytes from `pos` on the next transfer moves. */
    function Moved(pos: nat, size: nat): (n: nat)
      requires pos <= |bytes|
      reads this
      ensures n <= size && pos + n <= |bytes|
    {
      var n := moves(transfers);
      var n := if n < size then n else size;
      if n < |bytes| - pos then n else |bytes| - pos
    }

    /** `write(fd, data, size)`. */
    method Write(pos: nat, data: string) returns (n: nat)
      requires pos <= |bytes|
      modifies this
      ensures n <= |data| && pos + n <= |old(bytes)|
      ensures bytes == Overlay(old(bytes), pos, data[..n])
      ensures short == old(short) + if n == |data| then 0 else 1
    {
      n := Moved(pos, |data|);
      bytes := Overlay(bytes, pos, data[..n]);
      transfers := transfers + 1;
      if n < |data| {
        short := short + 1;
      }
    }

    /** `read(fd, into + at, size)`. */
    method Read(pos: nat, into: array<char>, at: nat, size: nat) returns (n: nat)
      requires pos <= |bytes| && at + size <= into.Length
      modifies this`transfers, this`short, into
      ensures n <= size && pos + n <= |bytes|
      ensures into[..] == Overlay(old(into[..]), at, bytes[pos..pos + n])
      ensures short == old(short) + if n == size then 0 else 1
    {
      n := Moved(pos, size);
      forall k | 0 <= k < n {
        into[at + k] := bytes[pos + k];
      }
      transfers := transfers + 1;
      if n < size {
        short := short + 1;
      }
    }
  }

  /** The stream so far fills the device from its beginning, in whole blocks first
      and then in a buffer. */
  predicate Lies(original: string, bytes: string, pos: nat, buffered: string, stream: string) {
    && pos <= |bytes| == |original| && pos + |buffered| == |stream|
    && bytes == stream[..pos] + original[pos..]
    && buffered == stream[pos..]
  }

  /** The stream's first `pos` bytes are on the device, which is as it was behind them. */
  predicate Reached(original: string, bytes: string, pos: nat, stream: string) {
    && pos <= |stream| && pos <= |bytes| == |original|
    && bytes == stream[..pos] + original[pos..]
  }

  lemma WriteReaches(original: string, before: string, pos: nat, stream: string, n: nat)
    requires Reached(original, before, pos, stream) && pos + n <= |stream| && pos + n <= |before|
    ensures Reached(original, Overlay(before, pos, stream[pos..pos + n]), pos + n, stream)
  {
    var after := Overlay(before, pos, stream[pos..pos + n]);
    assert after == stream[..pos + n] + original[pos + n..];
  }

  lemma LiesReaches(original: string, bytes: string, pos: nat, buffered: string, full: string, done: nat)
    requires done <= |full| && Lies(original, bytes, pos, buffered, full[..done])
    ensures Reached(original, bytes, pos, full) && pos + |buffered| == done && buffered == full[pos..done]
  {
    assert full[..done][..pos] == full[..pos];
    assert full[..done][pos..] == full[pos..done];
  }

  lemma ReachedLies(original: string, bytes: string, pos: nat, full: string)
    requires Reached(original, bytes, pos, full)
    ensures Lies(original, bytes, pos, "", full[..pos])
  {
    assert full[..pos][..pos] == full[..pos];
  }

  /** More of the stream joins the buffer. */
  lemma LiesLonger(
    original: string, bytes: string, pos: nat, buffered: string, longer: string, full: string, done: nat, more: nat)
    requires done + more <= |full| && Lies(original, bytes, pos, buffered, full[..done])
    requires longer == buffered + full[done..done + more]
    ensures Lies(original, bytes, pos, longer, full[..done + more])
  {
    assert full[..done + more][..pos] == full[..done][..pos];
    assert full[..done + more][pos..] == full[..done][pos..] + full[done..done + more];
  }

  /** The device and the buffer are determined by the stream, however it was cut into
      calls: the whole blocks of it are written, the rest is buffered. */
  lemma CallsDoNotMatter(
    original: string, block: pos, stream: string,
    bytes: string, pos: nat, buffered: string, bytes2: string, pos2: nat, buffered2: string)
    requires Lies(original, bytes, pos, buffered, stream) && Aligned(pos, block) && |buffered| < block
    requires Lies(original, bytes2, pos2, buffered2, stream) && Aligned(pos2, block) && |buffered2| < block
    ensures bytes == bytes2 && pos == pos2 && buffered == buffered2
  {
    hide Aligned, RoundUp;
    RoundUpFrom(pos, |buffered|, block);
    RoundUpFrom(pos2, |buffered2|, block);
  }

  /** A number of erased blocks. */
  function Blank(blocks: nat, block: nat): string {
    if blocks == 0 then "" else Blank(blocks - 1, block) + Repeat(ERASED, block)
  }

  lemma {:induction false} BlankPrefix(k: nat, n: nat, block: nat)
    requires k <= n
    ensures Blank(k, block) <= Blank(n, block)
  {
    if k < n {
      BlankPrefix(k, n - 1, block);
    }
  }

  lemma ReachedLonger(original: string, bytes: string, pos: nat, stream: string, longer: string)
    requires Reached(original, bytes, pos, stream) && stream <= longer
    ensures Reached(original, bytes, pos, longer)
  {
    assert longer[..pos] == stream[..pos];
  }

  /** What was reached from where another stream had ended. */
  lemma ReachedOnward(original: string, between: string, start: nat, first: string, bytes: string, pos: nat, more: string)
    requires Reached(original, between, start, first) && start == |first|
    requires Reached(between, bytes, pos, between[..start] + more) && start <= pos
    ensures Reached(original, bytes, pos, first + more)
  {
    assert between[..start] == first;
    assert between[pos..] == original[pos..];
  }

  lemma PaddedIs(stream: string, pos: nat, stored: nat, block: pos)
    requires pos + stored == |stream| && Aligned(pos, block) && stored < block
    ensures Padded(stream, block) == if stored == 0 then stream else stream + Repeat(ZERO, block - stored)
  {
    hide Aligned, RoundUp;
    RoundUpFrom(pos, stored, block);
  }

  lemma Appended(a: string, b: string)
    ensures a <= a + b && (a + b)[|a|..|a| + |b|] == b
  {
  }

  /** How many blocks fit behind position `pos`. */
  function BlocksLeft(size: nat, pos: nat, block: pos): (n: nat) {
    if pos <= size then (size - pos) / block else 0
  }

  /** That many fit, and no more. */
  lemma BlocksLeftFit(size: nat, pos: nat, block: pos)
    requires pos <= size
    ensures var n := BlocksLeft(size, pos, block); pos + n * block <= size < pos + n * block + block
  {
    var room := size - pos;
    assert room == room / block * block + room % block;
  }

  /** How many blocks `mtd_erase_blocks` erases: all that are left if `blocks` is negative. */
  function ToErase(blocks: int, size: nat, pos: nat, block: pos): nat {
    if blocks < 0 then BlocksLeft(size, pos, block) else blocks
  }

  /** The stream, zero-padded, and the erased blocks behind it. */
  function WithErased(stream: string, blocks: int, size: nat, block: pos): (s: string) {
    var padded := Padded(stream, block);
    padded + Blank(ToErase(blocks, size, |padded|, block), block)
  }

  lemma {:induction false} BlankBytes(blocks: nat, block: pos)
    ensures |Blank(blocks, block)| == blocks * block
    ensures forall k :: 0 <= k < |Blank(blocks, block)| ==> Blank(blocks, block)[k] as int == 0xff
  {
    if blocks > 0 {
      BlankBytes(blocks - 1, block);
      assert blocks * block == (blocks - 1) * block + block;
    }
  }

  /** What `mtd_erase_blocks` leaves, byte by byte: the stream, zeros up to the end of its
      last block, and bytes of 0xFF for the blocks asked for. */
  lemma ErasedBytes(stream: string, blocks: nat, size: nat, block: pos, k: nat)
    requires k < |WithErased(stream, blocks, size, block)|
    ensures |WithErased(stream, blocks, size, block)| == RoundUp(|stream|, block) + blocks * block
    ensures WithErased(stream, blocks, size, block)[k] ==
            if k < |stream| then stream[k] else if k < RoundUp(|stream|, block) then 0 as char else 0xff as char
  {
    hide RoundUp;
    BlankBytes(blocks, block);
    if k >= RoundUp(|stream|, block) {
      assert WithErased(stream, blocks, size, block)[k] == Blank(blocks, block)[k - RoundUp(|stream|, block)];
    }
  }

  /** A negative number stands for all blocks that are left. */
  lemma ErasesAll(stream: string, blocks: int, size: nat, block: pos)
    requires blocks < 0 && RoundUp(|stream|, block) <= size
    ensures var n := |WithErased(stream, blocks, size, block)|; n <= size < n + block
  {
    hide RoundUp, BlocksLeft, Blank;
    var start := RoundUp(|stream|, block);
    BlocksLeftFit(size, start, block);
    BlankBytes(BlocksLeft(size, start, block), block);
  }

  lemma WithErasedIs(stream: string, blocks: int, size: nat, block: pos)
    ensures var padded := Padded(stream, block);
            var n := if blocks < 0 then BlocksLeft(size, |padded|, block) else blocks;
            && WithErased(stream, blocks, size, block) == padded + Blank(n, block)
            && padded <= WithErased(stream, blocks, size, block)
  {
    hide Padded, Blank, BlocksLeft;
  }

  lemma ReachedStart(original: string, pos: nat)
    requires pos <= |original|
    ensures Reached(original, original, pos, original[..pos])
  {
  }

  lemma NoBlanks(original: string, bytes: string, pos: nat, block: pos)
    requires pos <= |original|
    ensures Blank(0, block) == ""
    ensures Reached(original, bytes, pos, original[..pos] + Blank(0, block)) ==> bytes == original
  {
  }

  /** `data` stands in the stream from position `before` on. */
  predicate Carries(stream: string, before: nat, data: string) {
    before + |data| <= |stream| && data == stream[before..before + |data|]
  }

  lemma CarriedSlice(stream: string, before: nat, data: string, i: nat, j: nat)
    requires Carries(stream, before, data) && i <= j <= |data|
    ensures before + j <= |stream| && data[i..j] == stream[before + i..before + j]
  {
    assert forall k :: i <= k < j ==> data[k] == stream[before + k];
  }

  lemma OverlayPrefix(b: string, p: nat, d: string)
    requires p + |d| <= |b|
    ensures Overlay(b, p, d)[..p + |d|] == b[..p] + d
    ensures Overlay(b, p, d)[p..p + |d|] == d
  {
  }

  /** `MtdWriteContext`, with the position of its file descriptor. */
  class WriteContext {
    const partition: Partition
    const buffer: array<char>
    var stored: nat
    var pos: nat

    ghost predicate Valid() {
      partition.eraseSize == buffer.Length > 0
    }

    /** The first `done` bytes of the stream are taken: whole blocks are on the device
        that held `original`, the rest is in the buffer. */
    ghost predicate Taken(original: string, stream: string, done: nat)
      reads this, partition, buffer
    {
      && Valid()
      && stored <= buffer.Length && Aligned(pos, buffer.Length) && done <= |stream|
      && Lies(original, partition.bytes, pos, buffer[..stored], stream[..done])
    }

    /** Everything written since the context was opened is `stream`. */
    ghost predicate Holds(original: string, stream: string)
      reads this, partition, buffer
    {
      Taken(original, stream, |stream|) && stored < buffer.Length
    }

    /** `mtd_write_partition`. */
    constructor (partition: Partition)
      ensures this.partition == partition && fresh(buffer)
      ensures Holds(partition.bytes, "")
    {
      this.partition := partition;
      buffer := new char[partition.eraseSize];
      stored, pos := 0, 0;
    }

    /** `write_block`. */
    method WriteBlock(data: string, ghost original: string, ghost stream: string) returns (ok: bool)
      requires Valid() && |data| == buffer.Length
      requires Reached(original, partition.bytes, pos, stream)
      requires pos + |data| <= |stream| && data == stream[pos..pos + |data|]
      modifies this`pos, partition
      ensures Reached(original, partition.bytes, pos, stream)
      ensures partition.short == old(partition.short) + if ok then 0 else 1
      ensures old(pos) <= pos && (ok ==> pos == old(pos) + buffer.Length)
    {
      var n := partition.Write(pos, data);
      WriteReaches(original, old(partition.bytes), pos, stream, n);
      assert data[..n] == stream[pos..pos + n];
      pos := pos + n;
      ok := n == |data|;
    }

    /** Partial writes go into the buffer until the data ends or the block is complete. */
    method Coalesce(data: string, from: nat, ghost original: string, ghost stream: string, ghost before: nat)
      returns (wrote: nat)
      requires from < |data| && Carries(stream, before, data)
      requires Taken(original, stream, before + from) && stored < buffer.Length
      modifies this`stored, buffer
      ensures from < wrote <= |data| && stored == old(stored) + wrote - from
      ensures Taken(original, stream, before + wrote)
      ensures stored <= buffer.Length && (wrote == |data| || stored == buffer.Length)
    {
      hide Carries, Lies, Aligned;
      var avail := buffer.Length - stored;
      var copy := if |data| - from < avail then |data| - from else avail;
      CarriedSlice(stream, before, data, from, from + copy);
      Copy(buffer, stored, data[from..from + copy]);
      OverlayPrefix(old(buffer[..]), stored, data[from..from + copy]);
      LiesLonger(original, partition.bytes, pos, old(buffer[..stored]), buffer[..stored + copy],
                 stream, before + from, copy);
      stored := stored + copy;
      wrote := from + copy;
    }

    /** A complete block was accumulated. */
    method Flush(ghost original: string, ghost stream: string, ghost done: nat) returns (ok: bool)
      requires Taken(original, stream, done) && stored == buffer.Length
      modifies this`stored, this`pos, partition
      ensures partition.short == old(partition.short) + if ok then 0 else 1
      ensures ok ==> Taken(original, stream, done) && stored == 0
      ensures !ok ==> Reached(original, partition.bytes, pos, stream) && stored == old(stored)
    {
      LiesReaches(original, partition.bytes, pos, buffer[..stored], stream, done);
      ok := WriteBlock(buffer[..], original, stream);
      if ok {
        stored := 0;
        ReachedLies(original, partition.bytes, pos, stream);
      }
    }

    /** Whole blocks straight from the caller's data, which the stream holds from
        position `before` on. */
    method WriteBlocks(data: string, from: nat, ghost original: string, ghost stream: string, ghost before: nat)
      returns (ok: bool, wrote: nat)
      requires from <= |data| && Carries(stream, before, data)
      requires Taken(original, stream, before + from)
      modifies this`pos, partition
      ensures from <= wrote <= |data|
      ensures partition.short == old(partition.short) + if ok then 0 else 1
      ensures ok ==> Taken(original, stream, before + wrote) && (stored == 0 ==> |data| - wrote < buffer.Length)
      ensures !ok ==> Reached(original, partition.bytes, pos, stream) && stored == 0
    {
      hide Carries, Lies, Reached;
      wrote := from;
      while stored == 0 && |data| - wrote >= buffer.Length
        invariant from <= wrote <= |data| && Taken(original, stream, before + wrote)
        invariant partition.short == old(partition.short)
        decreases |data| - wrote
      {
        LiesReaches(original, partition.bytes, pos, buffer[..stored], stream, before + wrote);
        CarriedSlice(stream, before, data, wrote, wrote + buffer.Length);
        ok := WriteBlock(data[wrote..wrote + buffer.Length], original, stream);
        if !ok {
          return;
        }
        wrote := wrote + buffer.Length;
        ReachedLies(original, partition.bytes, pos, stream);
      }
      ok := true;
    }

    lemma Joined(original: string, stream: string, data: string)
      requires Taken(original, stream, |stream|)
      ensures Taken(original, stream + data, |stream|)
    {
      assert (stream + data)[..|stream|] == stream == stream[..|stream|];
    }

    lemma AllTaken(original: string, stream: string)
      requires Taken(original, stream, |stream|)
      ensures Valid() && Reached(original, partition.bytes, pos, stream) && pos + stored == |stream|
    {
      LiesReaches(original, partition.bytes, pos, buffer[..stored], stream, |stream|);
    }

    /** One round of `mtd_write_data`. */
    method WriteSome(data: string, from: nat, ghost original: string, ghost stream: string, ghost before: nat)
      returns (ok: bool, wrote: nat)
      requires from < |data| && Carries(stream, before, data)
      requires Taken(original, stream, before + from) && stored < buffer.Length
      modifies this`stored, this`pos, buffer, partition
      ensures from <= wrote <= |data| && (ok ==> from < wrote)
      ensures partition.short == old(partition.short) + if ok then 0 else 1
      ensures ok ==> Taken(original, stream, before + wrote) && stored < buffer.Length
      ensures ok && old(stored) == 0 ==> stored == 0 || wrote == |data|
      ensures !ok ==> Reached(original, partition.bytes, pos, stream)
      ensures !ok && old(stored) == 0 ==> stored == 0
    {
      hide Taken, Reached, Carries, Aligned;
      wrote := from;
      if stored > 0 || |data| - from < buffer.Length {
        wrote := Coalesce(data, from, original, stream, before);
      }
      ok := true;
      if stored == buffer.Length {
        ok := Flush(original, stream, before + wrote);
      }
      if ok {
        ok, wrote := WriteBlocks(data, wrote, original, stream, before);
      }
    }

    /** `mtd_write_data`: the number of bytes taken, or -1. It fails exactly when the
        kernel cuts a transfer short, and whatever happens the device holds a prefix
        of the stream and behind it what it held before. */
    method WriteData(data: string, ghost original: string, ghost stream: string) returns (r: int)
      requires Holds(original, stream)
      modifies this`stored, this`pos, buffer, partition
      ensures r == if partition.short == old(partition.short) then |data| else -1
      ensures r >= 0 ==> Holds(original, stream + data)
      ensures r < 0 ==> Valid() && Reached(original, partition.bytes, pos, stream + data)
      ensures r < 0 && old(stored) == 0 ==> stored == 0
    {
      ghost var full := stream + data;
      ghost var before := |stream|;
      Joined(original, stream, data);
      assert Carries(full, before, data);
      hide Taken, Reached, Carries, Aligned;
      var wrote := 0;
      while wrote < |data|
        invariant wrote <= |data| && Taken(original, full, before + wrote) && stored < buffer.Length
        invariant partition.short == old(partition.short)
        invariant old(stored) == 0 ==> stored == 0 || wrote == |data|
      {
        var ok;
        ok, wrote := WriteSome(data, wrote, original, full, before);
        if !ok {
          return -1;
        }
      }
      return wrote;
    }

    /** Zero-pad the pending data to a block boundary and write it. */
    method Pad(ghost original: string, ghost stream: string) returns (ok: bool)
      requires Holds(original, stream) && stored > 0
      modifies this`stored, this`pos, buffer, partition
      ensures partition.short == old(partition.short) + if ok then 0 else 1
      ensures Reached(original, partition.bytes, pos, Padded(stream, buffer.Length))
      ensures ok ==> stored == 0 && pos == |Padded(stream, buffer.Length)|
    {
      hide Holds, Taken, Aligned, Lies, Reached, Padded, Carries;
      PadStart(original, stream);
      ghost var full := Padded(stream, buffer.Length);
      var zeros := Repeat(ZERO, buffer.Length - stored);
      var wrote := Coalesce(zeros, 0, original, full, |stream|);
      ok := Flush(original, full, |full|);
      if ok {
        AllTaken(original, full);
      }
    }

    lemma PadStart(original: string, stream: string)
      requires Holds(original, stream)
      ensures stored < buffer.Length
      ensures stored > 0 ==>
                var full := Padded(stream, buffer.Length);
                && Taken(original, full, |stream|) && |full| == |stream| + (buffer.Length - stored)
                && Carries(full, |stream|, Repeat(ZERO, buffer.Length - stored))
    {
      hide Aligned;
      PaddedIs(stream, pos, stored, buffer.Length);
      Joined(original, stream, Repeat(ZERO, buffer.Length - stored));
    }

    /** The buffer full of 0xFF. */
    method FillErased()
      modifies buffer
      ensures buffer[..] == Repeat(ERASED, buffer.Length)
    {
      Copy(buffer, 0, Repeat(ERASED, buffer.Length));
      OverlayPrefix(old(buffer[..]), 0, Repeat(ERASED, buffer.Length));
    }

    /** Write blocks of 0xFF. */
    method WriteBlanks(blocks: nat) returns (ok: bool)
      requires Valid() && pos <= |partition.bytes|
      modifies this`pos, buffer, partition
      ensures partition.short == old(partition.short) + if ok then 0 else 1
      ensures old(pos) <= pos
      ensures Reached(old(partition.bytes), partition.bytes, pos,
                      old(partition.bytes[..pos]) + Blank(blocks, buffer.Length))
      ensures ok ==> pos == old(pos) + |Blank(blocks, buffer.Length)|
      ensures blocks == 0 ==> ok
    {
      hide Reached, Blank, Repeat, Overlay;
      ghost var original, base := partition.bytes, partition.bytes[..pos];
      FillErased();
      NoBlanks(original, original, pos, buffer.Length);
      assert base + "" == base;
      ReachedStart(original, pos);
      var k := 0;
      while k < blocks
        invariant k <= blocks && buffer[..] == Repeat(ERASED, buffer.Length)
        invariant Reached(original, partition.bytes, pos, base + Blank(k, buffer.Length))
        invariant pos == |base + Blank(k, buffer.Length)|
        invariant partition.short == old(partition.short)
      {
        ghost var next := base + Blank(k + 1, buffer.Length);
        BlankNext(base, k);
        ReachedLonger(original, partition.bytes, pos, base + Blank(k, buffer.Length), next);
        ok := WriteBlock(buffer[..], original, next);
        if !ok {
          BlankPrefix(k + 1, blocks, buffer.Length);
          ReachedLonger(original, partition.bytes, pos, next, base + Blank(blocks, buffer.Length));
          return;
        }
        k := k + 1;
      }
      ok := true;
    }

    lemma BlankNext(base: string, k: nat)
      ensures var here := base + Blank(k, buffer.Length);
              var next := base + Blank(k + 1, buffer.Length);
              && here <= next && |next| == |here| + buffer.Length
              && next[|here|..|here| + buffer.Length] == Repeat(ERASED, buffer.Length)
    {
      var here, block := base + Blank(k, buffer.Length), Repeat(ERASED, buffer.Length);
      assert base + Blank(k + 1, buffer.Length) == here + block;
      Appended(here, block);
    }

    /** `mtd_erase_blocks`: the position of the first erased block, or -1. The pending
        data is padded with zeros first. Usable also after a failed write, when
        nothing is pending. */
    method EraseBlocks(blocks: int, ghost original: string, ghost stream: string) returns (r: int)
      requires Valid() && pos <= |partition.bytes| && (stored > 0 ==> Holds(original, stream))
      modifies this`stored, this`pos, buffer, partition
      ensures partition.short >= old(partition.short)
      ensures old(Holds(original, stream)) ==>
                var padded := Padded(stream, buffer.Length);
                var full := WithErased(stream, blocks, |original|, buffer.Length);
                && Reached(original, partition.bytes, pos, full)
                && r == (if partition.short == old(partition.short) &&
                            blocks <= BlocksLeft(|original|, |padded|, buffer.Length) then |padded| else -1)
                && (r >= 0 ==> pos == |full|)
      ensures old(stored) == 0 && blocks == 0 ==>
                r == old(pos) == pos && partition.bytes == old(partition.bytes) && partition.short == old(partition.short)
    {
      hide Holds, Taken, Padded, Reached, Blank, BlocksLeft, WithErased, ToErase, Aligned;
      ghost var intact := Holds(original, stream);
      ghost var padded := Padded(stream, buffer.Length);
      ghost var full := WithErased(stream, blocks, |original|, buffer.Length);
      WithErasedIs(stream, blocks, |original|, buffer.Length);
      if stored > 0 {
        var ok := Pad(original, stream);
        if !ok {
          ReachedLonger(original, partition.bytes, pos, padded, full);
          return -1;
        }
      } else if intact {
        NothingToPad(original, stream);
      }
      ghost var between := partition.bytes;
      assert intact ==>
          && Reached(original, between, pos, padded) && pos == |padded| && pos <= |between| == |original| by {
        if intact {
          ReachedSize(original, between, pos, padded);
        }
      }
      r := pos;
      var total := BlocksLeft(|partition.bytes|, pos, buffer.Length);
      var n := if blocks < 0 then total else blocks;
      if n > total {
        if intact {
          ReachedLonger(original, partition.bytes, pos, padded, full);
        }
        return -1;
      }
      ghost var start := pos;
      var ok := WriteBlanks(n);
      if n == 0 {
        NoBlanks(between, partition.bytes, start, buffer.Length);
      }
      if intact {
        ReachedOnward(original, between, |padded|, padded, partition.bytes, pos, Blank(n, buffer.Length));
      }
      if !ok {
        r := -1;
      }
    }

    lemma NothingToPad(original: string, stream: string)
      requires Holds(original, stream) && stored == 0
      ensures var padded := Padded(stream, buffer.Length);
              Reached(original, partition.bytes, pos, padded) && pos == |padded|
    {
      hide Reached, Padded, Aligned;
      AllTaken(original, stream);
      PaddedIs(stream, pos, stored, buffer.Length);
    }

    /** `mtd_write_close`, 0 or -1: a success leaves the stream, padded with zeros to
        whole blocks, at the start of the partition and the rest as it was. */
    method Close(ghost original: string, ghost stream: string) returns (r: int)
      requires Valid() && pos <= |partition.bytes| && (stored > 0 ==> Holds(original, stream))
      modifies this`stored, this`pos, buffer, partition
      ensures partition.short >= old(partition.short)
      ensures r == if partition.short == old(partition.short) then 0 else -1
      ensures old(Holds(original, stream)) ==>
                && Reached(original, partition.bytes, pos, Padded(stream, buffer.Length))
                && (r == 0 ==> pos == |Padded(stream, buffer.Length)|)
      ensures old(stored) == 0 ==>
                r == 0 && pos == old(pos) && partition.bytes == old(partition.bytes)
    {
      BlankNone(stream, |original|, buffer.Length);
      hide Holds, Taken, Reached, Padded, WithErased;
      r := 0;
      var at := EraseBlocks(0, original, stream);
      if at == -1 {
        r := -1;
      }
    }
  }

  lemma BlankNone(stream: string, size: nat, block: pos)
    ensures WithErased(stream, 0, size, block) == Padded(stream, block)
  {
  }

  lemma ReachedSize(original: string, bytes: string, pos: nat, stream: string)
    requires Reached(original, bytes, pos, stream)
    ensures pos <= |bytes| == |original|
  {
  }

  /** `MtdReadContext`, with the position of its file descriptor. */
  class ReadContext {
    const partition: Partition
    const buffer: array<char>
    var consumed: nat
    var pos: nat

    /** The position in the partition of the next byte the caller gets: what is left
        in the buffer lies just before the file position. */
    ghost predicate At(next: nat)
      reads this, partition, buffer
    {
      && partition.eraseSize == buffer.Length > 0
      && consumed <= buffer.Length && next + (buffer.Length - consumed) == pos <= |partition.bytes|
      && buffer[consumed..] == partition.bytes[next..pos]
    }

    /** `mtd_read_partition`. */
    constructor (partition: Partition)
      ensures this.partition == partition && fresh(buffer)
      ensures At(0)
    {
      this.partition := partition;
      buffer := new char[partition.eraseSize];
      consumed := partition.eraseSize;
      pos := 0;
    }

    /** `read_block`. */
    method ReadBlock(into: array<char>, at: nat) returns (ok: bool)
      requires pos <= |partition.bytes| && partition.eraseSize == buffer.Length && at + buffer.Length <= into.Length
      modifies this`pos, partition`transfers, partition`short, into
      ensures partition.short == old(partition.short) + if ok then 0 else 1
      ensures pos <= |partition.bytes|
      ensures old(pos) <= pos <= old(pos) + buffer.Length && (ok ==> pos == old(pos) + buffer.Length)
      ensures into[..] == Overlay(old(into[..]), at, partition.bytes[old(pos)..pos])
    {
      var n := partition.Read(pos, into, at, partition.eraseSize);
      pos := pos + n;
      ok := n == partition.eraseSize;
    }

    /** The caller has the `read` bytes of the partition from `start` on. */
    ghost predicate Got(data: array<char>, start: nat, read: nat)
      reads this, partition, buffer, data
    {
      && data != buffer && read <= data.Length && At(start + read)
      && data[..read] == partition.bytes[start..start + read]
    }

    /** Bytes from the buffer. */
    method Serve(data: array<char>, len: nat, from: nat, ghost start: nat) returns (read: nat)
      requires Got(data, start, from) && from < len <= data.Length && consumed < buffer.Length
      modifies this`consumed, data
      ensures from < read <= len && Got(data, start, read)
      ensures read == len || consumed == buffer.Length
    {
      var avail := partition.eraseSize - consumed;
      var copy := if len - from < avail then len - from else avail;
      ghost var piece := buffer[consumed..consumed + copy];
      Copy(data, from, buffer[consumed..consumed + copy]);
      PieceIs(buffer[..], consumed, copy, partition.bytes, start + from, pos);
      GotMore(old(data[..]), data[..], partition.bytes, start, from, piece);
      consumed := consumed + copy;
      read := from + copy;
    }

    lemma PieceIs(b: string, c: nat, copy: nat, bytes: string, next: nat, end: nat)
      requires c + copy <= |b| && next + (|b| - c) == end <= |bytes| && b[c..] == bytes[next..end]
      ensures b[c..c + copy] == bytes[next..next + copy] && b[c + copy..] == bytes[next + copy..end]
    {
      assert forall k :: c <= k < |b| ==> b[k] == b[c..][k - c] == bytes[next + (k - c)];
    }

    /** Complete blocks straight into the caller's data. */
    method ReadBlocks(data: array<char>, len: nat, from: nat, ghost start: nat) returns (ok: bool, read: nat)
      requires Got(data, start, from) && from <= len <= data.Length
      modifies this`pos, data, partition`transfers, partition`short
      ensures from <= read <= len
      ensures partition.short == old(partition.short) + if ok then 0 else 1
      ensures ok ==> Got(data, start, read) && (consumed == buffer.Length ==> len - read < buffer.Length)
    {
      hide Got, Overlay;
      read := from;
      GotBounds(data, start, read);
      while consumed == partition.eraseSize && len - read >= partition.eraseSize
        invariant from <= read <= len && Got(data, start, read)
        invariant partition.short == old(partition.short)
        decreases len - read
      {
        ghost var was := data[..];
        AllServed(data, start, read);
        ok := ReadBlock(data, read);
        if !ok {
          return;
        }
        GotMore(was, data[..], partition.bytes, start, read, partition.bytes[start + read..pos]);
        read := read + partition.eraseSize;
        AllServed(data, start, read);
      }
      ok := true;
    }

    /** With nothing left in the buffer, the file position is where the caller's data ends. */
    lemma AllServed(data: array<char>, start: nat, read: nat)
      requires consumed == buffer.Length && read <= data.Length
      ensures Got(data, start, read) <==>
              && data != buffer && partition.eraseSize == buffer.Length > 0
              && start + read == pos <= |partition.bytes|
              && data[..read] == partition.bytes[start..start + read]
    {
      assert buffer[consumed..] == [];
    }

    /** The next block into the buffer. */
    method Refill(ghost data: array<char>, ghost start: nat, ghost read: nat) returns (ok: bool)
      requires Got(data, start, read) && consumed == buffer.Length
      modifies this`consumed, this`pos, buffer, partition`transfers, partition`short
      ensures partition.short == old(partition.short) + if ok then 0 else 1
      ensures ok ==> Got(data, start, read) && consumed == 0
    {
      ok := ReadBlock(buffer, 0);
      if ok {
        consumed := 0;
        OverlayPrefix(old(buffer[..]), 0, partition.bytes[old(pos)..pos]);
        assert buffer[..] == partition.bytes[old(pos)..pos];
      }
    }

    /** `mtd_read_data`: the next `len` bytes of the partition, or -1. It fails exactly
        when the kernel cuts a transfer short. */
    method ReadData(data: array<char>, len: nat, ghost start: nat) returns (r: int)
      requires At(start) && len <= data.Length && data != buffer
      modifies this`consumed, this`pos, buffer, data, partition`transfers, partition`short
      ensures r == if partition.short == old(partition.short) then len else -1
      ensures r >= 0 ==> At(start + len) && data[..len] == partition.bytes[start..start + len]
    {
      hide Got, At;
      var read := 0;
      GotNothing(data, start);
      GotBounds(data, start, read);
      while read < len
        invariant read <= len && Got(data, start, read) && consumed <= buffer.Length
        invariant partition.short == old(partition.short)
        decreases len - read, consumed
      {
        GotBounds(data, start, read);
        if consumed < partition.eraseSize {
          read := Serve(data, len, read, start);
        }
        var ok;
        ok, read := ReadBlocks(data, len, read, start);
        if !ok {
          return -1;
        }
        if read >= len {
          break;
        }
        if consumed == partition.eraseSize && read < len {
          ok := Refill(data, start, read);
          if !ok {
            return -1;
          }
        }
        GotBounds(data, start, read);
      }
      GotIs(data, start, read);
      return read;
    }

    lemma GotNothing(data: array<char>, start: nat)
      requires At(start) && data != buffer
      ensures Got(data, start, 0)
    {
    }

    lemma GotIs(data: array<char>, start: nat, read: nat)
      requires Got(data, start, read)
      ensures read <= data.Length && At(start + read) && start + read <= |partition.bytes|
      ensures data[..read] == partition.bytes[start..start + read]
    {
    }

    lemma GotBounds(data: array<char>, start: nat, read: nat)
      requires Got(data, start, read)
      ensures partition.eraseSize == buffer.Length > 0 && consumed <= buffer.Length
    {
    }
  }

  lemma GotMore(was: string, now: string, bytes: string, start: nat, read: nat, piece: string)
    requires read + |piece| <= |was| && now == Overlay(was, read, piece)
    requires start + read + |piece| <= |bytes|
    requires was[..read] == bytes[start..start + read] && piece == bytes[start + read..start + read + |piece|]
    ensures now[..read + |piece|] == bytes[start..start + read + |piece|]
  {
    OverlayPrefix(was, read, piece);
    assert bytes[start..start + read + |piece|] == bytes[start..start + read] + bytes[start + read..start + read + |piece|];
  }
}
