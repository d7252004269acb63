/** The read-modify-write that stores the bootloader message on the misc partition. */
module Bootloader {
  import opened Alignment
  import opened Memory
  import opened Mtd

  const MISC_PAGES := 3
  const MISC_COMMAND_PAGE := 1

  /** `sizeof(struct bootloader_message)`: command, status and recovery. */
  const MESSAGE_SIZE := 32 + 32 + 1024

  type Message = m: string | |m| == MESSAGE_SIZE witness Repeat(ZERO, MESSAGE_SIZE)

  type PageSize = n: nat | n >= 32 * 512 witness 32 * 512

  /** The page size `mtd_partition_info` reports for the erase size the driver gives. */
  function WriteSize(driverEraseSize: nat): PageSize {
    if driverEraseSize > 32 * 512 then driverEraseSize else 32 * 512
  }

  /** The first pages of the partition with the message on the command page. */
  function Image(bytes: string, page: PageSize, message: Message): (s: string)
    requires MISC_PAGES * page <= |bytes|
    ensures |s| == MISC_PAGES * page
  {
    Overlay(bytes[..MISC_PAGES * page], page * MISC_COMMAND_PAGE, message)
  }

  lemma PaddedStarts(s: string, block: pos)
    ensures s <= Padded(s, block)
  {
  }

  lemma ImageIs(before: string, read: string, page: PageSize, message: Message)
    requires MISC_PAGES * page == |read| <= |before| && read == before[..MISC_PAGES * page]
    ensures Overlay(read, page * MISC_COMMAND_PAGE, message) == Image(before, page, message)
  {
    hide Overlay;
  }

  /** What the whole write leaves: the image, padded to whole blocks, and the rest. */
  predicate Written(before: string, after: string, page: PageSize, message: Message, block: pos) {
    && MISC_PAGES * page <= |before|
    && var image := Padded(Image(before, page, message), block);
       Reached(before, after, |image|, image)
  }

  /** Only the first `n` bytes of the image got written. */
  predicate CutShort(before: string, after: string, page: PageSize, message: Message, block: pos, n: nat) {
    MISC_PAGES * page <= |before| && Reached(before, after, n, Padded(Image(before, page, message), block))
  }

  ghost predicate PartlyWritten(before: string, after: string, page: PageSize, message: Message, block: pos) {
    exists n :: CutShort(before, after, page, message, block, n)
  }

  // The same in terms of positions: the message has 1088 bytes and lies at the start of
  // the second of three pages; a page is the erase size the driver gives, or 16384 bytes.

  predicate InMessage(k: nat, page: PageSize) {
    page <= k < page + 1088
  }

  /** Behind the three pages, in the erase block they end in. */
  predicate InGap(k: nat, page: PageSize, block: pos) {
    3 * page <= k < RoundUp(3 * page, block)
  }

  predicate MessageStored(before: string, after: string, page: nat, message: Message) {
    && page + 1088 <= 3 * page <= |before| == |after|
    && (forall k :: 0 <= k < 1088 ==> after[page + k] == message[k])
    && (forall k :: 0 <= k < page ==> after[k] == before[k])
    && (forall k :: page + 1088 <= k < 3 * page ==> after[k] == before[k])
    && (forall k :: 3 * page <= k < |before| ==> after[k] == before[k] || after[k] == '\0')
  }

  /** Every byte is what it was, or the one of the message that belongs there, or a zero
      behind the pages. */
  predicate PartlyStored(before: string, after: string, page: nat, message: Message) {
    && |before| == |after|
    && forall k :: 0 <= k < |before| ==>
         || after[k] == before[k]
         || (page <= k < page + 1088 && after[k] == message[k - page])
         || (3 * page <= k && after[k] == '\0')
  }

  /** `set_bootloader_message_mtd`, 0 or -1; `readOpens` and `writeOpens` tell whether
      the contexts could be opened. Success means that every transfer was complete;
      on failure the partition holds some prefix of the new image. */
  method SetBootloaderMessage(part: Partition, driverEraseSize: nat, message: Message, readOpens: bool, writeOpens: bool)
    returns (r: int)
    modifies part
    ensures r == if readOpens && writeOpens && part.short == old(part.short) then 0 else -1
    ensures r == 0 ==>
              Written(old(part.bytes), part.bytes, WriteSize(driverEraseSize), message, part.eraseSize)
    ensures part.bytes != old(part.bytes) ==>
              PartlyWritten(old(part.bytes), part.bytes, WriteSize(driverEraseSize), message, part.eraseSize)
    ensures var page := if driverEraseSize > 16384 then driverEraseSize else 16384;
            && (r == 0 ==> MessageStored(old(part.bytes), part.bytes, page, message))
            && PartlyStored(old(part.bytes), part.bytes, page, message)
  {
    hide Written, PartlyWritten, MessageStored, PartlyStored, Image, Reached, Padded, Overlay;
    ghost var before := part.bytes;
    NothingStored(before, WriteSize(driverEraseSize), message);
    var page := WriteSize(driverEraseSize);
    if !readOpens {
      return -1;
    }
    var read := new ReadContext(part);
    var size := page * MISC_PAGES;
    var data := new char[size];
    var got := read.ReadData(data, size, 0);
    if got != size {
      return -1;
    }
    ImageIs(before, data[..], page, message);
    Copy(data, page * MISC_COMMAND_PAGE, message);
    ghost var image := Image(before, page, message);
    assert data[..] == image;
    if !writeOpens {
      return -1;
    }
    var write := new WriteContext(part);
    var wrote := write.WriteData(data[..], before, "");
    assert "" + data[..] == image;
    if wrote != size {
      PaddedStarts(image, part.eraseSize);
      ReachedLonger(before, part.bytes, write.pos, image, Padded(image, part.eraseSize));
      var _ := write.Close(before, image);
      CutIs(before, part.bytes, page, message, part.eraseSize, write.pos);
      return -1;
    }
    r := write.Close(before, image);
    CutIs(before, part.bytes, page, message, part.eraseSize, write.pos);
    if r == 0 {
      WrittenIsStored(before, part.bytes, page, message, part.eraseSize);
    }
  }

  /** What stands at position `k` once the first `n` bytes of the image are written. */
  lemma ByteAfter(before: string, after: string, page: PageSize, message: Message, block: pos, n: nat, k: nat)
    requires k < |before|
    requires CutShort(before, after, page, message, block, n)
    ensures |after| == |before|
    ensures after[k] == if k >= n then before[k]
                        else if InMessage(k, page) then message[k - page]
                        else if InGap(k, page, block) then '\0'
                        else before[k]
  {
    hide RoundUp;
    var image := Image(before, page, message);
    var padded := Padded(image, block);
    if k < n {
      assert after[k] == padded[..n][k] == padded[k];
      if k < MISC_PAGES * page {
        assert padded[k] == image[k];
        assert !InMessage(k, page) ==> image[k] == before[k];
      }
    } else {
      assert after[k] == before[n..][k - n];
    }
  }

  /** No byte but those of the message has changed. */
  predicate OnlyMessage(before: string, after: string, page: PageSize) {
    |after| == |before| && forall k :: 0 <= k < |before| && !InMessage(k, page) ==> after[k] == before[k]
  }

  /** The bytes between the last page and the end of its erase block are zero. */
  predicate GapIsZero(before: string, page: PageSize, block: pos) {
    forall k :: 0 <= k < |before| && InGap(k, page, block) ==> before[k] == '\0'
  }

  /** A successful write changes the message only, exactly when what follows the pages
      in their last erase block is zero already. */
  lemma OnlyMessageChangesIff(before: string, after: string, page: PageSize, message: Message, block: pos)
    requires Written(before, after, page, message, block)
    ensures OnlyMessage(before, after, page) <==> GapIsZero(before, page, block)
    ensures MessageStored(before, after, page, message)
  {
    var n := |Padded(Image(before, page, message), block)|;
    hide RoundUp, Reached, Padded, Image;
    assert CutShort(before, after, page, message, block, n);
    ReachedSize(before, after, n, Padded(Image(before, page, message), block));
    forall k | 0 <= k < |before|
      ensures after[k] == if InMessage(k, page) then message[k - page]
                          else if InGap(k, page, block) then '\0'
                          else before[k]
    {
      ByteAfter(before, after, page, message, block, n, k);
    }
    forall k | 0 <= k < 1088 ensures after[page + k] == message[k] {
      assert InMessage(page + k, page);
    }
  }

  lemma WrittenIsStored(before: string, after: string, page: PageSize, message: Message, block: pos)
    requires Written(before, after, page, message, block)
    ensures MessageStored(before, after, page, message)
  {
    hide *;
    OnlyMessageChangesIff(before, after, page, message, block);
  }

  lemma CutIs(before: string, after: string, page: PageSize, message: Message, block: pos, n: nat)
    requires CutShort(before, after, page, message, block, n)
    ensures PartlyWritten(before, after, page, message, block) && PartlyStored(before, after, page, message)
    ensures n == |Padded(Image(before, page, message), block)| ==> Written(before, after, page, message, block)
  {
    hide PartlyStored, Padded, Image, Reached;
    PartlyWrittenIs(before, after, page, message, block);
  }

  lemma NothingStored(bytes: string, page: nat, message: Message)
    ensures PartlyStored(bytes, bytes, page, message)
  {
  }

  /** Wherever the write stops. */
  lemma PartlyWrittenIs(before: string, after: string, page: PageSize, message: Message, block: pos)
    requires PartlyWritten(before, after, page, message, block)
    ensures PartlyStored(before, after, page, message)
  {
    var n :| CutShort(before, after, page, message, block, n);
    assert |before| > 0;
    hide RoundUp, CutShort;
    ByteAfter(before, after, page, message, block, n, 0);
    forall k | 0 <= k < |before|
      ensures after[k] == if k >= n then before[k]
                          else if InMessage(k, page) then message[k - page]
                          else if InGap(k, page, block) then '\0'
                          else before[k]
    {
      ByteAfter(before, after, page, message, block, n, k);
    }
  }

  /** Where a failed write stops does not matter: nothing outside the message is lost. */
  lemma FailureKeepsTheRest(before: string, after: string, page: PageSize, message: Message, block: pos)
    requires PartlyWritten(before, after, page, message, block) && GapIsZero(before, page, block)
    ensures OnlyMessage(before, after, page)
  {
    var n :| CutShort(before, after, page, message, block, n);
    assert |before| > 0;
    hide RoundUp, CutShort;
    ByteAfter(before, after, page, message, block, n, 0);
    forall k | 0 <= k < |before| && !InMessage(k, page) ensures after[k] == before[k] {
      ByteAfter(before, after, page, message, block, n, k);
    }
  }

  /** There is no gap when the pages end where an erase block ends. */
  lemma AlignedHasNoGap(before: string, page: PageSize, block: pos)
    requires Aligned(3 * page, block)
    ensures GapIsZero(before, page, block)
  {
    hide RoundUp, Aligned;
    RoundUpFrom(3 * page, 0, block);
  }

  /** That is so when the driver and the partition table agree on an erase size of at
      least 16384 bytes, or on one that divides 16384. */
  lemma UsualSizesAreAligned(block: pos)
    requires block >= 16384 || Aligned(16384, block)
    ensures Aligned(3 * WriteSize(block), block)
  {
    var page := WriteSize(block);
    assert Aligned(page, block) by {
      if block >= 32 * 512 {
        assert Aligned(block - block, block);
      }
    }
    hide Aligned;
    AlignedSum(page, page, block);
    AlignedSum(page + page, page, block);
  }

  /** With an erase size of 10000 bytes a partition of 60000 ones loses bytes that are
      no part of the message. */
  lemma GapExample(after: string, message: Message)
    requires Written(Repeat('1', 60000), after, WriteSize(10000), message, 10000)
    ensures !OnlyMessage(Repeat('1', 60000), after, WriteSize(10000))
  {
    var before := Repeat('1', 60000);
    OnlyMessageChangesIff(before, after, WriteSize(10000), message, 10000);
    RoundUpFrom(40000, 9152, 10000);
    assert InGap(49152, WriteSize(10000), 10000);
    assert before[49152] == '1';
  }
}
