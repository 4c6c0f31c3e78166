/** The feed store of ffserver: a file of fixed-size packets written in a circle after a
    header packet that records where the next packet goes, and the reader that follows it.

    A packet is modelled from the point where a whole packet is in the receive buffer. */
module FeedStore {

  import opened Bytes

  const FFM_PACKET_SIZE: nat := 4096

  /** The file after data is written at pos; a gap before pos reads as zeros. */
  function WriteAt(file: seq<byte>, pos: nat, data: seq<byte>): (r: seq<byte>)
    ensures |r| == if |file| < pos + |data| then pos + |data| else |file|
    ensures r[pos..pos + |data|] == data
    ensures forall i :: 0 <= i < |file| && !(pos <= i < pos + |data|) ==> r[i] == file[i]
  {
    var padded := if |file| < pos then file + seq(pos - |file|, _ => 0) else file;
    padded[..pos] + data + if pos + |data| < |padded| then padded[pos + |data|..] else []
  }

  /** The packet in slot j; slot 0 is the header. */
  predicate SlotHolds(file: seq<byte>, j: nat, packet: seq<byte>) {
    FFM_PACKET_SIZE * (j + 1) <= |file| && file[FFM_PACKET_SIZE * j..FFM_PACKET_SIZE * (j + 1)] == packet
  }

  lemma OtherSlotKept(file: seq<byte>, pos: nat, data: seq<byte>, j: nat, packet: seq<byte>)
    requires SlotHolds(file, j, packet)
    requires pos + |data| <= FFM_PACKET_SIZE * j || FFM_PACKET_SIZE * (j + 1) <= pos
    ensures SlotHolds(WriteAt(file, pos, data), j, packet)
  {
    var r := WriteAt(file, pos, data);
    var lo, hi := FFM_PACKET_SIZE * j, FFM_PACKET_SIZE * (j + 1);
    assert forall i :: lo <= i < hi ==> r[i] == file[i];
    assert r[lo..hi] == file[lo..hi];
  }

  // ---------- The circle ----------

  /** The number of data slots of a store limited to max bytes: the slots that start before
      the limit, without the header. */
  function Slots(max: nat): nat
    requires max > 0
  {
    (max - 1) / FFM_PACKET_SIZE
  }

  /** The slot k steps back on the circle; without a limit there is no circle. */
  function Back(cur: nat, k: nat, max: nat): int {
    if cur - k >= 1 || max == 0 then cur - k else cur - k + Slots(max)
  }

  /** How many of the last packets are kept. */
  function Kept(n: nat, max: nat): nat {
    if max == 0 || n <= Slots(max) then n else Slots(max)
  }

  /** The k-th last packet is in the slot k + 1 steps back. */
  ghost predicate Recent(file: seq<byte>, cur: nat, max: nat, stored: seq<seq<byte>>, k: nat)
    requires k < |stored|
  {
    var j := Back(cur, k + 1, max);
    j >= 1 && SlotHolds(file, j, stored[|stored| - 1 - k])
  }

  /** The slots hold exactly the last packets in circular order. */
  ghost predicate RecentKept(file: seq<byte>, cur: nat, max: nat, stored: seq<seq<byte>>) {
    forall k :: 0 <= k < Kept(|stored|, max) ==> Recent(file, cur, max, stored, k)
  }

  /** cur is a slot of the circle. */
  predicate OnCircle(cur: nat, max: nat) {
    cur >= 1 && (max != 0 ==> max >= 4 * FFM_PACKET_SIZE && cur <= Slots(max))
  }

  /** A limit that the configuration accepts, 0 for none. */
  predicate IsLimit(max: nat) {
    max == 0 || max >= 4 * FFM_PACKET_SIZE
  }

  /** The slot after cur. */
  function NextSlot(cur: nat, max: nat): nat {
    if max != 0 && cur >= Slots(max) then 1 else cur + 1
  }

  /** From every slot, on the circle or beyond it, the comparison of the code is the step to
      the next slot of the circle. */
  lemma WrapTest(cur: nat, max: nat)
    requires cur >= 1 && IsLimit(max)
    ensures OnCircle(cur, max) <==> max == 0 || FFM_PACKET_SIZE * cur < max
    ensures OnCircle(NextSlot(cur, max), max)
    ensures FFM_PACKET_SIZE * NextSlot(cur, max) ==
      if max != 0 && FFM_PACKET_SIZE * (cur + 1) >= max then FFM_PACKET_SIZE else FFM_PACKET_SIZE * (cur + 1)
    ensures max != 0 ==> max <= FFM_PACKET_SIZE * (Slots(max) + 1) < max + FFM_PACKET_SIZE
  {
  }

  lemma DataWritten(file: seq<byte>, cur: nat, max: nat, stored: seq<seq<byte>>, packet: seq<byte>)
    requires OnCircle(cur, max) && (max == 0 ==> |stored| < cur) && |packet| == FFM_PACKET_SIZE
    requires RecentKept(file, cur, max, stored)
    ensures RecentKept(WriteAt(file, FFM_PACKET_SIZE * cur, packet), NextSlot(cur, max), max, stored + [packet])
  {
    hide WriteAt, SlotHolds;
    var f, next, now := WriteAt(file, FFM_PACKET_SIZE * cur, packet), NextSlot(cur, max), stored + [packet];
    forall k | 0 <= k < Kept(|now|, max)
      ensures Recent(f, next, max, now, k)
    {
      var j := Back(next, k + 1, max);
      if k == 0 {
        assert j == cur;
        assert SlotHolds(f, cur, packet) by { SlotWritten(file, cur, packet); }
      } else {
        assert Recent(file, cur, max, stored, k - 1);
        assert j == Back(cur, k, max) && j != cur;
        OtherSlotKept(file, FFM_PACKET_SIZE * cur, packet, j, now[|now| - 1 - k]);
      }
    }
  }

  lemma SlotWritten(file: seq<byte>, j: nat, packet: seq<byte>)
    requires |packet| == FFM_PACKET_SIZE
    ensures SlotHolds(WriteAt(file, FFM_PACKET_SIZE * j, packet), j, packet)
  {
  }

  /** For every file and every aligned index: whatever packet is stored there, the last
      packets are kept in circular order, exactly if the index is below the limit. */
  lemma StoredOnCircleIff(file: seq<byte>, cur: nat, max: nat, stored: seq<seq<byte>>)
    requires cur >= 1 && IsLimit(max) && (max == 0 ==> |stored| < cur) && RecentKept(file, cur, max, stored)
    ensures (forall packet: seq<byte> :: |packet| == FFM_PACKET_SIZE ==>
               RecentKept(WriteAt(file, FFM_PACKET_SIZE * cur, packet), NextSlot(cur, max), max, stored + [packet]))
            <==> max == 0 || FFM_PACKET_SIZE * cur < max
  {
    hide WriteAt, SlotHolds, RecentKept, Slots;
    WrapTest(cur, max);
    if OnCircle(cur, max) {
      forall packet: seq<byte> | |packet| == FFM_PACKET_SIZE
        ensures RecentKept(WriteAt(file, FFM_PACKET_SIZE * cur, packet), NextSlot(cur, max), max, stored + [packet])
      {
        DataWritten(file, cur, max, stored, packet);
      }
    } else {
      var packet := OtherPacket(WriteAt(file, FFM_PACKET_SIZE * cur, []), Slots(max));
      MissedByCircle(file, cur, max, stored, packet);
    }
  }

  /** A packet that slot j does not hold. */
  function OtherPacket(file: seq<byte>, j: nat): (packet: seq<byte>)
    ensures |packet| == FFM_PACKET_SIZE && !SlotHolds(file, j, packet)
  {
    var zeros := seq(FFM_PACKET_SIZE, _ => 0 as byte);
    var ones := seq(FFM_PACKET_SIZE, _ => 1 as byte);
    assert zeros[0] != ones[0];
    if SlotHolds(file, j, zeros) then ones else zeros
  }

  /** A packet stored beyond the circle: the index goes back to the first slot, but the slot
      before that, the last of the circle, holds what it held. */
  lemma MissedByCircle(file: seq<byte>, cur: nat, max: nat, stored: seq<seq<byte>>, packet: seq<byte>)
    requires cur >= 1 && IsLimit(max) && !OnCircle(cur, max)
    requires !SlotHolds(WriteAt(file, FFM_PACKET_SIZE * cur, []), Slots(max), packet)
    ensures NextSlot(cur, max) == 1
    ensures !RecentKept(WriteAt(file, FFM_PACKET_SIZE * cur, packet), 1, max, stored + [packet])
  {
    var f := WriteAt(file, FFM_PACKET_SIZE * cur, packet);
    assert Back(1, 1, max) == Slots(max) < cur;
    SameBelow(file, FFM_PACKET_SIZE * cur, packet, Slots(max), packet);
    hide WriteAt, SlotHolds;
    assert !Recent(f, 1, max, stored + [packet], 0);
  }

  /** What is below the place of a write does not depend on what is written. */
  lemma SameBelow(file: seq<byte>, pos: nat, data: seq<byte>, j: nat, packet: seq<byte>)
    requires FFM_PACKET_SIZE * (j + 1) <= pos
    ensures SlotHolds(WriteAt(file, pos, data), j, packet) <==> SlotHolds(WriteAt(file, pos, []), j, packet)
  {
    var f, g := WriteAt(file, pos, data), WriteAt(file, pos, []);
    assert f[..pos] == g[..pos];
    var lo, hi := FFM_PACKET_SIZE * j, FFM_PACKET_SIZE * (j + 1);
    assert f[lo..hi] == f[..pos][lo..hi] && g[lo..hi] == g[..pos][lo..hi];
  }

  /** The header is no data slot. */
  lemma HeaderWritten(file: seq<byte>, cur: nat, max: nat, stored: seq<seq<byte>>, bytes: seq<byte>)
    requires |bytes| == 8 && RecentKept(file, cur, max, stored)
    ensures RecentKept(WriteAt(file, 8, bytes), cur, max, stored)
  {
    hide WriteAt, SlotHolds;
    forall k | 0 <= k < Kept(|stored|, max)
      ensures Recent(WriteAt(file, 8, bytes), cur, max, stored, k)
    {
      assert Recent(file, cur, max, stored, k);
      OtherSlotKept(file, 8, bytes, Back(cur, k + 1, max), stored[|stored| - 1 - k]);
    }
  }

  // ---------- The feed of a server ----------

  /** ffm_read_write_index. */
  function HeaderIndex(file: seq<byte>): nat
    requires |file| >= 16
  {
    FromBigEndian(file[8..16])
  }

  /** Where the next packet goes when the file is opened. */
  function Resume(file: seq<byte>): nat
    requires |file| >= 16
  {
    if HeaderIndex(file) > FFM_PACKET_SIZE then HeaderIndex(file) else FFM_PACKET_SIZE
  }

  /** A file of whole packets whose index is the start of a packet: what the muxer writes
      and what every method of a feed leaves. */
  predicate WellKept(file: seq<byte>) {
    && |file| >= FFM_PACKET_SIZE && |file| % FFM_PACKET_SIZE == 0
    && HeaderIndex(file) % FFM_PACKET_SIZE == 0 && HeaderIndex(file) <= |file|
  }

  /** The limit of the configuration, raised to the size of the file. */
  function Limit(configured: nat, size: nat): nat {
    if configured != 0 && configured < size then size else configured
  }

  /** The file is no longer than the circle. */
  predicate FitsCircle(file: seq<byte>, max: nat) {
    max == 0 || |file| <= FFM_PACKET_SIZE * (Slots(max) + 1)
  }

  /** A file opens beyond the circle exactly if the limit is at most the size of the file and
      the index is at its end. */
  lemma OpensBeyondIff(file: seq<byte>, configured: nat)
    requires WellKept(file) && IsLimit(configured)
    ensures var max := Limit(configured, |file|);
      && FitsCircle(file, max) && FFM_PACKET_SIZE <= Resume(file) <= |file| && Resume(file) % FFM_PACKET_SIZE == 0
      && (max != 0 ==> Resume(file) <= max)
      && (!OnCircle(Resume(file) / FFM_PACKET_SIZE, max) <==>
          configured != 0 && configured <= |file| == HeaderIndex(file))
  {
    hide HeaderIndex;
  }

  /** The packets stored on the circle, when the first one may have gone beyond it. */
  ghost function OnTrack(stored: seq<seq<byte>>, beyond: bool): seq<seq<byte>> {
    if beyond && stored != [] then stored[1..] else stored
  }

  /** The circle holds the last packets; a packet that went beyond it stays in the slot after
      it. */
  ghost predicate Sound(file: seq<byte>, cur: nat, max: nat, stored: seq<seq<byte>>, beyond: bool)
    requires |file| >= FFM_PACKET_SIZE
  {
    && IsLimit(max) && cur >= 1 && RecentKept(file, cur, max, OnTrack(stored, beyond))
    && (!OnCircle(cur, max) ==> stored == [])
    && if max == 0 then |stored| < cur && !beyond else BoundedBy(file, cur, max, stored, beyond)
  }

  ghost predicate BoundedBy(file: seq<byte>, cur: nat, max: nat, stored: seq<seq<byte>>, beyond: bool)
    requires |file| >= FFM_PACKET_SIZE && max > 0
  {
    && cur <= Slots(max) + 1 && |file| <= FFM_PACKET_SIZE * (Slots(max) + 2)
    && HeaderIndex(file) <= FFM_PACKET_SIZE * (Slots(max) + 1)
    && (beyond ==> stored != [] && |file| == FFM_PACKET_SIZE * (Slots(max) + 2) &&
                   SlotHolds(file, Slots(max) + 1, stored[0]))
  }

  /** Nothing stored yet. */
  lemma SoundAtStart(file: seq<byte>, cur: nat, max: nat)
    requires |file| >= FFM_PACKET_SIZE && IsLimit(max) && cur >= 1
    requires max != 0 ==> BoundedBy(file, cur, max, [], false)
    ensures Sound(file, cur, max, [], false)
  {
  }

  /** A packet is written: on the circle, or into the slot beyond it. */
  lemma DataKept(file: seq<byte>, cur: nat, max: nat, stored: seq<seq<byte>>, beyond: bool, packet: seq<byte>)
    requires WellKept(file) && Sound(file, cur, max, stored, beyond) && |packet| == FFM_PACKET_SIZE
    ensures var f, next := WriteAt(file, FFM_PACKET_SIZE * cur, packet), NextSlot(cur, max);
      && WellKept(f) && Sound(f, next, max, stored + [packet], beyond || !OnCircle(cur, max))
      && OnCircle(next, max) && FFM_PACKET_SIZE * next <= |f|
      && (FitsCircle(f, max) <==> FitsCircle(file, max) && OnCircle(cur, max))
  {
    var f, next := WriteAt(file, FFM_PACKET_SIZE * cur, packet), NextSlot(cur, max);
    WrapTest(cur, max);
    HeaderKept(file, FFM_PACKET_SIZE * cur, packet);
    hide WriteAt, SlotHolds, HeaderIndex, RecentKept;
    if OnCircle(cur, max) {
      DataWritten(file, cur, max, OnTrack(stored, beyond), packet);
      assert OnTrack(stored + [packet], beyond) == OnTrack(stored, beyond) + [packet];
      if beyond { OtherSlotKept(file, FFM_PACKET_SIZE * cur, packet, Slots(max) + 1, stored[0]); }
    } else {
      SlotWritten(file, cur, packet);
      assert OnTrack([packet], true) == [];
      NothingKept(f, next, max);
    }
  }

  lemma NothingKept(file: seq<byte>, cur: nat, max: nat)
    ensures RecentKept(file, cur, max, [])
  {
  }

  lemma HeaderKept(file: seq<byte>, pos: nat, data: seq<byte>)
    requires |file| >= FFM_PACKET_SIZE && pos >= FFM_PACKET_SIZE
    ensures |WriteAt(file, pos, data)| >= |file| && HeaderIndex(WriteAt(file, pos, data)) == HeaderIndex(file)
  {
    assert WriteAt(file, pos, data)[8..16] == file[8..16];
  }

  /** The index is written. */
  lemma IndexKept(file: seq<byte>, cur: nat, max: nat, stored: seq<seq<byte>>, beyond: bool)
    requires WellKept(file) && Sound(file, cur, max, stored, beyond)
    requires OnCircle(cur, max) && FFM_PACKET_SIZE * cur <= |file|
    ensures var f := WriteAt(file, 8, BigEndian(FFM_PACKET_SIZE * cur, 8));
      && WellKept(f) && Sound(f, cur, max, stored, beyond) && |f| == |file|
      && f[8..16] == BigEndian(FFM_PACKET_SIZE * cur, 8)
  {
    hide WriteAt, SlotHolds, BigEndian, HeaderIndex, RecentKept;
    IndexWritten(file, FFM_PACKET_SIZE * cur);
    HeaderWritten(file, cur, max, OnTrack(stored, beyond), BigEndian(FFM_PACKET_SIZE * cur, 8));
    if beyond {
      OtherSlotKept(file, 8, BigEndian(FFM_PACKET_SIZE * cur, 8), Slots(max) + 1, stored[0]);
    }
  }

  lemma IndexWritten(file: seq<byte>, index: nat)
    requires |file| >= FFM_PACKET_SIZE
    ensures var f := WriteAt(file, 8, BigEndian(index, 8));
      && |f| == |file| && f[8..16] == BigEndian(index, 8)
      && HeaderIndex(f) <= index && HeaderIndex(f) % FFM_PACKET_SIZE == index % FFM_PACKET_SIZE
  {
    hide WriteAt, BigEndian, FromBigEndian;
    var f := WriteAt(file, 8, BigEndian(index, 8));
    assert f[8..8 + 8] == BigEndian(index, 8);
    BigEndianPart(index, 8);
    LowBytes(HeaderIndex(f), index);
  }

  lemma LowBytes(a: nat, b: nat)
    requires a % 0x1_0000 == b % 0x1_0000
    ensures a % FFM_PACKET_SIZE == b % FFM_PACKET_SIZE
  {
    WholePackets(16 * (a / 0x1_0000), a % 0x1_0000);
    WholePackets(16 * (b / 0x1_0000), b % 0x1_0000);
  }

  lemma WholePackets(n: nat, rest: nat)
    ensures (FFM_PACKET_SIZE * n + rest) % FFM_PACKET_SIZE == rest % FFM_PACKET_SIZE
  {
  }

  /** ffm_write_write_index and ftruncate. */
  function Truncated(file: seq<byte>): (f: seq<byte>)
    requires |file| >= FFM_PACKET_SIZE
    ensures |f| == FFM_PACKET_SIZE && HeaderIndex(f) == FFM_PACKET_SIZE
  {
    var f := WriteAt(file, 8, BigEndian(FFM_PACKET_SIZE, 8));
    TruncatedIndex(file);
    f[..FFM_PACKET_SIZE]
  }

  lemma TruncatedIndex(file: seq<byte>)
    requires |file| >= FFM_PACKET_SIZE
    ensures var f := WriteAt(file, 8, BigEndian(FFM_PACKET_SIZE, 8));
      |f| == |file| && HeaderIndex(f[..FFM_PACKET_SIZE]) == FFM_PACKET_SIZE
  {
    var f := WriteAt(file, 8, BigEndian(FFM_PACKET_SIZE, 8));
    assert f[..FFM_PACKET_SIZE][8..16] == f[8..8 + 8] == BigEndian(FFM_PACKET_SIZE, 8);
    assert FFM_PACKET_SIZE < Power256(8) by { SmallFits(); }
    BigEndianReads(FFM_PACKET_SIZE, 8);
  }

  lemma SmallFits()
    ensures FFM_PACKET_SIZE < Power256(8)
  {
    assert Power256(2) == 256 * Power256(1) == 256 * (256 * Power256(0));
    assert Power256(4) == 256 * Power256(3) == 256 * (256 * Power256(2));
    assert Power256(6) == 256 * Power256(5) == 256 * (256 * Power256(4));
    assert Power256(8) == 256 * Power256(7) == 256 * (256 * Power256(6));
  }

  class Feed {
    var file: seq<byte>
    var feedWriteIndex: int
    var feedSize: int
    const feedMaxSize: nat

    /** The slot to be written next, the packets stored since the feed was opened, and
        whether the first of them went beyond the circle. */
    ghost var cur: nat
    ghost var stored: seq<seq<byte>>
    ghost var beyond: bool

    ghost predicate Valid()
      reads this
    {
      && WellKept(file) && Sound(file, cur, feedMaxSize, stored, beyond)
      && feedSize == |file| && feedWriteIndex == FFM_PACKET_SIZE * cur
    }

    /** The index in the header is the one in memory. */
    ghost predicate HeaderHolds()
      reads this
    {
      |file| >= 16 && feedWriteIndex >= 0 && file[8..16] == BigEndian(feedWriteIndex, 8)
    }

    /** The start of the server: it raises the limit to the size of the file. */
    constructor (file: seq<byte>, configured: nat)
      requires WellKept(file) && IsLimit(configured)
      ensures Valid() && this.file == file && feedMaxSize == Limit(configured, |file|)
      ensures configured == 0 || configured >= |file| ==> feedMaxSize == configured
      ensures 0 < configured < |file| ==> feedMaxSize == |file|
      ensures feedWriteIndex == Resume(file) && FitsCircle(file, feedMaxSize) && stored == [] && !beyond
      ensures !OnCircle(cur, feedMaxSize) <==> configured != 0 && configured <= |file| == HeaderIndex(file)
    {
      OpensBeyondIff(file, configured);
      SoundAtStart(file, Resume(file) / FFM_PACKET_SIZE, Limit(configured, |file|));
      hide HeaderIndex, RecentKept, OnCircle, Sound;
      this.file := file;
      feedMaxSize := Limit(configured, |file|);
      feedWriteIndex := Resume(file);
      feedSize := |file|;
      cur := Resume(file) / FFM_PACKET_SIZE;
      stored, beyond := [], false;
    }

    /** http_start_receive_data: the index is read again, after the file is cut to its header
        if that is asked for. */
    method Open(truncate: bool)
      requires Valid()
      modifies this
      ensures Valid() && feedWriteIndex == Resume(file)
      ensures if truncate then file == Truncated(old(file)) && cur == 1 else file == old(file)
      ensures if !truncate && feedWriteIndex == old(feedWriteIndex)
              then stored == old(stored) && beyond == old(beyond)
              else stored == [] && !beyond
    {
      hide HeaderIndex, RecentKept, Truncated, SlotHolds;
      if truncate {
        file := Truncated(file);
      }
      ghost var was := feedWriteIndex;
      feedWriteIndex := Resume(file);
      feedSize := |file|;
      if truncate || feedWriteIndex != was {
        cur := feedWriteIndex / FFM_PACKET_SIZE;
        stored, beyond := [], false;
        SoundAtStart(file, cur, feedMaxSize);
      }
    }

    /** The part of http_receive_data for a whole packet.  dataOk and indexOk tell whether
        the two writes succeed.  A packet goes beyond the circle exactly if the slot to be
        written is not on it; the file then gets longer than the circle. */
    method Store(packet: seq<byte>, dataOk: bool, indexOk: bool) returns (ret: int)
      requires Valid() && |packet| == FFM_PACKET_SIZE
      modifies this
      ensures Valid()
      ensures ret == if dataOk && indexOk then 0 else -1
      ensures stored == if dataOk then old(stored) + [packet] else old(stored)
      ensures cur == if dataOk then NextSlot(old(cur), feedMaxSize) else old(cur)
      ensures beyond == (old(beyond) || (dataOk && !OnCircle(old(cur), feedMaxSize)))
      ensures FitsCircle(file, feedMaxSize) <==>
              old(FitsCircle(file, feedMaxSize)) && (dataOk ==> OnCircle(old(cur), feedMaxSize))
      ensures !dataOk ==> file == old(file)
      ensures dataOk && !indexOk ==> file == WriteAt(old(file), old(feedWriteIndex), packet)
      ensures ret == 0 ==> HeaderHolds()
      ensures ret == 0 ==>
        file == WriteAt(WriteAt(old(file), old(feedWriteIndex), packet), 8, BigEndian(feedWriteIndex, 8))
    {
      hide WriteAt, Slots, BigEndian, WellKept, Sound;
      if !dataOk {
        return -1;
      }
      assert cur >= 1 && IsLimit(feedMaxSize) by { SoundSlot(file, cur, feedMaxSize, stored, beyond); }
      ghost var on := OnCircle(cur, feedMaxSize);
      DataKept(file, cur, feedMaxSize, stored, beyond, packet);
      WrapTest(cur, feedMaxSize);
      file := WriteAt(file, feedWriteIndex, packet);
      feedWriteIndex := feedWriteIndex + FFM_PACKET_SIZE;
      if feedWriteIndex > feedSize {
        feedSize := feedWriteIndex;
      }
      if feedMaxSize != 0 && feedWriteIndex >= feedMaxSize {
        feedWriteIndex := FFM_PACKET_SIZE;
      }
      cur := NextSlot(cur, feedMaxSize);
      beyond := beyond || !on;
      stored := stored + [packet];
      if !indexOk {
        return -1;
      }
      IndexKept(file, cur, feedMaxSize, stored, beyond);
      file := WriteAt(file, 8, BigEndian(feedWriteIndex, 8));
      ret := 0;
    }
  }

  lemma SoundSlot(file: seq<byte>, cur: nat, max: nat, stored: seq<seq<byte>>, beyond: bool)
    requires WellKept(file) && Sound(file, cur, max, stored, beyond)
    ensures cur >= 1 && IsLimit(max)
  {
  }

  /** A feed can be opened again where it was left, with whatever limit, as long as the index
      fits its field. */
  lemma ReopenResumes(feed: Feed)
    requires feed.Valid() && feed.HeaderHolds() && feed.feedWriteIndex < Power256(8)
    ensures WellKept(feed.file) && Resume(feed.file) == HeaderIndex(feed.file) == feed.feedWriteIndex
  {
    hide BigEndian, FromBigEndian, Power256, RecentKept;
    BigEndianReads(feed.feedWriteIndex, 8);
  }

  /** Lowering the limit of a feed that has not wrapped opens it beyond its circle. */
  lemma LoweredLimit(feed: Feed, configured: nat)
    requires feed.Valid() && feed.HeaderHolds() && feed.feedWriteIndex == |feed.file| < Power256(8)
    requires IsLimit(configured) && 0 < configured <= |feed.file|
    ensures var max := Limit(configured, |feed.file|);
      Resume(feed.file) == max == |feed.file| && !OnCircle(Resume(feed.file) / FFM_PACKET_SIZE, max)
  {
    ReopenResumes(feed);
    OpensBeyondIff(feed.file, configured);
  }

  /** The first packet stored after that is in the slot beyond the circle, and not where the
      circle has the last packet unless that slot holds the same. */
  lemma FirstPacketMissed(file: seq<byte>, configured: nat, packet: seq<byte>)
    requires WellKept(file) && IsLimit(configured) && 0 < configured <= |file| == HeaderIndex(file)
    requires |packet| == FFM_PACKET_SIZE && !SlotHolds(file, Slots(|file|), packet)
    ensures var max := Limit(configured, |file|); var f := WriteAt(file, Resume(file), packet);
      && NextSlot(Resume(file) / FFM_PACKET_SIZE, max) == 1 && !FitsCircle(f, max)
      && SlotHolds(f, Slots(max) + 1, packet) && !RecentKept(f, 1, max, [packet])
  {
    var max, cur := Limit(configured, |file|), Resume(file) / FFM_PACKET_SIZE;
    OpensBeyondIff(file, configured);
    SlotWritten(file, cur, packet);
    assert WriteAt(file, FFM_PACKET_SIZE * cur, []) == file;
    MissedByCircle(file, cur, max, [], packet);
    assert [] + [packet] == [packet];
  }

  /** The bound on the file size is kept by a packet exactly if the index it is written at is
      below the limit: an old file whose index is at the limit grows by one packet more. */
  lemma SizeBoundIsExact(file: seq<byte>, index: nat, max: nat, packet: seq<byte>)
    requires index % FFM_PACKET_SIZE == 0 && |packet| == FFM_PACKET_SIZE && |file| < max + FFM_PACKET_SIZE
    ensures |WriteAt(file, index, packet)| < max + FFM_PACKET_SIZE <==> index < max
  {
  }

  // ---------- The reader ----------

  /** The number of whole packets that ffm_is_avail_data counts for a reader at tell whose
      packet buffer is empty, when the write index is not zero. */
  function Available(tell: nat, writeIndex: nat, size: nat): int {
    if tell == writeIndex then 0
    else if tell < writeIndex then (writeIndex - tell) / FFM_PACKET_SIZE
    else (size - tell + (writeIndex - FFM_PACKET_SIZE)) / FFM_PACKET_SIZE
  }

  /** The n packets that ffm_read_data reads from tell on; at the end of the file it goes
      back to the first data slot. */
  function ReadPackets(file: seq<byte>, tell: nat, n: nat): seq<seq<byte>>
    decreases n
  {
    var pos := if tell == |file| then FFM_PACKET_SIZE else tell;
    if n == 0 || |file| < pos + FFM_PACKET_SIZE then []
    else [file[pos..pos + FFM_PACKET_SIZE]] + ReadPackets(file, pos + FFM_PACKET_SIZE, n - 1)
  }

  /** A place m packets behind the writer: the start of the slot m steps back, which the end
      of a full file also stands for when it is the first slot. */
  predicate Behind(file: seq<byte>, cur: nat, max: nat, m: nat, tell: nat) {
    var j := Back(cur, m, max);
    tell == FFM_PACKET_SIZE * j ||
    (max != 0 && j == 1 && tell == |file| == FFM_PACKET_SIZE * (Slots(max) + 1))
  }

  predicate FileOnCircle(file: seq<byte>, cur: nat, max: nat) {
    && OnCircle(cur, max)
    && FFM_PACKET_SIZE <= |file|
    && (max != 0 ==> |file| <= FFM_PACKET_SIZE * (Slots(max) + 1))
  }

  /** When the last m packets reach behind the first slot the file has its full length. */
  lemma FullWhenWrapped(file: seq<byte>, cur: nat, max: nat, stored: seq<seq<byte>>, m: nat)
    requires FileOnCircle(file, cur, max) && RecentKept(file, cur, max, stored)
    requires cur <= m <= Kept(|stored|, max) && max != 0
    ensures |file| == FFM_PACKET_SIZE * (Slots(max) + 1)
  {
    assert Recent(file, cur, max, stored, cur - 1);
  }

  /** A reader that is m packets behind the writer, fewer than the circle has slots, is told
      that m packets are available and reads exactly the last m packets in order. */
  lemma {:induction false} ReaderFollows(file: seq<byte>, cur: nat, max: nat, stored: seq<seq<byte>>, m: nat, tell: nat)
    requires FileOnCircle(file, cur, max) && RecentKept(file, cur, max, stored)
    requires m <= |stored| && (max != 0 ==> m < Slots(max)) && (max == 0 ==> |stored| < cur)
    requires Behind(file, cur, max, m, tell)
    ensures Available(tell, FFM_PACKET_SIZE * cur, |file|) == m
    ensures ReadPackets(file, tell, m) == stored[|stored| - m..]
    decreases m
  {
    hide Behind, Back, RecentKept, Slots, Available;
    CountsBehind(file, cur, max, stored, m, tell);
    if m > 0 {
      var pos := if tell == |file| then FFM_PACKET_SIZE else tell;
      ReaderSteps(file, cur, max, stored, m, tell);
      ReaderFollows(file, cur, max, stored, m - 1, pos + FFM_PACKET_SIZE);
      assert stored[|stored| - m..] == [stored[|stored| - m]] + stored[|stored| - (m - 1)..];
    }
  }

  /** One packet is the m-th last and takes the reader to m - 1 packets behind. */
  lemma ReaderSteps(file: seq<byte>, cur: nat, max: nat, stored: seq<seq<byte>>, m: nat, tell: nat)
    requires FileOnCircle(file, cur, max) && RecentKept(file, cur, max, stored)
    requires 0 < m <= |stored| && (max != 0 ==> m < Slots(max)) && (max == 0 ==> |stored| < cur)
    requires Behind(file, cur, max, m, tell)
    ensures var pos := if tell == |file| then FFM_PACKET_SIZE else tell;
      && pos + FFM_PACKET_SIZE <= |file| && file[pos..pos + FFM_PACKET_SIZE] == stored[|stored| - m]
      && Behind(file, cur, max, m - 1, pos + FFM_PACKET_SIZE)
  {
    assert Recent(file, cur, max, stored, m - 1);
    var pos := if tell == |file| then FFM_PACKET_SIZE else tell;
    assert pos == FFM_PACKET_SIZE * Back(cur, m, max);
  }

  lemma CountsBehind(file: seq<byte>, cur: nat, max: nat, stored: seq<seq<byte>>, m: nat, tell: nat)
    requires FileOnCircle(file, cur, max) && RecentKept(file, cur, max, stored)
    requires m <= |stored| && (max != 0 ==> m < Slots(max)) && (max == 0 ==> |stored| < cur)
    requires Behind(file, cur, max, m, tell)
    ensures Available(tell, FFM_PACKET_SIZE * cur, |file|) == m
  {
    if max != 0 && cur <= m { FullWhenWrapped(file, cur, max, stored, m); }
  }

  /** Before the wrap the length of the file does not matter; end tells whether the reader is
      at the end of the file, from where it goes on at the first slot. */
  lemma {:induction false} StraightReads(file: seq<byte>, cur: nat, max: nat, stored: seq<seq<byte>>, m: nat, end: bool)
    requires OnCircle(cur, max) && RecentKept(file, cur, max, stored) && |file| >= FFM_PACKET_SIZE
    requires m <= |stored| && m < cur && (max != 0 ==> m < Slots(max)) && (end ==> m == cur - 1)
    ensures ReadPackets(file, if end then |file| else FFM_PACKET_SIZE * (cur - m), m) == stored[|stored| - m..]
    decreases m
  {
    hide SlotHolds, Slots;
    if m > 0 {
      assert Recent(file, cur, max, stored, m - 1);
      SlotRead(file, cur - m, stored[|stored| - m], if end then |file| else FFM_PACKET_SIZE * (cur - m), m);
      StraightReads(file, cur, max, stored, m - 1, false);
      assert stored[|stored| - m..] == [stored[|stored| - m]] + stored[|stored| - (m - 1)..];
    }
  }

  /** One packet read. */
  lemma SlotRead(file: seq<byte>, j: nat, packet: seq<byte>, tell: nat, n: nat)
    requires j >= 1 && n > 0 && SlotHolds(file, j, packet)
    requires tell == FFM_PACKET_SIZE * j || (j == 1 && tell == |file|)
    ensures ReadPackets(file, tell, n) == [packet] + ReadPackets(file, FFM_PACKET_SIZE * (j + 1), n - 1)
  {
    var pos := if tell == |file| then FFM_PACKET_SIZE else tell;
    assert pos == FFM_PACKET_SIZE * j && pos + FFM_PACKET_SIZE == FFM_PACKET_SIZE * (j + 1);
  }

  /** In a file of whole packets, a reader m packets behind the writer on the circle, fewer
      than it has slots, is told of m packets and reads the last m in order exactly if it
      does not cross the end of the file or the file is no longer than the circle. */
  lemma ReaderFollowsIff(file: seq<byte>, cur: nat, max: nat, stored: seq<seq<byte>>, m: nat)
    requires max != 0 && OnCircle(cur, max) && RecentKept(file, cur, max, stored)
    requires |file| >= FFM_PACKET_SIZE && |file| % FFM_PACKET_SIZE == 0 && m <= |stored| && m < Slots(max)
    ensures var tell := FFM_PACKET_SIZE * Back(cur, m, max);
      (Available(tell, FFM_PACKET_SIZE * cur, |file|) == m && ReadPackets(file, tell, m) == stored[|stored| - m..])
      <==> m < cur || FitsCircle(file, max)
  {
    hide RecentKept, ReadPackets;
    if FitsCircle(file, max) {
      ReaderFollows(file, cur, max, stored, m, FFM_PACKET_SIZE * Back(cur, m, max));
    } else if m < cur {
      StraightReads(file, cur, max, stored, m, false);
    }
  }

  /** With one slot more than the circle has, a reader that crosses the end of the file is
      told of one packet more, and finds what that slot holds between the packets before
      the end and those after it. */
  lemma {:induction false} StaleSlotIsRead(file: seq<byte>, cur: nat, max: nat, stored: seq<seq<byte>>, m: nat,
                                           stale: seq<byte>)
    requires max != 0 && OnCircle(cur, max) && RecentKept(file, cur, max, stored)
    requires |file| == FFM_PACKET_SIZE * (Slots(max) + 2) && SlotHolds(file, Slots(max) + 1, stale)
    requires cur <= m <= |stored| && m < Slots(max)
    ensures var n, tell := |stored|, FFM_PACKET_SIZE * Back(cur, m, max);
      && Available(tell, FFM_PACKET_SIZE * cur, |file|) == m + 1
      && ReadPackets(file, tell, m + 1) == stored[n - m..n - (cur - 1)] + [stale] + stored[n - (cur - 1)..]
    decreases m
  {
    hide SlotHolds, Slots, RecentKept, ReadPackets;
    var n, j := |stored|, Back(cur, m, max);
    var rest := stored[n - (cur - 1)..];
    assert j == cur - m + Slots(max);
    assert SlotHolds(file, j, stored[n - m]) by { SlotOfRecent(file, cur, max, stored, m - 1); }
    SlotRead(file, j, stored[n - m], FFM_PACKET_SIZE * j, m + 1);
    if m == cur {
      SlotRead(file, j + 1, stale, FFM_PACKET_SIZE * (j + 1), m);
      StraightReads(file, cur, max, stored, m - 1, true);
      assert stored[n - m..n - (cur - 1)] == [stored[n - m]];
      assert [stored[n - m]] + ([stale] + rest) == [stored[n - m]] + [stale] + rest;
    } else {
      StaleSlotIsRead(file, cur, max, stored, m - 1, stale);
      FirstOfPart(stored, n - m, n - (cur - 1), stale);
    }
  }

  lemma FirstOfPart(stored: seq<seq<byte>>, i: nat, k: nat, stale: seq<byte>)
    requires i < k <= |stored|
    ensures [stored[i]] + (stored[i + 1..k] + [stale] + stored[k..]) == stored[i..k] + [stale] + stored[k..]
  {
  }

  lemma SlotOfRecent(file: seq<byte>, cur: nat, max: nat, stored: seq<seq<byte>>, k: nat)
    requires RecentKept(file, cur, max, stored) && k < Kept(|stored|, max)
    ensures k < |stored| && Back(cur, k + 1, max) >= 1
    ensures SlotHolds(file, Back(cur, k + 1, max), stored[|stored| - 1 - k])
  {
    assert Recent(file, cur, max, stored, k);
  }

  /** A feed whose first packet went beyond the circle serves that packet again to every
      reader that crosses the end of the file, on every round. */
  lemma FirstPacketReadAgain(feed: Feed, m: nat)
    requires feed.Valid() && feed.beyond
    requires feed.cur <= m < |feed.stored| && m < Slots(feed.feedMaxSize)
    ensures var now, n := feed.stored[1..], |feed.stored| - 1;
      var tell := FFM_PACKET_SIZE * Back(feed.cur, m, feed.feedMaxSize);
      && Available(tell, feed.feedWriteIndex, feed.feedSize) == m + 1
      && ReadPackets(feed.file, tell, m + 1) ==
         now[n - m..n - (feed.cur - 1)] + [feed.stored[0]] + now[n - (feed.cur - 1)..]
  {
    hide RecentKept, ReadPackets, SlotHolds, Available, Back, Slots, Sound, WellKept;
    SlotBeyond(feed.file, feed.cur, feed.feedMaxSize, feed.stored);
    StaleSlotIsRead(feed.file, feed.cur, feed.feedMaxSize, feed.stored[1..], m, feed.stored[0]);
  }

  lemma SlotBeyond(file: seq<byte>, cur: nat, max: nat, stored: seq<seq<byte>>)
    requires WellKept(file) && Sound(file, cur, max, stored, true)
    ensures max != 0 && stored != [] && OnCircle(cur, max) && RecentKept(file, cur, max, stored[1..])
    ensures |file| == FFM_PACKET_SIZE * (Slots(max) + 2) && SlotHolds(file, Slots(max) + 1, stored[0])
  {
    hide RecentKept, SlotHolds;
  }

  /** The oldest packet of a full circle is out of reach: a reader there is where the writer
      is, and is told that nothing is available. */
  lemma FullCircleReadsNothing(cur: nat, max: nat, size: nat)
    requires max != 0 && OnCircle(cur, max)
    ensures Back(cur, Slots(max), max) == cur
    ensures Available(FFM_PACKET_SIZE * Back(cur, Slots(max), max), FFM_PACKET_SIZE * cur, size) == 0
  {
  }
}
