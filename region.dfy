/** The region-archive reader: `processMCA` (HeadExtractor.java lines 259-289).

    The archive is the mapped file, a sequence of bytes read big endian.  Its
    first 4096 bytes are 1024 location words; a non-zero word names the
    4096-byte sector where the chunk starts.  The chunk is a length word, a
    compression byte and the payload.  Decompression and the tag decoder
    (`NBTIO.readTag`) are library calls: the model receives them as
    `readTag`, applied to the payload wrapped in its decompressing stream, and
    `None` stands for the `IOException` it throws. */
module Region {
  import opened Options
  import opened Tags

  /** An unsigned byte of the mapped file. */
  newtype byte = b: int | 0 <= b < 0x100

  const SlotCount: nat := 1024
  const SectorSize: nat := 4096
  /** `FileChannel.map` refuses files larger than `Integer.MAX_VALUE`. */
  const MaxMapped: nat := 0x7FFF_FFFF

  /** The Java `int` holding the low 32 bits of x (two's complement). */
  function ToInt(x: int): (r: int)
    ensures -0x8000_0000 <= r < 0x8000_0000
    ensures (r - x) % 0x1_0000_0000 == 0
  {
    var m := x % 0x1_0000_0000;
    if m < 0x8000_0000 then m else m - 0x1_0000_0000
  }

  /** The unsigned big-endian value of buf[i..i+4]. */
  function Word(buf: seq<byte>, i: nat): (w: nat)
    requires i + 4 <= |buf|
    ensures w < 0x1_0000_0000
  {
    buf[i] as nat * 0x100_0000 + buf[i + 1] as nat * 0x1_0000 + buf[i + 2] as nat * 0x100 + buf[i + 3] as nat
  }

  /** `buffer.getInt(index)` on a big-endian buffer; `None` is the
      `IndexOutOfBoundsException` it throws. */
  function GetInt(buf: seq<byte>, index: int): (r: Option<int>)
    ensures r.Some? <==> 0 <= index && index + 4 <= |buf|
    ensures r.Some? ==> -0x8000_0000 <= r.value < 0x8000_0000 &&
                        (r.value - Word(buf, index)) % 0x1_0000_0000 == 0
  {
    if 0 <= index && index + 4 <= |buf| then Some(ToInt(Word(buf, index))) else None
  }

  /** `(location >> 8) & 0xFFFFFF`: arithmetic shift and mask of a Java int
      (Dafny's division by a positive constant rounds down, like `>>`). */
  function SectorNumber(location: int): (sector: int)
    ensures 0 <= sector < 0x100_0000
    ensures -0x8000_0000 <= location < 0x8000_0000 ==>
              sector == (location % 0x1_0000_0000) / 0x100
  {
    (location / 0x100) % 0x100_0000
  }

  /** `SectorNumber(location) * 4096`, evaluated in 32-bit `int` arithmetic. */
  function ChunkOffset(location: int): (offset: int)
    ensures -0x8000_0000 <= offset < 0x8000_0000
    ensures offset % SectorSize == 0
  {
    ToInt(SectorNumber(location) * SectorSize)
  }

  /** The stream `NBTIO.readTag` reads a chunk from. */
  datatype Stream =
    | Gzip(bytes: seq<byte>)      // GZIPInputStream over the payload
    | Inflate(bytes: seq<byte>)   // InflaterInputStream over the payload
    | Plain(bytes: seq<byte>)     // the payload itself

  /** Compression 1 is gzip, 2 is zlib; any other value reads the payload as it is. */
  function Decompressed(compression: byte, payload: seq<byte>): (stream: Stream)
    ensures stream.bytes == payload
    ensures stream.Gzip? <==> compression == 1
    ensures stream.Inflate? <==> compression == 2
  {
    if compression == 1 then Gzip(payload)
    else if compression == 2 then Inflate(payload)
    else Plain(payload)
  }

  /** What the loop body finds at one slot: nothing, a chunk stream, or an
      unchecked exception (out-of-range index, negative array size). */
  datatype Slot = Absent | Present(stream: Stream) | Fault

  function SlotAt(buf: seq<byte>, i: nat): (slot: Slot)
    ensures |buf| < 4 * i + 4 ==> slot == Fault
  {
    match GetInt(buf, 4 * i)
    case None => Fault
    case Some(location) =>
      if location == 0 then Absent else ChunkAt(buf, ChunkOffset(location))
  }

  /** The chunk whose header starts at offset. */
  function ChunkAt(buf: seq<byte>, offset: int): (slot: Slot)
    ensures !slot.Absent?
    ensures offset < 0 || |buf| < offset + 5 ==> slot == Fault
  {
    match GetInt(buf, offset)
    case None => Fault
    case Some(word) =>
      var length := ToInt(word - 1);
      if offset + 4 >= |buf| then Fault              // buffer.get(offset + 4)
      else if length < 0 then Fault                  // new byte[length]
      else if offset + 5 + length > |buf| then Fault // buffer.get(offset + 5, payload)
      else Present(Decompressed(buf[offset + 4], buf[offset + 5..offset + 5 + length]))
  }

  /** How reading an archive ends.  `chunks` are the trees decoded (and so
      already scanned) before the end: all of them, those before the chunk
      whose decoding threw an `IOException` (caught at line 286, which ends
      the loop), or those before an unchecked exception that escapes
      `processMCA`. */
  datatype Outcome = Complete(chunks: seq<Tag>) | IOFailure(chunks: seq<Tag>) | Crash(chunks: seq<Tag>)

  function Prepend(t: Tag, o: Outcome): Outcome
  {
    match o
    case Complete(cs) => Complete([t] + cs)
    case IOFailure(cs) => IOFailure([t] + cs)
    case Crash(cs) => Crash([t] + cs)
  }

  /** Specification of the loop from slot i on. */
  function ReadFrom(buf: seq<byte>, readTag: Stream -> Option<Tag>, i: nat): (r: Outcome)
    ensures i <= SlotCount ==> |r.chunks| <= SlotCount - i
    decreases SlotCount - i
  {
    if i >= SlotCount then Complete([])
    else
      match SlotAt(buf, i)
      case Fault => Crash([])
      case Absent => ReadFrom(buf, readTag, i + 1)
      case Present(stream) =>
        match readTag(stream)
        case None => IOFailure([])
        case Some(t) => Prepend(t, ReadFrom(buf, readTag, i + 1))
  }

  /** Specification of `processMCA` on the bytes of one file. */
  function ReadArchive(buf: seq<byte>, readTag: Stream -> Option<Tag>): (r: Outcome)
    ensures |r.chunks| <= SlotCount
    ensures |buf| > MaxMapped || |buf| < 4 ==> r == Crash([])
  {
    if |buf| > MaxMapped then Crash([]) else ReadFrom(buf, readTag, 0)
  }

  function PrependAll(ts: seq<Tag>, o: Outcome): Outcome
    decreases |ts|
  {
    if ts == [] then o else Prepend(ts[0], PrependAll(ts[1..], o))
  }

  lemma {:induction false} PrependAllSnoc(ts: seq<Tag>, t: Tag, o: Outcome)
    ensures PrependAll(ts + [t], o) == PrependAll(ts, Prepend(t, o))
    decreases |ts|
  {
    if ts != [] {
      assert (ts + [t])[1..] == ts[1..] + [t];
      PrependAllSnoc(ts[1..], t, o);
    } else {
      assert ts + [t] == [t];
    }
  }

  lemma {:induction false} PrependAllEnd(ts: seq<Tag>)
    ensures PrependAll(ts, Complete([])) == Complete(ts)
    ensures PrependAll(ts, IOFailure([])) == IOFailure(ts)
    ensures PrependAll(ts, Crash([])) == Crash(ts)
    decreases |ts|
  {
    if ts != [] {
      PrependAllEnd(ts[1..]);
      assert [ts[0]] + ts[1..] == ts;
    }
  }

  lemma SlotStep(buf: seq<byte>, readTag: Stream -> Option<Tag>, i: nat, slot: Slot)
    requires i < SlotCount && SlotAt(buf, i) == slot
    ensures ReadFrom(buf, readTag, i) ==
      match slot
      case Fault => Crash([])
      case Absent => ReadFrom(buf, readTag, i + 1)
      case Present(stream) =>
        match readTag(stream)
        case None => IOFailure([])
        case Some(t) => Prepend(t, ReadFrom(buf, readTag, i + 1))
  {
  }

  /** The loop body of lines 264-283 for slot i, in statement form: the
      location word, the chunk header and the payload wrapped in its
      decompressing stream.  `SlotAt` and `ChunkAt` are the same steps as
      expressions, and the ensures ties the two. */
  method ReadSlot(buf: seq<byte>, i: nat) returns (slot: Slot)
    ensures slot == SlotAt(buf, i)
  {
    var location := GetInt(buf, 4 * i);
    if location.None? {
      return Fault;
    }
    if location.value == 0 {
      // chunk is not present
      return Absent;
    }
    var offset := ChunkOffset(location.value);
    var word := GetInt(buf, offset);
    if word.None? {
      return Fault;
    }
    var length := ToInt(word.value - 1);
    if offset + 4 >= |buf| || length < 0 || offset + 5 + length > |buf| {
      return Fault;
    }
    var compression := buf[offset + 4];
    var payload := buf[offset + 5..offset + 5 + length];
    slot := Present(Decompressed(compression, payload));
  }

  /** `processMCA`: the loop over the 1024 slots of the mapped file. */
  method ProcessMCA(buf: seq<byte>, readTag: Stream -> Option<Tag>) returns (r: Outcome)
    ensures r == ReadArchive(buf, readTag)
  {
    if |buf| > MaxMapped {
      return Crash([]);
    }
    var chunks: seq<Tag> := [];
    for i := 0 to SlotCount
      invariant PrependAll(chunks, ReadFrom(buf, readTag, i)) == ReadFrom(buf, readTag, 0)
    {
      var slot := ReadSlot(buf, i);
      SlotStep(buf, readTag, i, slot);
      match slot {
        case Fault =>
          PrependAllEnd(chunks);
          return Crash(chunks);
        case Absent =>
        case Present(stream) =>
          var tag := readTag(stream);
          if tag.None? {
            PrependAllEnd(chunks);
            return IOFailure(chunks);
          }
          PrependAllSnoc(chunks, tag.value, ReadFrom(buf, readTag, i + 1));
          chunks := chunks + [tag.value];
      }
    }
    PrependAllEnd(chunks);
    return Complete(chunks);
  }

  // ---------------------------------------------------------------------
  // The directory layout.

  /** Bits 8-31 of the location word: the Java shift-and-mask reads the
      sector number from the unsigned word, whatever its sign as an `int`. */
  lemma ToIntOfWord(w: nat)
    requires w < 0x1_0000_0000
    ensures ToInt(w) == if w < 0x8000_0000 then w else w - 0x1_0000_0000
  {
    assert w % 0x1_0000_0000 == w;
  }

  lemma SectorOfWord(w: nat)
    requires w < 0x1_0000_0000
    ensures SectorNumber(ToInt(w)) == w / 0x100
  {
    ToIntOfWord(w);
    if w >= 0x8000_0000 {
      assert (w - 0x1_0000_0000) / 0x100 == w / 0x100 - 0x100_0000;
    }
  }

  /** A slot is skipped exactly when its location word is zero. */
  lemma AbsentIffZero(buf: seq<byte>, i: nat)
    requires 4 * i + 4 <= |buf|
    ensures SlotAt(buf, i) == Absent <==> Word(buf, 4 * i) == 0
  {
    ToIntOfWord(Word(buf, 4 * i));
  }

  lemma ToIntInRange(x: int)
    requires -0x8000_0000 <= x < 0x8000_0000
    ensures ToInt(x) == x
  {
    if x < 0 {
      assert x % 0x1_0000_0000 == x + 0x1_0000_0000;
    } else {
      assert x % 0x1_0000_0000 == x;
    }
  }

  /** `Integer.MIN_VALUE - 1` wraps to `Integer.MAX_VALUE`. */
  lemma ToIntBelowMin()
    ensures ToInt(-0x8000_0001) == 0x7FFF_FFFF
  {
    assert -0x8000_0001 % 0x1_0000_0000 == 0x7FFF_FFFF;
  }

  /** The 32-bit product sector x 4096 keeps only the sector's low 20 bits. */
  lemma OffsetOfSector(sector: nat)
    requires sector < 0x100_0000
    ensures sector * SectorSize % 0x1_0000_0000 == (sector % 0x10_0000) * SectorSize
    ensures ToInt(sector * SectorSize) >= 0 ==>
              ToInt(sector * SectorSize) == (sector % 0x10_0000) * SectorSize
    ensures sector < 0x8_0000 ==> ToInt(sector * SectorSize) == sector * SectorSize
  {
    var q, r := sector / 0x10_0000, sector % 0x10_0000;
    assert sector * SectorSize == q * 0x1_0000_0000 + r * SectorSize;
    assert r * SectorSize < 0x1_0000_0000;
    assert (q * 0x1_0000_0000 + r * SectorSize) % 0x1_0000_0000 == r * SectorSize;
  }

  /** A present chunk at offset: the length word is at least 1 and the
      payload, the following (length word - 1) bytes after the compression
      byte, lies inside the file. */
  lemma ChunkLayout(buf: seq<byte>, offset: int)
    requires |buf| <= MaxMapped
    requires ChunkAt(buf, offset).Present?
    ensures 0 <= offset && offset + 4 < |buf|
    ensures 1 <= Word(buf, offset) && offset + 4 + Word(buf, offset) <= |buf|
    ensures ChunkAt(buf, offset).stream ==
              Decompressed(buf[offset + 4], buf[offset + 5..offset + 4 + Word(buf, offset)])
  {
    var w := Word(buf, offset);
    ToIntOfWord(w);
    var word := ToInt(w);
    if w >= 0x8000_0000 {
      if word == -0x8000_0000 {
        ToIntBelowMin();
      } else {
        ToIntInRange(word - 1);
      }
      assert false;
    }
    ToIntInRange(word - 1);
  }

  /** Where a present chunk lies: at (bits 8-31 of the location word) x 4096,
      reduced to 32 bits, which is always a non-negative multiple of 4096 and
      is the plain product while the sector number is below 2^19; its payload
      is the (length word - 1) bytes from offset + 5, and the byte at
      offset + 4 picks the decompressor. */
  lemma PresentChunkLayout(buf: seq<byte>, i: nat)
    requires |buf| <= MaxMapped
    requires SlotAt(buf, i).Present?
    ensures 4 * i + 4 <= |buf| && Word(buf, 4 * i) != 0
    ensures var sector := Word(buf, 4 * i) / 0x100;
            var offset := ChunkOffset(ToInt(Word(buf, 4 * i)));
            0 <= offset && offset % SectorSize == 0 &&
            offset == sector * SectorSize % 0x1_0000_0000 &&
            (sector < 0x8_0000 ==> offset == sector * SectorSize) &&
            offset + 4 < |buf| &&
            1 <= Word(buf, offset) && offset + 4 + Word(buf, offset) <= |buf| &&
            SlotAt(buf, i).stream ==
              Decompressed(buf[offset + 4], buf[offset + 5..offset + 4 + Word(buf, offset)])
  {
    PresentLocation(buf, i);
    var w := Word(buf, 4 * i);
    OffsetOfWord(w);
    ChunkLayout(buf, ChunkOffset(ToInt(w)));
  }

  /** The offset a location word names, as a 32-bit product. */
  lemma OffsetOfWord(w: nat)
    requires w < 0x1_0000_0000
    ensures ChunkOffset(ToInt(w)) >= 0 ==>
              ChunkOffset(ToInt(w)) == (w / 0x100) * SectorSize % 0x1_0000_0000 &&
              ChunkOffset(ToInt(w)) % SectorSize == 0
    ensures w / 0x100 < 0x8_0000 ==> ChunkOffset(ToInt(w)) == (w / 0x100) * SectorSize
  {
    var sector := w / 0x100;
    SectorOfWord(w);
    assert ChunkOffset(ToInt(w)) == ToInt(sector * SectorSize);
    OffsetOfSector(sector);
    var r := sector % 0x10_0000;
    assert (r * SectorSize) % SectorSize == 0;
  }

  lemma PresentLocation(buf: seq<byte>, i: nat)
    requires SlotAt(buf, i).Present?
    ensures 4 * i + 4 <= |buf| && Word(buf, 4 * i) != 0
    ensures SlotAt(buf, i) == ChunkAt(buf, ChunkOffset(ToInt(Word(buf, 4 * i))))
  {
    ToIntOfWord(Word(buf, 4 * i));
  }

  /** The low byte of the location word (the sector count) is ignored. */
  lemma SectorCountIgnored(w1: nat, w2: nat)
    requires w1 < 0x1_0000_0000 && w2 < 0x1_0000_0000
    requires w1 / 0x100 == w2 / 0x100
    ensures ChunkOffset(ToInt(w1)) == ChunkOffset(ToInt(w2))
  {
    SectorOfWord(w1);
    SectorOfWord(w2);
  }

  /** The 32-bit product wraps: sector 2^19 gives a negative offset (an
      out-of-range read, so an unchecked exception), and sector 2^20 gives
      offset 0, the location table itself. */
  lemma OffsetWraps()
    ensures ChunkOffset(ToInt(0x0800_0001)) == -0x8000_0000
    ensures ChunkOffset(ToInt(0x1000_0001)) == 0
  {
    SectorOfWord(0x0800_0001);
    SectorOfWord(0x1000_0001);
  }

  // ---------------------------------------------------------------------
  // How the loop ends.

  /** Slot k ends the loop: an unchecked exception, or a chunk whose
      decoding throws an `IOException`. */
  predicate Stops(buf: seq<byte>, readTag: Stream -> Option<Tag>, k: nat)
  {
    SlotAt(buf, k).Fault? || (SlotAt(buf, k).Present? && readTag(SlotAt(buf, k).stream).None?)
  }

  /** The first slot that stops the loop decides the outcome: a fault is a
      crash, an I/O failure is caught; no later slot is read, so two archives
      that agree up to that slot have the same outcome. */
  lemma {:induction false} FirstStopDecides(buf: seq<byte>, other: seq<byte>, readTag: Stream -> Option<Tag>, i: nat, j: nat)
    requires i <= j < SlotCount
    requires forall k | i <= k < j :: !Stops(buf, readTag, k)
    requires Stops(buf, readTag, j)
    requires forall k | i <= k <= j :: SlotAt(other, k) == SlotAt(buf, k)
    ensures ReadFrom(buf, readTag, i) == ReadFrom(other, readTag, i)
    ensures ReadFrom(buf, readTag, i).Crash? <==> SlotAt(buf, j).Fault?
    ensures ReadFrom(buf, readTag, i).IOFailure? <==> !SlotAt(buf, j).Fault?
    decreases j - i
  {
    var slot := SlotAt(buf, i);
    SlotStep(buf, readTag, i, slot);
    SlotStep(other, readTag, i, slot);
    if i < j {
      assert !Stops(buf, readTag, i);
      FirstStopDecides(buf, other, readTag, i + 1, j);
    }
  }

  /** Without a stopping slot the loop reads every slot. */
  lemma {:induction false} NoStopCompletes(buf: seq<byte>, readTag: Stream -> Option<Tag>, i: nat)
    requires i <= SlotCount
    requires forall k | i <= k < SlotCount :: !Stops(buf, readTag, k)
    ensures ReadFrom(buf, readTag, i).Complete?
    decreases SlotCount - i
  {
    if i < SlotCount {
      assert !Stops(buf, readTag, i);
      NoStopCompletes(buf, readTag, i + 1);
    }
  }

  /** A zero-byte file makes the first read of the location table throw an
      unchecked exception. */
  lemma EmptyArchiveCrashes(readTag: Stream -> Option<Tag>)
    ensures ReadArchive([], readTag) == Crash([])
  {
  }

  /** Shorter than the location table is not enough to crash: in this
      eight-byte file slot 0 names sector 0 with length word 1, an empty
      payload whose decoding throws an `IOException`, which line 286
      catches before slot 1 is read. */
  lemma ShortArchiveCaught(readTag: Stream -> Option<Tag>)
    requires readTag(Plain([])) == None
    ensures ReadArchive([0, 0, 0, 1, 0, 0, 0, 0], readTag) == IOFailure([])
  {
    var buf: seq<byte> := [0, 0, 0, 1, 0, 0, 0, 0];
    assert GetInt(buf, 0) == Some(1);
    assert ChunkOffset(1) == 0;
    assert buf[5..5] == [];
    assert SlotAt(buf, 0) == Present(Plain([]));
  }
}
