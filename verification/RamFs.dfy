/**
 File data in ramfs: a list of 1024-byte chunks that stands for one flat byte string, and a file
 handle whose cursor remembers the chunk of its offset.
 */
module RamFs {
  import opened Common

  const CHUNK_SIZE: nat := 1024

  type Byte = bv8

  datatype Chunk = Chunk(used: nat, buff: seq<Byte>)

  /** The chunk that holds byte `pos`, and where in it. */
  function ChunkIndex(pos: nat): nat { pos / CHUNK_SIZE }

  function ChunkOffset(pos: nat): (o: nat)
    ensures o < CHUNK_SIZE
  {
    pos % CHUNK_SIZE
  }

  ghost predicate ChunkOk(c: Chunk) {
    |c.buff| == CHUNK_SIZE && 0 < c.used <= CHUNK_SIZE
  }

  function Data(c: Chunk): seq<Byte>
    requires c.used <= |c.buff|
  {
    c.buff[..c.used]
  }

  /** Chunks are never empty, and all but the last are full. */
  ghost predicate RecordOk(cs: seq<Chunk>) {
    && (forall i :: 0 <= i < |cs| ==> ChunkOk(cs[i]))
    && (forall i :: 0 <= i < |cs| - 1 ==> cs[i].used == CHUNK_SIZE)
  }

  /** The byte string that the chunks stand for. */
  ghost function Flat(cs: seq<Chunk>): seq<Byte>
    requires RecordOk(cs)
  {
    if cs == [] then [] else assert ChunkOk(cs[|cs| - 1]); Flat(cs[..|cs| - 1]) + Data(cs[|cs| - 1])
  }

  /** `f` with the bytes from `pos` on overwritten by `d`, growing if need be. */
  function Splice(f: seq<Byte>, pos: nat, d: seq<Byte>): seq<Byte>
    requires pos <= |f|
  {
    f[..pos] + d + (if pos + |d| < |f| then f[pos + |d|..] else [])
  }

  lemma SpliceTwice(f: seq<Byte>, pos: nat, a: seq<Byte>, b: seq<Byte>)
    requires pos <= |f|
    ensures Splice(Splice(f, pos, a), pos + |a|, b) == Splice(f, pos, a + b)
  {
  }

  lemma SpliceAfter(a: seq<Byte>, b: seq<Byte>, o: nat, d: seq<Byte>)
    requires o <= |b|
    ensures a + Splice(b, o, d) == Splice(a + b, |a| + o, d)
  {
  }

  lemma SpliceBefore(a: seq<Byte>, b: seq<Byte>, p: nat, d: seq<Byte>)
    requires p + |d| <= |a|
    ensures Splice(a, p, d) + b == Splice(a + b, p, d)
  {
    if p + |d| < |a + b| {
      assert (a + b)[p + |d|..] == a[p + |d|..] + b;
    }
  }

  /** Full chunks are found by division: `Flat` is the full chunks before the last plus its data. */
  lemma {:induction false} FlatLength(cs: seq<Chunk>)
    requires RecordOk(cs)
    ensures |Flat(cs)| == (if cs == [] then 0 else CHUNK_SIZE * (|cs| - 1) + cs[|cs| - 1].used)
    ensures |Flat(cs)| <= CHUNK_SIZE * |cs|
  {
    if cs != [] {
      var r := cs[..|cs| - 1];
      assert RecordOk(r);
      FlatLength(r);
    }
  }

  /** Chunk `i` holds the bytes from `CHUNK_SIZE * i`. */
  lemma {:induction false} FlatAt(cs: seq<Chunk>, i: nat)
    requires RecordOk(cs) && i < |cs|
    ensures CHUNK_SIZE * i + cs[i].used <= |Flat(cs)|
    ensures Flat(cs)[CHUNK_SIZE * i..CHUNK_SIZE * i + cs[i].used] == Data(cs[i])
    ensures i < |cs| - 1 ==> CHUNK_SIZE * (i + 1) < |Flat(cs)|
  {
    var r := cs[..|cs| - 1];
    assert RecordOk(r);
    FlatLength(cs);
    FlatLength(r);
    var last, at, end := cs[|cs| - 1], CHUNK_SIZE * i, CHUNK_SIZE * i + cs[i].used;
    assert Flat(cs) == Flat(r) + Data(last);
    if i < |cs| - 1 {
      FlatAt(r, i);
      assert r[i] == cs[i];
      assert (Flat(r) + Data(last))[at..end] == Flat(r)[at..end];
    } else {
      assert (Flat(r) + Data(last))[at..end] == Data(last);
    }
  }

  lemma FlatLast(cs: seq<Chunk>)
    requires RecordOk(cs) && cs != []
    ensures RecordOk(cs[..|cs| - 1]) && ChunkOk(cs[|cs| - 1])
    ensures Flat(cs) == Flat(cs[..|cs| - 1]) + Data(cs[|cs| - 1])
    ensures |Flat(cs[..|cs| - 1])| == CHUNK_SIZE * (|cs| - 1)
  {
    FlatLength(cs[..|cs| - 1]);
  }

  lemma RecordReplace(cs: seq<Chunk>, i: nat, c: Chunk)
    requires RecordOk(cs) && i < |cs| && ChunkOk(c) && (i < |cs| - 1 ==> c.used == CHUNK_SIZE)
    ensures RecordOk(cs[i := c])
  {
  }

  /** Splicing the data of chunk `i` at offset `o` splices the flat string. */
  lemma {:induction false} FlatReplace(cs: seq<Chunk>, i: nat, c: Chunk, o: nat, d: seq<Byte>)
    requires RecordOk(cs) && i < |cs| && ChunkOk(cs[i]) && ChunkOk(c) && o <= cs[i].used
    requires Data(c) == Splice(Data(cs[i]), o, d) && o + |d| <= CHUNK_SIZE
    requires i < |cs| - 1 ==> c.used == CHUNK_SIZE
    ensures RecordOk(cs[i := c])
    ensures CHUNK_SIZE * i + o <= |Flat(cs)|
    ensures Flat(cs[i := c]) == Splice(Flat(cs), CHUNK_SIZE * i + o, d)
  {
    hide RecordOk, Flat, Splice, Data;
    var cs' := cs[i := c];
    RecordReplace(cs, i, c);
    FlatLast(cs);
    FlatLast(cs');
    var r := cs[..|cs| - 1];
    if i < |cs| - 1 {
      assert cs'[..|cs| - 1] == r[i := c];
      FlatReplace(r, i, c, o, d);
      assert CHUNK_SIZE * i + o + |d| <= |Flat(r)|;
      SpliceBefore(Flat(r), Data(cs[|cs| - 1]), CHUNK_SIZE * i + o, d);
    } else {
      assert cs'[..|cs| - 1] == r;
      DataLength(cs[i]);
      SpliceAfter(Flat(r), Data(cs[i]), o, d);
    }
  }

  lemma DataLength(c: Chunk)
    requires c.used <= |c.buff|
    ensures |Data(c)| == c.used
  {
  }

  lemma FlatAppend(cs: seq<Chunk>, c: Chunk)
    requires RecordOk(cs) && ChunkOk(c) && |Flat(cs)| == CHUNK_SIZE * |cs|
    ensures RecordOk(cs + [c]) && Flat(cs + [c]) == Flat(cs) + Data(c)
  {
    FlatLength(cs);
    assert (cs + [c])[..|cs|] == cs;
  }

  // ---------------------------------------------------------------------------------------------
  // One chunk at a time

  /** `chunk_write` of `d` at offset `o` of the chunk. */
  function ChunkWrite(c: Chunk, d: seq<Byte>, o: nat): Chunk
    requires o + |d| <= |c.buff|
  {
    Chunk(Max(c.used, o + |d|), c.buff[..o] + d + c.buff[o + |d|..])
  }

  lemma ChunkWriteSplices(c: Chunk, d: seq<Byte>, o: nat)
    requires |c.buff| == CHUNK_SIZE && o <= c.used <= CHUNK_SIZE && o + |d| <= CHUNK_SIZE && |d| > 0
    ensures ChunkOk(ChunkWrite(c, d, o)) && Data(ChunkWrite(c, d, o)) == Splice(Data(c), o, d)
  {
  }

  lemma OffsetInside(cs: seq<Chunk>, pos: nat)
    requires RecordOk(cs) && pos <= |Flat(cs)| && ChunkIndex(pos) < |cs|
    ensures ChunkOk(cs[ChunkIndex(pos)]) && ChunkOffset(pos) <= cs[ChunkIndex(pos)].used
  {
    FlatLength(cs);
  }

  /** When no chunk exists at `pos`, the file ends there on a chunk boundary. */
  lemma NoChunkAt(cs: seq<Chunk>, pos: nat)
    requires RecordOk(cs) && pos <= |Flat(cs)| && ChunkIndex(pos) >= |cs|
    ensures pos == |Flat(cs)| == CHUNK_SIZE * |cs| && ChunkOffset(pos) == 0 && ChunkIndex(pos) == |cs|
  {
    FlatLength(cs);
  }

  /** The chunk of `pos` in a list of `n` chunks. */
  function ChunkOf(n: nat, pos: nat): Option<nat> {
    if ChunkIndex(pos) < n then Some(ChunkIndex(pos)) else None
  }

  function NextOf(n: nat, i: nat): Option<nat> {
    if i + 1 < n then Some(i + 1) else None
  }

  /** Moving on by `l` bytes inside a chunk stays in it, or lands at the start of the next. */
  lemma Advance(n: nat, pos: nat, l: nat)
    requires 0 < ChunkOffset(pos) + l <= CHUNK_SIZE && ChunkIndex(pos) < n
    ensures var i := ChunkIndex(pos);
            && ChunkOf(n, pos + l) == (if ChunkOffset(pos + l) != 0 then Some(i) else NextOf(n, i))
            && (ChunkOffset(pos) + l == CHUNK_SIZE ==> ChunkOf(n, pos + l) == NextOf(n, i))
  {
    if ChunkOffset(pos) + l == CHUNK_SIZE {
      assert ChunkIndex(pos + l) == ChunkIndex(pos) + 1 && ChunkOffset(pos + l) == 0;
    } else {
      assert ChunkIndex(pos + l) == ChunkIndex(pos) && ChunkOffset(pos + l) != 0;
    }
  }

  /** The chunk list with a chunk at `pos`: an empty one is appended if need be. */
  function WithChunkAt(cs: seq<Chunk>, pos: nat, buff: seq<Byte>): seq<Chunk> {
    if ChunkIndex(pos) < |cs| then cs else cs + [Chunk(0, buff)]
  }

  lemma WriteInside(cs: seq<Chunk>, i: nat, o: nat, d: seq<Byte>)
    requires RecordOk(cs) && i < |cs| && ChunkOk(cs[i]) && o <= cs[i].used && 0 < |d| <= CHUNK_SIZE - o
    ensures var w := ChunkWrite(cs[i], d, o);
            && RecordOk(cs[i := w]) && CHUNK_SIZE * i + o <= |Flat(cs)|
            && Flat(cs[i := w]) == Splice(Flat(cs), CHUNK_SIZE * i + o, d)
            && |Flat(cs[i := w])| == |Flat(cs)| + (w.used - cs[i].used)
  {
    hide Flat, Splice;
    var w := ChunkWrite(cs[i], d, o);
    ChunkWriteSplices(cs[i], d, o);
    FlatReplace(cs, i, w, o, d);
    FlatLength(cs);
    FlatLength(cs[i := w]);
  }

  lemma WriteAppended(cs: seq<Chunk>, d: seq<Byte>, buff: seq<Byte>)
    requires RecordOk(cs) && |Flat(cs)| == CHUNK_SIZE * |cs| && 0 < |d| <= CHUNK_SIZE && |buff| == CHUNK_SIZE
    ensures var w := ChunkWrite(Chunk(0, buff), d, 0);
            && RecordOk(cs + [w]) && Flat(cs + [w]) == Splice(Flat(cs), |Flat(cs)|, d)
            && |Flat(cs + [w])| == |Flat(cs)| + w.used
  {
    ChunkWriteSplices(Chunk(0, buff), d, 0);
    FlatAppend(cs, ChunkWrite(Chunk(0, buff), d, 0));
  }

  /** One round of `record_write`: `d` goes into the chunk of `pos`, up to its end at most. */
  lemma WriteRound(cs: seq<Chunk>, pos: nat, d: seq<Byte>, buff: seq<Byte>)
    requires RecordOk(cs) && pos <= |Flat(cs)| && |buff| == CHUNK_SIZE
    requires 0 < |d| <= CHUNK_SIZE - ChunkOffset(pos)
    ensures var i := ChunkIndex(pos); var ws := WithChunkAt(cs, pos, buff);
            && i < |ws| && |ws[i].buff| == CHUNK_SIZE
            && var w := ChunkWrite(ws[i], d, ChunkOffset(pos));
            && RecordOk(ws[i := w]) && Flat(ws[i := w]) == Splice(Flat(cs), pos, d)
            && |Flat(ws[i := w])| == |Flat(cs)| + (w.used - ws[i].used)
  {
    hide Flat, Splice, RecordOk, ChunkWrite;
    var i, o := ChunkIndex(pos), ChunkOffset(pos);
    assert pos == CHUNK_SIZE * i + o;
    if i < |cs| {
      OffsetInside(cs, pos);
      WriteInside(cs, i, o, d);
    } else {
      NoChunkAt(cs, pos);
      WriteAppended(cs, d, buff);
      var w := ChunkWrite(Chunk(0, buff), d, 0);
      assert (cs + [Chunk(0, buff)])[i := w] == cs + [w];
    }
  }

  // ---------------------------------------------------------------------------------------------
  // Where a cursor stands

  /** The byte the next call starts at: the chunk comes from the cursor, and only the place in it from the offset. */
  ghost function PositionOf(cursor: Option<nat>, offset: nat, size: nat): nat {
    match cursor
    case None => size
    case Some(i) => CHUNK_SIZE * i + ChunkOffset(offset)
  }

  ghost predicate CursorIn(n: nat, cursor: Option<nat>, offset: nat, size: nat) {
    var pos := PositionOf(cursor, offset, size);
    pos <= size && cursor == ChunkOf(n, pos) && ChunkOffset(offset) == ChunkOffset(pos)
  }

  lemma CursorAt(n: nat, cursor: Option<nat>, offset: nat, size: nat, pos: nat)
    requires pos <= size && ChunkOffset(offset) == ChunkOffset(pos)
    requires cursor == ChunkOf(n, pos) && (cursor.None? ==> pos == size)
    ensures PositionOf(cursor, offset, size) == pos && CursorIn(n, cursor, offset, size)
  {
    assert pos == CHUNK_SIZE * ChunkIndex(pos) + ChunkOffset(pos);
  }

  lemma SameOffset(a: nat, b: nat, k: nat)
    requires ChunkOffset(a) == ChunkOffset(b)
    ensures ChunkOffset(a + k) == ChunkOffset(b + k)
  {
    assert a - b == CHUNK_SIZE * (a / CHUNK_SIZE - b / CHUNK_SIZE);
  }

  lemma CursorUnfolds(n: nat, cursor: Option<nat>, offset: nat, size: nat)
    requires CursorIn(n, cursor, offset, size)
    ensures var pos := PositionOf(cursor, offset, size);
            pos <= size && cursor == ChunkOf(n, pos) && ChunkOffset(offset) == ChunkOffset(pos)
            && (cursor.None? ==> pos == size)
  {
  }

  /** Moving only the offset keeps the cursor in a chunk that is full. */
  lemma CursorStays(n: nat, i: nat, offset: nat, size: nat)
    requires i < n && CHUNK_SIZE * (i + 1) <= size
    ensures CursorIn(n, Some(i), offset, size)
    ensures PositionOf(Some(i), offset, size) == CHUNK_SIZE * i + ChunkOffset(offset) < size
  {
    assert ChunkIndex(CHUNK_SIZE * i + ChunkOffset(offset)) == i;
  }

  // ---------------------------------------------------------------------------------------------
  // A file and its one open handle

  class File {
    var chunks: seq<Chunk>
    var size: nat
    var offset: nat
    var cursor: Option<nat>   // file->private: the chunk of the offset, as an index into the list

    /** The cursor is nowhere or on a chunk of the file; it need not be the chunk of the offset. */
    ghost predicate Valid()
      reads this
    {
      RecordOk(chunks) && size == |Flat(chunks)| && CursorIn(|chunks|, cursor, offset, size)
    }

    ghost function Contents(): seq<Byte>
      requires Valid()
      reads this
    {
      Flat(chunks)
    }

    ghost function Position(): (p: nat)
      requires Valid()
      reads this
      ensures p <= |Contents()|
    {
      PositionOf(cursor, offset, size)
    }

    /** `record_create`, then `ramfs_file_open` */
    constructor ()
      ensures Valid() && Contents() == [] && Position() == offset == 0
    {
      chunks, size, offset, cursor := [], 0, 0, None;
    }

    /** `ramfs_file_open` of a file that has data already. */
    method Open()
      requires Valid()
      modifies `offset, `cursor
      ensures Valid() && Position() == offset == 0
    {
      FlatLength(chunks);
      offset := 0;
      cursor := if chunks == [] then None else Some(0);
    }

    static method BuffAlloc() returns (buff: seq<Byte>)
      ensures |buff| == CHUNK_SIZE
    {
      buff := seq(CHUNK_SIZE, _ => 0);
    }

    /** `record_write`: exactly a splice into the flat byte string, where the cursor stands. */
    method Write(data: seq<Byte>)
      requires Valid()
      modifies this
      ensures Valid()
      ensures Contents() == Splice(old(Contents()), old(Position()), data)
      ensures offset == old(offset) + |data| && Position() == old(Position()) + |data|
    {
      hide RecordOk, Flat, Splice, ChunkOk, ChunkIndex, ChunkOffset, PositionOf, CursorIn;
      ghost var f, at := Contents(), Position();
      var off, amt, c := offset, 0, cursor;
      CursorUnfolds(|chunks|, cursor, off, size);
      SpliceNothing(f, at, data[..0]);
      while |data| - amt != 0
        invariant 0 <= amt <= |data| && offset == off
        invariant RecordOk(chunks) && size == |Flat(chunks)| && at + amt <= size
        invariant Flat(chunks) == Splice(f, at, data[..amt])
        invariant amt < |data| ==> c == ChunkOf(|chunks|, at + amt)
        invariant amt == |data| ==> cursor == ChunkOf(|chunks|, at + amt)
      {
        ghost var cs, pos := chunks, at + amt;
        SameOffset(off, at, amt);
        var len := Min(CHUNK_SIZE - ChunkOffset(off + amt), |data| - amt);
        var d := data[amt..amt + len];
        var buff := BuffAlloc();
        WriteRound(cs, pos, d, buff);
        SpliceTwice(f, at, data[..amt], d);
        assert data[..amt] + d == data[..amt + len];
        if c.None? {
          chunks := chunks + [Chunk(0, buff)];
          NoChunkAt(cs, pos);
          c := Some(|chunks| - 1);
        }
        var i := c.value;
        WriteChunk(i, d, ChunkOffset(off + amt));
        SpliceCovers(Flat(cs), pos, d);
        Advance(|chunks|, pos, len);
        amt := amt + len;
        SameOffset(off, at, amt);
        if |data| - amt != 0 {
          c := NextOf(|chunks|, i);
        } else {
          cursor := if ChunkOffset(off + amt) != 0 then c else NextOf(|chunks|, i);
        }
      }
      offset := offset + amt;
      assert data[..|data|] == data;
      SameOffset(off, at, amt);
      ReadStarts(chunks, at + amt);
      CursorAt(|chunks|, cursor, offset, size, at + amt);
    }

    /** `chunk_write` */
    method WriteChunk(i: nat, d: seq<Byte>, o: nat)
      requires i < |chunks| && |chunks[i].buff| == CHUNK_SIZE && o + |d| <= CHUNK_SIZE && o < CHUNK_SIZE
      modifies `chunks, `size
      ensures chunks == old(chunks)[i := ChunkWrite(old(chunks)[i], d, o)]
      ensures size == old(size) + (chunks[i].used - old(chunks)[i].used)
    {
      assert o < CHUNK_SIZE;
      var c := chunks[i];
      var w := Chunk(Max(c.used, o + |d|), c.buff[..o] + d + c.buff[o + |d|..]);
      size := size + (w.used - c.used);
      chunks := chunks[i := w];
    }

    /** `record_read`: exactly the bytes from where the cursor stands up to the end of the file at most. The
        cursor follows if and only if the read is satisfied in full or does not leave its chunk: the test for
        the last chunk compares with the list head, so it never succeeds. Otherwise it stays in its chunk,
        before the end of the file, while the offset moves on. */
    method Read(len: nat) returns (data: seq<Byte>)
      requires Valid()
      modifies `offset, `cursor
      ensures Valid()
      ensures data == Contents()[old(Position())..Min(old(Position()) + len, size)]
      ensures offset == old(offset) + |data|
      ensures if len <= size - old(Position()) || ChunkIndex(old(Position())) == ChunkIndex(size)
              then Position() == old(Position()) + |data|
              else Position() == CHUNK_SIZE * ChunkIndex(old(Position())) + ChunkOffset(size) < size
    {
      hide RecordOk, Flat, ChunkOf, NextOf, ChunkOk, ChunkIndex, ChunkOffset, PositionOf, CursorIn;
      ghost var f, at := Contents(), Position();
      var off, amt, c := offset, 0, cursor;
      ReadStarts(chunks, at);
      assert c == ChunkOf(|chunks|, at) && ChunkOffset(off) == ChunkOffset(at) by {
        CursorUnfolds(|chunks|, cursor, off, size);
      }
      data := [];
      if c.None? {
        return;
      }
      while len - amt != 0 && c.Some?
        invariant 0 <= amt <= len && at + amt <= |f| && offset == off
        invariant data == f[at..at + amt]
        invariant amt < len && c.Some? ==> c == ChunkOf(|chunks|, at + amt)
        invariant amt < len && c.None? ==> at + amt == |f|
        invariant cursor == if amt == len && len > 0 then ChunkOf(|chunks|, at + amt) else old(cursor)
        decreases len - amt, |chunks| - (if c.Some? then c.value else |chunks|)
      {
        var i := c.value;
        ghost var pos := at + amt;
        SameOffset(off, at, amt);
        var o := ChunkOffset(off + amt);
        ReadStarts(chunks, pos);
        assert o <= chunks[i].used;
        var l := Min(chunks[i].used - o, len - amt);
        ReadRound(chunks, pos, l);
        Advance(|chunks|, pos, l);
        SlicesMeet(f, at, pos, pos + l);
        data := data + chunks[i].buff[o..o + l];
        amt := amt + l;
        SameOffset(off, at, amt);
        if len - amt == 0 {
          cursor := if ChunkOffset(off + amt) != 0 then c else NextOf(|chunks|, i);
        }
        c := NextOf(|chunks|, i);
      }
      offset := offset + amt;
      SameOffset(off, at, amt);
      ReadStarts(chunks, at + amt);
      if amt == len {
        CursorAt(|chunks|, cursor, offset, size, at + amt);
      } else {
        ShortRead(|chunks|, at, offset, size);
      }
    }

    /** `ramfs_file_seek` with `SEEK_SET`; fails where the original panics. The end of the file can be
        reached unless it lies on a chunk boundary. */
    method Seek(target: nat) returns (ok: bool)
      requires Valid()
      modifies `offset, `cursor
      ensures Valid()
      ensures ok <==> target < size || (target == size && ChunkOffset(size) != 0)
      ensures ok ==> Position() == offset == target
      ensures !ok ==> offset == old(offset) && cursor == old(cursor)
    {
      FlatLength(chunks);
      var pos, i := 0, 0;
      while i < |chunks|
        invariant 0 <= i <= |chunks| && pos == CHUNK_SIZE * i <= target
        invariant offset == old(offset) && cursor == old(cursor)
      {
        if target - pos < CHUNK_SIZE {
          if target - pos > chunks[i].used {
            return false;
          }
          cursor := Some(i);
          offset := target;
          CursorAt(|chunks|, cursor, offset, size, target);
          return true;
        }
        pos := pos + CHUNK_SIZE;
        i := i + 1;
      }
      return false;
    }

    /** Reading back what was just written. */
    method WriteSeekRead(data: seq<Byte>) returns (back: seq<Byte>)
      requires Valid() && Position() == offset && data != []
      modifies this
      ensures Valid() && Position() == offset && back == data
      ensures Contents() == Splice(old(Contents()), old(offset), data)
    {
      var start := offset;
      SpliceCovers(Contents(), start, data);
      Write(data);
      var ok := Seek(start);
      assert ok;
      back := Read(|data|);
    }
  }

  /** Where the cursor stands on the offset, a write splices there; anywhere else some write does not. */
  lemma SpliceAtOffset(f: seq<Byte>, position: nat, offset: nat)
    requires position <= |f|
    ensures position == offset <==>
              offset <= |f| && forall d :: Splice(f, position, d) == Splice(f, offset, d)
  {
    if position != offset <= |f| {
      var first := if position < offset then position else offset;
      var d := [if f[first] == 0 then 1 else 0];
      assert Splice(f, first, d)[first] == d[0];
      assert forall p :: first < p <= |f| ==> Splice(f, p, d)[first] == f[first];
      assert Splice(f, position, d) != Splice(f, offset, d);
    }
  }

  /** A file of two full chunks: after a read of more than it holds the offset is at the end and the cursor on
      the first chunk, so that the next write goes to the start of the file. */
  method ShortReadLosesCursor() returns (f: File)
    ensures fresh(f) && f.Valid() && |f.Contents()| == 2048 && f.offset == 2049
    ensures f.Contents()[0] == 1 && forall k :: 1 <= k < 2048 ==> f.Contents()[k] == 0
  {
    hide ChunkOf, Splice, PositionOf, CursorIn;
    f := new File();
    var data: seq<Byte> := seq(2048, _ => 0);
    f.Write(data);
    TwoChunks(data);
    f.Open();
    var got := f.Read(5000);
    f.Write([1]);
    FirstByte(data);
  }

  lemma TwoChunks(data: seq<Byte>)
    ensures Splice([], 0, data) == data && ChunkIndex(0) == 0 && ChunkIndex(2048) == 2 && ChunkOffset(2048) == 0
  {
  }

  lemma FirstByte(data: seq<Byte>)
    requires data != []
    ensures Splice(data, 0, [1]) == [1] + data[1..]
  {
  }

  /** A file of one full chunk: its end cannot be sought. */
  method SeekToChunkBoundary() returns (f: File, ok: bool)
    ensures fresh(f) && f.Valid() && |f.Contents()| == 1024 && !ok
  {
    hide ChunkOf, Splice;
    f := new File();
    var data := seq(1024, _ => 0);
    f.Write(data);
    OneChunk(data);
    ok := f.Seek(1024);
  }

  lemma OneChunk(data: seq<Byte>)
    ensures Splice([], 0, data) == data && ChunkOffset(1024) == 0
  {
  }

  lemma ReadStarts(cs: seq<Chunk>, pos: nat)
    requires RecordOk(cs) && pos <= |Flat(cs)|
    ensures match ChunkOf(|cs|, pos)
            case None => pos == |Flat(cs)|
            case Some(i) => i == ChunkIndex(pos) < |cs| && ChunkOk(cs[i]) && ChunkOffset(pos) <= cs[i].used
  {
    if ChunkIndex(pos) < |cs| {
      OffsetInside(cs, pos);
    } else {
      NoChunkAt(cs, pos);
    }
  }

  /** A cursor left behind at `pos` when the offset moves on to the end of the file is right there only if that
      is the same chunk. */
  lemma ShortRead(n: nat, pos: nat, offset: nat, size: nat)
    requires ChunkIndex(pos) < n && pos <= size && ChunkOffset(offset) == ChunkOffset(size)
    ensures var i := ChunkIndex(pos);
            && CursorIn(n, Some(i), offset, size)
            && PositionOf(Some(i), offset, size) == CHUNK_SIZE * i + ChunkOffset(size) <= size
            && (i == ChunkIndex(size) <==> PositionOf(Some(i), offset, size) == size)
  {
    assert size == CHUNK_SIZE * ChunkIndex(size) + ChunkOffset(size);
    if ChunkIndex(pos) == ChunkIndex(size) {
      CursorAt(n, Some(ChunkIndex(pos)), offset, size, size);
    } else {
      assert ChunkIndex(pos) < ChunkIndex(size);
      CursorStays(n, ChunkIndex(pos), offset, size);
    }
  }

  /** One round of `record_read`: `l` bytes from the chunk of `pos`; if that was all of the chunk, the
      next chunk follows or the file ends. */
  lemma ReadRound(cs: seq<Chunk>, pos: nat, l: nat)
    requires RecordOk(cs) && pos <= |Flat(cs)| && ChunkIndex(pos) < |cs|
    requires ChunkOffset(pos) + l <= cs[ChunkIndex(pos)].used
    ensures ChunkOk(cs[ChunkIndex(pos)]) && pos + l <= |Flat(cs)|
    ensures cs[ChunkIndex(pos)].buff[ChunkOffset(pos)..ChunkOffset(pos) + l] == Flat(cs)[pos..pos + l]
    ensures 0 < ChunkOffset(pos) + l || cs[ChunkIndex(pos)].used > 0
    ensures var i := ChunkIndex(pos);
            ChunkOffset(pos) + l == cs[i].used ==>
              match NextOf(|cs|, i)
              case None => pos + l == |Flat(cs)|
              case Some(_) => ChunkOffset(pos) + l == CHUNK_SIZE
  {
    hide Flat;
    var i, o := ChunkIndex(pos), ChunkOffset(pos);
    assert pos == CHUNK_SIZE * i + o;
    OffsetInside(cs, pos);
    FlatAt(cs, i);
    FlatLength(cs);
    SliceOfSlice(Flat(cs), CHUNK_SIZE * i, CHUNK_SIZE * i + cs[i].used, o, l);
    SliceOfSlice(cs[i].buff, 0, cs[i].used, o, l);
  }

  lemma SliceOfSlice(f: seq<Byte>, a: nat, b: nat, o: nat, l: nat)
    requires a + o + l <= b <= |f|
    ensures f[a..b][o..o + l] == f[a + o..a + o + l]
  {
    var s, t := f[a..b][o..o + l], f[a + o..a + o + l];
    assert |s| == |t|;
    assert forall k :: 0 <= k < l ==> s[k] == f[a + o + k] == t[k];
  }

  lemma SlicesMeet(f: seq<Byte>, a: nat, b: nat, c: nat)
    requires a <= b <= c <= |f|
    ensures f[a..b] + f[b..c] == f[a..c]
  {
  }

  lemma SpliceNothing(f: seq<Byte>, pos: nat, d: seq<Byte>)
    requires pos <= |f| && |d| == 0
    ensures Splice(f, pos, d) == f
  {
  }

  lemma SpliceCovers(f: seq<Byte>, pos: nat, d: seq<Byte>)
    requires pos <= |f|
    ensures pos + |d| <= |Splice(f, pos, d)|
    ensures Splice(f, pos, d)[pos..pos + |d|] == d
  {
  }
}
