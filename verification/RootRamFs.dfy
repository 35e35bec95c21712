/**
 The root file system image: the writer that lays down a header and one record per directory or
 file, and the kernel's reader that walks it.
 */
module RootRamFs {
  import opened Common

  type Byte = x: int | 0 <= x < 256 witness 0

  const MAGIC: seq<Byte> := [0x4B, 0x52, 0x46, 0x53]   // "KRFS"
  const TYPE_DIR: Byte := 1
  const TYPE_FRECORD: Byte := 2
  const ENTRY_SIZE: nat := 5
  const FRECORD_SIZE: nat := 4
  const SLASH: Byte := 0x2F

  datatype Entry = Dir(name: seq<Byte>) | File(name: seq<Byte>, data: seq<Byte>)

  ghost predicate EntryOk(e: Entry) {
    |e.name| < TWO32 && (e.File? ==> |e.data| < TWO32)
  }

  ghost predicate AllOk(es: seq<Entry>) {
    forall e :: e in es ==> EntryOk(e)
  }

  // ---------------------------------------------------------------------------------------------
  // 32-bit little-endian numbers

  function U32(n: nat): (b: seq<Byte>)
    requires n < TWO32
    ensures |b| == 4
  {
    [n % 256, n / 256 % 256, n / 65536 % 256, n / 16777216]
  }

  function ReadU32(b: seq<Byte>, at: nat): (n: nat)
    requires at + 4 <= |b|
    ensures n < TWO32
  {
    var b0: int, b1: int, b2: int, b3: int := b[at], b[at + 1], b[at + 2], b[at + 3];
    b0 + 256 * b1 + 65536 * b2 + 16777216 * b3
  }

  lemma U32Inverse(n: nat)
    requires n < TWO32
    ensures ReadU32(U32(n), 0) == n
  {
    var q1 := n / 256;
    var q2 := q1 / 256;
    assert q1 == n / 256 && q2 == n / 65536 && q2 / 256 == n / 16777216;
    assert n == n % 256 + 256 * (q1 % 256 + 256 * (q2 % 256 + 256 * (q2 / 256)));
  }

  lemma LowDigit(low: int, high: nat)
    requires 0 <= low < 256
    ensures (low + 256 * high) % 256 == low && (low + 256 * high) / 256 == high
  {
  }

  lemma DivideTwice(n: nat)
    ensures n / 65536 == n / 256 / 256 && n / 16777216 == n / 256 / 256 / 256
  {
  }

  lemma ReadU32Inverse(b: seq<Byte>, at: nat)
    requires at + 4 <= |b|
    ensures U32(ReadU32(b, at)) == b[at..at + 4]
  {
    var b0: int, b1: int, b2: int, b3: int := b[at], b[at + 1], b[at + 2], b[at + 3];
    Digits(b0, b1, b2, b3, ReadU32(b, at));
  }

  lemma Digits(b0: int, b1: int, b2: int, b3: int, n: nat)
    requires 0 <= b0 < 256 && 0 <= b1 < 256 && 0 <= b2 < 256 && 0 <= b3
    requires n == b0 + 256 * b1 + 65536 * b2 + 16777216 * b3
    ensures n % 256 == b0 && n / 256 % 256 == b1 && n / 65536 % 256 == b2 && n / 16777216 == b3
  {
    var m2 := b2 + 256 * b3;
    var m1 := b1 + 256 * m2;
    LowDigit(b2, b3);
    LowDigit(b1, m2);
    LowDigit(b0, m1);
    DivideTwice(n);
  }

  // ---------------------------------------------------------------------------------------------
  // The format

  function Encode(e: Entry): seq<Byte>
    requires EntryOk(e)
  {
    match e
    case Dir(name) => [TYPE_DIR] + U32(|name|) + name
    case File(name, data) => [TYPE_FRECORD] + U32(|name|) + name + U32(|data|) + data
  }

  function EncodeAll(es: seq<Entry>): seq<Byte>
    requires AllOk(es)
  {
    if es == [] then [] else Encode(es[0]) + EncodeAll(es[1..])
  }

  function Image(es: seq<Entry>): seq<Byte>
    requires AllOk(es)
  {
    MAGIC + EncodeAll(es)
  }

  /** Four bytes at `at` are the number `n`, least significant first. */
  predicate LittleEndian(b: seq<Byte>, at: nat, n: nat)
    requires at + 4 <= |b|
  {
    var b0: int, b1: int, b2: int, b3: int := b[at], b[at + 1], b[at + 2], b[at + 3];
    n == b0 + 0x100 * b1 + 0x1_0000 * b2 + 0x100_0000 * b3
  }

  /** A record byte by byte, as the packed structures lay it down: type, length of the name, name, and for a file
      length and contents. */
  lemma Layout(e: Entry, i: nat)
    requires EntryOk(e)
    ensures var w, n := Encode(e), |e.name|;
            && |w| == 5 + n + (if e.File? then 4 + |e.data| else 0)
            && w[0] == (if e.Dir? then 1 else 2) && LittleEndian(w, 1, n)
            && (i < n ==> w[5 + i] == e.name[i])
            && (e.File? ==> LittleEndian(w, 5 + n, |e.data|) && (i < |e.data| ==> w[9 + n + i] == e.data[i]))
  {
    hide U32;
    U32IsLittleEndian(|e.name|);
    if e.File? {
      U32IsLittleEndian(|e.data|);
    }
  }

  lemma U32IsLittleEndian(n: nat)
    requires n < TWO32
    ensures LittleEndian(U32(n), 0, n)
  {
    U32Inverse(n);
  }

  datatype Result<T> = Ok(value: T) | BadMagic | BadType

  datatype Parsed = Parsed(entry: Entry, size: nat)

  // ---------------------------------------------------------------------------------------------
  // The reader, which checks no bound

  /** The memory the reader sees: the image, and whatever lies behind it. Offsets from the start of the
      image are 32-bit numbers. */
  function ByteAt(b: seq<Byte>, behind: nat -> Byte, i: nat): Byte {
    var at := i % TWO32;
    if at < |b| then b[at] else behind(at)
  }

  function BytesAt(b: seq<Byte>, behind: nat -> Byte, i: nat, n: nat): (bytes: seq<Byte>)
    ensures |bytes| == n && forall k :: 0 <= k < n ==> bytes[k] == ByteAt(b, behind, i + k)
  {
    seq<Byte>(n, k requires 0 <= k < n => ByteAt(b, behind, i + k))
  }

  function WordAt(b: seq<Byte>, behind: nat -> Byte, i: nat): (n: nat)
    ensures n < TWO32
  {
    ReadU32(BytesAt(b, behind, i, 4), 0)
  }

  /** `entry_reconstruct` at offset `off`: the entry and the number of bytes it claims to have. */
  function Parse(b: seq<Byte>, behind: nat -> Byte, off: nat): (r: Result<Parsed>)
    ensures !r.BadMagic? && (r.Ok? ==> EntryOk(r.value.entry))
  {
    var n := WordAt(b, behind, off + 1);
    var name := BytesAt(b, behind, off + ENTRY_SIZE, n);
    if ByteAt(b, behind, off) == TYPE_DIR then Ok(Parsed(Dir(name), ENTRY_SIZE + n))
    else if ByteAt(b, behind, off) == TYPE_FRECORD then
      var record := off + ENTRY_SIZE + n;
      var len := WordAt(b, behind, record);
      Ok(Parsed(File(name, BytesAt(b, behind, record + FRECORD_SIZE, len)), ENTRY_SIZE + n + FRECORD_SIZE + len))
    else BadType
  }

  lemma BytesInside(b: seq<Byte>, behind: nat -> Byte, i: nat, n: nat)
    requires i + n <= |b| < TWO32
    ensures BytesAt(b, behind, i, n) == b[i..i + n]
  {
  }

  lemma WordInside(b: seq<Byte>, behind: nat -> Byte, i: nat)
    requires i + 4 <= |b| < TWO32
    ensures U32(WordAt(b, behind, i)) == b[i..i + 4]
  {
    BytesInside(b, behind, i, 4);
    var w := b[i..i + 4];
    ReadU32Inverse(w, 0);
    assert w[0..4] == w;
  }

  lemma WordIs(b: seq<Byte>, behind: nat -> Byte, i: nat, n: nat)
    requires i + 4 <= |b| < TWO32 && n < TWO32 && b[i..i + 4] == U32(n)
    ensures WordAt(b, behind, i) == n
  {
    BytesInside(b, behind, i, 4);
    U32Inverse(n);
  }

  /** The reader sees at `off` exactly the entry that the writer put there. */
  lemma ParseEncoded(b: seq<Byte>, behind: nat -> Byte, off: nat, e: Entry)
    requires EntryOk(e) && off + |Encode(e)| <= |b| < TWO32 && b[off..off + |Encode(e)|] == Encode(e)
    ensures Parse(b, behind, off) == Ok(Parsed(e, |Encode(e)|))
  {
    hide U32, WordAt, BytesAt;
    var w, n := Encode(e), |e.name|;
    assert b[off] == b[off..off + |w|][0] == w[0];
    NameEncoded(b, behind, off, w, e.name);
    if e.File? {
      assert w[5 + n..] == U32(|e.data|) + e.data;
      DataEncoded(b, behind, off, w, 5 + n, e.data);
    }
  }

  /** Length and data follow the name of a file. */
  lemma DataEncoded(b: seq<Byte>, behind: nat -> Byte, off: nat, w: seq<Byte>, at: nat, data: seq<Byte>)
    requires off + |w| <= |b| < TWO32 && b[off..off + |w|] == w && |data| < TWO32
    requires at <= |w| && w[at..] == U32(|data|) + data
    ensures WordAt(b, behind, off + at) == |data|
    ensures BytesAt(b, behind, off + at + FRECORD_SIZE, |data|) == data
  {
    hide U32, WordAt, BytesAt;
    assert w[at..at + 4] == w[at..][..4] == U32(|data|);
    SliceAt(b, off, w, at, at + 4);
    WordIs(b, behind, off + at, |data|);
    assert w[at + 4..] == w[at..][4..] == data;
    SliceAt(b, off, w, at + 4, |w|);
    BytesInside(b, behind, off + at + 4, |data|);
  }

  /** Length and name follow the type of a record. */
  lemma NameEncoded(b: seq<Byte>, behind: nat -> Byte, off: nat, w: seq<Byte>, name: seq<Byte>)
    requires off + |w| <= |b| < TWO32 && b[off..off + |w|] == w && |name| < TWO32
    requires 5 + |name| <= |w| && w[1..5 + |name|] == U32(|name|) + name
    ensures WordAt(b, behind, off + 1) == |name| && BytesAt(b, behind, off + ENTRY_SIZE, |name|) == name
  {
    hide U32, WordAt, BytesAt;
    var n := |name|;
    assert w[1..5] == w[1..5 + n][..4] == U32(n);
    SliceAt(b, off, w, 1, 5);
    WordIs(b, behind, off + 1, n);
    assert w[5..5 + n] == w[1..5 + n][4..] == name;
    SliceAt(b, off, w, 5, 5 + n);
    BytesInside(b, behind, off + 5, n);
  }

  lemma SliceAt(b: seq<Byte>, off: nat, w: seq<Byte>, i: nat, j: nat)
    requires off + |w| <= |b| && b[off..off + |w|] == w && i <= j <= |w|
    ensures b[off + i..off + j] == w[i..j]
  {
    var s := b[off..off + |w|];
    assert forall k :: i <= k < j ==> b[off + k] == s[k];
  }

  /** And the other way round: a record that lies inside the image is what the writer would have written. */
  lemma ParsedIsEncoded(b: seq<Byte>, behind: nat -> Byte, off: nat)
    requires |b| < TWO32 && Parse(b, behind, off).Ok? && off + Parse(b, behind, off).value.size <= |b|
    ensures var p := Parse(b, behind, off).value;
            b[off..off + p.size] == Encode(p.entry) && |Encode(p.entry)| == p.size
  {
    hide U32, WordAt, BytesAt, Encode;
    var n := WordAt(b, behind, off + 1);
    HeadInside(b, behind, off, n);
    var name, mid := BytesAt(b, behind, off + ENTRY_SIZE, n), off + ENTRY_SIZE + n;
    if b[off] == TYPE_DIR {
      assert Parse(b, behind, off).value == Parsed(Dir(name), ENTRY_SIZE + n);
      EncodedDir(name);
    } else {
      var len := WordAt(b, behind, mid);
      var data := BytesAt(b, behind, mid + FRECORD_SIZE, len);
      assert Parse(b, behind, off).value == Parsed(File(name, data), ENTRY_SIZE + n + FRECORD_SIZE + len);
      LengthInside(b, behind, mid, len);
      Adjacent(b, off, mid, mid + FRECORD_SIZE + len);
      EncodedFile(name, data, b[off..mid]);
    }
  }

  lemma EncodedDir(name: seq<Byte>)
    requires |name| < TWO32
    ensures Encode(Dir(name)) == [TYPE_DIR] + U32(|name|) + name && |Encode(Dir(name))| == ENTRY_SIZE + |name|
  {
  }

  lemma EncodedFile(name: seq<Byte>, data: seq<Byte>, head: seq<Byte>)
    requires |name| < TWO32 && |data| < TWO32 && head == [TYPE_FRECORD] + U32(|name|) + name
    ensures Encode(File(name, data)) == head + (U32(|data|) + data)
    ensures |Encode(File(name, data))| == ENTRY_SIZE + |name| + FRECORD_SIZE + |data|
  {
    Concat(head, U32(|data|), data);
  }

  /** The type, the length of the name and the name. */
  lemma HeadInside(b: seq<Byte>, behind: nat -> Byte, off: nat, n: nat)
    requires off + ENTRY_SIZE + n <= |b| < TWO32 && WordAt(b, behind, off + 1) == n
    ensures b[off..off + ENTRY_SIZE + n] == [b[off]] + U32(n) + BytesAt(b, behind, off + ENTRY_SIZE, n)
  {
    hide U32, WordAt, BytesAt;
    LengthInside(b, behind, off + 1, n);
    Adjacent(b, off, off + 1, off + ENTRY_SIZE + n);
    assert b[off..off + 1] == [b[off]];
    Concat([b[off]], U32(n), BytesAt(b, behind, off + ENTRY_SIZE, n));
  }

  lemma Adjacent(b: seq<Byte>, lo: nat, mid: nat, hi: nat)
    requires lo <= mid <= hi <= |b|
    ensures b[lo..hi] == b[lo..mid] + b[mid..hi]
  {
  }

  lemma Concat(a: seq<Byte>, b: seq<Byte>, c: seq<Byte>)
    ensures a + (b + c) == a + b + c
  {
  }

  /** A length and that many bytes, inside the image. */
  lemma LengthInside(b: seq<Byte>, behind: nat -> Byte, at: nat, n: nat)
    requires at + 4 + n <= |b| < TWO32 && WordAt(b, behind, at) == n
    ensures b[at..at + 4 + n] == U32(n) + BytesAt(b, behind, at + 4, n)
  {
    hide U32, WordAt, BytesAt;
    WordInside(b, behind, at);
    BytesInside(b, behind, at + 4, n);
    assert b[at..at + 4 + n] == b[at..at + 4] + b[at + 4..at + 4 + n];
  }

  // ---------------------------------------------------------------------------------------------
  // The reader's loop

  /** From `off` the loop reconstructs `es` and ends. Offsets wrap, so a loop need not end. */
  ghost predicate Loads(b: seq<Byte>, behind: nat -> Byte, off: nat, es: seq<Entry>)
    decreases |es|
  {
    if es == [] then off >= |b|
    else
      var p := Parse(b, behind, off);
      off < |b| && p.Ok? && p.value.entry == es[0] && Loads(b, behind, (off + p.value.size) % TWO32, es[1..])
  }

  /** The loop reconstructs `es` and then meets a record of unknown type. */
  ghost predicate Breaks(b: seq<Byte>, behind: nat -> Byte, off: nat, es: seq<Entry>)
    decreases |es|
  {
    var p := Parse(b, behind, off);
    off < |b| && if es == [] then p.BadType?
                 else p.Ok? && p.value.entry == es[0] && Breaks(b, behind, (off + p.value.size) % TWO32, es[1..])
  }

  /** The loop that reconstructs `es` reads nothing behind the image and ends at its end. */
  ghost predicate Inside(b: seq<Byte>, behind: nat -> Byte, off: nat, es: seq<Entry>)
    requires Loads(b, behind, off, es)
    decreases |es|
  {
    if es == [] then off == |b|
    else
      var size := Parse(b, behind, off).value.size;
      off + size <= |b| && Inside(b, behind, (off + size) % TWO32, es[1..])
  }

  /** `rootramfs_load` finds the magic number and reconstructs `es`. */
  ghost predicate Accepts(b: seq<Byte>, behind: nat -> Byte, es: seq<Entry>) {
    BytesAt(b, behind, 0, |MAGIC|) == MAGIC && Loads(b, behind, |MAGIC|, es)
  }

  /** The reader is deterministic. */
  lemma {:induction false} LoadsOnce(b: seq<Byte>, behind: nat -> Byte, off: nat, es: seq<Entry>, fs: seq<Entry>)
    requires Loads(b, behind, off, es) && Loads(b, behind, off, fs)
    ensures es == fs
    decreases |es|
  {
    hide Parse;
    if es != [] {
      LoadsOnce(b, behind, (off + Parse(b, behind, off).value.size) % TWO32, es[1..], fs[1..]);
      assert es == [es[0]] + es[1..] && fs == [fs[0]] + fs[1..];
    }
  }

  lemma {:induction false} LoadEncoded(b: seq<Byte>, behind: nat -> Byte, off: nat, es: seq<Entry>)
    requires AllOk(es) && |b| < TWO32
    requires off <= |b| && b[off..] == EncodeAll(es)
    ensures Loads(b, behind, off, es) && Inside(b, behind, off, es)
    decreases |es|
  {
    hide Parse, Encode;
    if es != [] {
      var w := Encode(es[0]);
      assert b[off..][..|w|] == w && b[off..][|w|..] == EncodeAll(es[1..]);
      assert b[off..off + |w|] == w && b[off + |w|..] == EncodeAll(es[1..]);
      EncodeNotEmpty(es[0]);
      ParseEncoded(b, behind, off, es[0]);
      LoadEncoded(b, behind, off + |w|, es[1..]);
    } else {
      assert |b[off..]| == 0;
    }
  }

  lemma EncodeNotEmpty(e: Entry)
    requires EntryOk(e)
    ensures |Encode(e)| > 0
  {
  }

  /** Round trip: whatever lies behind it, the reader recovers every list of entries from its image, and
      ends at its end. */
  lemma LoadImage(es: seq<Entry>, behind: nat -> Byte)
    requires AllOk(es) && |Image(es)| < TWO32
    ensures Accepts(Image(es), behind, es) && Inside(Image(es), behind, |MAGIC|, es)
  {
    var b := Image(es);
    assert b[..|MAGIC|] == MAGIC;
    BytesInside(b, behind, 0, |MAGIC|);
    LoadEncoded(b, behind, |MAGIC|, es);
  }

  lemma {:induction false} LoadedIsEncoded(b: seq<Byte>, behind: nat -> Byte, off: nat, es: seq<Entry>)
    requires |b| < TWO32 && Loads(b, behind, off, es) && Inside(b, behind, off, es)
    ensures AllOk(es) && off <= |b| && b[off..] == EncodeAll(es)
    decreases |es|
  {
    hide Parse, Encode;
    if es != [] {
      ParsedIsEncoded(b, behind, off);
      var next := off + Parse(b, behind, off).value.size;
      LoadedIsEncoded(b, behind, next, es[1..]);
      assert b[off..] == b[off..next] + b[next..];
      assert forall e :: e in es ==> e == es[0] || e in es[1..];
    } else {
      assert b[off..] == [];
    }
  }

  /** The images from which the reader reconstructs `es` without reading behind them, and ends at their end,
      are exactly those the writer lays down for `es`. */
  lemma LoadExactly(b: seq<Byte>, behind: nat -> Byte, es: seq<Entry>)
    requires |b| < TWO32
    ensures Accepts(b, behind, es) && Inside(b, behind, |MAGIC|, es) <==> AllOk(es) && b == Image(es)
  {
    if Accepts(b, behind, es) && Inside(b, behind, |MAGIC|, es) {
      LoadedIsEncoded(b, behind, |MAGIC|, es);
      BytesInside(b, behind, 0, |MAGIC|);
      assert b == b[..|MAGIC|] + b[|MAGIC|..];
    }
    if AllOk(es) && b == Image(es) {
      LoadImage(es, behind);
    }
  }

  /** An image cut off inside a name: the reader takes four bytes behind it into the name, ends past the end
      and reports nothing, although no writer lays down such an image. */
  lemma TruncatedImage(behind: nat -> Byte)
    ensures var b := MAGIC + [TYPE_DIR, 5, 0, 0, 0, 0x61];
            var e := Dir([0x61, behind(10), behind(11), behind(12), behind(13)]);
            && Accepts(b, behind, [e]) && !Inside(b, behind, |MAGIC|, [e])
            && !exists es :: AllOk(es) && b == Image(es)
  {
    hide Parse, Image, AllOk;
    var b := MAGIC + [TYPE_DIR, 5, 0, 0, 0, 0x61];
    var e := Dir([0x61, behind(10), behind(11), behind(12), behind(13)]);
    TruncatedRecord(b, behind, e);
    var es: seq<Entry> := [e];
    assert es[1..] == [] && Loads(b, behind, 14, []);
    assert Loads(b, behind, |MAGIC|, es);
    assert !Inside(b, behind, |MAGIC|, es);
    forall fs | AllOk(fs)
      ensures b != Image(fs)
    {
      LoadExactly(b, behind, fs);
      if Accepts(b, behind, fs) {
        LoadsOnce(b, behind, |MAGIC|, es, fs);
      }
    }
  }

  lemma TruncatedRecord(b: seq<Byte>, behind: nat -> Byte, e: Entry)
    requires b == MAGIC + [TYPE_DIR, 5, 0, 0, 0, 0x61]
    requires e == Dir([0x61, behind(10), behind(11), behind(12), behind(13)])
    ensures BytesAt(b, behind, 0, |MAGIC|) == MAGIC && Parse(b, behind, |MAGIC|) == Ok(Parsed(e, 10))
  {
    hide U32;
    assert b[5..9] == [5, 0, 0, 0] && U32(5) == [5, 0, 0, 0] by {
      FiveEncoded();
    }
    WordIs(b, behind, 5, 5);
    assert BytesAt(b, behind, 9, 5) == e.name;
  }

  lemma FiveEncoded()
    ensures U32(5) == [5, 0, 0, 0]
  {
  }

  /** The loop ends after at most `n` records. */
  ghost predicate Ends(b: seq<Byte>, behind: nat -> Byte, off: nat, n: nat)
    decreases n
  {
    off >= |b| ||
    (n > 0 && var p := Parse(b, behind, off); p.Ok? ==> Ends(b, behind, (off + p.value.size) % TWO32, n - 1))
  }

  lemma {:induction false} LoadsEnds(b: seq<Byte>, behind: nat -> Byte, off: nat, es: seq<Entry>)
    requires Loads(b, behind, off, es)
    ensures Ends(b, behind, off, |es|)
    decreases |es|
  {
    hide Parse;
    if es != [] {
      LoadsEnds(b, behind, (off + Parse(b, behind, off).value.size) % TWO32, es[1..]);
    }
  }

  /** `rootramfs_load`, where its loop ends: the entries it reconstructs, or the check it fails. */
  method RootRamFsLoad(b: seq<Byte>, behind: nat -> Byte, ghost n: nat) returns (r: Result<seq<Entry>>)
    requires Ends(b, behind, |MAGIC|, n)
    ensures r.BadMagic? <==> BytesAt(b, behind, 0, |MAGIC|) != MAGIC
    ensures r.Ok? ==> Accepts(b, behind, r.value)
    ensures r.BadType? ==> exists es :: Breaks(b, behind, |MAGIC|, es)
  {
    hide Parse, BytesAt;
    if BytesAt(b, behind, 0, |MAGIC|) != MAGIC {
      return BadMagic;
    }
    var off: nat := |MAGIC|;
    var es := [];
    ghost var left := n;
    assert forall fs: seq<Entry> :: es + fs == fs;
    while off < |b|
      invariant Ends(b, behind, off, left)
      invariant forall fs :: Loads(b, behind, off, fs) ==> Loads(b, behind, |MAGIC|, es + fs)
      invariant forall fs :: Breaks(b, behind, off, fs) ==> Breaks(b, behind, |MAGIC|, es + fs)
      decreases left
    {
      var p := Parse(b, behind, off);
      if !p.Ok? {
        assert Breaks(b, behind, off, []);
        return BadType;
      }
      var next := (off + p.value.size) % TWO32;
      OneMore(b, behind, off, es, p.value.entry, next);
      es := es + [p.value.entry];
      off := next;
      left := left - 1;
    }
    assert Loads(b, behind, off, []);
    assert es + [] == es;
    r := Ok(es);
  }

  lemma OneMore(b: seq<Byte>, behind: nat -> Byte, off: nat, es: seq<Entry>, e: Entry, next: nat)
    requires off < |b| && Parse(b, behind, off).Ok? && Parse(b, behind, off).value.entry == e
    requires next == (off + Parse(b, behind, off).value.size) % TWO32
    requires forall fs :: Loads(b, behind, off, fs) ==> Loads(b, behind, |MAGIC|, es + fs)
    requires forall fs :: Breaks(b, behind, off, fs) ==> Breaks(b, behind, |MAGIC|, es + fs)
    ensures forall fs :: Loads(b, behind, next, fs) ==> Loads(b, behind, |MAGIC|, es + [e] + fs)
    ensures forall fs :: Breaks(b, behind, next, fs) ==> Breaks(b, behind, |MAGIC|, es + [e] + fs)
  {
    hide Parse;
    forall fs: seq<Entry>
      ensures Loads(b, behind, next, fs) ==> Loads(b, behind, |MAGIC|, es + [e] + fs)
      ensures Breaks(b, behind, next, fs) ==> Breaks(b, behind, |MAGIC|, es + [e] + fs)
    {
      assert ([e] + fs)[1..] == fs;
      assert es + [e] + fs == es + ([e] + fs);
    }
  }

  // ---------------------------------------------------------------------------------------------
  // The writer

  /** The path below the input directory: what follows the first separator. */
  function Below(path: seq<Byte>): seq<Byte> {
    if path == [] then [] else if path[0] == SLASH then path[1..] else Below(path[1..])
  }

  class ImageWriter {
    var image: seq<Byte>   // the output buffer up to `off`

    constructor ()
      ensures image == MAGIC
    {
      image := [];
      new;
      HeaderAlloc();
      assert [] + MAGIC == MAGIC;
    }

    method HeaderAlloc()
      modifies this
      ensures image == old(image) + MAGIC
    {
      image := image + MAGIC;
    }

    method EntryAlloc(path: seq<Byte>, kind: Byte)
      requires |path| < TWO32
      modifies this
      ensures image == old(image) + [kind] + U32(|path|) + path
    {
      image := image + [kind] + U32(|path|);
      image := image + path;
    }

    method FRecordAlloc(data: seq<Byte>)
      requires |data| < TWO32
      modifies this
      ensures image == old(image) + U32(|data|) + data
    {
      image := image + U32(|data|);
      image := image + data;
    }

    /** `build_entry` for one visited path: the record for what follows the first separator, and nothing if
        that is empty. */
    method BuildEntry(orig: seq<Byte>, file: Option<seq<Byte>>)
      requires |orig| < TWO32 && (file.Some? ==> |file.value| < TWO32)
      modifies this
      ensures image == old(image) + EncodeVisit(orig, file)
    {
      var at, found := 0, false;
      assert orig[0..] == orig;
      while at < |orig| && !found
        invariant 0 <= at <= |orig|
        invariant if found then orig[at..] == Below(orig) else Below(orig[at..]) == Below(orig)
      {
        assert orig[at..][0] == orig[at] && orig[at..][1..] == orig[at + 1..];
        found := orig[at] == SLASH;
        at := at + 1;
      }
      var path := orig[at..];
      assert path == Below(orig);
      if path == [] {
        return;
      }
      match file {
        case Some(data) =>
          EncodeOne(File(path, data));
          EntryAlloc(path, TYPE_FRECORD);
          FRecordAlloc(data);
        case None =>
          EncodeOne(Dir(path));
          EntryAlloc(path, TYPE_DIR);
      }
    }
  }

  lemma EncodeOne(e: Entry)
    requires EntryOk(e)
    ensures EncodeAll([e]) == Encode(e)
  {
    assert [e][1..] == [];
  }

  /** The entry for a visited path, if it is below the input directory. */
  function Visit(orig: seq<Byte>, file: Option<seq<Byte>>): seq<Entry> {
    var path := Below(orig);
    if path == [] then [] else
      match file
      case Some(data) => [File(path, data)]
      case None => [Dir(path)]
  }

  lemma VisitOk(orig: seq<Byte>, file: Option<seq<Byte>>)
    requires |orig| < TWO32 && (file.Some? ==> |file.value| < TWO32)
    ensures AllOk(Visit(orig, file))
  {
    BelowShort(orig);
  }

  function EncodeVisit(orig: seq<Byte>, file: Option<seq<Byte>>): seq<Byte>
    requires |orig| < TWO32 && (file.Some? ==> |file.value| < TWO32)
  {
    VisitOk(orig, file);
    EncodeAll(Visit(orig, file))
  }

  lemma {:induction false} BelowShort(path: seq<Byte>)
    ensures |Below(path)| <= |path|
  {
    if path != [] && path[0] != SLASH {
      BelowShort(path[1..]);
    }
  }

  lemma {:induction false} EncodeAppend(es: seq<Entry>, fs: seq<Entry>)
    requires AllOk(es) && AllOk(fs)
    ensures AllOk(es + fs) && EncodeAll(es + fs) == EncodeAll(es) + EncodeAll(fs)
  {
    hide Encode;
    if es == [] {
      assert es + fs == fs;
    } else {
      EncodeAppend(es[1..], fs);
      assert (es + fs)[0] == es[0] && (es + fs)[1..] == es[1..] + fs;
    }
  }

  lemma EmptyImage()
    ensures AllOk([]) && Image([]) == MAGIC
  {
  }

  lemma ImageAppend(es: seq<Entry>, fs: seq<Entry>)
    requires AllOk(es) && AllOk(fs)
    ensures AllOk(es + fs) && Image(es + fs) == Image(es) + EncodeAll(fs)
  {
    hide EncodeAll;
    EncodeAppend(es, fs);
  }

  /** The image built from a walk over `paths` and `files` loads as the entries of the walk, in order. */
  method BuildAndLoad(paths: seq<seq<Byte>>, files: seq<Option<seq<Byte>>>, behind: nat -> Byte)
    returns (r: Result<seq<Entry>>)
    requires |paths| == |files|
    requires AllOk(Walk(paths, files)) ==> |Image(Walk(paths, files))| < TWO32
    requires forall i :: 0 <= i < |paths| ==> |paths[i]| < TWO32 && (files[i].Some? ==> |files[i].value| < TWO32)
    ensures r == Ok(Walk(paths, files))
  {
    hide EncodeAll, AllOk, Loads, Visit, Parse;
    var w := new ImageWriter();
    ghost var es: seq<Entry> := [];
    EmptyImage();
    for i := 0 to |paths|
      invariant es == Walk(paths[..i], files[..i])
      invariant AllOk(es) && w.image == Image(es)
    {
      VisitOk(paths[i], files[i]);
      ImageAppend(es, Visit(paths[i], files[i]));
      w.BuildEntry(paths[i], files[i]);
      assert paths[..i + 1][..i] == paths[..i] && files[..i + 1][..i] == files[..i];
      es := es + Visit(paths[i], files[i]);
    }
    assert paths[..|paths|] == paths && files[..|files|] == files;
    LoadImage(es, behind);
    LoadsEnds(w.image, behind, |MAGIC|, es);
    r := RootRamFsLoad(w.image, behind, |es|);
    LoadedOnce(w.image, behind, es, r);
  }

  lemma LoadedOnce(b: seq<Byte>, behind: nat -> Byte, es: seq<Entry>, r: Result<seq<Entry>>)
    requires Accepts(b, behind, es) && !r.BadMagic?
    requires r.Ok? ==> Accepts(b, behind, r.value)
    requires r.BadType? ==> exists fs :: Breaks(b, behind, |MAGIC|, fs)
    ensures r == Ok(es)
  {
    if r.Ok? {
      LoadsOnce(b, behind, |MAGIC|, es, r.value);
    } else {
      var fs :| Breaks(b, behind, |MAGIC|, fs);
      LoadsNotBreaks(b, behind, |MAGIC|, es, fs);
    }
  }

  /** A loop that ends meets no record of unknown type. */
  lemma {:induction false} LoadsNotBreaks(b: seq<Byte>, behind: nat -> Byte, off: nat, es: seq<Entry>, fs: seq<Entry>)
    requires Loads(b, behind, off, es)
    ensures !Breaks(b, behind, off, fs)
    decreases |es|
  {
    hide Parse;
    if es != [] && fs != [] {
      LoadsNotBreaks(b, behind, (off + Parse(b, behind, off).value.size) % TWO32, es[1..], fs[1..]);
    }
  }

  /** The entries of the visited paths, in the order of the visits. */
  function Walk(paths: seq<seq<Byte>>, files: seq<Option<seq<Byte>>>): seq<Entry>
    requires |paths| == |files|
  {
    if paths == [] then [] else
      Walk(paths[..|paths| - 1], files[..|paths| - 1]) + Visit(paths[|paths| - 1], files[|paths| - 1])
  }

  /** How many of the first `n` visited paths are below the input directory. */
  function Counted(paths: seq<seq<Byte>>, n: nat): nat
    requires n <= |paths|
  {
    if n == 0 then 0 else Counted(paths, n - 1) + (if Below(paths[n - 1]) == [] then 0 else 1)
  }

  /** What a path is below the input directory: all behind the first separator, and nothing without one. */
  lemma {:induction false} BelowIs(a: seq<Byte>, b: seq<Byte>)
    requires SLASH !in a
    ensures Below(a + [SLASH] + b) == b && Below(a) == []
  {
    var path := a + [SLASH] + b;
    if a == [] {
      assert path[0] == SLASH && path[1..] == b;
    } else {
      BelowIs(a[1..], b);
      assert path[0] == a[0] && path[1..] == a[1..] + [SLASH] + b;
    }
  }

  /** Every visited path below the input directory has its entry in the walk, at the place it comes in the visits:
      a file with its contents, or else a directory, under the part of the path below. */
  lemma {:induction false} WalkAt(
    paths: seq<seq<Byte>>, files: seq<Option<seq<Byte>>>, i: nat, a: seq<Byte>, b: seq<Byte>)
    requires |paths| == |files| && i < |paths| && paths[i] == a + [SLASH] + b && SLASH !in a && b != []
    ensures |Walk(paths, files)| == Counted(paths, |paths|) && Counted(paths, i) < |Walk(paths, files)|
    ensures Walk(paths, files)[Counted(paths, i)] == if files[i].Some? then File(b, files[i].value) else Dir(b)
    decreases |paths|
  {
    var n := |paths| - 1;
    var ps, fs := paths[..n], files[..n];
    WalkLength(ps, fs);
    WalkLength(paths, files);
    CountedPrefix(paths, n, i);
    BelowIs(a, b);
    if i < n {
      WalkAt(ps, fs, i, a, b);
    }
  }

  lemma {:induction false} WalkLength(paths: seq<seq<Byte>>, files: seq<Option<seq<Byte>>>)
    requires |paths| == |files|
    ensures |Walk(paths, files)| == Counted(paths, |paths|)
  {
    if paths != [] {
      WalkLength(paths[..|paths| - 1], files[..|paths| - 1]);
      CountedPrefix(paths, |paths| - 1, |paths| - 1);
    }
  }

  lemma {:induction false} CountedPrefix(paths: seq<seq<Byte>>, n: nat, i: nat)
    requires i <= n <= |paths|
    ensures Counted(paths[..n], i) == Counted(paths, i)
  {
    if i > 0 {
      CountedPrefix(paths, n, i - 1);
    }
  }

  // ---------------------------------------------------------------------------------------------
  // Directories

  const NUL: Byte := 0

  /** The name up to position `k` is a directory to create: it ends before a separator or is the whole name, and
      the name as a C string reaches there. */
  predicate EndsPart(name: seq<Byte>, k: nat)
    requires k <= |name|
  {
    (k == |name| || name[k] == SLASH) && NUL !in name[..k]
  }

  /** `made` is what there is to create below position `at`, shortest first. */
  ghost predicate Creates(name: seq<Byte>, at: nat, made: seq<seq<Byte>>)
    requires at <= |name| + 1
  {
    && (forall k :: 0 <= k < at ==> (name[..k] in made <==> EndsPart(name, k)))
    && (forall i :: 0 <= i < |made| ==> |made[i]| < at && made[i] == name[..|made[i]|])
    && (forall i, j :: 0 <= i < j < |made| ==> |made[i]| < |made[j]|)
  }

  /** The paths that `entry_reconstruct` creates for a directory record, in order: every prefix of the
      name that ends before a separator, and last the name itself. */
  method CreateDirs(name: seq<Byte>) returns (made: seq<seq<Byte>>)
    ensures Creates(name, |name| + 1, made)
    ensures NUL !in name ==> made != [] && made[|made| - 1] == name
  {
    var pathname := name + [SLASH];
    made := [];
    var part := 0;
    while part < |pathname| && pathname[part] != NUL
      invariant 0 <= part <= |pathname| && Creates(name, part, made)
      invariant NUL !in pathname[..part]
    {
      ghost var from := part;
      while part < |pathname| && pathname[part] != SLASH && pathname[part] != NUL
        invariant from <= part <= |pathname| && Creates(name, part, made)
        invariant NUL !in pathname[..part]
      {
        NoPart(name, part, made);
        part := part + 1;
      }
      if part == |pathname| || pathname[part] == NUL {
        break;
      }
      assert pathname[..part] == name[..part];
      OnePart(name, part, made);
      made := made + [pathname[..part]];
      part := part + 1;
    }
    NoMoreParts(name, part, made);
    if NUL !in name {
      LastPart(name, made);
    }
  }

  lemma NoPart(name: seq<Byte>, at: nat, made: seq<seq<Byte>>)
    requires at < |name| && Creates(name, at, made) && name[at] != SLASH
    ensures Creates(name, at + 1, made)
  {
  }

  lemma OnePart(name: seq<Byte>, at: nat, made: seq<seq<Byte>>)
    requires at <= |name| && Creates(name, at, made) && EndsPart(name, at)
    ensures (name + [SLASH])[..at] == name[..at] && Creates(name, at + 1, made + [name[..at]])
  {
  }

  /** Behind a NUL nothing is created. */
  lemma {:induction false} NoMoreParts(name: seq<Byte>, at: nat, made: seq<seq<Byte>>)
    requires at <= |name| + 1 && Creates(name, at, made) && (at <= |name| ==> at < |name| && name[at] == NUL)
    ensures Creates(name, |name| + 1, made)
  {
  }

  lemma LastPart(name: seq<Byte>, made: seq<seq<Byte>>)
    requires Creates(name, |name| + 1, made) && NUL !in name
    ensures made != [] && made[|made| - 1] == name
  {
    assert name[..|name|] == name && EndsPart(name, |name|);
    var i :| 0 <= i < |made| && made[i] == name;
  }

  /** Each directory is created after the directory that contains it. */
  lemma ParentsFirst(name: seq<Byte>, made: seq<seq<Byte>>, i: nat, k: nat)
    requires Creates(name, |name| + 1, made) && i < |made| && k < |made[i]| && made[i][k] == SLASH
    ensures exists j :: 0 <= j < i && made[j] == made[i][..k]
  {
    var n := |made[i]|;
    assert made[i] in made && made[i] == name[..n];
    assert EndsPart(name, n);
    assert made[i][..k] == name[..k] && name[k] == SLASH;
    assert forall x :: x in name[..k] ==> x in name[..n];
    assert EndsPart(name, k);
    var j :| 0 <= j < |made| && made[j] == name[..k];
  }
}
