/**
 The one's-complement checksum of section 1 of RFC 1071, and the IPv4 and TCP headers that carry it.
 A word is 16 bits as a little-endian machine loads them.
 */
module Checksum {
  import opened Common

  const WORD: nat := 0x1_0000
  const MASK: nat := 0xFFFF

  ghost predicate Words(ws: seq<nat>) {
    forall i :: 0 <= i < |ws| ==> ws[i] < WORD
  }

  function Sum(ws: seq<nat>): nat {
    if ws == [] then 0 else Sum(ws[..|ws| - 1]) + ws[|ws| - 1]
  }

  /** The carries folded back in until 16 bits are left. */
  function Fold(sum: nat): (r: nat)
    ensures r <= MASK
    decreases sum
  {
    if sum < WORD then sum else Fold(sum / WORD + sum % WORD)
  }

  /** Folding preserves the value modulo 65535, and only zero folds to zero. */
  lemma {:induction false} FoldModulo(sum: nat)
    ensures Fold(sum) % MASK == sum % MASK
    ensures Fold(sum) == 0 <==> sum == 0
    decreases sum
  {
    if sum >= WORD {
      FoldModulo(sum / WORD + sum % WORD);
      FoldOnce(sum);
    }
  }

  lemma FoldOnce(sum: nat)
    ensures (sum / WORD + sum % WORD) % MASK == sum % MASK
  {
    var h, l := sum / WORD, sum % WORD;
    assert sum == h * MASK + (h + l);
    ModAddMultiple(h + l, h);
  }

  lemma {:induction false} ModAddMultiple(a: nat, h: nat)
    ensures (a + h * MASK) % MASK == a % MASK
  {
    if h > 0 {
      ModAddMultiple(a, h - 1);
      assert a + h * MASK == (a + (h - 1) * MASK) + MASK;
    }
  }

  /** A positive multiple of 65535 folds to all ones. */
  lemma FoldsToOnes(sum: nat)
    requires sum > 0 && sum % MASK == 0
    ensures Fold(sum) == MASK
  {
    FoldModulo(sum);
  }

  /** `sum_to_checksum` */
  method SumToChecksum(sum0: nat) returns (c: nat)
    requires sum0 < TWO32
    ensures c == MASK - Fold(sum0)
  {
    var sum: nat := sum0;
    while sum / WORD != 0
      invariant Fold(sum) == Fold(sum0) && sum < TWO32
      decreases sum
    {
      sum := sum / WORD + sum % WORD;
    }
    c := MASK - sum;
  }

  /** Adding the checksum makes any sum fold to all ones. */
  lemma ChecksumCompletes(sum: nat)
    ensures sum + (MASK - Fold(sum)) > 0
    ensures (sum + (MASK - Fold(sum))) % MASK == 0
    ensures Fold(sum + (MASK - Fold(sum))) == MASK
  {
    FoldModulo(sum);
    var f := Fold(sum);
    assert (sum - f) % MASK == 0 by { SameResidue(sum, f); }
    assert (sum + (MASK - f)) % MASK == 0;
    FoldsToOnes(sum + (MASK - f));
  }

  lemma SameResidue(a: int, b: int)
    requires a % MASK == b % MASK
    ensures (a - b) % MASK == 0
  {
  }

  // ---------------------------------------------------------------------------------------------
  // Sums of word sequences

  lemma {:induction false} SumAppend(a: seq<nat>, b: seq<nat>)
    ensures Sum(a + b) == Sum(a) + Sum(b)
  {
    if b == [] {
      assert a + b == a;
    } else {
      SumAppend(a, b[..|b| - 1]);
      assert (a + b)[..|a + b| - 1] == a + b[..|b| - 1];
    }
  }

  lemma {:induction false} SumBound(ws: seq<nat>)
    requires Words(ws)
    ensures Sum(ws) <= |ws| * MASK
  {
    if ws != [] {
      SumBound(ws[..|ws| - 1]);
    }
  }

  function Swap16(w: nat): nat
    requires w < WORD
  {
    (w % 256) * 256 + w / 256
  }

  /** The words as a big-endian machine loads them, which is network order. */
  function NetworkOrder(ws: seq<nat>): (r: seq<nat>)
    requires Words(ws)
    ensures Words(r)
  {
    seq(|ws|, i requires 0 <= i < |ws| => Swap16(ws[i]))
  }

  /** Swapping bytes multiplies by 256 modulo 65535, so the sum does not care about byte order. */
  lemma {:induction false} SwapScales(ws: seq<nat>)
    requires Words(ws)
    ensures Sum(NetworkOrder(ws)) % MASK == (256 * Sum(ws)) % MASK
    ensures Sum(NetworkOrder(ws)) == 0 ==> Sum(ws) == 0
  {
    if ws != [] {
      var r, w := ws[..|ws| - 1], ws[|ws| - 1];
      SwapScales(r);
      assert NetworkOrder(ws) == NetworkOrder(r) + [Swap16(w)];
      assert Sum(NetworkOrder(ws)) == Sum(NetworkOrder(r)) + Swap16(w);
      assert 256 * w == Swap16(w) + (w / 256) * MASK;
      ModAddMultiple(256 * Sum(r) + Swap16(w), w / 256);
      AddResidues(Sum(NetworkOrder(r)), 256 * Sum(r), Swap16(w));
    }
  }

  lemma AddResidues(a: nat, b: nat, c: nat)
    requires a % MASK == b % MASK
    ensures (a + c) % MASK == (b + c) % MASK
  {
  }

  /** What a receiver checks: the words sum to all ones, in its own byte order and in network order. */
  ghost predicate Verifies(ws: seq<nat>)
    requires Words(ws)
  {
    Fold(Sum(ws)) == MASK && Fold(Sum(NetworkOrder(ws))) == MASK
  }

  lemma SumVerifies(ws: seq<nat>)
    requires Words(ws) && Sum(ws) > 0 && Sum(ws) % MASK == 0
    ensures Verifies(ws)
  {
    hide Sum, Fold, NetworkOrder;
    FoldsToOnes(Sum(ws));
    SwapScales(ws);
    ScaledMultiple(Sum(ws));
    FoldsToOnes(Sum(NetworkOrder(ws)));
  }

  lemma ScaledMultiple(a: nat)
    requires a % MASK == 0
    ensures (256 * a) % MASK == 0
  {
    var q := a / MASK;
    assert 256 * a == 0 + (256 * q) * MASK;
    ModAddMultiple(0, 256 * q);
  }

  /** Writing `c` into a zero field adds `c` to the sum. */
  lemma SumFilled(ws: seq<nat>, at: nat, c: nat)
    requires at < |ws| && ws[at] == 0
    ensures Sum(ws[at := c]) == Sum(ws) + c
  {
    assert ws == ws[..at] + ([0] + ws[at + 1..]);
    assert ws[at := c] == ws[..at] + ([c] + ws[at + 1..]);
    SumAppend(ws[..at], [0] + ws[at + 1..]);
    SumAppend(ws[..at], [c] + ws[at + 1..]);
    SumAppend([0], ws[at + 1..]);
    SumAppend([c], ws[at + 1..]);
    assert [0][..0] == [] && [c][..0] == [];
    assert Sum([0]) == 0 && Sum([c]) == c;
  }

  /** Filling the checksum into a zero field completes the sum, wherever the field is. */
  lemma FilledVerifies(ws: seq<nat>, at: nat)
    requires Words(ws) && at < |ws| && ws[at] == 0
    ensures Verifies(ws[at := MASK - Fold(Sum(ws))])
  {
    hide Sum, Fold, NetworkOrder, Verifies;
    var c := MASK - Fold(Sum(ws));
    SumFilled(ws, at, c);
    ChecksumCompletes(Sum(ws));
    SumVerifies(ws[at := c]);
  }

  // ---------------------------------------------------------------------------------------------
  // IPv4

  const IP_WORDS: nat := 10
  const IP_CHECKSUM: nat := 5

  /** The checksum part of `ip_build`: whatever the other fields are, the header leaves verifying. */
  method IpBuild(fields: seq<nat>) returns (out: seq<nat>)
    requires Words(fields) && |fields| == IP_WORDS
    ensures Words(out) && |out| == IP_WORDS && Verifies(out)
    ensures forall i :: 0 <= i < IP_WORDS && i != IP_CHECKSUM ==> out[i] == fields[i]
  {
    hide Fold, Verifies, NetworkOrder;
    var hdr := fields[IP_CHECKSUM := 0];
    var sum := 0;
    for len := 0 to IP_WORDS
      invariant sum == Sum(hdr[..len]) && sum <= len * MASK
    {
      assert hdr[..len + 1][..len] == hdr[..len];
      assert sum + hdr[len] < TWO32;
      sum := sum + hdr[len];
    }
    assert hdr[..IP_WORDS] == hdr;
    var c := SumToChecksum(sum);
    FilledVerifies(hdr, IP_CHECKSUM);
    out := hdr[IP_CHECKSUM := c];
  }

  // ---------------------------------------------------------------------------------------------
  // TCP

  const TCP_WORDS: nat := 10
  const TCP_CHECKSUM: nat := 8
  const IP_PROT_TCP: nat := 6

  /** The words of a byte string, the last byte of an odd one padded with zero. */
  function ByteWords(p: seq<nat>): seq<nat> {
    if p == [] then []
    else if |p| == 1 then [p[0]]
    else [p[0] + 256 * p[1]] + ByteWords(p[2..])
  }

  ghost predicate Bytes(p: seq<nat>) {
    forall i :: 0 <= i < |p| ==> p[i] < 256
  }

  lemma {:induction false} ByteWordsOk(p: seq<nat>)
    requires Bytes(p)
    ensures Words(ByteWords(p)) && |ByteWords(p)| == (|p| + 1) / 2
    decreases |p|
  {
    if |p| > 1 {
      ByteWordsOk(p[2..]);
    }
  }

  /** Pseudo-header (addresses, protocol, length), header and payload, as section 3.1 of RFC 793 sums them. */
  function Segment(src: seq<nat>, dst: seq<nat>, hdr: seq<nat>, payload: seq<nat>): seq<nat>
    requires 2 * TCP_WORDS + |payload| < WORD
  {
    src + dst + [Swap16(IP_PROT_TCP), Swap16(2 * TCP_WORDS + |payload|)] + hdr + ByteWords(payload)
  }

  lemma SegmentOk(src: seq<nat>, dst: seq<nat>, hdr: seq<nat>, payload: seq<nat>)
    requires Words(src) && Words(dst) && |src| == |dst| == 2 && Words(hdr) && |hdr| == TCP_WORDS
    requires Bytes(payload) && 2 * TCP_WORDS + |payload| < WORD
    ensures Words(Segment(src, dst, hdr, payload)) && Sum(Segment(src, dst, hdr, payload)) < TWO32
  {
    ByteWordsOk(payload);
    SumBound(Segment(src, dst, hdr, payload));
  }

  /** The segment as it goes over the network, word by word: behind the addresses the protocol and the length of
      header and payload, then the header, then the payload with the first of two bytes on top and an odd last byte
      padded with zero. */
  lemma OnTheWire(src: seq<nat>, dst: seq<nat>, hdr: seq<nat>, payload: seq<nat>, i: nat)
    requires |src| == |dst| == 2 && |hdr| == TCP_WORDS && Bytes(payload) && 2 * TCP_WORDS + |payload| < WORD
    ensures var ws := Segment(src, dst, hdr, payload);
            && |ws| == 16 + (|payload| + 1) / 2
            && ws[..2] == src && ws[2..4] == dst && ws[6..16] == hdr
            && ws[4] < WORD && Swap16(ws[4]) == 6 && ws[5] < WORD && Swap16(ws[5]) == 20 + |payload|
            && (2 * i < |payload| ==>
                  && ws[16 + i] < WORD
                  && Swap16(ws[16 + i]) ==
                       256 * payload[2 * i] + if 2 * i + 1 < |payload| then payload[2 * i + 1] else 0)
  {
    hide Swap16, ByteWords;
    ByteWordsOk(payload);
    SwapTwice(IP_PROT_TCP);
    SwapTwice(2 * TCP_WORDS + |payload|);
    if 2 * i < |payload| {
      ByteWordAt(payload, i);
      SwapWord(payload[2 * i], if 2 * i + 1 < |payload| then payload[2 * i + 1] else 0);
      assert Segment(src, dst, hdr, payload)[16 + i] == ByteWords(payload)[i];
    }
  }

  lemma SwapTwice(w: nat)
    requires w < WORD
    ensures Swap16(w) < WORD && Swap16(Swap16(w)) == w
  {
  }

  lemma SwapWord(a: nat, b: nat)
    requires a < 256 && b < 256
    ensures a + 256 * b < WORD && Swap16(a + 256 * b) == 256 * a + b
  {
  }

  lemma {:induction false} ByteWordAt(p: seq<nat>, i: nat)
    requires Bytes(p) && 2 * i < |p|
    ensures i < |ByteWords(p)|
    ensures ByteWords(p)[i] == p[2 * i] + if 2 * i + 1 < |p| then 256 * p[2 * i + 1] else 0
    decreases |p|
  {
    if i > 0 {
      ByteWordAt(p[2..], i - 1);
    }
  }

  /** The checksum part of `tcp_build`, field by field and then over the payload in 16-bit loads, with
      the odd byte last: the segment with the checksum filled in verifies. */
  method TcpBuild(src: seq<nat>, dst: seq<nat>, hdr: seq<nat>, payload: seq<nat>) returns (c: nat)
    requires Words(src) && Words(dst) && |src| == |dst| == 2 && Words(hdr) && |hdr| == TCP_WORDS
    requires Bytes(payload) && 2 * TCP_WORDS + |payload| < WORD
    ensures c < WORD && Words(Segment(src, dst, hdr[TCP_CHECKSUM := c], payload))
    ensures Verifies(Segment(src, dst, hdr[TCP_CHECKSUM := c], payload))
  {
    hide Sum, Fold, NetworkOrder, Verifies, ByteWords;
    ghost var blank := hdr[TCP_CHECKSUM := 0];
    SegmentOk(src, dst, blank, payload);
    SegmentSum(src, dst, blank, payload);
    ghost var total := Sum(Segment(src, dst, blank, payload));
    var sum := 0;
    sum := sum + src[0];
    sum := sum + src[1];
    sum := sum + dst[0];
    sum := sum + dst[1];
    sum := sum + Swap16(IP_PROT_TCP);
    sum := sum + Swap16(2 * TCP_WORDS + |payload|);
    sum := sum + hdr[0];
    sum := sum + hdr[1];
    sum := sum + hdr[2];
    sum := sum + hdr[3];
    sum := sum + hdr[4];
    sum := sum + hdr[5];
    sum := sum + hdr[6];
    sum := sum + hdr[7];
    sum := sum + hdr[9];
    var len, ptr := |payload|, 0;
    assert payload[0..] == payload;
    while len > 1
      invariant 0 <= ptr && ptr + len == |payload| && 0 <= len
      invariant sum + Sum(ByteWords(payload[ptr..])) == total
    {
      NextWord(payload, ptr);
      assert sum + payload[ptr] + 256 * payload[ptr + 1] < TWO32;
      sum := sum + (payload[ptr] + 256 * payload[ptr + 1]);
      ptr := ptr + 2;
      len := len - 2;
    }
    LastByte(payload, ptr);
    if len != 0 {
      sum := sum + payload[ptr];
    }
    c := SumToChecksum(sum);
    ghost var seg := Segment(src, dst, blank, payload);
    FilledVerifies(seg, 6 + TCP_CHECKSUM);
    assert blank[TCP_CHECKSUM := c] == hdr[TCP_CHECKSUM := c];
    assert seg[6 + TCP_CHECKSUM := c] == Segment(src, dst, hdr[TCP_CHECKSUM := c], payload);
    SegmentOk(src, dst, hdr[TCP_CHECKSUM := c], payload);
  }

  lemma NextWord(p: seq<nat>, at: nat)
    requires at + 1 < |p|
    ensures Sum(ByteWords(p[at..])) == p[at] + 256 * p[at + 1] + Sum(ByteWords(p[at + 2..]))
  {
    var r := p[at..];
    assert r[2..] == p[at + 2..];
    SumAppend([r[0] + 256 * r[1]], ByteWords(r[2..]));
    SumSingle(r[0] + 256 * r[1]);
  }

  lemma LastByte(p: seq<nat>, at: nat)
    requires |p| - 1 <= at <= |p|
    ensures Sum(ByteWords(p[at..])) == if at < |p| then p[at] else 0
  {
    if at < |p| {
      assert p[at..] == [p[at]];
      SumSingle(p[at]);
    }
  }

  lemma SumSingle(w: nat)
    ensures Sum([w]) == w
  {
    assert [w][..0] == [];
  }

  /** The sum of the fields in the order in which `tcp_build` adds them. */
  lemma SegmentSum(src: seq<nat>, dst: seq<nat>, hdr: seq<nat>, payload: seq<nat>)
    requires |src| == |dst| == 2 && |hdr| == TCP_WORDS && hdr[TCP_CHECKSUM] == 0 && 2 * TCP_WORDS + |payload| < WORD
    ensures Sum(Segment(src, dst, hdr, payload)) ==
            src[0] + src[1] + dst[0] + dst[1] + Swap16(IP_PROT_TCP) + Swap16(2 * TCP_WORDS + |payload|)
            + hdr[0] + hdr[1] + hdr[2] + hdr[3] + hdr[4] + hdr[5] + hdr[6] + hdr[7] + hdr[9]
            + Sum(ByteWords(payload))
  {
    hide Sum;
    var pseudo := [Swap16(IP_PROT_TCP), Swap16(2 * TCP_WORDS + |payload|)];
    SumAppend(src + dst + pseudo + hdr, ByteWords(payload));
    SumAppend(src + dst + pseudo, hdr);
    SumAppend(src + dst, pseudo);
    SumAppend(src, dst);
    SumPair(src);
    SumPair(dst);
    SumPair(pseudo);
    SumTen(hdr);
  }

  lemma SumPair(w: seq<nat>)
    requires |w| == 2
    ensures Sum(w) == w[0] + w[1]
  {
    assert w == [w[0]] + [w[1]];
    SumAppend([w[0]], [w[1]]);
    SumSingle(w[0]);
    SumSingle(w[1]);
  }

  lemma SumTen(w: seq<nat>)
    requires |w| == 10
    ensures Sum(w) == w[0] + w[1] + w[2] + w[3] + w[4] + w[5] + w[6] + w[7] + w[8] + w[9]
  {
    hide Sum;
    assert w == w[..2] + (w[2..4] + (w[4..6] + (w[6..8] + w[8..])));
    SumAppend(w[..2], w[2..4] + (w[4..6] + (w[6..8] + w[8..])));
    SumAppend(w[2..4], w[4..6] + (w[6..8] + w[8..]));
    SumAppend(w[4..6], w[6..8] + w[8..]);
    SumAppend(w[6..8], w[8..]);
    SumPair(w[..2]);
    SumPair(w[2..4]);
    SumPair(w[4..6]);
    SumPair(w[6..8]);
    SumPair(w[8..]);
  }
}
