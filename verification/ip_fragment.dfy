/** The IPv4 header checksum of RFC 1071 section 1. */
module Checksum {
  import opened Arithmetic
  import opened Bytes

  // The sum of the big-endian 16-bit words, an odd last byte counting as a high byte.
  function WordSum(h: seq<byte>): nat {
    if h == [] then 0
    else if |h| == 1 then h[0] * 0x100
    else Word(h[0], h[1]) + WordSum(h[2..])
  }

  // Adds the carries back in until the sum fits 16 bits.
  function Fold(sum: nat): u16 {
    if sum < 0x1_0000 then sum else Fold(sum % 0x1_0000 + sum / 0x1_0000)
  }

  lemma CarryKeepsResidue(high: nat, low: nat)
    ensures (low + high) % 0xFFFF == (high * 0x1_0000 + low) % 0xFFFF
  {
    assert high * 0x1_0000 + low == high * 0xFFFF + (low + high);
  }

  // Folding keeps the value modulo 65535, and only zero folds to zero.
  lemma {:induction false} FoldKeepsResidue(sum: nat)
    ensures Fold(sum) % 0xFFFF == sum % 0xFFFF
    ensures Fold(sum) == 0 <==> sum == 0
  {
    if sum >= 0x1_0000 {
      CarryKeepsResidue(sum / 0x1_0000, sum % 0x1_0000);
      FoldKeepsResidue(sum % 0x1_0000 + sum / 0x1_0000);
    }
  }

  function HeaderChecksum(h: seq<byte>): u16 { 0xFFFF - Fold(WordSum(h)) }

  lemma {:induction false} WordSumIsBounded(h: seq<byte>)
    ensures WordSum(h) <= 0x8000 * (|h| + 1)
  {
    if |h| >= 2 {
      WordSumIsBounded(h[2..]);
    }
  }

  /** The checksum of a header; the 32-bit accumulator cannot overflow. */
  method Ipv4HeaderChecksum(header: seq<byte>) returns (checksum: u16)
    requires |header| < 0x1_0000
    ensures checksum == HeaderChecksum(header)
  {
    var sum, i := 0, 0;
    WordSumIsBounded(header);
    while i + 2 <= |header|
      invariant 0 <= i <= |header|
      invariant 0 <= sum && sum + WordSum(header[i..]) == WordSum(header)
    {
      assert header[i..][2..] == header[i + 2..];
      sum := sum + Word(header[i], header[i + 1]);
      i := i + 2;
    }
    if i < |header| {
      sum := sum + (header[i] as int) * 0x100;
    }
    assert sum == WordSum(header) && sum < 0x1_0000_0000;
    while sum / 0x1_0000 != 0
      invariant 0 <= sum && Fold(sum) == Fold(WordSum(header))
      decreases sum
    {
      sum := sum % 0x1_0000 + sum / 0x1_0000;
    }
    checksum := 0xFFFF - sum;
  }

  function WordAt(h: seq<byte>, at: nat): u16
    requires at + 1 < |h|
  {
    Word(h[at], h[at + 1])
  }

  function Zeroed(h: seq<byte>, at: nat): (z: seq<byte>)
    requires at + 1 < |h|
    ensures |z| == |h|
  {
    h[at := 0][at + 1 := 0]
  }

  lemma {:induction false} WordSumOfField(h: seq<byte>, at: nat)
    requires at % 2 == 0 && at + 1 < |h|
    ensures WordSum(h) == WordSum(Zeroed(h, at)) + WordAt(h, at)
  {
    var z := Zeroed(h, at);
    if at == 0 {
      assert z[2..] == h[2..];
    } else {
      assert z[2..] == Zeroed(h[2..], at - 2);
      WordSumOfField(h[2..], at - 2);
    }
  }

  // Summing a header with its checksum field gives zero for exactly one value of the field:
  // the checksum of the header with the field zeroed (or, when that is zero, also 0xFFFF).
  lemma ChecksumVerifies(h: seq<byte>, at: nat)
    requires at % 2 == 0 && at + 1 < |h|
    ensures var computed := HeaderChecksum(Zeroed(h, at));
            HeaderChecksum(h) == 0 <==> WordAt(h, at) == computed || (computed == 0 && WordAt(h, at) == 0xFFFF)
  {
    WordSumOfField(h, at);
    CompletesToOnes(WordSum(Zeroed(h, at)), WordAt(h, at));
  }

  // An odd last byte counts as if a zero byte followed it.
  lemma {:induction false} OddByteIsPadded(h: seq<byte>)
    requires |h| % 2 == 1
    ensures WordSum(h + [0]) == WordSum(h)
  {
    if |h| > 1 {
      assert (h + [0])[2..] == h[2..] + [0];
      OddByteIsPadded(h[2..]);
    }
  }

  lemma OneMoreWord(w: u16, rest: seq<byte>)
    ensures WordSum(WordBytes(w) + rest) == w + WordSum(rest)
  {
    assert (WordBytes(w) + rest)[2..] == rest;
  }

  // The bytes of some words, high byte first.
  function Spelled(words: seq<u16>): seq<byte> {
    if words == [] then [] else WordBytes(words[0]) + Spelled(words[1..])
  }

  function Total(words: seq<u16>): nat { if words == [] then 0 else words[0] + Total(words[1..]) }

  // The sum is over the big-endian words.
  lemma {:induction false} WordsAreSummed(words: seq<u16>)
    ensures WordSum(Spelled(words)) == Total(words)
  {
    if words != [] {
      WordsAreSummed(words[1..]);
      OneMoreWord(words[0], Spelled(words[1..]));
    }
  }

  // The checksum is what the one's complement sum of the words lacks of sixteen ones: the sum and it
  // are together a multiple of 65535, and it is 65535 only for a sum of zero.
  lemma ChecksumComplements(words: seq<u16>)
    ensures (Total(words) + HeaderChecksum(Spelled(words))) % 0xFFFF == 0
    ensures HeaderChecksum(Spelled(words)) == 0xFFFF <==> Total(words) == 0
  {
    WordsAreSummed(words);
    FoldKeepsResidue(Total(words));
    Complements(Total(words), Fold(Total(words)), HeaderChecksum(Spelled(words)));
  }

  lemma Complements(sum: nat, folded: u16, checksum: u16)
    requires folded % 0xFFFF == sum % 0xFFFF && checksum == 0xFFFF - folded
    ensures (sum + checksum) % 0xFFFF == 0
  {
    SumsOfResidues(sum, folded, checksum);
  }

  lemma CompletesToOnes(sum: nat, w: u16)
    ensures Fold(sum + w) == 0xFFFF <==> w == 0xFFFF - Fold(sum) || (Fold(sum) == 0xFFFF && w == 0xFFFF)
  {
    var s := Fold(sum) + w;
    FoldKeepsResidue(sum);
    FoldsToOnes(sum + w);
    SumsOfResidues(sum, Fold(sum), w);
    ResidueZero(s);
  }

  lemma ResidueZero(s: nat)
    requires s <= 2 * 0xFFFF
    ensures s % 0xFFFF == 0 <==> s == 0 || s == 0xFFFF || s == 2 * 0xFFFF
  {}

  lemma FoldsToOnes(sum: nat)
    ensures Fold(sum) == 0xFFFF <==> sum != 0 && sum % 0xFFFF == 0
  {
    FoldKeepsResidue(sum);
    ResidueZero(Fold(sum));
  }

  lemma SumsOfResidues(a: nat, b: nat, c: nat)
    requires a % 0xFFFF == b % 0xFFFF
    ensures (a + c) % 0xFFFF == (b + c) % 0xFFFF
  {}
}

/** Splitting an IPv4 packet into fragments, and putting them together again. */
module IpFragment {
  import opened Arithmetic
  import opened Bytes
  import opened Checksum
  import opened Wrappers

  // ---- the sender ----

  function HeaderLength(packet: seq<byte>): nat
    requires packet != []
  {
    (packet[0] % 0x10) * 4
  }

  function Chunk(fragSize: nat): nat { fragSize - fragSize % 8 }

  predicate CanFragment(packet: seq<byte>, fragSize: nat) {
    && packet != [] && 20 <= HeaderLength(packet) <= |packet|
    && Chunk(fragSize) > 0 && |packet| - HeaderLength(packet) > Chunk(fragSize)
  }

  function Payload(packet: seq<byte>): seq<byte>
    requires packet != [] && HeaderLength(packet) <= |packet|
  {
    packet[HeaderLength(packet)..]
  }

  function SetMoreFragments(word: u16): u16 { if (word / 0x2000) % 2 == 1 then word else word + 0x2000 }

  // The flags and offset word: MF is 0x2000, the offset counts units of 8 bytes.
  function FlagsWord(offset: nat, last: bool): u16 {
    var word := (offset / 8) % 0x1_0000;
    if last then word else SetMoreFragments(word)
  }

  function Part(payload: seq<byte>, chunk: nat, offset: nat): seq<byte>
    requires offset < |payload|
  {
    payload[offset..if offset + chunk < |payload| then offset + chunk else |payload|]
  }

  predicate WellFormed(f: seq<byte>) { |f| >= 20 && 20 <= HeaderLength(f) <= |f| }

  // The checksum word is the right one, and only the length, flags and offset, and checksum
  // words differ from the original header.
  ghost predicate KeepsHeader(h: seq<byte>, header: seq<byte>) {
    && 20 <= |h| == |header|
    && WordAt(h, 10) == HeaderChecksum(Zeroed(h, 10))
    && forall i :: 0 <= i < |h| && i !in {2, 3, 6, 7, 10, 11} ==> h[i] == header[i]
  }

  // A packet with a header of n bytes that carries one part of a payload.
  ghost predicate CarriesPart(f: seq<byte>, n: nat, part: seq<byte>, offset: nat, last: bool) {
    && 20 <= n && |f| == n + |part| && f[n..] == part && HeaderLength(f) == n
    && WordAt(f, 2) == |f| % 0x1_0000
    && WordAt(f, 6) == FlagsWord(offset, last)
  }

  // The part of a packet's payload that starts at offset, in at most chunk bytes.
  ghost predicate CarriesFrom(f: seq<byte>, packet: seq<byte>, chunk: nat, offset: nat) {
    && WellFormed(packet) && offset < |Payload(packet)|
    && var part := Part(Payload(packet), chunk, offset);
       CarriesPart(f, HeaderLength(packet), part, offset, offset + |part| >= |Payload(packet)|)
  }

  ghost predicate IsFragment(f: seq<byte>, packet: seq<byte>, chunk: nat, offset: nat) {
    && CarriesFrom(f, packet, chunk, offset)
    && KeepsHeader(f[..HeaderLength(packet)], packet[..HeaderLength(packet)])
  }

  // Fragment number k carries the payload from k chunks onwards.
  function FragmentCount(packet: seq<byte>, fragSize: nat): nat
    requires CanFragment(packet, fragSize)
  {
    (|Payload(packet)| + Chunk(fragSize) - 1) / Chunk(fragSize)
  }

  lemma CountCovers(packet: seq<byte>, fragSize: nat, k: nat)
    requires CanFragment(packet, fragSize)
    ensures k < FragmentCount(packet, fragSize) <==> k * Chunk(fragSize) < |Payload(packet)|
  {
    var chunk, n := Chunk(fragSize), |Payload(packet)|;
    var count := (n + chunk - 1) / chunk;
    var whole := count * chunk;
    assert n <= whole < n + chunk;
    if k < count {
      ProductAtLeast(count - k, chunk);
      ProductOfDifference(count, k, chunk);
    } else if k > count {
      ProductAtLeast(k - count, chunk);
      ProductOfDifference(k, count, chunk);
    }
  }

  // Where part number k starts.
  function Start(chunk: nat, k: nat): nat { if k == 0 then 0 else Start(chunk, k - 1) + chunk }

  lemma {:induction false} StartIsProduct(chunk: nat, k: nat)
    ensures Start(chunk, k) == k * chunk
  {
    if k > 0 {
      StartIsProduct(chunk, k - 1);
      ProductOfSum(k - 1, 1, chunk);
    }
  }

  // These fragments carry the parts of the payload from the front on.
  ghost predicate AreFragments(fragments: seq<seq<byte>>, packet: seq<byte>, chunk: nat) {
    fragments == []
    || (AreFragments(fragments[..|fragments| - 1], packet, chunk)
        && IsFragment(fragments[|fragments| - 1], packet, chunk, Start(chunk, |fragments| - 1)))
  }

  lemma {:induction false} FragmentNumber(fragments: seq<seq<byte>>, packet: seq<byte>, chunk: nat, k: nat)
    requires AreFragments(fragments, packet, chunk) && k < |fragments|
    ensures IsFragment(fragments[k], packet, chunk, Start(chunk, k))
  {
    if k < |fragments| - 1 {
      FragmentNumber(fragments[..|fragments| - 1], packet, chunk, k);
    }
  }

  lemma LastStartsInside(fragments: seq<seq<byte>>, packet: seq<byte>, chunk: nat)
    requires AreFragments(fragments, packet, chunk) && fragments != []
    ensures WellFormed(packet) && Start(chunk, |fragments| - 1) < |Payload(packet)|
  {}

  // Fragment number k carries the payload from k chunks onwards, and none is missing.
  ghost predicate IsSplit(fragments: seq<seq<byte>>, packet: seq<byte>, fragSize: nat)
    requires CanFragment(packet, fragSize)
  {
    && |fragments| == FragmentCount(packet, fragSize)
    && forall k :: 0 <= k < |fragments| ==>
         IsFragment(fragments[k], packet, Chunk(fragSize), Start(Chunk(fragSize), k))
  }

  // A part of this size fills a fragment: a multiple of 8 bytes that leaves no room for 8 more.
  predicate Fills(size: int, fragSize: nat) { size % 8 == 0 && fragSize - 8 < size <= fragSize }

  // All fragments but the last are full, and the last one is not empty.
  predicate AreFilled(fragments: seq<seq<byte>>, header: nat, fragSize: nat) {
    && (forall k :: 0 <= k < |fragments| - 1 ==> Fills(|fragments[k]| - header, fragSize))
    && (fragments != [] ==> 0 < |fragments[|fragments| - 1]| - header <= fragSize)
  }

  // A packet is left whole when its header is not valid, when not even 8 bytes may go into a fragment,
  // or when one fragment takes it all.
  predicate StaysWhole(packet: seq<byte>, fragSize: nat) {
    || packet == [] || HeaderLength(packet) < 20 || HeaderLength(packet) > |packet|
    || fragSize < 8 || |packet| - HeaderLength(packet) <= fragSize / 8 * 8
  }

  // The low four bits of the first byte count words of 4 bytes.
  lemma HeaderLengthIsInWords(packet: seq<byte>, version: nat, words: nat)
    requires packet != [] && packet[0] == 16 * version + words && words < 16
    ensures HeaderLength(packet) == 4 * words
  {}

  lemma WholeWhenItFits(packet: seq<byte>, fragSize: nat)
    ensures CanFragment(packet, fragSize) <==> !StaysWhole(packet, fragSize)
    ensures Chunk(fragSize) <= fragSize < Chunk(fragSize) + 8 && Chunk(fragSize) % 8 == 0
  {
    var units := fragSize / 8;
    assert fragSize == 8 * units + fragSize % 8;
  }

  lemma PartIsFull(f: seq<byte>, packet: seq<byte>, chunk: nat, offset: nat)
    requires CarriesFrom(f, packet, chunk, offset) && chunk > 0
    ensures 0 < |f| - HeaderLength(packet) <= chunk
    ensures offset + chunk < |Payload(packet)| ==> |f| - HeaderLength(packet) == chunk
  {}

  lemma FragmentIsFull(f: seq<byte>, packet: seq<byte>, fragSize: nat, k: nat)
    requires CanFragment(packet, fragSize)
    requires CarriesFrom(f, packet, Chunk(fragSize), Start(Chunk(fragSize), k))
    ensures 0 < |f| - HeaderLength(packet) <= fragSize
    ensures k + 1 < FragmentCount(packet, fragSize) ==> Fills(|f| - HeaderLength(packet), fragSize)
  {
    WholeWhenItFits(packet, fragSize);
    StartIsProduct(Chunk(fragSize), k);
    AnotherFollows(packet, fragSize, k);
    PartIsFull(f, packet, Chunk(fragSize), Start(Chunk(fragSize), k));
  }

  lemma TwoAtLeast(packet: seq<byte>, fragSize: nat)
    requires CanFragment(packet, fragSize)
    ensures FragmentCount(packet, fragSize) >= 2
  {
    CountCovers(packet, fragSize, 1);
  }

  lemma SplitIsFilled(fragments: seq<seq<byte>>, packet: seq<byte>, fragSize: nat)
    requires CanFragment(packet, fragSize) && IsSplit(fragments, packet, fragSize)
    ensures |fragments| >= 2 && AreFilled(fragments, HeaderLength(packet), fragSize)
  {
    TwoAtLeast(packet, fragSize);
    var n := |fragments|;
    forall k | 0 <= k < n
      ensures 0 < |fragments[k]| - HeaderLength(packet) <= fragSize
      ensures k + 1 < n ==> Fills(|fragments[k]| - HeaderLength(packet), fragSize)
    {
      assert IsFragment(fragments[k], packet, Chunk(fragSize), Start(Chunk(fragSize), k));
      FragmentIsFull(fragments[k], packet, fragSize, k);
    }
  }

  /** Splits a packet into fragments of at most fragSize payload bytes, or returns it whole. */
  method FragmentIpv4Packet(bytes: seq<byte>, fragSize: nat) returns (fragments: seq<seq<byte>>)
    ensures !CanFragment(bytes, fragSize) ==> fragments == [bytes]
    ensures CanFragment(bytes, fragSize) ==> IsSplit(fragments, bytes, fragSize)
    ensures |fragments| == 1 <==> StaysWhole(bytes, fragSize)
    ensures |fragments| > 1 ==> AreFilled(fragments, HeaderLength(bytes), fragSize)
  {
    fragments := [bytes];
    WholeWhenItFits(bytes, fragSize);
    if bytes == [] {
      return;
    }
    var ihl := (bytes[0] % 0x10) * 4;
    if ihl < 20 || ihl > |bytes| {
      return;
    }
    var chunk := fragSize - fragSize % 8;
    if chunk == 0 {
      return;
    }
    if |bytes[ihl..]| <= chunk {
      return;
    }
    fragments := CutIntoParts(bytes, ihl, chunk);
    FragmentsAreAll(fragments, bytes, fragSize);
    SplitIsFilled(fragments, bytes, fragSize);
  }

  /** Wraps every part of the payload in a header of its own. */
  method CutIntoParts(bytes: seq<byte>, ihl: nat, chunk: nat) returns (fragments: seq<seq<byte>>)
    requires WellFormed(bytes) && ihl == HeaderLength(bytes) && chunk > 0
    ensures AreFragments(fragments, bytes, chunk) && Start(chunk, |fragments|) >= |Payload(bytes)|
  {
    fragments := [];
    var offset := 0;
    while offset < |bytes| - ihl
      invariant AreFragments(fragments, bytes, chunk)
      invariant offset == if Start(chunk, |fragments|) < |bytes| - ihl then Start(chunk, |fragments|) else |bytes| - ihl
      decreases |bytes| - ihl - offset
    {
      fragments, offset := AddFragment(fragments, bytes, ihl, chunk, offset);
    }
  }

  /** Adds the fragment for the part at this offset and moves past it. */
  method AddFragment(fragments: seq<seq<byte>>, bytes: seq<byte>, ihl: nat, chunk: nat, offset: nat)
    returns (fragments': seq<seq<byte>>, offset': nat)
    requires WellFormed(bytes) && ihl == HeaderLength(bytes) && offset < |bytes| - ihl
    requires AreFragments(fragments, bytes, chunk) && offset == Start(chunk, |fragments|)
    ensures AreFragments(fragments', bytes, chunk) && |fragments'| == |fragments| + 1
    ensures offset' == if offset + chunk < |bytes| - ihl then offset + chunk else |bytes| - ihl
  {
    var payload := bytes[ihl..];
    var part := payload[offset..if offset + chunk < |payload| then offset + chunk else |payload|];
    var frag := BuildFragment(bytes[..ihl], part, offset, offset + |part| >= |payload|);
    OneMoreFragment(fragments, bytes, chunk, frag, part, offset);
    fragments' := fragments + [frag];
    offset' := offset + |part|;
  }

  lemma OneMoreFragment(fragments: seq<seq<byte>>, packet: seq<byte>, chunk: nat, f: seq<byte>, part: seq<byte>,
                        offset: nat)
    requires AreFragments(fragments, packet, chunk) && offset == Start(chunk, |fragments|)
    requires WellFormed(packet) && offset < |Payload(packet)| && part == Part(Payload(packet), chunk, offset)
    requires CarriesPart(f, HeaderLength(packet), part, offset, offset + |part| >= |Payload(packet)|)
    requires KeepsHeader(f[..HeaderLength(packet)], packet[..HeaderLength(packet)])
    ensures AreFragments(fragments + [f], packet, chunk)
  {
    assert (fragments + [f])[..|fragments|] == fragments;
    assert IsFragment(f, packet, chunk, offset);
  }

  // After every part was taken, the fragments are as many as they should be.
  lemma FragmentsAreAll(fragments: seq<seq<byte>>, packet: seq<byte>, fragSize: nat)
    requires CanFragment(packet, fragSize) && AreFragments(fragments, packet, Chunk(fragSize))
    requires Start(Chunk(fragSize), |fragments|) >= |Payload(packet)|
    ensures IsSplit(fragments, packet, fragSize)
  {
    LastStartsInside(fragments, packet, Chunk(fragSize));
    StartsCount(packet, fragSize, |fragments|);
    EachIsFragment(fragments, packet, Chunk(fragSize));
  }

  lemma EachIsFragment(fragments: seq<seq<byte>>, packet: seq<byte>, chunk: nat)
    requires AreFragments(fragments, packet, chunk)
    ensures forall k :: 0 <= k < |fragments| ==> IsFragment(fragments[k], packet, chunk, Start(chunk, k))
  {
    forall k | 0 <= k < |fragments| ensures IsFragment(fragments[k], packet, chunk, Start(chunk, k)) {
      FragmentNumber(fragments, packet, chunk, k);
    }
  }

  lemma StartsCount(packet: seq<byte>, fragSize: nat, n: nat)
    requires CanFragment(packet, fragSize) && n > 0
    requires Start(Chunk(fragSize), n - 1) < |Payload(packet)| <= Start(Chunk(fragSize), n)
    ensures n == FragmentCount(packet, fragSize)
  {
    CountCovers(packet, fragSize, n);
    CountCovers(packet, fragSize, n - 1);
    StartIsProduct(Chunk(fragSize), n);
    StartIsProduct(Chunk(fragSize), n - 1);
  }

  method BuildFragment(header: seq<byte>, part: seq<byte>, offset: nat, last: bool) returns (frag: seq<byte>)
    requires 20 <= |header| == HeaderLength(header)
    ensures CarriesPart(frag, |header|, part, offset, last) && KeepsHeader(frag[..|header|], header)
  {
    var ident := [header[4], header[5]];
    frag := header;
    var total := (|header| + |part|) % 0x1_0000;
    frag := frag[2 := total / 0x100];
    frag := frag[3 := total % 0x100];
    var flagsOffset := (offset / 8) % 0x1_0000;
    if !last {
      flagsOffset := SetMoreFragments(flagsOffset);
    }
    frag := frag[6 := flagsOffset / 0x100];
    frag := frag[7 := flagsOffset % 0x100];
    frag := frag[4 := ident[0]];
    frag := frag[5 := ident[1]];
    frag := frag[10 := 0];
    frag := frag[11 := 0];
    ghost var zeroed := frag;
    var checksum := Ipv4HeaderChecksum(frag);
    frag := frag[10 := checksum / 0x100];
    frag := frag[11 := checksum % 0x100];
    assert Zeroed(frag, 10) == zeroed;
    ghost var h := frag;
    frag := frag + part;
    assert frag[..|header|] == h;
  }

  // Every emitted header verifies.
  lemma FragmentVerifies(h: seq<byte>, header: seq<byte>)
    requires KeepsHeader(h, header)
    ensures HeaderChecksum(h) == 0
  {
    ChecksumVerifies(h, 10);
  }

  lemma OffsetIsWhole(k: nat, fragSize: nat)
    ensures (k * Chunk(fragSize)) % 8 == 0
  {
    var m := fragSize / 8;
    assert Chunk(fragSize) == 8 * m;
    assert k * (8 * m) == 8 * (k * m);
  }

  // ---- the receiver: reassembly by offset, as in section 3.2 of RFC 791 ----

  // What a receiver keeps of one fragment: the 13-bit offset in units, MF, and the other two flags.
  datatype Piece = Piece(units: nat, body: seq<byte>, more: bool, others: nat) {
    function Offset(): nat { 8 * units }

    predicate Covers(i: int) { Offset() <= i < Offset() + |body| }
  }

  // How a receiver splits the flags and offset word of RFC 791 section 3.1.
  predicate SplitsInto(word: u16, units: nat, more: bool, others: nat) {
    units < 0x2000 && others < 4 && word == units + (if more then 0x2000 else 0) + 0x4000 * others
  }

  predicate ReadsAs(f: seq<byte>, p: Piece) {
    WellFormed(f) && p.body == Payload(f) && SplitsInto(WordAt(f, 6), p.units, p.more, p.others)
  }

  // Every packet reads as exactly one piece.
  lemma EveryPacketIsRead(f: seq<byte>) returns (p: Piece)
    requires WellFormed(f)
    ensures ReadsAs(f, p) && forall q :: ReadsAs(f, q) ==> q == p
  {
    var word := WordAt(f, 6);
    var units, flags := word % 0x2000, word / 0x2000;
    p := Piece(units, Payload(f), flags % 2 == 1, flags / 2);
    assert word == units + 0x2000 * flags;
    forall q | ReadsAs(f, q) ensures q == p {
      SplitIsUnique(word, p.units, p.more, p.others, q.units, q.more, q.others);
    }
  }

  lemma SplitIsUnique(word: u16, a: nat, m: bool, b: nat, a': nat, m': bool, b': nat)
    requires SplitsInto(word, a, m, b) && SplitsInto(word, a', m', b')
    ensures a == a' && m == m' && b == b'
  {}

  lemma FlagsWordSplits(units: nat, last: bool)
    requires units < 0x2000
    ensures SplitsInto(FlagsWord(8 * units, last), units, !last, 0)
  {}

  function Placed(pieces: seq<Piece>): map<int, byte> {
    if pieces == [] then map[]
    else
      var p := pieces[|pieces| - 1];
      Placed(pieces[..|pieces| - 1])
      + map i | p.Offset() <= i < p.Offset() + |p.body| && p.Covers(i) :: p.body[i - p.Offset()]
  }

  // The length is known once a fragment without MF has arrived.
  function KnownLength(pieces: seq<Piece>): Option<nat> {
    if pieces == [] then None
    else
      var p := pieces[|pieces| - 1];
      if p.more then KnownLength(pieces[..|pieces| - 1]) else Some(p.Offset() + |p.body|)
  }

  function Reassemble(pieces: seq<Piece>): Option<seq<byte>> {
    var length, buffer := KnownLength(pieces), Placed(pieces);
    if length.Some? && forall i :: 0 <= i < length.value ==> i in buffer
    then Some(seq(length.value, i requires 0 <= i < length.value => buffer[i]))
    else None
  }

  // Piece number k of a payload cut every chunk bytes.
  predicate IsPiece(p: Piece, payload: seq<byte>, chunk: nat, k: nat) {
    && p.Offset() == k * chunk < |payload|
    && p.body == Part(payload, chunk, k * chunk)
    && (p.more <==> k * chunk + chunk < |payload|)
  }

  predicate ArePieces(pieces: seq<Piece>, order: seq<nat>, payload: seq<byte>, chunk: nat) {
    |pieces| == |order| && forall j :: 0 <= j < |order| ==> IsPiece(pieces[j], payload, chunk, order[j])
  }

  // Whatever has been placed agrees with the payload, byte for byte.
  lemma {:induction false} PlacedAgrees(pieces: seq<Piece>, order: seq<nat>, payload: seq<byte>, chunk: nat)
    requires ArePieces(pieces, order, payload, chunk)
    ensures forall i :: i in Placed(pieces) ==> 0 <= i < |payload| && Placed(pieces)[i] == payload[i]
    decreases |pieces|
  {
    if pieces != [] {
      var n := |pieces| - 1;
      PlacedAgrees(pieces[..n], order[..n], payload, chunk);
      assert IsPiece(pieces[n], payload, chunk, order[n]);
    }
  }

  lemma {:induction false} PlacedIsCovered(pieces: seq<Piece>, i: int)
    ensures i in Placed(pieces) <==> exists j :: 0 <= j < |pieces| && pieces[j].Covers(i)
    decreases |pieces|
  {
    if pieces != [] {
      var n := |pieces| - 1;
      PlacedIsCovered(pieces[..n], i);
      if j :| 0 <= j < n && pieces[..n][j].Covers(i) {
        assert pieces[j].Covers(i);
      }
      if j :| 0 <= j < |pieces| && pieces[j].Covers(i) {
        assert j < n ==> pieces[..n][j].Covers(i);
      }
    }
  }

  lemma {:induction false} LengthIsKnown(pieces: seq<Piece>, order: seq<nat>, payload: seq<byte>, chunk: nat)
    requires ArePieces(pieces, order, payload, chunk)
    ensures KnownLength(pieces) == if exists j :: 0 <= j < |order| && order[j] * chunk + chunk >= |payload|
                                   then Some(|payload|) else None
    decreases |pieces|
  {
    if pieces != [] {
      var n := |pieces| - 1;
      LengthIsKnown(pieces[..n], order[..n], payload, chunk);
      assert IsPiece(pieces[n], payload, chunk, order[n]);
      if j :| 0 <= j < |order| && order[j] * chunk + chunk >= |payload| {
        assert j < n ==> order[..n][j] == order[j];
      }
    }
  }

  // Byte k * chunk is carried by piece k and by no other.
  lemma OnlyPieceCovers(p: Piece, m: nat, payload: seq<byte>, chunk: nat, i: nat)
    requires chunk > 0 && IsPiece(p, payload, chunk, m) && i < |payload|
    ensures p.Covers(i) <==> i / chunk == m
  {
    var q, r := i / chunk, i % chunk;
    var whole, start := q * chunk, m * chunk;
    assert i == whole + r;
    if q < m {
      ProductAtLeast(m - q, chunk);
      ProductOfDifference(m, q, chunk);
    } else if q > m {
      ProductAtLeast(q - m, chunk);
      ProductOfDifference(q, m, chunk);
    }
  }

  // In whatever order the pieces arrive, and however often, reassembly yields the payload
  // exactly when every piece has arrived, and nothing before.
  lemma ReassembleInAnyOrder(pieces: seq<Piece>, order: seq<nat>, payload: seq<byte>, chunk: nat)
    requires chunk > 0 && payload != [] && ArePieces(pieces, order, payload, chunk)
    ensures (forall k: nat :: k * chunk < |payload| ==> k in order) ==> Reassemble(pieces) == Some(payload)
    ensures (exists k: nat :: k * chunk < |payload| && k !in order) ==> Reassemble(pieces) == None
  {
    PlacedAgrees(pieces, order, payload, chunk);
    LengthIsKnown(pieces, order, payload, chunk);
    if k: nat :| k * chunk < |payload| && k !in order {
      MissingPiece(pieces, order, payload, chunk, k);
    } else {
      LastPieceArrives(order, payload, chunk);
      forall i | 0 <= i < |payload| ensures i in Placed(pieces) {
        CarryingPiece(pieces, order, payload, chunk, i);
        PlacedIsCovered(pieces, i);
      }
      assert Reassemble(pieces).value == payload;
    }
  }

  lemma CarryingPiece(pieces: seq<Piece>, order: seq<nat>, payload: seq<byte>, chunk: nat, i: nat)
    requires chunk > 0 && i < |payload| && ArePieces(pieces, order, payload, chunk)
    requires forall k: nat :: k * chunk < |payload| ==> k in order
    ensures exists j :: 0 <= j < |pieces| && pieces[j].Covers(i)
  {
    var k := i / chunk;
    var start := k * chunk;
    assert i == start + i % chunk;
    assert k in order;
    var j :| 0 <= j < |order| && order[j] == k;
    OnlyPieceCovers(pieces[j], order[j], payload, chunk, i);
  }

  lemma LastPieceArrives(order: seq<nat>, payload: seq<byte>, chunk: nat)
    requires chunk > 0 && payload != []
    requires forall k: nat :: k * chunk < |payload| ==> k in order
    ensures exists j :: 0 <= j < |order| && order[j] * chunk + chunk >= |payload|
  {
    var k := (|payload| - 1) / chunk;
    var start := k * chunk;
    assert |payload| - 1 == start + (|payload| - 1) % chunk;
    assert k in order;
    var j :| 0 <= j < |order| && order[j] == k;
  }

  lemma MissingPiece(pieces: seq<Piece>, order: seq<nat>, payload: seq<byte>, chunk: nat, k: nat)
    requires chunk > 0 && ArePieces(pieces, order, payload, chunk)
    requires k * chunk < |payload| && k !in order
    ensures Reassemble(pieces) == None
  {
    LengthIsKnown(pieces, order, payload, chunk);
    PlacedIsCovered(pieces, k * chunk);
    QuotientIsUnique(k * chunk, chunk, k, 0);
    forall j | 0 <= j < |pieces| ensures !pieces[j].Covers(k * chunk) {
      OnlyPieceCovers(pieces[j], order[j], payload, chunk, k * chunk);
      assert order[j] in order;
    }
    assert k * chunk !in Placed(pieces);
  }

  lemma FlagsAreRead(offset: nat, last: bool, p: Piece)
    requires offset < 0x1_0000 && offset % 8 == 0 && SplitsInto(FlagsWord(offset, last), p.units, p.more, p.others)
    ensures p.units == offset / 8 && p.more == !last && p.others == 0
  {
    var units := offset / 8;
    assert offset == 8 * units;
    FlagsWordSplits(units, last);
    SplitIsUnique(FlagsWord(offset, last), p.units, p.more, p.others, units, !last, 0);
  }

  lemma BodyIsRead(f: seq<byte>, n: nat, part: seq<byte>, offset: nat, last: bool)
    requires CarriesPart(f, n, part, offset, last) && |f| < 0x1_0000
    ensures WellFormed(f) && Payload(f) == part && WordAt(f, 2) == |f|
  {}

  lemma PartEnds(payload: seq<byte>, chunk: nat, offset: nat)
    requires offset < |payload|
    ensures |Part(payload, chunk, offset)| <= chunk
    ensures offset + |Part(payload, chunk, offset)| >= |payload| <==> offset + chunk >= |payload|
  {}

  // How a fragment reads: it is the piece at its offset, and the other flags are clear.
  lemma FragmentReads(f: seq<byte>, packet: seq<byte>, chunk: nat, offset: nat, p: Piece)
    requires CarriesFrom(f, packet, chunk, offset) && |packet| < 0x1_0000 && offset % 8 == 0 && ReadsAs(f, p)
    ensures p == Piece(offset / 8, Part(Payload(packet), chunk, offset), offset + chunk < |Payload(packet)|, 0)
    ensures |p.body| <= chunk && WordAt(f, 2) == |f|
  {
    var payload := Payload(packet);
    var part, last := Part(payload, chunk, offset), offset + chunk >= |payload|;
    PartEnds(payload, chunk, offset);
    BodyIsRead(f, HeaderLength(packet), part, offset, last);
    FlagsAreRead(offset, last, p);
  }

  // The fragments of a packet in some order of arrival, possibly with repeats, and how the
  // receiver reads them.
  ghost predicate Arrived(packet: seq<byte>, fragSize: nat, order: seq<nat>, received: seq<seq<byte>>,
                          pieces: seq<Piece>)
  {
    |pieces| == |received| == |order| && forall j :: 0 <= j < |order| ==>
      && CarriesFrom(received[j], packet, Chunk(fragSize), Start(Chunk(fragSize), order[j]))
      && ReadsAs(received[j], pieces[j])
  }

  lemma ReadsAsPiece(f: seq<byte>, packet: seq<byte>, chunk: nat, k: nat, offset: nat, p: Piece)
    requires offset == k * chunk && offset % 8 == 0
    requires CarriesFrom(f, packet, chunk, offset) && |packet| < 0x1_0000 && ReadsAs(f, p)
    ensures IsPiece(p, Payload(packet), chunk, k)
  {
    FragmentReads(f, packet, chunk, offset, p);
  }

  // Fragmentation is undone by offset-based reassembly in any order of arrival: the original
  // payload appears as soon as every fragment has arrived, and not before.
  lemma FragmentationIsUndone(packet: seq<byte>, fragSize: nat, order: seq<nat>, received: seq<seq<byte>>,
                              pieces: seq<Piece>)
    requires CanFragment(packet, fragSize) && |packet| < 0x1_0000
    requires Arrived(packet, fragSize, order, received, pieces)
    ensures (forall k :: 0 <= k < FragmentCount(packet, fragSize) ==> k in order) ==>
              Reassemble(pieces) == Some(Payload(packet))
    ensures (exists k :: 0 <= k < FragmentCount(packet, fragSize) && k !in order) ==>
              Reassemble(pieces) == None
  {
    var chunk, payload := Chunk(fragSize), Payload(packet);
    forall j | 0 <= j < |order| ensures IsPiece(pieces[j], payload, chunk, order[j]) {
      OffsetIsWhole(order[j], fragSize);
      StartIsProduct(chunk, order[j]);
      ReadsAsPiece(received[j], packet, chunk, order[j], order[j] * chunk, pieces[j]);
    }
    forall k: nat ensures k < FragmentCount(packet, fragSize) <==> k * chunk < |payload| {
      CountCovers(packet, fragSize, k);
    }
    ReassembleInAnyOrder(pieces, order, payload, chunk);
  }

  // What FragmentIpv4Packet returns, received in any order and read by any receiver, gives the payload
  // back once every fragment has arrived, and nothing before.
  lemma OutputIsReassembled(packet: seq<byte>, fragSize: nat, fragments: seq<seq<byte>>, order: seq<nat>,
                            pieces: seq<Piece>)
    requires CanFragment(packet, fragSize) && |packet| < 0x1_0000 && IsSplit(fragments, packet, fragSize)
    requires |pieces| == |order|
    requires forall j :: 0 <= j < |order| ==> order[j] < |fragments| && ReadsAs(fragments[order[j]], pieces[j])
    ensures (forall k :: 0 <= k < |fragments| ==> k in order) ==> Reassemble(pieces) == Some(Payload(packet))
    ensures (exists k :: 0 <= k < |fragments| && k !in order) ==> Reassemble(pieces) == None
  {
    var received := seq(|order|, j requires 0 <= j < |order| && order[j] < |fragments| => fragments[order[j]]);
    FragmentationIsUndone(packet, fragSize, order, received, pieces);
  }

  lemma AnotherFollows(packet: seq<byte>, fragSize: nat, k: nat)
    requires CanFragment(packet, fragSize)
    ensures k * Chunk(fragSize) + Chunk(fragSize) < |Payload(packet)| <==> k + 1 < FragmentCount(packet, fragSize)
  {
    CountCovers(packet, fragSize, k + 1);
    ProductOfSum(k, 1, Chunk(fragSize));
  }

  // Each fragment fits the requested size, has MF exactly when another one follows, and has
  // the other two flags clear; its length field is exact.
  lemma FragmentFits(f: seq<byte>, packet: seq<byte>, fragSize: nat, k: nat, p: Piece)
    requires CanFragment(packet, fragSize) && |packet| < 0x1_0000
    requires CarriesFrom(f, packet, Chunk(fragSize), Start(Chunk(fragSize), k)) && ReadsAs(f, p)
    ensures |p.body| <= fragSize && p.others == 0 && WordAt(f, 2) == |f|
    ensures p.more <==> k + 1 < FragmentCount(packet, fragSize)
  {
    AnotherFollows(packet, fragSize, k);
    StartIsProduct(Chunk(fragSize), k);
    OffsetIsWhole(k, fragSize);
    FragmentReads(f, packet, Chunk(fragSize), k * Chunk(fragSize), p);
  }

  // The exact limit of the offset field, for packets of any size: the low 13 bits hold the
  // offset precisely while it is below 65536.
  lemma OffsetFieldLimit(offset: nat, last: bool)
    requires offset % 8 == 0
    ensures (FlagsWord(offset, last) % 0x2000) * 8 == offset % 0x1_0000
    ensures (FlagsWord(offset, last) % 0x2000) * 8 == offset <==> offset < 0x1_0000
  {
    var m := offset / 8;
    var q, r, t := m / 0x2000, m % 0x2000, m / 0x1_0000;
    QuotientIsUnique(offset, 0x1_0000, q, 8 * r);
    var word := m % 0x1_0000;
    QuotientIsUnique(word, 0x2000, q - 8 * t, r);
    QuotientIsUnique(word + 0x2000, 0x2000, q - 8 * t + 1, r);
  }
}
