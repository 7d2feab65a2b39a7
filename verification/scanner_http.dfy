/** Sampling a download: the status line is picked out of the stream as it arrives. */
module ScannerHttp {
  import opened Bytes
  import opened Utf8
  import opened Wrappers

  const LINE_LIMIT := 1024
  const BUFFER_LEN := 8 * 1024
  const CR: byte := 13
  const LF: byte := 10
  const SPACE: byte := 32
  const PLUS: byte := 43
  const HTTP_SLASH: seq<byte> := [72, 84, 84, 80, 47]

  // ---- text ----

  // The index of the first such byte, or the length.
  function Find(b: seq<byte>, x: byte): (n: nat)
    ensures n <= |b| && x !in b[..n] && (n < |b| ==> b[n] == x)
  {
    if b == [] || b[0] == x then 0 else 1 + Find(b[1..], x)
  }

  // ---- the status line ----

  predicate IsDigit(c: byte) { 48 <= c <= 57 }

  function DigitValue(c: byte): nat
    requires IsDigit(c)
  {
    c - 48
  }

  predicate AllDigits(s: seq<byte>) { forall i :: 0 <= i < |s| ==> IsDigit(s[i]) }

  function Value(digits: seq<byte>): nat
    requires AllDigits(digits)
  {
    if digits == [] then 0 else 10 * Value(digits[..|digits| - 1]) + DigitValue(digits[|digits| - 1])
  }

  function WithoutPlus(s: seq<byte>): seq<byte> { if s != [] && s[0] == PLUS then s[1..] else s }

  // A decimal number of 16 bits, with or without a plus sign.
  function ParseU16(s: seq<byte>): Option<u16> {
    var digits := WithoutPlus(s);
    if digits == [] || !AllDigits(digits) then None
    else if Value(digits) >= 0x1_0000 then None
    else Some(Value(digits))
  }

  function WithoutCr(line: seq<byte>): seq<byte> {
    if line != [] && line[|line| - 1] == CR then line[..|line| - 1] else line
  }

  // The first line; a carriage return goes with the line feed it precedes.
  function FirstLine(text: seq<byte>): Option<seq<byte>> {
    if text == [] then None
    else if Find(text, LF) < |text| then Some(WithoutCr(text[..Find(text, LF)]))
    else Some(text)
  }

  // The part before the first space, and the part after it if there is one.
  function Before(line: seq<byte>): seq<byte> { line[..Find(line, SPACE)] }

  function After(line: seq<byte>): Option<seq<byte>> {
    if Find(line, SPACE) < |line| then Some(line[Find(line, SPACE) + 1..]) else None
  }

  function ParseStatusLine(line: seq<byte>): Option<u16> {
    if !(HTTP_SLASH <= Before(line)) then None
    else
      match After(line)
      case None => None
      case Some(rest) => ParseU16(Before(rest))
  }

  function ParseHttpStatus(text: seq<byte>): Option<u16> {
    match FirstLine(text)
    case None => None
    case Some(line) => ParseStatusLine(line)
  }

  // The status a stretch of bytes spells, if it is text at all.
  function StatusOf(b: seq<byte>): Option<u16> {
    if IsUtf8(b) then ParseHttpStatus(b) else None
  }

  // ---- reading in chunks ----

  function Concat(chunks: seq<seq<byte>>): seq<byte> {
    if chunks == [] then [] else Concat(chunks[..|chunks| - 1]) + chunks[|chunks| - 1]
  }

  // Where the read that brought the byte at this offset began.
  function ReadStart(chunks: seq<seq<byte>>, at: nat): (start: nat)
    ensures start <= at
  {
    if chunks == [] then 0
    else
      var start := |Concat(chunks[..|chunks| - 1])|;
      if start <= at then start else ReadStart(chunks[..|chunks| - 1], at)
  }

  // A way in which b can arrive: no read is empty, or larger than the buffer.
  ghost predicate Deliverable(chunks: seq<seq<byte>>, b: seq<byte>, cap: nat) {
    && Concat(chunks) == b && |b| <= cap
    && forall i :: 0 <= i < |chunks| ==> 0 < |chunks[i]| <= Min(cap, BUFFER_LEN)
  }

  function Min(a: nat, b: nat): nat { if a < b then a else b }

  // The bytes before this offset, cut to the limit.
  function UpTo(b: seq<byte>, end: nat): seq<byte>
    requires end <= |b|
  {
    b[..Min(end, LINE_LIMIT)]
  }

  // The status reported after these reads: that of the bytes before the first line feed, cut to the
  // limit, unless the read that brought the line feed began at or beyond the limit.
  function Reported(chunks: seq<seq<byte>>): Option<u16> {
    var b := Concat(chunks);
    var end := Find(b, LF);
    if end == |b| || ReadStart(chunks, end) >= LINE_LIMIT then None else StatusOf(UpTo(b, end))
  }

  lemma {:induction false} FindInSum(b: seq<byte>, more: seq<byte>, x: byte)
    ensures Find(b + more, x) == if Find(b, x) < |b| then Find(b, x) else |b| + Find(more, x)
  {
    if b == [] {
      assert b + more == more;
    } else if b[0] != x {
      assert (b + more)[1..] == b[1..] + more;
      FindInSum(b[1..], more, x);
    }
  }

  lemma ChunksGrow(chunks: seq<seq<byte>>, more: seq<byte>, at: nat)
    ensures Concat(chunks + [more]) == Concat(chunks) + more
    ensures ReadStart(chunks + [more], at) == if |Concat(chunks)| <= at then |Concat(chunks)| else ReadStart(chunks, at)
  {
    assert (chunks + [more])[..|chunks|] == chunks;
  }

  // Once the line feed or the limit was reached, later reads change nothing.
  lemma LineIsSettled(chunks: seq<seq<byte>>, more: seq<byte>)
    requires Find(Concat(chunks), LF) < |Concat(chunks)| || |Concat(chunks)| >= LINE_LIMIT
    ensures Reported(chunks + [more]) == Reported(chunks)
  {
    var b := Concat(chunks);
    FindInSum(b, more, LF);
    ChunksGrow(chunks, more, Find(b + more, LF));
    if Find(b, LF) < |b| {
      assert UpTo(b + more, Find(b, LF)) == UpTo(b, Find(b, LF));
    }
  }

  lemma ReportedAt(chunks: seq<seq<byte>>, b: seq<byte>, end: nat, line: seq<byte>)
    requires b == Concat(chunks) && end == Find(b, LF) < |b| && ReadStart(chunks, end) < LINE_LIMIT
    requires line == UpTo(b, end)
    ensures Reported(chunks) == StatusOf(line)
  {}

  lemma CutAcross(b: seq<byte>, more: seq<byte>, end: nat, line: seq<byte>)
    requires |b| < LINE_LIMIT && end <= |more| && line == b + more[..Min(end, LINE_LIMIT - |b|)]
    ensures UpTo(b + more, |b| + end) == line
  {}

  // While the line is open, a read without a line feed reports nothing.
  lemma LineGoesOn(chunks: seq<seq<byte>>, b: seq<byte>, more: seq<byte>)
    requires b == Concat(chunks) && Find(b, LF) == |b| && Find(more, LF) == |more|
    ensures Reported(chunks + [more]) == None && Concat(chunks + [more]) == b + more
    ensures Find(b + more, LF) == |b + more|
  {
    FindInSum(b, more, LF);
    ChunksGrow(chunks, more, |b + more|);
  }

  // While the line is open and within the limit, a read with a line feed reports the line it ends.
  lemma LineEnds(chunks: seq<seq<byte>>, b: seq<byte>, more: seq<byte>, end: nat, line: seq<byte>)
    requires b == Concat(chunks) && Find(b, LF) == |b| < LINE_LIMIT && end == Find(more, LF) < |more|
    requires line == b + more[..Min(end, LINE_LIMIT - |b|)]
    ensures Reported(chunks + [more]) == StatusOf(line)
    ensures Concat(chunks + [more]) == b + more && Find(b + more, LF) == |b| + end
  {
    FindInSum(b, more, LF);
    ChunksGrow(chunks, more, |b| + end);
    CutAcross(b, more, end, line);
    ReportedAt(chunks + [more], b + more, |b| + end, line);
  }

  // What the reader holds after these reads.
  ghost predicate Tracks(chunks: seq<seq<byte>>, statusLine: seq<byte>, complete: bool, status: Option<u16>) {
    var b := Concat(chunks);
    && status == Reported(chunks)
    && (!complete ==> statusLine == b && Find(b, LF) == |b| < LINE_LIMIT)
    && (complete ==> Find(b, LF) < |b| || |b| >= LINE_LIMIT)
  }

  /** Takes one read into the status line, unless the line is complete. */
  method FeedLine(statusLine: seq<byte>, complete: bool, status: Option<u16>, bytes: seq<byte>,
                  ghost chunks: seq<seq<byte>>)
    returns (statusLine': seq<byte>, complete': bool, status': Option<u16>)
    requires Tracks(chunks, statusLine, complete, status)
    ensures Tracks(chunks + [bytes], statusLine', complete', status')
  {
    statusLine', complete', status' := statusLine, complete, status;
    if !complete {
      var end := Find(bytes, LF);
      var take := Min(end, LINE_LIMIT - |statusLine|);
      statusLine' := statusLine + bytes[..take];
      if end < |bytes| {
        LineEnds(chunks, statusLine, bytes, end, statusLine');
      } else {
        LineGoesOn(chunks, statusLine, bytes);
      }
      if end < |bytes| || |statusLine'| == LINE_LIMIT {
        complete' := true;
        if end < |bytes| {
          status' := StatusOf(statusLine');
        }
      }
    } else {
      LineIsSettled(chunks, bytes);
      FindInSum(Concat(chunks), bytes, LF);
      ChunksGrow(chunks, bytes, 0);
    }
  }

  lemma PrefixGrows(stream: seq<byte>, total: nat, n: nat)
    requires total + n <= |stream|
    ensures stream[..total + n] == stream[..total] + stream[total..total + n]
  {}

  // The reads so far: each brings what has arrived by then, cut only by the buffer and by the end.
  ghost predicate Received(chunks: seq<seq<byte>>, arrivals: seq<nat>, end: nat) {
    chunks == []
    || (var n := |chunks| - 1;
        && Received(chunks[..n], arrivals, end)
        && n < |arrivals| && 0 < |chunks[n]| <= arrivals[n]
        && (|chunks[n]| == arrivals[n] || |chunks[n]| == BUFFER_LEN || |Concat(chunks)| == end))
  }

  lemma {:induction false} ReadsAreFew(chunks: seq<seq<byte>>, arrivals: seq<nat>, end: nat)
    requires Received(chunks, arrivals, end)
    ensures |chunks| <= |Concat(chunks)| && |chunks| <= |arrivals|
  {
    if chunks != [] {
      ReadsAreFew(chunks[..|chunks| - 1], arrivals, end);
    }
  }

  lemma OneMoreRead(chunks: seq<seq<byte>>, arrivals: seq<nat>, end: nat, more: seq<byte>)
    requires Received(chunks, arrivals, end) && |chunks| < |arrivals| && 0 < |more| <= arrivals[|chunks|]
    requires |more| == arrivals[|chunks|] || |more| == BUFFER_LEN || |Concat(chunks) + more| == end
    ensures Received(chunks + [more], arrivals, end)
  {
    ChunksGrow(chunks, more, 0);
    assert (chunks + [more])[..|chunks|] == chunks;
  }

  lemma DeliverableGrows(chunks: seq<seq<byte>>, stream: seq<byte>, cap: nat, total: nat, n: nat)
    requires total + n <= |stream| && total + n <= cap && Deliverable(chunks, stream[..total], cap)
    requires 0 < n <= Min(cap, BUFFER_LEN)
    ensures Deliverable(chunks + [stream[total..total + n]], stream[..total + n], cap)
  {
    var bytes := stream[total..total + n];
    ChunksGrow(chunks, bytes, 0);
    PrefixGrows(stream, total, n);
    var more := chunks + [bytes];
    forall i | 0 <= i < |more| ensures 0 < |more[i]| <= Min(cap, BUFFER_LEN) {
      assert i < |chunks| ==> more[i] == chunks[i];
    }
  }

  // What has come in so far.
  ghost predicate Arrived(chunks: seq<seq<byte>>, stream: seq<byte>, arrivals: seq<nat>, cap: nat, total: nat) {
    && total <= cap && total <= |stream| && Deliverable(chunks, stream[..total], cap)
    && Received(chunks, arrivals, Min(cap, |stream|)) && |chunks| <= |arrivals|
  }

  lemma ArrivedGrows(chunks: seq<seq<byte>>, stream: seq<byte>, arrivals: seq<nat>, cap: nat, total: nat, n: nat)
    requires Arrived(chunks, stream, arrivals, cap, total) && |chunks| < |arrivals|
    requires 0 < n == Min(arrivals[|chunks|], Min(Min(Min(cap, BUFFER_LEN), cap - total), |stream| - total))
    ensures Arrived(chunks + [stream[total..total + n]], stream, arrivals, cap, total + n)
  {
    DeliverableGrows(chunks, stream, cap, total, n);
    OneMoreRead(chunks, arrivals, Min(cap, |stream|), stream[total..total + n]);
  }

  // Something arrives for every read that is needed.
  ghost predicate KeepsArriving(arrivals: seq<nat>, end: nat) {
    |arrivals| >= end && forall i :: 0 <= i < |arrivals| ==> arrivals[i] > 0
  }

  lemma ArrivedInFull(chunks: seq<seq<byte>>, stream: seq<byte>, arrivals: seq<nat>, cap: nat, total: nat)
    requires Arrived(chunks, stream, arrivals, cap, total) && KeepsArriving(arrivals, Min(cap, |stream|))
    requires total == Min(cap, |stream|) || |chunks| == |arrivals| || arrivals[|chunks|] == 0
    ensures total == Min(cap, |stream|)
  {
    ReadsAreFew(chunks, arrivals, Min(cap, |stream|));
  }

  /** Reads up to cap bytes. The arrivals say how much each read finds waiting; a read that finds nothing, or comes
      after the last of them, stands for the end of the stream, a failure or the timeout. */
  method MeasureDownload(stream: seq<byte>, arrivals: seq<nat>, cap: nat)
    returns (answered: bool, totalRead: nat, status: Option<u16>, ghost chunks: seq<seq<byte>>)
    ensures totalRead <= |stream| && Deliverable(chunks, stream[..totalRead], cap)
    ensures Received(chunks, arrivals, Min(cap, |stream|))
    ensures totalRead == Min(cap, |stream|) || |chunks| == |arrivals| || arrivals[|chunks|] == 0
    ensures KeepsArriving(arrivals, Min(cap, |stream|)) ==> totalRead == Min(cap, |stream|)
    ensures answered == (totalRead > 0)
    ensures status == Reported(chunks)
    ensures Find(stream, LF) < Min(totalRead, LINE_LIMIT) ==> status == StatusOf(stream[..Find(stream, LF)])
  {
    var bufLen := Min(cap, BUFFER_LEN);
    var statusLine: seq<byte>, statusLineComplete := [], false;
    var taken := 0;
    answered, totalRead, status, chunks := false, 0, None, [];
    while totalRead < cap
      invariant taken == |chunks| && Arrived(chunks, stream, arrivals, cap, totalRead)
      invariant answered == (totalRead > 0)
      invariant Tracks(chunks, statusLine, statusLineComplete, status)
      decreases cap - totalRead
    {
      var readLen := Min(bufLen, cap - totalRead);
      var waiting := if taken < |arrivals| then arrivals[taken] else 0;
      var n := Min(waiting, Min(readLen, |stream| - totalRead));
      if n == 0 {
        break;
      }
      answered := true;
      var bytes := stream[totalRead..totalRead + n];
      statusLine, statusLineComplete, status := FeedLine(statusLine, statusLineComplete, status, bytes, chunks);
      ArrivedGrows(chunks, stream, arrivals, cap, totalRead, n);
      chunks := chunks + [bytes];
      totalRead, taken := totalRead + n, taken + 1;
    }
    if KeepsArriving(arrivals, Min(cap, |stream|)) {
      ArrivedInFull(chunks, stream, arrivals, cap, totalRead);
    }
    ReportOfPrefix(stream, totalRead, chunks);
  }

  // When the line feed comes within the limit, the report is that of the bytes before it,
  // however the stream was split into reads.
  lemma ReportOfPrefix(stream: seq<byte>, total: nat, chunks: seq<seq<byte>>)
    requires total <= |stream| && Concat(chunks) == stream[..total]
    ensures Find(stream, LF) < Min(total, LINE_LIMIT) ==> Reported(chunks) == StatusOf(stream[..Find(stream, LF)])
  {
    var end := Find(stream, LF);
    assert stream == stream[..total] + stream[total..];
    FindInSum(stream[..total], stream[total..], LF);
    if end < Min(total, LINE_LIMIT) {
      assert stream[..total][..end] == stream[..end];
      ReportedAt(chunks, stream[..total], end, stream[..end]);
    }
  }

  // ---- what the report means ----

  lemma ReportedLate(chunks: seq<seq<byte>>, b: seq<byte>)
    requires b == Concat(chunks) && ReadStart(chunks, Find(b, LF)) >= LINE_LIMIT
    ensures Reported(chunks) == None
  {}

  lemma {:induction false} ReadsAfterwards(chunks: seq<seq<byte>>, more: seq<seq<byte>>, at: nat)
    requires at < |Concat(chunks)|
    ensures Concat(chunks + more) == Concat(chunks) + Concat(more)
    ensures ReadStart(chunks + more, at) == ReadStart(chunks, at)
    decreases |more|
  {
    if more == [] {
      assert chunks + more == chunks;
    } else {
      var n := |more| - 1;
      assert (chunks + more)[..|chunks| + n] == chunks + more[..n];
      ReadsAfterwards(chunks, more[..n], at);
      Regroup(Concat(chunks), Concat(more[..n]), more[n]);
    }
  }

  // A read is no longer than the buffer, so it began less than a buffer ago.
  lemma {:induction false} ReadBeganRecently(chunks: seq<seq<byte>>, at: nat, longest: nat)
    requires at < |Concat(chunks)| && forall i :: 0 <= i < |chunks| ==> |chunks[i]| <= longest
    ensures at < ReadStart(chunks, at) + longest
  {
    var n := |chunks| - 1;
    if at < |Concat(chunks[..n])| {
      ReadBeganRecently(chunks[..n], at, longest);
    }
  }

  // Delivery one byte at a time.
  function OneByOne(b: seq<byte>): (chunks: seq<seq<byte>>)
    ensures |chunks| == |b| && forall i :: 0 <= i < |chunks| ==> |chunks[i]| == 1
  {
    if b == [] then [] else OneByOne(b[..|b| - 1]) + [[b[|b| - 1]]]
  }

  lemma ConcatGrows(chunks: seq<seq<byte>>, more: seq<byte>)
    ensures Concat(chunks + [more]) == Concat(chunks) + more
  {
    assert (chunks + [more])[..|chunks|] == chunks;
  }

  lemma LastOne(b: seq<byte>)
    requires b != []
    ensures b[..|b| - 1] + [b[|b| - 1]] == b
  {}

  lemma {:induction false} OneByOneDelivers(b: seq<byte>)
    ensures Concat(OneByOne(b)) == b
  {
    if b != [] {
      var n := |b| - 1;
      OneByOneDelivers(b[..n]);
      ConcatGrows(OneByOne(b[..n]), [b[n]]);
      LastOne(b);
    }
  }

  lemma {:induction false} OneByOneStarts(b: seq<byte>, at: nat)
    requires at < |b|
    ensures ReadStart(OneByOne(b), at) == at
  {
    var n := |b| - 1;
    OneByOneDelivers(b[..n]);
    assert OneByOne(b)[..n] == OneByOne(b[..n]);
    if at < n {
      OneByOneStarts(b[..n], at);
    }
  }

  // Where a read can begin at the earliest if it is to bring the byte at this offset.
  function EarlyStart(end: nat): (start: nat)
    ensures start <= end < start + BUFFER_LEN
    ensures start < LINE_LIMIT <==> end < LINE_LIMIT - 1 + BUFFER_LEN
  {
    if end < BUFFER_LEN then 0 else end + 1 - BUFFER_LEN
  }

  // Delivery in which the read that brings this byte begins as early as the buffer allows.
  function EarlyRead(b: seq<byte>, end: nat): seq<seq<byte>>
    requires end < |b|
  {
    OneByOne(b[..EarlyStart(end)]) + [b[EarlyStart(end)..end + 1]] + OneByOne(b[end + 1..])
  }

  lemma ThreeParts(b: seq<byte>, i: nat, j: nat)
    requires i <= j <= |b|
    ensures b[..i] + b[i..j] + b[j..] == b
  {}

  lemma ReadBetween(front: seq<byte>, read: seq<byte>, back: seq<byte>, at: nat)
    requires |front| <= at < |front| + |read|
    ensures Concat(OneByOne(front) + [read] + OneByOne(back)) == front + read + back
    ensures ReadStart(OneByOne(front) + [read] + OneByOne(back), at) == |front|
  {
    OneByOneDelivers(front);
    OneByOneDelivers(back);
    ChunksGrow(OneByOne(front), read, at);
    ReadsAfterwards(OneByOne(front) + [read], OneByOne(back), at);
  }

  lemma EarlyReadDelivers(b: seq<byte>, end: nat)
    requires end < |b|
    ensures Concat(EarlyRead(b, end)) == b && ReadStart(EarlyRead(b, end), end) == EarlyStart(end)
    ensures forall i :: 0 <= i < |EarlyRead(b, end)| ==> 0 < |EarlyRead(b, end)[i]| <= Min(|b|, BUFFER_LEN)
  {
    var start := EarlyStart(end);
    ReadBetween(b[..start], b[start..end + 1], b[end + 1..], end);
    ThreeParts(b, start, end + 1);
  }

  // Whether the line feed makes a difference at all, told from the bytes.
  predicate SplitDoesNotMatter(b: seq<byte>) {
    var end := Find(b, LF);
    end == |b| || end < LINE_LIMIT || end >= LINE_LIMIT - 1 + BUFFER_LEN || StatusOf(b[..LINE_LIMIT]) == None
  }

  lemma OneReport(chunks: seq<seq<byte>>, b: seq<byte>, cap: nat)
    requires Deliverable(chunks, b, cap) && SplitDoesNotMatter(b)
    ensures Reported(chunks) == if Find(b, LF) < Min(|b|, LINE_LIMIT) then StatusOf(LineOf(b)) else None
  {
    var end := Find(b, LF);
    if end < |b| {
      ReadBeganRecently(chunks, end, BUFFER_LEN);
      if ReadStart(chunks, end) >= LINE_LIMIT {
        ReportedLate(chunks, b);
      } else {
        ReportedAt(chunks, b, end, UpTo(b, end));
      }
    }
  }

  lemma EarlyReadReports(b: seq<byte>, end: nat)
    requires end == Find(b, LF) && LINE_LIMIT <= end < |b| && end < LINE_LIMIT - 1 + BUFFER_LEN
    ensures Reported(EarlyRead(b, end)) == StatusOf(b[..LINE_LIMIT])
  {
    EarlyReadDelivers(b, end);
    ReportedAt(EarlyRead(b, end), b, end, b[..LINE_LIMIT]);
  }

  lemma OneByOneReportsNothing(b: seq<byte>)
    requires LINE_LIMIT <= Find(b, LF) < |b|
    ensures Reported(OneByOne(b)) == None
  {
    OneByOneDelivers(b);
    OneByOneStarts(b, Find(b, LF));
    ReportedLate(OneByOne(b), b);
  }

  lemma IsDeliverable(chunks: seq<seq<byte>>, b: seq<byte>, cap: nat)
    requires Concat(chunks) == b && |b| <= cap
    requires forall i :: 0 <= i < |chunks| ==> 0 < |chunks[i]| <= Min(|b|, BUFFER_LEN)
    ensures Deliverable(chunks, b, cap)
  {}

  lemma EarlyReadIsDeliverable(b: seq<byte>, end: nat, cap: nat)
    requires end < |b| <= cap
    ensures Deliverable(EarlyRead(b, end), b, cap)
  {
    EarlyReadDelivers(b, end);
    IsDeliverable(EarlyRead(b, end), b, cap);
  }

  lemma SmallReads(chunks: seq<seq<byte>>, n: nat)
    requires |chunks| == n && forall i :: 0 <= i < |chunks| ==> |chunks[i]| == 1
    ensures forall i :: 0 <= i < |chunks| ==> 0 < |chunks[i]| <= Min(n, BUFFER_LEN)
  {}

  lemma OneByOneIsDeliverable(b: seq<byte>, cap: nat)
    requires |b| <= cap
    ensures Deliverable(OneByOne(b), b, cap)
  {
    OneByOneDelivers(b);
    SmallReads(OneByOne(b), |b|);
    IsDeliverable(OneByOne(b), b, cap);
  }

  // Otherwise two ways of splitting the same bytes give different reports.
  lemma LateLineFeedDependsOnReads(b: seq<byte>, cap: nat)
    requires |b| <= cap && !SplitDoesNotMatter(b)
    ensures var early := EarlyRead(b, Find(b, LF));
            Deliverable(early, b, cap) && Reported(early) == StatusOf(b[..LINE_LIMIT]) != None
    ensures Deliverable(OneByOne(b), b, cap) && Reported(OneByOne(b)) == None
  {
    EarlyReadIsDeliverable(b, Find(b, LF), cap);
    OneByOneIsDeliverable(b, cap);
    EarlyReadReports(b, Find(b, LF));
    OneByOneReportsNothing(b);
  }

  // The report is the same for all ways of splitting the bytes exactly when the line feed is absent,
  // early, or too late for every split, or when the cut line spells no status.
  lemma SplitsAgree(b: seq<byte>, cap: nat)
    requires |b| <= cap
    ensures (forall c, d :: Deliverable(c, b, cap) && Deliverable(d, b, cap) ==> Reported(c) == Reported(d))
       <==> SplitDoesNotMatter(b)
  {
    if SplitDoesNotMatter(b) {
      forall c, d | Deliverable(c, b, cap) && Deliverable(d, b, cap) ensures Reported(c) == Reported(d) {
        OneReport(c, b, cap);
        OneReport(d, b, cap);
      }
    } else {
      LateLineFeedDependsOnReads(b, cap);
    }
  }

  // "HTTP/1.1"
  const HTTP_1_1: seq<byte> := HTTP_SLASH + [49, 46, 49]

  function Filler(n: nat): (f: seq<byte>)
    ensures |f| == n && forall i :: 0 <= i < n ==> f[i] == 120
  {
    seq(n, _ => 120)
  }

  // A status line of 1024 bytes: "HTTP/1.1 200 " and a reason phrase of 1011 letters.
  const LONG_LINE: seq<byte> := HTTP_1_1 + [SPACE] + (Decimal(200) + [SPACE] + Filler(1011))

  lemma TwoHundred()
    ensures Decimal(200) == [50, 48, 48]
  {
    assert Decimal(2) == [50];
    assert Decimal(20) == [50, 48];
  }

  lemma LongLineSpells200()
    ensures |LONG_LINE| == LINE_LIMIT && LF !in LONG_LINE && StatusOf(LONG_LINE) == Some(200)
  {
    TwoHundred();
    assert forall i :: 0 <= i < |LONG_LINE| ==> LONG_LINE[i] < 0x80 && LONG_LINE[i] != LF;
    AsciiIsUtf8(LONG_LINE);
    StatusOfLine(LONG_LINE);
    StatusLineIsRead(HTTP_1_1, 200, Filler(1011));
  }

  // Such bytes exist: this line and its line feed are reported as 200 in one split and not at all in another.
  lemma LateLineFeedHappens(cap: nat)
    requires cap > LINE_LIMIT
    ensures exists early, late ::
              && Deliverable(early, LONG_LINE + [LF], cap) && Reported(early) == Some(200)
              && Deliverable(late, LONG_LINE + [LF], cap) && Reported(late) == None
  {
    var b := LONG_LINE + [LF];
    LongLineSpells200();
    FindFirst(LONG_LINE, [], LF);
    assert b + [] == b && b[..LINE_LIMIT] == LONG_LINE;
    LateLineFeedDependsOnReads(b, cap);
    assert Deliverable(EarlyRead(b, LINE_LIMIT), b, cap) && Deliverable(OneByOne(b), b, cap);
  }

  lemma FindFirst(b: seq<byte>, rest: seq<byte>, x: byte)
    requires x !in b
    ensures Find(b + [x] + rest, x) == |b|
  {
    FindInSum(b, [x] + rest, x);
    assert b + [x] + rest == b + ([x] + rest);
    assert Find(b, x) == |b|;
  }

  predicate HasReason(line: seq<byte>) { After(line).Some? && After(After(line).value).Some? }

  lemma PartsBeforeCr(line: seq<byte>)
    ensures After(line).Some? ==>
              Before(line + [CR]) == Before(line) && After(line + [CR]) == Some(After(line).value + [CR])
    ensures After(line).None? ==> Before(line + [CR]) == line + [CR] && After(line + [CR]) == None
  {
    FindInSum(line, [CR], SPACE);
    assert Find([CR], SPACE) == 1;
    var space := Find(line, SPACE);
    if space < |line| {
      assert (line + [CR])[..space] == line[..space];
      assert (line + [CR])[space + 1..] == line[space + 1..] + [CR];
    } else {
      assert (line + [CR])[..space + 1] == line + [CR];
    }
  }

  lemma CrIsNoDigit(digits: seq<byte>)
    ensures ParseU16(digits + [CR]) == None
  {
    var d := WithoutPlus(digits + [CR]);
    assert d[|d| - 1] == CR && !IsDigit(d[|d| - 1]);
  }

  // A carriage return after the code hides the status; after a second space it does no harm.
  lemma CarriageReturn(line: seq<byte>)
    ensures ParseStatusLine(line + [CR]) == if HasReason(line) then ParseStatusLine(line) else None
  {
    PartsBeforeCr(line);
    if After(line).Some? {
      var rest := After(line).value;
      PartsBeforeCr(rest);
      CrIsNoDigit(rest);
    }
  }

  lemma StatusOfLine(line: seq<byte>)
    requires LF !in line && IsUtf8(line)
    ensures StatusOf(line) == ParseStatusLine(line)
  {
    FindAll(line, LF);
  }

  // The bytes before the first line feed.
  function LineOf(b: seq<byte>): seq<byte> { b[..Find(b, LF)] }

  lemma CrBack(line: seq<byte>)
    requires WithoutCr(line) != line
    ensures WithoutCr(line) + [CR] == line
  {}

  lemma WholeParse(b: seq<byte>)
    requires LF in b
    ensures ParseHttpStatus(b) == ParseStatusLine(WithoutCr(LineOf(b)))
  {}

  predicate IsCode(s: seq<byte>) {
    var digits := WithoutPlus(s);
    digits != [] && AllDigits(digits) && Value(digits) < 0x1_0000
  }

  // A status line that ends with its code: no second space, no reason phrase.
  predicate EndsWithCode(line: seq<byte>) {
    && HTTP_SLASH <= Before(line) && SPACE in line
    && SPACE !in line[Find(line, SPACE) + 1..] && IsCode(line[Find(line, SPACE) + 1..])
  }

  lemma EndingWithCode(line: seq<byte>)
    ensures EndsWithCode(line) <==> !HasReason(line) && ParseStatusLine(line) != None
  {
    if After(line).Some? {
      var rest := After(line).value;
      if Find(rest, SPACE) == |rest| {
        assert rest[..|rest|] == rest;
      }
    }
  }

  // The report agrees with a parse of the whole stream unless the line ends in a carriage return
  // right after the status code.
  lemma AgreesWithWholeParse(b: seq<byte>)
    requires LF in b && IsUtf8(LineOf(b))
    ensures var line := WithoutCr(LineOf(b));
            StatusOf(LineOf(b)) == ParseHttpStatus(b) <==> line == LineOf(b) || !EndsWithCode(line)
  {
    var line := LineOf(b);
    StatusOfLine(line);
    WholeParse(b);
    EndingWithCode(WithoutCr(line));
    if WithoutCr(line) != line {
      CrBack(line);
      CarriageReturn(WithoutCr(line));
    }
  }

  lemma LineUpTo(line: seq<byte>, rest: seq<byte>)
    requires LF !in line
    ensures LF in line + [LF] + rest && LineOf(line + [LF] + rest) == line
  {
    FindFirst(line, rest, LF);
    assert (line + [LF] + rest)[|line|] == LF;
  }

  lemma ReasonlessLine(version: seq<byte>, code: u16)
    requires HTTP_SLASH <= version && SPACE !in version
    ensures var line := version + [SPACE] + Decimal(code);
            ParseStatusLine(line) == Some(code) && !HasReason(line)
  {
    var digits := Decimal(code);
    FindFirst(version, digits, SPACE);
    var line := version + [SPACE] + digits;
    assert Before(line) == version && After(line) == Some(digits);
    FindAll(digits, SPACE);
    assert digits[..|digits|] == digits;
    ValueOfDecimal(code);
  }

  // Such lines exist for every code: the whole stream spells it, the report is empty.
  lemma ReasonlessLineIsLost(version: seq<byte>, code: u16, rest: seq<byte>)
    requires HTTP_SLASH <= version && SPACE !in version && LF !in version
    ensures var b := version + [SPACE] + Decimal(code) + [CR] + [LF] + rest;
            StatusOf(LineOf(b)) == None && ParseHttpStatus(b) == Some(code)
  {
    var line := version + [SPACE] + Decimal(code);
    assert LF !in line + [CR];
    LineUpTo(line + [CR], rest);
    WholeParse(line + [CR] + [LF] + rest);
    ReasonlessLine(version, code);
    assert WithoutCr(line + [CR]) == line;
    FindAll(line + [CR], LF);
    CarriageReturn(line);
  }

  lemma FindAll(b: seq<byte>, x: byte)
    requires x !in b
    ensures Find(b, x) == |b|
  {}

  function Decimal(n: nat): (d: seq<byte>)
    ensures d != [] && AllDigits(d)
  {
    if n < 10 then [48 + n] else Decimal(n / 10) + [48 + n % 10]
  }

  lemma {:induction false} ValueOfDecimal(n: nat)
    ensures Value(Decimal(n)) == n
  {
    if n >= 10 {
      ValueOfDecimal(n / 10);
      assert Decimal(n)[..|Decimal(n)| - 1] == Decimal(n / 10);
    } else {
      assert Decimal(n)[..0] == [];
    }
  }

  function Zeros(z: nat): (s: seq<byte>)
    ensures |s| == z && AllDigits(s)
  {
    if z == 0 then [] else [48] + Zeros(z - 1)
  }

  lemma {:induction false} ZerosDoNotCount(z: nat, digits: seq<byte>)
    requires AllDigits(digits)
    ensures Value(Zeros(z) + digits) == Value(digits)
    decreases |digits|, z
  {
    var d := Zeros(z) + digits;
    if digits != [] {
      assert d[..|d| - 1] == Zeros(z) + digits[..|digits| - 1];
      ZerosDoNotCount(z, digits[..|digits| - 1]);
    } else if z > 0 {
      ZeroAtTheEnd(z - 1);
      ZerosDoNotCount(z - 1, []);
      assert d == Zeros(z) && Zeros(z - 1) + [] == Zeros(z - 1);
    }
  }

  lemma {:induction false} ZeroAtTheEnd(z: nat)
    ensures Zeros(z + 1) == Zeros(z) + [48] && Value(Zeros(z + 1)) == 10 * Value(Zeros(z))
  {
    if z > 0 {
      ZeroAtTheEnd(z - 1);
    }
    assert Zeros(z + 1) == Zeros(z) + [48];
    assert Zeros(z + 1)[..z] == Zeros(z);
  }

  lemma DecimalGrows(w: nat, d: nat)
    requires d < 10
    ensures Decimal(10 * w + d) == if w == 0 then [48 + d] else Decimal(w) + [48 + d]
  {
    assert (10 * w + d) / 10 == w && (10 * w + d) % 10 == d;
  }

  // One more digit after a number that has already been written in decimal.
  lemma OneMoreDigit(z: nat, w: nat, d: nat) returns (z': nat)
    requires d < 10
    ensures Zeros(z) + Decimal(w) + [48 + d] == Zeros(z') + Decimal(10 * w + d)
  {
    z' := z;
    DecimalGrows(w, d);
    if w == 0 {
      ZeroAtTheEnd(z);
      z' := z + 1;
    } else {
      Regroup(Zeros(z), Decimal(w), [48 + d]);
    }
  }

  // A number in decimal, after any number of zeros.
  lemma {:induction false} DigitsAreDecimal(digits: seq<byte>) returns (z: nat)
    requires digits != [] && AllDigits(digits)
    ensures digits == Zeros(z) + Decimal(Value(digits))
  {
    var front, last := digits[..|digits| - 1], digits[|digits| - 1];
    assert digits == front + [last];
    if front == [] {
      z := 0;
      assert Zeros(0) + [last] == [last];
    } else {
      z := DigitsAreDecimal(front);
      z := OneMoreDigit(z, Value(front), DigitValue(last));
    }
  }

  // A number as it may be written: a plus sign or none, zeros or none, and the decimal digits.
  ghost predicate Writes(s: seq<byte>, n: nat) {
    exists z: nat :: s == Zeros(z) + Decimal(n) || s == [PLUS] + (Zeros(z) + Decimal(n))
  }

  lemma NumberIsRead(s: seq<byte>, z: nat, n: u16)
    requires s == Zeros(z) + Decimal(n) || s == [PLUS] + (Zeros(z) + Decimal(n))
    ensures ParseU16(s) == Some(n)
  {
    var digits := Zeros(z) + Decimal(n);
    ZerosDoNotCount(z, Decimal(n));
    ValueOfDecimal(n);
    assert IsDigit(digits[0]);
    assert WithoutPlus(s) == digits;
  }

  // Exactly the numbers of 16 bits are read, however they are written, and each as itself.
  lemma NumbersAreRead(s: seq<byte>, n: u16)
    ensures ParseU16(s) == Some(n) <==> Writes(s, n)
  {
    if ParseU16(s) == Some(n) {
      var digits := WithoutPlus(s);
      var z := DigitsAreDecimal(digits);
      assert s == digits || s == [PLUS] + digits;
    }
    if z: nat :| s == Zeros(z) + Decimal(n) || s == [PLUS] + (Zeros(z) + Decimal(n)) {
      NumberIsRead(s, z, n);
    }
  }

  // A line that starts with the protocol and has this number between its first two spaces, or after its only one.
  ghost predicate SpellsStatus(line: seq<byte>, version: seq<byte>, number: seq<byte>, reason: seq<byte>) {
    && line == version + [SPACE] + (number + reason) && HTTP_SLASH <= version
    && SPACE !in version && SPACE !in number && (reason != [] ==> reason[0] == SPACE)
  }

  lemma PartsOfStatus(line: seq<byte>, version: seq<byte>, number: seq<byte>, reason: seq<byte>)
    requires SpellsStatus(line, version, number, reason)
    ensures Before(line) == version && After(line) == Some(number + reason) && Before(number + reason) == number
  {
    FindFirst(version, number + reason, SPACE);
    FindInSum(number, reason, SPACE);
  }

  // Which lines have which status, in full.
  lemma StatusLinesAreRead(line: seq<byte>, code: u16)
    ensures ParseStatusLine(line) == Some(code)
       <==> exists version, number, reason :: SpellsStatus(line, version, number, reason) && Writes(number, code)
  {
    if ParseStatusLine(line) == Some(code) {
      var rest := After(line).value;
      var at := Find(rest, SPACE);
      NumbersAreRead(Before(rest), code);
      assert rest == Before(rest) + rest[at..];
      assert SpellsStatus(line, Before(line), Before(rest), rest[at..]);
    }
    if version, number, reason :| SpellsStatus(line, version, number, reason) && Writes(number, code) {
      PartsOfStatus(line, version, number, reason);
      NumbersAreRead(number, code);
    }
  }

  // A well-formed status line gives its code.
  lemma StatusLineIsRead(version: seq<byte>, code: u16, reason: seq<byte>)
    requires HTTP_SLASH <= version && SPACE !in version
    ensures ParseStatusLine(version + [SPACE] + (Decimal(code) + [SPACE] + reason)) == Some(code)
  {
    var digits := Decimal(code);
    var rest := digits + [SPACE] + reason;
    var line := version + [SPACE] + rest;
    FindFirst(version, rest, SPACE);
    FindFirst(digits, reason, SPACE);
    assert Before(line) == version && After(line) == Some(rest) && Before(rest) == digits;
    ValueOfDecimal(code);
  }
}
