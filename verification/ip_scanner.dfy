/** The pipelined scan of an IP list: two bounded task sets with a backlog between them. */
module IpScanner {
  import opened Wrappers

  const U64_MAX: nat := 0xFFFF_FFFF_FFFF_FFFF

  // The parts of a probe result that scheduling and ranking look at.
  datatype IpProbeEntry = IpProbeEntry(ip: IpAddr, tcpLatency: Option<nat>, score: nat)

  datatype IpScanEvent = TcpDone(tcpTested: nat) | ProbeComplete(entry: IpProbeEntry)

  // A target that answered the TCP probe after this many milliseconds.
  datatype Reached = Reached(ip: IpAddr, latency: nat)

  // How a spawned task ends: with its value, or by panicking or being cancelled.
  datatype Joined<T> = Finished(value: T) | Failed

  // A task the scheduler saw end, in either phase.
  datatype Completion = TcpJoined(ip: IpAddr, tcpMs: Joined<Option<nat>>) | TlsJoined(job: Reached, score: Joined<nat>)

  // What the next task to end does: which phase it is in if both have tasks, its place there, and its
  // result in either phase.
  datatype Ending = Ending(tcpFirst: bool, at: nat, tcp: Joined<Option<nat>>, tls: Joined<nat>)

  // ---- ranking ----

  function LatencyKey(e: IpProbeEntry): nat { if e.tcpLatency.Some? then e.tcpLatency.value else U64_MAX }

  // a may stand before b: higher score first, then lower latency.
  predicate NotAfter(a: IpProbeEntry, b: IpProbeEntry) {
    a.score > b.score || (a.score == b.score && LatencyKey(a) <= LatencyKey(b))
  }

  predicate Ranked(s: seq<IpProbeEntry>) {
    forall i, j :: 0 <= i < j < |s| ==> NotAfter(s[i], s[j])
  }

  function Insert(s: seq<IpProbeEntry>, e: IpProbeEntry): (r: seq<IpProbeEntry>)
    ensures |r| == |s| + 1
  {
    if s == [] then [e]
    else if NotAfter(s[|s| - 1], e) then s + [e]
    else Insert(s[..|s| - 1], e) + [s[|s| - 1]]
  }

  // The library's stable sort by score descending, then latency ascending.
  function Sorted(s: seq<IpProbeEntry>): (r: seq<IpProbeEntry>)
    ensures |r| == |s|
  {
    if s == [] then [] else Insert(Sorted(s[..|s| - 1]), s[|s| - 1])
  }

  lemma {:induction false} InsertKeepsRanking(s: seq<IpProbeEntry>, e: IpProbeEntry)
    requires Ranked(s)
    ensures Ranked(Insert(s, e))
  {
    if s != [] && !NotAfter(s[|s| - 1], e) {
      var front, last := s[..|s| - 1], s[|s| - 1];
      InsertKeepsRanking(front, e);
      InsertAdds(front, e);
      var r := Insert(front, e);
      forall i | 0 <= i < |r| ensures NotAfter(r[i], last) {
        assert r[i] in multiset(front) + multiset{e};
        assert r[i] == e || r[i] in front;
      }
    }
  }

  lemma {:induction false} InsertAdds(s: seq<IpProbeEntry>, e: IpProbeEntry)
    ensures multiset(Insert(s, e)) == multiset(s) + multiset{e}
  {
    if s != [] && !NotAfter(s[|s| - 1], e) {
      InsertAdds(s[..|s| - 1], e);
      assert s == s[..|s| - 1] + [s[|s| - 1]];
    }
  }

  lemma {:induction false} SortedIsRanked(s: seq<IpProbeEntry>)
    ensures Ranked(Sorted(s)) && multiset(Sorted(s)) == multiset(s)
  {
    if s != [] {
      var front, last := s[..|s| - 1], s[|s| - 1];
      assert s == front + [last];
      SortedIsRanked(front);
      InsertKeepsRanking(Sorted(front), last);
      InsertAdds(Sorted(front), last);
    }
  }

  // Higher scores come first; among equal scores the lower latency does, and an unknown latency counts as
  // the largest 64-bit number.
  lemma RankingIsByScoreThenLatency(s: seq<IpProbeEntry>, i: nat, j: nat)
    requires i < j < |s|
    ensures var a, b := Sorted(s)[i], Sorted(s)[j];
            && a.score >= b.score
            && (a.score == b.score && a.tcpLatency.Some? && b.tcpLatency.Some? ==>
                  a.tcpLatency.value <= b.tcpLatency.value)
            && (a.score == b.score && a.tcpLatency.None? && b.tcpLatency.Some? ==> U64_MAX <= b.tcpLatency.value)
            && (a.score == b.score && a.tcpLatency.Some? && b.tcpLatency.None? ==> a.tcpLatency.value <= U64_MAX)
  {
    SortedIsRanked(s);
    assert NotAfter(Sorted(s)[i], Sorted(s)[j]);
  }

  predicate Ties(a: IpProbeEntry, b: IpProbeEntry) { a.score == b.score && LatencyKey(a) == LatencyKey(b) }

  function TiedWith(s: seq<IpProbeEntry>, e: IpProbeEntry): seq<IpProbeEntry> {
    if s == [] then []
    else TiedWith(s[..|s| - 1], e) + (if Ties(s[|s| - 1], e) then [s[|s| - 1]] else [])
  }

  lemma {:induction false} InsertKeepsTies(s: seq<IpProbeEntry>, x: IpProbeEntry, e: IpProbeEntry)
    requires Ranked(s)
    ensures TiedWith(Insert(s, x), e) == TiedWith(s, e) + (if Ties(x, e) then [x] else [])
  {
    if s != [] && !NotAfter(s[|s| - 1], x) {
      var front, last := s[..|s| - 1], s[|s| - 1];
      InsertKeepsTies(front, x, e);
      assert Insert(s, x)[..|Insert(s, x)| - 1] == Insert(front, x);
    } else {
      assert Insert(s, x)[..|Insert(s, x)| - 1] == s;
    }
  }

  // Entries that tie keep the order in which they were found.
  lemma {:induction false} SortIsStable(s: seq<IpProbeEntry>, e: IpProbeEntry)
    ensures TiedWith(Sorted(s), e) == TiedWith(s, e)
  {
    if s != [] {
      SortIsStable(s[..|s| - 1], e);
      SortedIsRanked(s[..|s| - 1]);
      InsertKeepsTies(Sorted(s[..|s| - 1]), s[|s| - 1], e);
    }
  }

  // ---- what a history of completions amounts to ----

  function EntryIp(e: IpProbeEntry): IpAddr { e.ip }

  function ReachedIp(r: Reached): IpAddr { r.ip }

  function Mapped<A, B>(f: A -> B, s: seq<A>): (r: seq<B>)
    ensures |r| == |s| && forall i :: 0 <= i < |s| ==> r[i] == f(s[i])
  {
    seq(|s|, i requires 0 <= i < |s| => f(s[i]))
  }

  function Without<T>(s: seq<T>, i: nat): seq<T>
    requires i < |s|
  {
    s[..i] + s[i + 1..]
  }

  // What one completion contributes: the address whose TCP probe ended, the job handed to the
  // TLS phase, the job whose TLS probe ended, the address whose task failed, and the result.
  function TcpBy(c: Completion): seq<IpAddr> { if c.TcpJoined? then [c.ip] else [] }

  function HandedBy(c: Completion): seq<Reached> {
    match c
    case TcpJoined(ip, Finished(Some(ms))) => [Reached(ip, ms)]
    case _ => []
  }

  function ProbedBy(c: Completion): seq<Reached> { if c.TlsJoined? then [c.job] else [] }

  function LostBy(c: Completion): seq<IpAddr> {
    match c
    case TcpJoined(ip, Failed) => [ip]
    case TlsJoined(job, Failed) => [job.ip]
    case _ => []
  }

  function ResultBy(c: Completion, failedScore: nat): seq<IpProbeEntry> {
    match c
    case TcpJoined(ip, Finished(None)) => [IpProbeEntry(ip, None, failedScore)]
    case TlsJoined(job, Finished(score)) => [IpProbeEntry(job.ip, Some(job.latency), score)]
    case _ => []
  }

  function TcpIps(log: seq<Completion>): seq<IpAddr> {
    if log == [] then [] else TcpIps(log[..|log| - 1]) + TcpBy(log[|log| - 1])
  }

  function Handed(log: seq<Completion>): seq<Reached> {
    if log == [] then [] else Handed(log[..|log| - 1]) + HandedBy(log[|log| - 1])
  }

  function Probed(log: seq<Completion>): seq<Reached> {
    if log == [] then [] else Probed(log[..|log| - 1]) + ProbedBy(log[|log| - 1])
  }

  function Lost(log: seq<Completion>): seq<IpAddr> {
    if log == [] then [] else Lost(log[..|log| - 1]) + LostBy(log[|log| - 1])
  }

  function Results(log: seq<Completion>, failedScore: nat): seq<IpProbeEntry> {
    if log == [] then [] else Results(log[..|log| - 1], failedScore) + ResultBy(log[|log| - 1], failedScore)
  }

  // How many TCP probes ran to their end.
  function TcpTested(log: seq<Completion>): nat {
    if log == [] then 0
    else
      var c := log[|log| - 1];
      TcpTested(log[..|log| - 1]) + (if c.TcpJoined? && c.tcpMs.Finished? then 1 else 0)
  }

  // What one completion sends, after `tested` TCP probes ran to their end.
  function EventBy(c: Completion, tested: nat): seq<IpScanEvent> {
    match c
    case TcpJoined(_, Finished(_)) => [TcpDone(tested + 1)]
    case TlsJoined(job, Finished(score)) => [ProbeComplete(IpProbeEntry(job.ip, Some(job.latency), score))]
    case _ => []
  }

  function Events(log: seq<Completion>): seq<IpScanEvent> {
    if log == [] then []
    else Events(log[..|log| - 1]) + EventBy(log[|log| - 1], TcpTested(log[..|log| - 1]))
  }

  // Every address was tried once, and every job was probed once, after it was handed over.
  ghost predicate Covers(log: seq<Completion>, ips: seq<IpAddr>) {
    && multiset(TcpIps(log)) == multiset(ips)
    && multiset(Probed(log)) == multiset(Handed(log))
    && Causal(log)
  }

  ghost predicate Causal(log: seq<Completion>) {
    forall k :: 0 <= k <= |log| ==> multiset(Probed(log[..k])) <= multiset(Handed(log[..k]))
  }

  lemma WithoutLosesOne<T>(s: seq<T>, i: nat)
    requires i < |s|
    ensures multiset(s) == multiset(Without(s, i)) + multiset{s[i]} && |Without(s, i)| == |s| - 1
  {
    assert s == s[..i] + [s[i]] + s[i + 1..];
  }

  lemma MappedOfSum<A, B>(f: A -> B, s: seq<A>, t: seq<A>)
    ensures Mapped(f, s + t) == Mapped(f, s) + Mapped(f, t)
  {}

  lemma MappedLosesOne<A, B>(f: A -> B, s: seq<A>, i: nat)
    requires i < |s|
    ensures multiset(Mapped(f, s)) == multiset(Mapped(f, Without(s, i))) + multiset{f(s[i])}
  {
    assert Mapped(f, Without(s, i)) == Without(Mapped(f, s), i);
    WithoutLosesOne(Mapped(f, s), i);
  }

  lemma {:induction false} SameElementsMapToSame<A, B>(f: A -> B, s: seq<A>, t: seq<A>)
    requires multiset(s) == multiset(t)
    ensures multiset(Mapped(f, s)) == multiset(Mapped(f, t))
    decreases |s|
  {
    if s == [] {
      assert |t| == |multiset(t)| == 0;
    } else {
      assert s[0] in multiset(t);
      var i: nat :| i < |t| && t[i] == s[0];
      WithoutLosesOne(s, 0);
      WithoutLosesOne(t, i);
      assert multiset(Without(s, 0)) == multiset(s) - multiset{s[0]} == multiset(Without(t, i));
      SameElementsMapToSame(f, Without(s, 0), Without(t, i));
      MappedLosesOne(f, s, 0);
      MappedLosesOne(f, t, i);
    }
  }

  lemma OneBalances(c: Completion, failedScore: nat, x: IpAddr)
    ensures multiset(Mapped(EntryIp, ResultBy(c, failedScore)))[x] + multiset(LostBy(c))[x]
            + multiset(Mapped(ReachedIp, HandedBy(c)))[x]
         == multiset(TcpBy(c))[x] + multiset(Mapped(ReachedIp, ProbedBy(c)))[x]
  {
    match c
    case TcpJoined(ip, Finished(None)) =>
      assert Mapped(EntryIp, ResultBy(c, failedScore)) == [ip];
    case TcpJoined(ip, Finished(Some(ms))) =>
      assert Mapped(ReachedIp, HandedBy(c)) == [ip];
    case TcpJoined(ip, Failed) =>
    case TlsJoined(job, Finished(score)) =>
      assert Mapped(EntryIp, ResultBy(c, failedScore)) == [job.ip] == Mapped(ReachedIp, ProbedBy(c));
    case TlsJoined(job, Failed) =>
      assert Mapped(ReachedIp, ProbedBy(c)) == [job.ip];
  }

  lemma {:induction false} AddressesBalance(log: seq<Completion>, failedScore: nat, x: IpAddr)
    ensures multiset(Mapped(EntryIp, Results(log, failedScore)))[x] + multiset(Lost(log))[x]
            + multiset(Mapped(ReachedIp, Handed(log)))[x]
         == multiset(TcpIps(log))[x] + multiset(Mapped(ReachedIp, Probed(log)))[x]
  {
    if log != [] {
      var front, c := log[..|log| - 1], log[|log| - 1];
      AddressesBalance(front, failedScore, x);
      OneBalances(c, failedScore, x);
      MappedOfSum(EntryIp, Results(front, failedScore), ResultBy(c, failedScore));
      MappedOfSum(ReachedIp, Handed(front), HandedBy(c));
      MappedOfSum(ReachedIp, Probed(front), ProbedBy(c));
    }
  }

  // Nothing is dropped or doubled: the ranked results and the failed tasks make up the input.
  lemma EveryAddressIsAccountedFor(log: seq<Completion>, ips: seq<IpAddr>, failedScore: nat)
    requires Covers(log, ips)
    ensures multiset(Mapped(EntryIp, Sorted(Results(log, failedScore)))) + multiset(Lost(log)) == multiset(ips)
  {
    var found := Results(log, failedScore);
    SortedIsRanked(found);
    SameElementsMapToSame(EntryIp, Sorted(found), found);
    SameElementsMapToSame(ReachedIp, Probed(log), Handed(log));
    forall x ensures (multiset(Mapped(EntryIp, Sorted(found))) + multiset(Lost(log)))[x] == multiset(ips)[x] {
      AddressesBalance(log, failedScore, x);
    }
  }

  lemma {:induction false} LostIffFailed(log: seq<Completion>)
    ensures Lost(log) == []
       <==> forall c :: c in log ==> (c.TcpJoined? ==> c.tcpMs.Finished?) && (c.TlsJoined? ==> c.score.Finished?)
  {
    if log != [] {
      var front, c := log[..|log| - 1], log[|log| - 1];
      LostIffFailed(front);
      assert log == front + [c];
    }
  }

  ghost function Times<T>(s: seq<T>, x: T): nat {
    if s == [] then 0 else Times(s[..|s| - 1], x) + (if s[|s| - 1] == x then 1 else 0)
  }

  lemma {:induction false} TimesIsMultiplicity<T>(s: seq<T>, x: T)
    ensures Times(s, x) == multiset(s)[x]
  {
    if s != [] {
      TimesIsMultiplicity(s[..|s| - 1], x);
      assert s == s[..|s| - 1] + [s[|s| - 1]];
    }
  }

  lemma TimesOfSum<T>(s: seq<T>, t: seq<T>, x: T)
    ensures Times(s + t, x) == Times(s, x) + Times(t, x)
  {
    TimesIsMultiplicity(s + t, x);
    TimesIsMultiplicity(s, x);
    TimesIsMultiplicity(t, x);
  }

  // ---- where the results come from ----

  // The job behind a result, if its target was reached.
  function JobOf(e: IpProbeEntry): Option<Reached> {
    match e.tcpLatency
    case Some(ms) => Some(Reached(e.ip, ms))
    case None => None
  }

  // A result with a latency comes from a TLS probe of that very job, one without from a TCP probe that did
  // not reach the address.
  lemma {:induction false} ResultsAreCounted(log: seq<Completion>, failedScore: nat, ip: IpAddr, ms: nat, score: nat)
    ensures Times(Results(log, failedScore), IpProbeEntry(ip, Some(ms), score))
         == Times(log, TlsJoined(Reached(ip, ms), Finished(score)))
    ensures Times(Results(log, failedScore), IpProbeEntry(ip, None, score))
         == if score == failedScore then Times(log, TcpJoined(ip, Finished(None))) else 0
  {
    if log != [] {
      var front, c := log[..|log| - 1], log[|log| - 1];
      ResultsAreCounted(front, failedScore, ip, ms, score);
      TimesOfSum(Results(front, failedScore), ResultBy(c, failedScore), IpProbeEntry(ip, Some(ms), score));
      TimesOfSum(Results(front, failedScore), ResultBy(c, failedScore), IpProbeEntry(ip, None, score));
      OneIsCounted(c, failedScore, ip, ms, score);
    }
  }

  lemma OneIsCounted(c: Completion, failedScore: nat, ip: IpAddr, ms: nat, score: nat)
    ensures Times(ResultBy(c, failedScore), IpProbeEntry(ip, Some(ms), score))
         == if c == TlsJoined(Reached(ip, ms), Finished(score)) then 1 else 0
    ensures Times(ResultBy(c, failedScore), IpProbeEntry(ip, None, score))
         == if score == failedScore && c == TcpJoined(ip, Finished(None)) then 1 else 0
  {
    TimesInOne(ResultBy(c, failedScore), IpProbeEntry(ip, Some(ms), score));
    TimesInOne(ResultBy(c, failedScore), IpProbeEntry(ip, None, score));
  }

  lemma TimesInOne<T>(s: seq<T>, x: T)
    requires |s| <= 1
    ensures Times(s, x) == if s == [x] then 1 else 0
  {
    assert s != [] ==> s[..0] == [];
  }

  // The jobs handed over are the addresses that were reached, each with the latency measured for it.
  lemma {:induction false} HandedAreMeasured(log: seq<Completion>, ip: IpAddr, ms: nat)
    ensures Times(Handed(log), Reached(ip, ms)) == Times(log, TcpJoined(ip, Finished(Some(ms))))
  {
    if log != [] {
      var front, c := log[..|log| - 1], log[|log| - 1];
      HandedAreMeasured(front, ip, ms);
      TimesOfSum(Handed(front), HandedBy(c), Reached(ip, ms));
      TimesInOne(HandedBy(c), Reached(ip, ms));
    }
  }

  lemma {:induction false} ProbedJobsEnd(log: seq<Completion>, failedScore: nat, job: Reached)
    ensures Times(Mapped(JobOf, Results(log, failedScore)), Some(job)) + Times(log, TlsJoined(job, Failed))
         == Times(Probed(log), job)
  {
    if log != [] {
      var front, c := log[..|log| - 1], log[|log| - 1];
      var results := ResultBy(c, failedScore);
      ProbedJobsEnd(front, failedScore, job);
      MappedOfSum(JobOf, Results(front, failedScore), results);
      TimesOfSum(Mapped(JobOf, Results(front, failedScore)), Mapped(JobOf, results), Some(job));
      TimesOfSum(Probed(front), ProbedBy(c), job);
      OneJobEnds(c, failedScore, job);
    }
  }

  lemma OneJobEnds(c: Completion, failedScore: nat, job: Reached)
    ensures Times(Mapped(JobOf, ResultBy(c, failedScore)), Some(job)) + (if c == TlsJoined(job, Failed) then 1 else 0)
         == Times(ProbedBy(c), job)
  {
    TimesInOne(Mapped(JobOf, ResultBy(c, failedScore)), Some(job));
    TimesInOne(ProbedBy(c), job);
    match c
    case TcpJoined(ip, Finished(None)) =>
      assert Mapped(JobOf, ResultBy(c, failedScore)) == [None];
    case TlsJoined(done, Finished(score)) =>
      assert Mapped(JobOf, ResultBy(c, failedScore)) == [Some(done)];
    case _ =>
  }

  // Each measured latency is reported as often as it was measured, up to the TLS probes that failed.
  lemma LatenciesAreMeasured(log: seq<Completion>, ips: seq<IpAddr>, failedScore: nat, ip: IpAddr, ms: nat)
    requires Covers(log, ips)
    ensures multiset(Mapped(JobOf, Sorted(Results(log, failedScore))))[Some(Reached(ip, ms))]
            + multiset(log)[TlsJoined(Reached(ip, ms), Failed)]
         == multiset(log)[TcpJoined(ip, Finished(Some(ms)))]
  {
    var found, job := Results(log, failedScore), Reached(ip, ms);
    SortedIsRanked(found);
    SameElementsMapToSame(JobOf, Sorted(found), found);
    ProbedJobsEnd(log, failedScore, job);
    HandedAreMeasured(log, ip, ms);
    TimesIsMultiplicity(Mapped(JobOf, found), Some(job));
    TimesIsMultiplicity(Probed(log), job);
    TimesIsMultiplicity(Handed(log), job);
    TimesIsMultiplicity(log, TlsJoined(job, Failed));
    TimesIsMultiplicity(log, TcpJoined(ip, Finished(Some(ms))));
  }

  // Every result has the score its TLS probe ended with and the latency its own TCP probe measured; an
  // address that was not reached has the failed score and no latency.
  lemma EveryResultWasMeasured(log: seq<Completion>, ips: seq<IpAddr>, failedScore: nat, e: IpProbeEntry)
    requires Covers(log, ips) && e in Sorted(Results(log, failedScore))
    ensures e.tcpLatency.Some? ==>
              && TcpJoined(e.ip, Finished(e.tcpLatency)) in log
              && TlsJoined(Reached(e.ip, e.tcpLatency.value), Finished(e.score)) in log
    ensures e.tcpLatency.None? ==> e.score == failedScore && TcpJoined(e.ip, Finished(None)) in log
  {
    var found := Results(log, failedScore);
    SortedIsRanked(found);
    assert e in multiset(Sorted(found));
    TimesIsMultiplicity(found, e);
    var ms := if e.tcpLatency.Some? then e.tcpLatency.value else 0;
    ResultsAreCounted(log, failedScore, e.ip, ms, e.score);
    if e.tcpLatency.Some? {
      TimesIsMultiplicity(log, TlsJoined(Reached(e.ip, ms), Finished(e.score)));
      JobsWereMeasured(log, ips, e.ip, ms, TlsJoined(Reached(e.ip, ms), Finished(e.score)));
    } else {
      TimesIsMultiplicity(log, TcpJoined(e.ip, Finished(None)));
    }
  }

  lemma {:induction false} JoinedIsProbed(log: seq<Completion>, c: Completion)
    requires c in log && c.TlsJoined?
    ensures c.job in Probed(log)
  {
    var front, last := log[..|log| - 1], log[|log| - 1];
    assert log == front + [last];
    if c in front {
      JoinedIsProbed(front, c);
    }
  }

  lemma JobsWereMeasured(log: seq<Completion>, ips: seq<IpAddr>, ip: IpAddr, ms: nat, c: Completion)
    requires Covers(log, ips) && c in log && c.TlsJoined? && c.job == Reached(ip, ms)
    ensures TcpJoined(ip, Finished(Some(ms))) in log
  {
    JoinedIsProbed(log, c);
    assert c.job in multiset(Probed(log));
    TimesIsMultiplicity(Handed(log), c.job);
    HandedAreMeasured(log, ip, ms);
    TimesIsMultiplicity(log, TcpJoined(ip, Finished(Some(ms))));
  }

  function TcpCounts(events: seq<IpScanEvent>): seq<nat> {
    if events == [] then []
    else
      var e := events[|events| - 1];
      TcpCounts(events[..|events| - 1]) + (if e.TcpDone? then [e.tcpTested] else [])
  }

  function Announced(events: seq<IpScanEvent>): seq<IpProbeEntry> {
    if events == [] then []
    else
      var e := events[|events| - 1];
      Announced(events[..|events| - 1]) + (if e.ProbeComplete? then [e.entry] else [])
  }

  function WithLatency(s: seq<IpProbeEntry>): seq<IpProbeEntry> {
    if s == [] then []
    else WithLatency(s[..|s| - 1]) + (if s[|s| - 1].tcpLatency.Some? then [s[|s| - 1]] else [])
  }

  lemma EventsGrow(events: seq<IpScanEvent>, more: seq<IpScanEvent>)
    requires |more| <= 1
    ensures TcpCounts(events + more) == TcpCounts(events) + TcpCounts(more)
    ensures Announced(events + more) == Announced(events) + Announced(more)
  {
    if more == [] {
      assert events + more == events;
    } else {
      assert (events + more)[..|events|] == events;
    }
  }

  lemma WithLatencyGrows(s: seq<IpProbeEntry>, more: seq<IpProbeEntry>)
    requires |more| <= 1
    ensures WithLatency(s + more) == WithLatency(s) + WithLatency(more)
  {
    if more == [] {
      assert s + more == s;
    } else {
      assert (s + more)[..|s|] == s;
    }
  }

  // The counter reaches the number of addresses when no task fails.
  lemma {:induction false} AllAreTested(log: seq<Completion>)
    ensures TcpTested(log) <= |TcpIps(log)|
    ensures Lost(log) == [] ==> TcpTested(log) == |TcpIps(log)|
  {
    if log != [] {
      AllAreTested(log[..|log| - 1]);
    }
  }

  // The progress counter runs 1, 2, 3, ... without a gap.
  lemma {:induction false} CounterRunsUp(log: seq<Completion>)
    ensures |TcpCounts(Events(log))| == TcpTested(log)
    ensures forall i :: 0 <= i < TcpTested(log) ==> TcpCounts(Events(log))[i] == i + 1
  {
    if log != [] {
      var front := log[..|log| - 1];
      CounterRunsUp(front);
      EventsGrow(Events(front), EventBy(log[|log| - 1], TcpTested(front)));
    }
  }

  // Exactly the results that reached the TLS phase are announced, in the order they came in.
  lemma {:induction false} TlsResultsAreAnnounced(log: seq<Completion>, failedScore: nat)
    ensures Announced(Events(log)) == WithLatency(Results(log, failedScore))
  {
    if log != [] {
      var front, c := log[..|log| - 1], log[|log| - 1];
      TlsResultsAreAnnounced(front, failedScore);
      EventsGrow(Events(front), EventBy(c, TcpTested(front)));
      WithLatencyGrows(Results(front, failedScore), ResultBy(c, failedScore));
      OneIsAnnounced(c, TcpTested(front), failedScore);
    }
  }

  lemma OneIsAnnounced(c: Completion, tested: nat, failedScore: nat)
    ensures Announced(EventBy(c, tested)) == WithLatency(ResultBy(c, failedScore))
  {
    var events, results := EventBy(c, tested), ResultBy(c, failedScore);
    assert events != [] ==> events[..0] == [];
    assert results != [] ==> results[..0] == [];
  }

  lemma CausalGrows(log: seq<Completion>, c: Completion)
    requires Causal(log) && multiset(Probed(log + [c])) <= multiset(Handed(log + [c]))
    ensures Causal(log + [c])
  {
    forall k | 0 <= k <= |log + [c]|
      ensures multiset(Probed((log + [c])[..k])) <= multiset(Handed((log + [c])[..k]))
    {
      if k <= |log| {
        assert (log + [c])[..k] == log[..k];
      } else {
        assert (log + [c])[..k] == log + [c];
      }
    }
  }

  // ---- scheduling ----

  function WorkOf(left: int, p1: int, pending: int, p2: int): int { 4 * left + 3 * p1 + 2 * pending + p2 }

  ghost predicate InBounds(p1: int, pending: int, p2: int, p1Limit: int, p2Limit: int) {
    p1 <= p1Limit && p2 <= p2Limit && p1 + pending <= p1Limit + p2Limit - 1
  }

  // The sizes of the three stages and of the input that is left, whenever the scheduler waits.
  datatype Round = Round(left: nat, p1: nat, pending: nat, p2: nat) {
    function Work(): nat { WorkOf(left, p1, pending, p2) }
  }

  // Neither task set has room for a task that could start.
  predicate Filled(r: Round, p1Limit: nat, p2Limit: nat) {
    && (r.p2 == p2Limit || r.pending == 0)
    && (r.p1 == p1Limit || r.pending >= p2Limit || r.left == 0)
  }

  // The sizes account for every address and every job after these completions.
  ghost predicate Accounts(r: Round, ips: seq<IpAddr>, log: seq<Completion>) {
    && r.left + r.p1 + |TcpIps(log)| == |ips|
    && r.pending + r.p2 + |Probed(log)| == |Handed(log)|
  }

  ghost predicate IsRound(r: Round, ips: seq<IpAddr>, log: seq<Completion>, p1Limit: nat, p2Limit: nat) {
    && InBounds(r.p1, r.pending, r.p2, p1Limit, p2Limit) && r.p1 + r.p2 > 0
    && Filled(r, p1Limit, p2Limit) && Accounts(r, ips, log)
  }

  // The scheduler waits once for every completion, and only while some task can finish; it keeps within
  // its limits, leaves no room unused, and has less work left at every round.
  ghost predicate Progresses(rounds: seq<Round>, ips: seq<IpAddr>, log: seq<Completion>, p1Limit: nat, p2Limit: nat) {
    && |rounds| == |log|
    && (rounds == []
        || (var n := |rounds| - 1;
            && Progresses(rounds[..n], ips, log[..n], p1Limit, p2Limit)
            && IsRound(rounds[n], ips, log[..n], p1Limit, p2Limit)
            && (n > 0 ==> rounds[n].Work() < rounds[n - 1].Work())))
  }

  lemma PrefixOfPrefix<T>(s: seq<T>, n: nat, k: nat)
    requires k <= n <= |s|
    ensures s[..n][..k] == s[..k] && forall i :: 0 <= i < k ==> s[..n][i] == s[i]
  {}

  // The round before completion number k, which came after the first k.
  lemma {:induction false} RoundNumber(rounds: seq<Round>, ips: seq<IpAddr>, log: seq<Completion>, p1Limit: nat,
                                       p2Limit: nat, k: nat, first: seq<Completion>)
    requires Progresses(rounds, ips, log, p1Limit, p2Limit) && k < |rounds| && first == log[..k]
    ensures IsRound(rounds[k], ips, first, p1Limit, p2Limit)
    ensures k > 0 ==> rounds[k].Work() < rounds[k - 1].Work()
  {
    var n := |rounds| - 1;
    if k < n {
      PrefixOfPrefix(log, n, k);
      PrefixOfPrefix(rounds, n, k + 1);
      RoundNumber(rounds[..n], ips, log[..n], p1Limit, p2Limit, k, first);
    }
  }

  // The rounds so far, with less work left now than at the last of them.
  ghost predicate Paced(rounds: seq<Round>, ips: seq<IpAddr>, log: seq<Completion>, p1Limit: nat, p2Limit: nat,
                        work: int)
  {
    Progresses(rounds, ips, log, p1Limit, p2Limit) && (rounds != [] ==> work < rounds[|rounds| - 1].Work())
  }

  lemma RoundsGrow(rounds: seq<Round>, r: Round, ips: seq<IpAddr>, log: seq<Completion>, c: Completion,
                   p1Limit: nat, p2Limit: nat, before: int, after: int)
    requires Paced(rounds, ips, log, p1Limit, p2Limit, before) && after < r.Work() <= before
    requires IsRound(r, ips, log, p1Limit, p2Limit)
    ensures Paced(rounds + [r], ips, log + [c], p1Limit, p2Limit, after)
  {
    assert (log + [c])[..|log|] == log && (rounds + [r])[..|rounds|] == rounds;
  }

  function AtLeastOne(limit: nat): (r: nat)
    ensures r >= 1 && r >= limit && (r == limit || r == 1)
  {
    if limit == 0 then 1 else limit
  }

  // Each completion ended as its task was going to.
  ghost predicate Follows(log: seq<Completion>, ends: nat -> Ending) {
    forall k :: 0 <= k < |log| ==>
      match log[k]
      case TcpJoined(_, result) => result == ends(k).tcp
      case TlsJoined(_, result) => result == ends(k).tls
  }

  /** Starts TLS probes from the front of the backlog while there is room. */
  method FillP2(pending: seq<Reached>, p2: seq<Reached>, p2Limit: nat)
    returns (pending': seq<Reached>, p2': seq<Reached>)
    requires |p2| <= p2Limit
    ensures |pending'| + |p2'| == |pending| + |p2| && |p2| <= |p2'| <= p2Limit
    ensures p2' == p2 + pending[..|pending| - |pending'|] && pending' == pending[|pending| - |pending'|..]
    ensures |p2'| == p2Limit || pending' == []
  {
    pending', p2' := pending, p2;
    while |p2'| < p2Limit && pending' != []
      invariant |pending'| <= |pending| && |p2'| <= p2Limit
      invariant p2' == p2 + pending[..|pending| - |pending'|] && pending' == pending[|pending| - |pending'|..]
    {
      p2' := p2' + [pending'[0]];
      pending' := pending'[1..];
    }
  }

  /** Starts TCP probes from the input while there is room and the backlog is short. */
  method FillP1(ips: seq<IpAddr>, next: nat, p1: seq<IpAddr>, backlog: nat, p1Limit: nat, p2Limit: nat)
    returns (next': nat, p1': seq<IpAddr>)
    requires next <= |ips| && |p1| <= p1Limit
    ensures next <= next' <= |ips| && p1' == p1 + ips[next..next'] && |p1'| <= p1Limit
    ensures |p1'| - |p1| == next' - next
    ensures backlog >= p2Limit ==> next' == next
    ensures |p1'| == p1Limit || backlog >= p2Limit || next' == |ips|
  {
    next', p1' := next, p1;
    while |p1'| < p1Limit && backlog < p2Limit && next' < |ips|
      invariant next <= next' <= |ips| && |p1'| <= p1Limit && p1' == p1 + ips[next..next']
      invariant backlog >= p2Limit ==> next' == next
    {
      p1' := p1' + [ips[next']];
      next' := next' + 1;
    }
  }

  // Three holders together have what a fourth has.
  ghost predicate Shared<T(!new)>(a: seq<T>, b: seq<T>, c: seq<T>, whole: seq<T>) {
    forall x :: Times(a, x) + Times(b, x) + Times(c, x) == Times(whole, x)
  }

  // Where each address is while the scheduler runs.
  ghost predicate Held(ips: seq<IpAddr>, next: nat, p1: seq<IpAddr>, pending: seq<Reached>, p2: seq<Reached>,
                       log: seq<Completion>)
  {
    next <= |ips| && Shared(TcpIps(log), p1, ips[next..], ips) && Shared(Probed(log), p2, pending, Handed(log))
  }

  // Handing the first k elements of c over to b.
  lemma HandOver<T(!new)>(a: seq<T>, b: seq<T>, c: seq<T>, whole: seq<T>, k: nat)
    requires Shared(a, b, c, whole) && k <= |c|
    ensures Shared(a, b + c[..k], c[k..], whole)
  {
    forall x ensures Times(a, x) + Times(b + c[..k], x) + Times(c[k..], x) == Times(whole, x) {
      TimesOfSum(b, c[..k], x);
      assert c == c[..k] + c[k..];
      TimesOfSum(c[..k], c[k..], x);
    }
  }

  // A task set gives up one of its tasks, whichever it is, or none.
  ghost predicate Taken<T>(s: seq<T>, s': seq<T>, taken: seq<T>) {
    (taken == [] && s' == s) || exists i: nat :: i < |s| && taken == [s[i]] && s' == Without(s, i)
  }

  lemma TakenTimes<T>(s: seq<T>, s': seq<T>, taken: seq<T>, x: T)
    requires Taken(s, s', taken)
    ensures Times(s, x) == Times(s', x) + Times(taken, x)
  {
    if taken != [] {
      var i: nat :| i < |s| && taken == [s[i]] && s' == Without(s, i);
      WithoutLosesOne(s, i);
      TimesIsMultiplicity(s, x);
      TimesIsMultiplicity(s', x);
    }
  }

  // Moving `done` from b to a while `more` joins both c and the whole.
  lemma TakeIn<T(!new)>(a: seq<T>, b: seq<T>, c: seq<T>, whole: seq<T>, b': seq<T>, done: seq<T>, more: seq<T>)
    requires Shared(a, b, c, whole) && Taken(b, b', done)
    ensures Shared(a + done, b', c + more, whole + more)
  {
    forall x ensures Times(a + done, x) + Times(b', x) + Times(c + more, x) == Times(whole + more, x) {
      TakenTimes(b, b', done, x);
      TimesOfSum(a, done, x);
      TimesOfSum(c, more, x);
      TimesOfSum(whole, more, x);
    }
  }

  lemma PartOfWhole<T(!new)>(a: seq<T>, b: seq<T>, c: seq<T>, whole: seq<T>)
    requires Shared(a, b, c, whole)
    ensures multiset(a) <= multiset(whole)
    ensures b == [] && c == [] ==> multiset(a) == multiset(whole)
  {
    forall x
      ensures multiset(a)[x] <= multiset(whole)[x] && (b == [] && c == [] ==> multiset(a)[x] == multiset(whole)[x])
    {
      TimesIsMultiplicity(a, x);
      TimesIsMultiplicity(whole, x);
    }
  }

  lemma LengthsAdd<T(!new)>(a: seq<T>, b: seq<T>, c: seq<T>, whole: seq<T>)
    requires Shared(a, b, c, whole)
    ensures |a| + |b| + |c| == |whole|
  {
    forall x ensures multiset(a + b + c)[x] == multiset(whole)[x] {
      TimesOfSum(a + b, c, x);
      TimesOfSum(a, b, x);
      TimesIsMultiplicity(a + b + c, x);
      TimesIsMultiplicity(whole, x);
    }
    assert multiset(a + b + c) == multiset(whole);
    assert |a + b + c| == |multiset(whole)| == |whole|;
  }

  lemma HeldAccounts(ips: seq<IpAddr>, next: nat, p1: seq<IpAddr>, pending: seq<Reached>, p2: seq<Reached>,
                     log: seq<Completion>)
    requires Held(ips, next, p1, pending, p2, log)
    ensures Accounts(Round(|ips| - next, |p1|, |pending|, |p2|), ips, log)
  {
    LengthsAdd(TcpIps(log), p1, ips[next..], ips);
    LengthsAdd(Probed(log), p2, pending, Handed(log));
  }

  lemma FillsHold(ips: seq<IpAddr>, next: nat, p1: seq<IpAddr>, pending: seq<Reached>, p2: seq<Reached>,
                  log: seq<Completion>, next': nat, moved: nat)
    requires Held(ips, next, p1, pending, p2, log) && next <= next' <= |ips| && moved <= |pending|
    ensures Held(ips, next', p1 + ips[next..next'], pending[moved..], p2 + pending[..moved], log)
  {
    HandOver(TcpIps(log), p1, ips[next..], ips, next' - next);
    assert ips[next..][..next' - next] == ips[next..next'] && ips[next..][next' - next..] == ips[next'..];
    HandOver(Probed(log), p2, pending, Handed(log), moved);
  }

  lemma LogGrows(log: seq<Completion>, c: Completion, failedScore: nat)
    ensures TcpIps(log + [c]) == TcpIps(log) + TcpBy(c)
    ensures Handed(log + [c]) == Handed(log) + HandedBy(c)
    ensures Probed(log + [c]) == Probed(log) + ProbedBy(c)
    ensures Results(log + [c], failedScore) == Results(log, failedScore) + ResultBy(c, failedScore)
    ensures Events(log + [c]) == Events(log) + EventBy(c, TcpTested(log))
    ensures TcpTested(log + [c]) == TcpTested(log) + (if c.TcpJoined? && c.tcpMs.Finished? then 1 else 0)
  {
    assert (log + [c])[..|log|] == log;
  }

  lemma JoinHolds(ips: seq<IpAddr>, next: nat, p1: seq<IpAddr>, pending: seq<Reached>, p2: seq<Reached>,
                  log: seq<Completion>, c: Completion, p1': seq<IpAddr>, p2': seq<Reached>)
    requires Held(ips, next, p1, pending, p2, log) && Causal(log)
    requires Taken(p1, p1', TcpBy(c)) && Taken(p2, p2', ProbedBy(c))
    ensures Held(ips, next, p1', pending + HandedBy(c), p2', log + [c]) && Causal(log + [c])
  {
    LogGrows(log, c, 0);
    TakeIn(TcpIps(log), p1, ips[next..], ips, p1', TcpBy(c), []);
    assert ips[next..] + [] == ips[next..] && ips + [] == ips;
    TakeIn(Probed(log), p2, pending, Handed(log), p2', ProbedBy(c), HandedBy(c));
    PartOfWhole(Probed(log + [c]), p2', pending + HandedBy(c), Handed(log + [c]));
    CausalGrows(log, c);
  }

  lemma NothingLeft(ips: seq<IpAddr>, log: seq<Completion>, failedScore: nat)
    requires Held(ips, |ips|, [], [], [], log) && Causal(log)
    ensures Covers(log, ips) && Ranked(Sorted(Results(log, failedScore)))
    ensures multiset(Mapped(EntryIp, Sorted(Results(log, failedScore)))) + multiset(Lost(log)) == multiset(ips)
  {
    PartOfWhole(TcpIps(log), [], ips[|ips|..], ips);
    PartOfWhole(Probed(log), [], [], Handed(log));
    EveryAddressIsAccountedFor(log, ips, failedScore);
    SortedIsRanked(Results(log, failedScore));
  }

  /** Refills the TLS set from the backlog, then the TCP set from the input. */
  method FillStages(ips: seq<IpAddr>, next: nat, p1: seq<IpAddr>, pending: seq<Reached>, p2: seq<Reached>,
                    p1Limit: nat, p2Limit: nat, ghost log: seq<Completion>)
    returns (next': nat, p1': seq<IpAddr>, pending': seq<Reached>, p2': seq<Reached>)
    requires Held(ips, next, p1, pending, p2, log)
    requires 0 < p1Limit && 0 < p2Limit && InBounds(|p1|, |pending|, |p2|, p1Limit, p2Limit)
    ensures Held(ips, next', p1', pending', p2', log)
    ensures InBounds(|p1'|, |pending'|, |p2'|, p1Limit, p2Limit)
    ensures WorkOf(|ips| - next', |p1'|, |pending'|, |p2'|) <= WorkOf(|ips| - next, |p1|, |pending|, |p2|)
    ensures Filled(Round(|ips| - next', |p1'|, |pending'|, |p2'|), p1Limit, p2Limit)
  {
    pending', p2' := FillP2(pending, p2, p2Limit);
    next', p1' := FillP1(ips, next, p1, |pending'|, p1Limit, p2Limit);
    FillsHold(ips, next, p1, pending, p2, log, next', |pending| - |pending'|);
  }

  // What has come out so far is what the log amounts to.
  ghost predicate Recorded(log: seq<Completion>, all: seq<IpProbeEntry>, events: seq<IpScanEvent>, tcpTested: nat,
                           failedScore: nat)
  {
    Causal(log) && all == Results(log, failedScore) && events == Events(log) && tcpTested == TcpTested(log)
  }

  // Any place in a nonempty task set.
  function Place(at: nat, size: nat): (i: nat)
    requires size > 0
    ensures i < size && (at < size ==> i == at)
  {
    if at < size then at else 0
  }

  /** Waits for one task of either phase to end and takes its result in. */
  method JoinNext(p1: seq<IpAddr>, pending: seq<Reached>, p2: seq<Reached>, failedScore: nat, tcpTested: nat,
                  all: seq<IpProbeEntry>, events: seq<IpScanEvent>, e: Ending)
    returns (p1': seq<IpAddr>, pending': seq<Reached>, p2': seq<Reached>, tcpTested': nat,
             all': seq<IpProbeEntry>, events': seq<IpScanEvent>, ghost c: Completion)
    requires p1 != [] || p2 != []
    ensures Taken(p1, p1', TcpBy(c)) && Taken(p2, p2', ProbedBy(c))
    ensures c == if p1 != [] && (p2 == [] || e.tcpFirst) then TcpJoined(p1[Place(e.at, |p1|)], e.tcp)
                 else TlsJoined(p2[Place(e.at, |p2|)], e.tls)
    ensures |p1'| <= |p1| && |p2'| <= |p2| && |p1'| + |pending'| <= |p1| + |pending|
    ensures 3 * |p1'| + 2 * |pending'| + |p2'| < 3 * |p1| + 2 * |pending| + |p2|
    ensures pending' == pending + HandedBy(c) && all' == all + ResultBy(c, failedScore)
    ensures events' == events + EventBy(c, tcpTested)
    ensures tcpTested' == tcpTested + (if c.TcpJoined? && c.tcpMs.Finished? then 1 else 0)
  {
    p1', pending', p2', tcpTested', all', events' := p1, pending, p2, tcpTested, all, events;
    if p1 != [] && (p2 == [] || e.tcpFirst) {
      var i := Place(e.at, |p1|);
      c := TcpJoined(p1[i], e.tcp);
      p1' := Without(p1, i);
      if e.tcp.Finished? {
        tcpTested' := tcpTested + 1;
        events' := events + [TcpDone(tcpTested')];
        match e.tcp.value {
          case Some(ms) => pending' := pending + [Reached(p1[i], ms)];
          case None => all' := all + [IpProbeEntry(p1[i], None, failedScore)];
        }
      }
    } else {
      var i := Place(e.at, |p2|);
      c := TlsJoined(p2[i], e.tls);
      p2' := Without(p2, i);
      if e.tls.Finished? {
        var entry := IpProbeEntry(p2[i].ip, Some(p2[i].latency), e.tls.value);
        events' := events + [ProbeComplete(entry)];
        all' := all + [entry];
      }
    }
  }

  // One more completion, which ended in this way.
  ghost predicate Followed(log: seq<Completion>, log': seq<Completion>, e: Ending) {
    && |log'| == |log| + 1 && log'[..|log|] == log
    && match log'[|log|] {
         case TcpJoined(_, result) => result == e.tcp
         case TlsJoined(_, result) => result == e.tls
       }
  }

  /** Takes in one completion. */
  method TakeNext(ips: seq<IpAddr>, next: nat, p1: seq<IpAddr>, pending: seq<Reached>, p2: seq<Reached>,
                  failedScore: nat, tcpTested: nat, all: seq<IpProbeEntry>, events: seq<IpScanEvent>, e: Ending,
                  ghost log: seq<Completion>)
    returns (p1': seq<IpAddr>, pending': seq<Reached>, p2': seq<Reached>, tcpTested': nat,
             all': seq<IpProbeEntry>, events': seq<IpScanEvent>, ghost log': seq<Completion>)
    requires Held(ips, next, p1, pending, p2, log) && Recorded(log, all, events, tcpTested, failedScore)
    requires p1 != [] || p2 != []
    ensures Held(ips, next, p1', pending', p2', log') && Recorded(log', all', events', tcpTested', failedScore)
    ensures |p1'| <= |p1| && |p2'| <= |p2| && |p1'| + |pending'| <= |p1| + |pending|
    ensures 3 * |p1'| + 2 * |pending'| + |p2'| < 3 * |p1| + 2 * |pending| + |p2|
    ensures Followed(log, log', e)
  {
    ghost var c;
    p1', pending', p2', tcpTested', all', events', c :=
      JoinNext(p1, pending, p2, failedScore, tcpTested, all, events, e);
    JoinHolds(ips, next, p1, pending, p2, log, c, p1', p2');
    LogGrows(log, c, failedScore);
    log' := log + [c];
  }

  /** One round: refills both stages and, unless nothing is left, takes in one completion. */
  method Advance(ips: seq<IpAddr>, next: nat, p1: seq<IpAddr>, pending: seq<Reached>, p2: seq<Reached>,
                 p1Limit: nat, p2Limit: nat, failedScore: nat, tcpTested: nat, all: seq<IpProbeEntry>,
                 events: seq<IpScanEvent>, e: Ending, ghost log: seq<Completion>)
    returns (finished: bool, next': nat, p1': seq<IpAddr>, pending': seq<Reached>, p2': seq<Reached>, tcpTested': nat,
             all': seq<IpProbeEntry>, events': seq<IpScanEvent>, ghost log': seq<Completion>, ghost waited: Round)
    requires Held(ips, next, p1, pending, p2, log) && Recorded(log, all, events, tcpTested, failedScore)
    requires 0 < p1Limit && 0 < p2Limit && InBounds(|p1|, |pending|, |p2|, p1Limit, p2Limit)
    ensures Held(ips, next', p1', pending', p2', log') && Recorded(log', all', events', tcpTested', failedScore)
    ensures InBounds(|p1'|, |pending'|, |p2'|, p1Limit, p2Limit)
    ensures finished ==> log' == log && next' == |ips| && p1' == [] && pending' == [] && p2' == []
    ensures !finished ==> Followed(log, log', e) && IsRound(waited, ips, log, p1Limit, p2Limit)
    ensures !finished ==>
              && WorkOf(|ips| - next', |p1'|, |pending'|, |p2'|) < waited.Work()
              && waited.Work() <= WorkOf(|ips| - next, |p1|, |pending|, |p2|)
  {
    next', p1', pending', p2' := FillStages(ips, next, p1, pending, p2, p1Limit, p2Limit, log);
    tcpTested', all', events', log' := tcpTested, all, events, log;
    waited := Round(|ips| - next', |p1'|, |pending'|, |p2'|);
    HeldAccounts(ips, next', p1', pending', p2', log);
    finished := p1' == [] && p2' == [] && pending' == [] && next' == |ips|;
    if !finished {
      p1', pending', p2', tcpTested', all', events', log' :=
        TakeNext(ips, next', p1', pending', p2', failedScore, tcpTested, all, events, e, log);
    }
  }

  lemma LogFollows(log: seq<Completion>, log': seq<Completion>, ends: nat -> Ending)
    requires Follows(log, ends) && Followed(log, log', ends(|log|))
    ensures Follows(log', ends) && log' == log + [log'[|log|]]
  {
    forall k | 0 <= k < |log| ensures log'[k] == log[k] {
      assert log'[..|log|][k] == log[k];
    }
  }

  /** Scans the filtered input; `ends` says which task ends in each round, and with what result. */
  method ScanIpList(ips: seq<IpAddr>, maxP1: nat, maxP2: nat, failedScore: nat, ends: nat -> Ending)
    returns (all: seq<IpProbeEntry>, events: seq<IpScanEvent>, ghost log: seq<Completion>, ghost rounds: seq<Round>)
    ensures Covers(log, ips) && Follows(log, ends)
    ensures all == Sorted(Results(log, failedScore)) && events == Events(log)
    ensures Ranked(all) && multiset(Mapped(EntryIp, all)) + multiset(Lost(log)) == multiset(ips)
    ensures Progresses(rounds, ips, log, AtLeastOne(maxP1), AtLeastOne(maxP2))
  {
    all, events, log, rounds := [], [], [], [];
    if ips == [] {
      return;
    }
    var p1Limit, p2Limit := AtLeastOne(maxP1), AtLeastOne(maxP2);
    var p1: seq<IpAddr>, p2: seq<Reached>, pending: seq<Reached> := [], [], [];
    var next, tcpTested, round, finished := 0, 0, 0, false;
    assert ips[0..] == ips;
    while !finished
      invariant Held(ips, next, p1, pending, p2, log) && Recorded(log, all, events, tcpTested, failedScore)
      invariant InBounds(|p1|, |pending|, |p2|, p1Limit, p2Limit)
      invariant Progresses(rounds, ips, log, p1Limit, p2Limit)
      invariant round == |log| && Follows(log, ends)
      invariant !finished ==> Paced(rounds, ips, log, p1Limit, p2Limit, WorkOf(|ips| - next, |p1|, |pending|, |p2|))
      invariant finished ==> next == |ips| && p1 == [] && pending == [] && p2 == []
      decreases !finished, WorkOf(|ips| - next, |p1|, |pending|, |p2|)
    {
      ghost var before, waited := WorkOf(|ips| - next, |p1|, |pending|, |p2|), Round(0, 0, 0, 0);
      ghost var logBefore := log;
      finished, next, p1, pending, p2, tcpTested, all, events, log, waited :=
        Advance(ips, next, p1, pending, p2, p1Limit, p2Limit, failedScore, tcpTested, all, events, ends(round), log);
      if !finished {
        LogFollows(logBefore, log, ends);
        RoundsGrow(rounds, waited, ips, logBefore, log[round], p1Limit, p2Limit, before,
                   WorkOf(|ips| - next, |p1|, |pending|, |p2|));
        rounds, round := rounds + [waited], round + 1;
      }
    }
    NothingLeft(ips, log, failedScore);
    all := Sorted(all);
  }
}
