/** Ranked relay targets, their shared counters, and the leases that connections hold. */
module TargetPool {
  import opened Arithmetic
  import opened Distinct
  import RandomIndex
  import opened Selection
  import opened Words
  import opened Wrappers

  datatype TargetKey = TargetKey(sni: Option<string>, ip: IpAddr)

  datatype Target = Target(ip: IpAddr, sni: Option<string>, score: nat, tcpLatency: Option<nat>, lowTtl: Option<nat>) {
    function Key(): TargetKey { TargetKey(sni, ip) }
  }

  datatype PingSource = Scan | Live

  // A shared counter; slot is the history entry it was made for.
  class LoadCell {
    var count: nat
    ghost const slot: nat

    constructor (ghost slot: nat)
      ensures count == 0 && this.slot == slot
    {
      count := 0;
      this.slot := slot;
    }
  }

  class TargetTraffic {
    var c2s: nat
    var s2c: nat
    ghost const slot: nat

    constructor (ghost slot: nat)
      ensures c2s == 0 && s2c == 0 && this.slot == slot
    {
      c2s, s2c := 0, 0;
      this.slot := slot;
    }
  }

  datatype Member = Member(
    target: Target, ping: Option<nat>, load: LoadCell, traffic: TargetTraffic, source: PingSource)
  {
    function Key(): TargetKey { target.Key() }
  }

  datatype TargetSnapshot = TargetSnapshot(
    target: Target, rank: Option<nat>, ping: Option<nat>, source: PingSource,
    activeConnections: nat, c2sBytes: nat, s2cBytes: nat)

  // Targets are told apart by server name and address, and by nothing else.
  lemma KeysAreExact(a: Target, b: Target)
    ensures a.Key() == b.Key() <==> a.sni == b.sni && a.ip == b.ip
  {}

  function KeyOf(target: Target): Option<TargetKey> { Some(target.Key()) }

  /** Keeps the first target of each key, then at most limit of those. */
  method UniqueTargets(targets: seq<Target>, limit: nat) returns (unique: seq<Target>)
    ensures var kept := KeepFirst(targets, KeyOf);
            unique == kept[..if limit < |kept| then limit else |kept|]
  {
    var seen: set<TargetKey> := {};
    unique := [];
    for i := 0 to |targets|
      invariant forall k :: k in seen <==> exists j :: 0 <= j < i && targets[j].Key() == k
      invariant unique == KeepFirst(targets[..i], KeyOf)
    {
      assert targets[..i + 1][..i] == targets[..i];
      var key := targets[i].Key();
      assert key in seen <==> Repeats(targets[..i], KeyOf, targets[i]) by {
        if key in seen {
          var j :| 0 <= j < i && targets[j].Key() == key;
          assert KeyOf(targets[..i][j]) == KeyOf(targets[i]);
        }
      }
      if key !in seen {
        unique := unique + [targets[i]];
      }
      seen := seen + {key};
    }
    assert targets[..|targets|] == targets;
    unique := unique[..if limit < |unique| then limit else |unique|];
  }

  // The index map finds every key of the history, and nothing else.
  ghost predicate Indexes(indices: map<TargetKey, nat>, history: seq<Member>) {
    && (forall i :: 0 <= i < |history| ==> history[i].Key() in indices && indices[history[i].Key()] == i)
    && (forall k :: k in indices ==> indices[k] < |history| && history[indices[k]].Key() == k)
  }

  // Every entry has the cells made for it, so no two entries share one.
  ghost predicate OwnCells(history: seq<Member>) {
    forall i :: 0 <= i < |history| ==> history[i].load.slot == i && history[i].traffic.slot == i
  }

  ghost predicate Recorded(m: Member, indices: map<TargetKey, nat>, history: seq<Member>) {
    m.Key() in indices && indices[m.Key()] < |history| && history[indices[m.Key()]] == m
  }

  ghost predicate AllRecorded(members: seq<Member>, indices: map<TargetKey, nat>, history: seq<Member>) {
    forall i :: 0 <= i < |members| ==> Recorded(members[i], indices, history)
  }

  ghost predicate DistinctMembers(members: seq<Member>) {
    forall i, j :: 0 <= i < j < |members| ==> members[i].Key() != members[j].Key()
  }

  function Keys(members: seq<Member>): (keys: seq<TargetKey>)
    ensures |keys| == |members| && forall i :: 0 <= i < |keys| ==> keys[i] == members[i].Key()
  {
    seq(|members|, i requires 0 <= i < |members| => members[i].Key())
  }

  function TargetKeys(targets: seq<Target>): (keys: seq<TargetKey>)
    ensures |keys| == |targets| && forall i :: 0 <= i < |keys| ==> keys[i] == targets[i].Key()
  {
    seq(|targets|, i requires 0 <= i < |targets| => targets[i].Key())
  }

  // Members that carry exactly these targets, in rank order, as the scan measured them.
  ghost predicate Ranked(members: seq<Member>, targets: seq<Target>) {
    && |members| == |targets|
    && forall i :: 0 <= i < |members| ==>
         members[i].target == targets[i] && members[i].ping == targets[i].tcpLatency && members[i].source == Scan
  }

  ghost predicate SameCells(a: Member, b: Member) {
    a.Key() == b.Key() && a.load == b.load && a.traffic == b.traffic
  }

  // The history has only grown: old entries keep their place, key and cells, entries of
  // other keys are untouched, and new entries are for the given keys.
  ghost predicate Grew(before: seq<Member>, history: seq<Member>, keys: seq<TargetKey>) {
    && |before| <= |history|
    && (forall i :: 0 <= i < |before| ==> SameCells(history[i], before[i]))
    && (forall i :: 0 <= i < |before| && before[i].Key() !in keys ==> history[i] == before[i])
    && (forall i :: |before| <= i < |history| ==> history[i].Key() in keys)
  }

  lemma GrowthAddsUp(a: seq<Member>, b: seq<Member>, c: seq<Member>, keys: seq<TargetKey>, key: TargetKey)
    requires Grew(a, b, keys) && Grew(b, c, [key])
    ensures Grew(a, c, keys + [key])
  {
    forall i | |a| <= i < |c| ensures c[i].Key() in keys + [key] {
      if i < |b| {
        assert SameCells(c[i], b[i]);
      }
    }
  }

  lemma RankingGrows(members: seq<Member>, m: Member, targets: seq<Target>, n: nat)
    requires n < |targets| && Ranked(members, targets[..n]) && Keys(members) == TargetKeys(targets[..n])
    requires m.target == targets[n] && m.ping == targets[n].tcpLatency && m.source == Scan
    ensures Ranked(members + [m], targets[..n + 1])
    ensures Keys(members + [m]) == TargetKeys(targets[..n + 1]) == Keys(members) + [m.Key()]
  {}

  lemma RecordedStays(members: seq<Member>, indices: map<TargetKey, nat>, history: seq<Member>,
                      indices': map<TargetKey, nat>, history': seq<Member>, key: TargetKey)
    requires Indexes(indices, history) && Indexes(indices', history') && AllRecorded(members, indices, history)
    requires Grew(history, history', [key]) && key !in Keys(members)
    ensures AllRecorded(members, indices', history')
  {
    forall i | 0 <= i < |members| ensures Recorded(members[i], indices', history') {
      var at := indices[members[i].Key()];
      assert Recorded(members[i], indices, history);
      assert members[i].Key() == Keys(members)[i];
      assert history'[at] == history[at];
    }
  }

  // Recording one more target keeps what is known of the members built so far.
  lemma OneMoreRecorded(built: seq<Member>, first: seq<Member>, indices: map<TargetKey, nat>, before: seq<Member>,
                        indices': map<TargetKey, nat>, history': seq<Member>, m: Member, targets: seq<Target>, n: nat)
    requires n < |targets| && Ranked(built, targets[..n]) && Keys(built) == TargetKeys(targets[..n])
    requires Indexes(indices, before) && Indexes(indices', history') && AllRecorded(built, indices, before)
    requires Grew(first, before, Keys(built)) && Grew(before, history', [m.Key()])
    requires m.target == targets[n] && m.ping == targets[n].tcpLatency && m.source == Scan
    requires Recorded(m, indices', history') && m.Key() !in Keys(built)
    ensures Ranked(built + [m], targets[..n + 1]) && Keys(built + [m]) == TargetKeys(targets[..n + 1])
    ensures AllRecorded(built + [m], indices', history') && Grew(first, history', Keys(built + [m]))
  {
    GrowthAddsUp(first, before, history', Keys(built), m.Key());
    RecordedStays(built, indices, before, indices', history', m.Key());
    RankingGrows(built, m, targets, n);
  }

  lemma MeasuringKeepsRecords(members: seq<Member>, indices: map<TargetKey, nat>, history: seq<Member>,
                              m: nat, ping: Option<nat>)
    requires Indexes(indices, history) && OwnCells(history)
    requires AllRecorded(members, indices, history) && DistinctMembers(members) && m < |members|
    ensures Recorded(members[m], indices, history)
    ensures var i := indices[members[m].Key()];
            var history' := history[i := Measured(history[i], ping)];
            var members' := members[m := Measured(members[m], ping)];
            && Indexes(indices, history') && OwnCells(history')
            && AllRecorded(members', indices, history') && DistinctMembers(members')
  {
    assert Recorded(members[m], indices, history);
    var i := indices[members[m].Key()];
    var history', members' := history[i := Measured(history[i], ping)], members[m := Measured(members[m], ping)];
    forall j | 0 <= j < |members| ensures Recorded(members'[j], indices, history') {
      assert Recorded(members[j], indices, history);
    }
  }

  ghost predicate CountsHolders(history: seq<Member>, leases: set<TargetLease>)
    reads Loads(history)
  {
    forall i :: 0 <= i < |history| ==> history[i].load.count == |Holders(leases, history[i].load)|
  }

  ghost function Traffics(members: seq<Member>): set<TargetTraffic> { set m | m in members :: m.traffic }

  ghost function Loads(members: seq<Member>): set<LoadCell> { set m | m in members :: m.load }

  // Entries from position n on have never been counted on.
  ghost predicate UnusedFrom(n: nat, history: seq<Member>)
    reads Loads(history), Traffics(history)
  {
    forall i :: n <= i < |history| ==>
      history[i].load.count == 0 && history[i].traffic.c2s == 0 && history[i].traffic.s2c == 0
  }

  class TargetLease {
    const target: Target
    const load: LoadCell
    const traffic: TargetTraffic

    constructor (target: Target, load: LoadCell, traffic: TargetTraffic)
      ensures this.target == target && this.load == load && this.traffic == traffic
    {
      this.target, this.load, this.traffic := target, load, traffic;
    }
  }

  // The lease is for this member and shares its counters.
  predicate IsLeaseOn(lease: TargetLease, m: Member) {
    lease.target == m.target && lease.load == m.load && lease.traffic == m.traffic
  }

  ghost function Holders(leases: set<TargetLease>, load: LoadCell): set<TargetLease> {
    set l | l in leases && l.load == load
  }

  function TargetsOf(members: seq<Member>): (targets: seq<Target>)
    ensures |targets| == |members| && forall i :: 0 <= i < |targets| ==> targets[i] == members[i].target
  {
    seq(|members|, i requires 0 <= i < |members| => members[i].target)
  }

  function Zeros(n: nat): (z: seq<nat>)
    ensures |z| == n && forall i :: 0 <= i < n ==> z[i] == 0
  {
    seq(n, _ => 0)
  }

  function Pings(members: seq<Member>): (pings: seq<Option<nat>>)
    ensures |pings| == |members| && forall i :: 0 <= i < |pings| ==> pings[i] == members[i].ping
  {
    seq(|members|, i requires 0 <= i < |members| => members[i].ping)
  }

  function LoadsOf(members: seq<Member>): (loads: seq<nat>)
    reads Loads(members)
    ensures |loads| == |members|
    ensures forall i :: 0 <= i < |loads| ==> loads[i] == members[i].load.count
  {
    if members == [] then []
    else LoadsOf(members[..|members| - 1]) + [members[|members| - 1].load.count]
  }

  // What the chosen index means under each strategy.
  ghost predicate Selected(strategy: SelectionStrategy, pings: seq<Option<nat>>, loads: seq<nat>,
                           cursor: nat, random: u64, index: nat, random': u64)
  {
    && cursor < |loads| == |pings| && index < |loads|
    && (strategy != Random ==> random' == random)
    && match strategy
       case RoundRobin => index == cursor
       case Random => RandomIndex.Chosen(RandomIndex.Mix, random, |loads|, index, random')
       case LeastPing => LeastPinged(pings, cursor, index)
       case LeastLoad => LeastLoaded(loads, cursor, index)
  }

  // Only the random strategy draws, and it takes the next accepted word of the one sequence.
  ghost predicate Drawn(strategy: SelectionStrategy, seed: u64, before: nat, now: nat, count: nat, index: nat) {
    if strategy == Random then count > 0 && RandomIndex.DrawnNext(RandomIndex.Mix, seed, before, now, count, index)
    else now == before
  }

  ghost predicate Traceable(leases: set<TargetLease>, indices: map<TargetKey, nat>, history: seq<Member>) {
    forall l :: l in leases ==>
      && l.target.Key() in indices && indices[l.target.Key()] < |history|
      && l.load == history[indices[l.target.Key()]].load
      && l.traffic == history[indices[l.target.Key()]].traffic
  }

  lemma LoadsGrow(history: seq<Member>, n: nat)
    requires 0 < n <= |history| && OwnCells(history)
    ensures Loads(history[..n]) == Loads(history[..n - 1]) + {history[n - 1].load}
    ensures history[n - 1].load !in Loads(history[..n - 1])
  {
    assert history[..n] == history[..n - 1] + [history[n - 1]];
  }

  lemma HoldersGain(leases: set<TargetLease>, lease: TargetLease, load: LoadCell)
    requires lease !in leases
    ensures |Holders(leases + {lease}, load)| == |Holders(leases, load)| + (if lease.load == load then 1 else 0)
  {
    if lease.load == load {
      assert Holders(leases + {lease}, load) == Holders(leases, load) + {lease};
    } else {
      assert Holders(leases + {lease}, load) == Holders(leases, load);
    }
  }

  // Every lease is held on exactly one cell of the history.
  lemma {:induction false} LeasesArePartitioned(leases: set<TargetLease>, history: seq<Member>, n: nat)
    requires n <= |history| && OwnCells(history)
    ensures HeldUpTo(leases, history, n) == |HoldersOf(leases, Loads(history[..n]))|
  {
    if n > 0 {
      LeasesArePartitioned(leases, history, n - 1);
      LoadsGrow(history, n);
      HoldersAreApart(leases, Loads(history[..n - 1]), history[n - 1].load);
    }
  }

  ghost function HoldersOf(leases: set<TargetLease>, loads: set<LoadCell>): set<TargetLease> {
    set l | l in leases && l.load in loads
  }

  lemma HoldersAreApart(leases: set<TargetLease>, loads: set<LoadCell>, cell: LoadCell)
    requires cell !in loads
    ensures |HoldersOf(leases, loads + {cell})| == |HoldersOf(leases, loads)| + |Holders(leases, cell)|
  {
    assert HoldersOf(leases, loads + {cell}) == HoldersOf(leases, loads) + Holders(leases, cell);
  }

  ghost function HeldUpTo(leases: set<TargetLease>, history: seq<Member>, n: nat): nat
    requires n <= |history|
  {
    if n == 0 then 0 else HeldUpTo(leases, history, n - 1) + |Holders(leases, history[n - 1].load)|
  }

  class TargetPool {
    const strategy: SelectionStrategy
    var members: seq<Member>
    var history: seq<Member>
    var historyIndices: map<TargetKey, nat>
    var cursor: nat
    var generation: u64
    var random: u64
    ghost const seed: u64               // where the generator started
    ghost var drawn: nat                // how many words it has produced since
    ghost var leases: set<TargetLease>  // the leases handed out and not yet dropped
    ghost var replacements: nat             // how often the members have been replaced
    ghost var served: seq<nat>          // choices of each member since then
    ghost var rounds: nat               // how often their turns have gone all the way round

    // The history, its index, and the leases counted on its cells.
    ghost predicate Ledger()
      reads `history, `historyIndices, `leases, Loads(history)
    {
      && Indexes(historyIndices, history) && OwnCells(history)
      && Traceable(leases, historyIndices, history) && CountsHolders(history, leases)
    }

    // The members, and where the selection stands.
    ghost predicate Standing()
      reads `members, `history, `historyIndices, `cursor, `generation, `replacements, `served, `rounds
    {
      && |members| < TWO_TO_64 && (cursor < |members| || cursor == |members| == 0)
      && AllRecorded(members, historyIndices, history) && DistinctMembers(members)
      && generation == replacements % TWO_TO_64
      && |served| == |members| && (strategy == RoundRobin ==> InTurn(cursor, rounds, served))
    }

    // The generator has made this many draws since it was seeded.
    ghost predicate Seeded()
      reads `random, `drawn
    {
      random == RandomIndex.Advance(seed, drawn)
    }

    ghost predicate Consistent()
      reads this, Loads(history)
    {
      Ledger() && Standing() && Seeded()
    }

    ghost predicate Valid()
      reads this, Loads(history)
    {
      Consistent() && members != []
    }

    constructor Empty(strategy: SelectionStrategy, seed: u64)
      ensures Consistent() && members == [] && history == [] && leases == {} && replacements == 0
      ensures this.strategy == strategy && this.seed == seed && random == seed && drawn == 0
    {
      this.strategy, this.seed, drawn := strategy, seed, 0;
      members, history, historyIndices := [], [], map[];
      cursor, generation, random := 0, 0, seed;
      leases, replacements, served, rounds := {}, 0, [], 0;
    }

    /** A pool over the given ranked targets, or none when there are none. */
    static method New(strategy: SelectionStrategy, targets: seq<Target>, seed: u64) returns (pool: Option<TargetPool>)
      requires |targets| < TWO_TO_64
      ensures pool.None? <==> targets == []
      ensures pool.Some? ==>
                && fresh(pool.value) && pool.value.Valid() && pool.value.leases == {}
                && pool.value.strategy == strategy && pool.value.random == pool.value.seed == seed
                && pool.value.drawn == 0 && pool.value.replacements == 1
                && Ranked(pool.value.members, KeepFirst(targets, KeyOf))
                && UnusedFrom(0, pool.value.history)
                && forall m :: m in pool.value.history ==> m.Key() in Keys(pool.value.members)
    {
      if targets == [] {
        return None;
      }
      var created := new TargetPool.Empty(strategy, seed);
      var _ := created.Replace(targets);
      pool := Some(created);
    }

    /** Installs new ranked targets; known keys keep their counters, even while retired. */
    method Replace(targets: seq<Target>) returns (changed: bool)
      requires Consistent() && |targets| < TWO_TO_64
      modifies this`members, this`history, this`historyIndices, this`cursor, this`generation, this`replacements,
               this`rounds, this`served
      ensures Consistent() && leases == old(leases) && random == old(random) && drawn == old(drawn)
      ensures targets == [] ==> !changed && unchanged(this)
      ensures targets != [] ==>
                && Valid() && Ranked(members, KeepFirst(targets, KeyOf))
                && (changed <==> Keys(old(members)) != Keys(members))
                && replacements == old(replacements) + 1 && cursor == 0 && served == Zeros(|members|)
                && Grew(old(history), history, Keys(members))
                && UnusedFrom(|old(history)|, history)
    {
      changed := false;
      if targets != [] {
        changed := Rerank(targets);
      }
    }

    method Rerank(targets: seq<Target>) returns (changed: bool)
      requires Ledger() && targets != [] && |targets| < TWO_TO_64 && generation == replacements % TWO_TO_64
      modifies this`members, this`history, this`historyIndices, this`cursor, this`generation, this`replacements,
               this`rounds, this`served
      ensures Ledger() && Standing() && members != [] && Ranked(members, KeepFirst(targets, KeyOf))
      ensures changed <==> Keys(old(members)) != Keys(members)
      ensures replacements == old(replacements) + 1 && cursor == 0 && served == Zeros(|members|)
      ensures Grew(old(history), history, Keys(members)) && UnusedFrom(|old(history)|, history)
    {
      var unique := UniqueTargets(targets, |targets|);
      KeptExactlyOnce(targets);
      assert unique == KeepFirst(targets, KeyOf);
      changed := Keys(members) != TargetKeys(unique);
      var built := RecordAll(unique);
      assert Keys(built) == TargetKeys(unique);
      Install(built);
    }

    method Install(built: seq<Member>)
      requires Ledger() && AllRecorded(built, historyIndices, history) && DistinctMembers(built)
      requires 0 < |built| < TWO_TO_64 && generation == replacements % TWO_TO_64
      modifies this`members, this`cursor, this`generation, this`replacements, this`rounds, this`served
      ensures Ledger() && Standing() && members == built && cursor == 0 && replacements == old(replacements) + 1
      ensures served == Zeros(|members|)
    {
      members := built;
      cursor := 0;
      generation := (generation + 1) % TWO_TO_64;
      replacements, rounds, served := replacements + 1, 0, Zeros(|built|);
    }

    method RecordAll(unique: seq<Target>) returns (built: seq<Member>)
      requires Ledger() && forall i, j :: 0 <= i < j < |unique| ==> unique[i].Key() != unique[j].Key()
      modifies this`history, this`historyIndices
      ensures Ledger() && Ranked(built, unique) && AllRecorded(built, historyIndices, history)
      ensures Grew(old(history), history, Keys(built)) && UnusedFrom(|old(history)|, history)
    {
      built := [];
      ghost var first := history;
      for n := 0 to |unique|
        invariant Ranked(built, unique[..n]) && Keys(built) == TargetKeys(unique[..n])
        invariant Ledger() && AllRecorded(built, historyIndices, history)
        invariant Grew(first, history, Keys(built))
        invariant UnusedFrom(|first|, history)
      {
        ghost var before, indices := history, historyIndices;
        var member := Record(unique[n]);
        OneMoreRecorded(built, first, indices, before, historyIndices, history, member, unique, n);
        built := built + [member];
      }
      assert unique[..|unique|] == unique;
    }

    /** Looks the target up in the history, or adds it, and refreshes its entry. */
    method Record(target: Target) returns (member: Member)
      requires Ledger()
      modifies this`history, this`historyIndices
      ensures Ledger() && Recorded(member, historyIndices, history)
      ensures member.target == target && member.ping == target.tcpLatency && member.source == Scan
      ensures Grew(old(history), history, [target.Key()]) && UnusedFrom(|old(history)|, history)
    {
      if target.Key() in historyIndices {
        member := Refresh(target);
      } else {
        member := Enlist(target);
      }
    }

    method Refresh(target: Target) returns (member: Member)
      requires Ledger() && target.Key() in historyIndices
      modifies this`history
      ensures Ledger() && Recorded(member, historyIndices, history)
      ensures member.target == target && member.ping == target.tcpLatency && member.source == Scan
      ensures Grew(old(history), history, [target.Key()]) && |history| == |old(history)|
    {
      var i := historyIndices[target.Key()];
      member := Member(target, target.tcpLatency, history[i].load, history[i].traffic, Scan);
      history := history[i := member];
    }

    method Enlist(target: Target) returns (member: Member)
      requires Ledger() && target.Key() !in historyIndices
      modifies this`history, this`historyIndices
      ensures Ledger() && Recorded(member, historyIndices, history)
      ensures member.target == target && member.ping == target.tcpLatency && member.source == Scan
      ensures Grew(old(history), history, [target.Key()]) && history == old(history) + [member]
      ensures UnusedFrom(|old(history)|, history)
    {
      var load := new LoadCell(|history|);
      var traffic := new TargetTraffic(|history|);
      member := Member(target, target.tcpLatency, load, traffic, Scan);
      historyIndices := historyIndices[target.Key() := |history|];
      history := history + [member];
      assert Holders(leases, load) == {};
    }

    /** The index that the strategy selects next, and the generator state it leaves. */
    static method ChooseIndex(strategy: SelectionStrategy, pings: seq<Option<nat>>, loads: seq<nat>,
                              cursor: nat, random: u64)
      returns (index: nat, random': u64)
      requires cursor < |loads| == |pings| < TWO_TO_64
      ensures Selected(strategy, pings, loads, cursor, random, index, random')
    {
      var count := |loads|;
      var roundRobin := cursor % count;
      QuotientIsUnique(cursor, count, 0, cursor);
      random' := random;
      match strategy
      case RoundRobin =>
        index := roundRobin;
      case Random =>
        index, random' := RandomIndex.Choose(random, count);
      case LeastPing =>
        index := LeastPingIndex(pings, roundRobin);
        LeastPingIndexIsRight(pings, roundRobin);
      case LeastLoad =>
        index := LeastLoadIndex(loads, roundRobin);
        LeastLoadIndexIsRight(loads, roundRobin);
    }

    /** Picks a member and counts a new lease on it, in one step under the pool's lock. */
    method Acquire() returns (lease: TargetLease, ghost index: nat)
      requires Valid()
      modifies this`cursor, this`random, this`drawn, this`leases, this`served, this`rounds, Loads(members)
      ensures Valid() && index < |members| && cursor == Following(index, |members|)
      ensures fresh(lease) && leases == old(leases) + {lease}
      ensures IsLeaseOn(lease, members[index])
      ensures served == Raised(old(served), index)
      ensures lease.load.count == old(members[index].load.count) + 1
      ensures forall c :: c in Loads(history) && c != lease.load ==> c.count == old(c.count)
      ensures Selected(strategy, Pings(members), old(LoadsOf(members)), old(cursor), old(random), index, random)
      ensures Drawn(strategy, seed, old(drawn), drawn, |members|, index)
    {
      var chosen, random', drawn' := Select(strategy, Pings(members), LoadsOf(members), cursor, random, seed, drawn);
      index := chosen;
      lease := Reserve(chosen, random', drawn');
    }

    // The choice, and how far it takes the generator.
    static method Select(strategy: SelectionStrategy, pings: seq<Option<nat>>, loads: seq<nat>, cursor: nat,
                         random: u64, ghost seed: u64, ghost drawn: nat)
      returns (index: nat, random': u64, ghost drawn': nat)
      requires cursor < |loads| == |pings| < TWO_TO_64 && random == RandomIndex.Advance(seed, drawn)
      ensures Selected(strategy, pings, loads, cursor, random, index, random')
      ensures random' == RandomIndex.Advance(seed, drawn')
      ensures Drawn(strategy, seed, drawn, drawn', |loads|, index)
    {
      index, random' := ChooseIndex(strategy, pings, loads, cursor, random);
      drawn' := drawn;
      if strategy == Random {
        drawn' := RandomIndex.ChosenContinues(RandomIndex.Mix, seed, drawn, random, |loads|, index, random');
      }
    }

    method Reserve(index: nat, random': u64, ghost drawn': nat) returns (lease: TargetLease)
      requires random' == RandomIndex.Advance(seed, drawn')
      requires Valid() && index < |members| && (strategy == RoundRobin ==> index == cursor)
      modifies this`cursor, this`random, this`drawn, this`leases, this`served, this`rounds, members[index].load
      ensures Valid() && cursor == Following(index, |members|) && random == random' && drawn == drawn'
      ensures fresh(lease) && leases == old(leases) + {lease}
      ensures IsLeaseOn(lease, members[index])
      ensures served == Raised(old(served), index)
      ensures lease.load.count == old(members[index].load.count) + 1
      ensures forall i :: 0 <= i < |history| && history[i].load != lease.load ==>
                history[i].load.count == old(history[i].load.count)
    {
      lease := CountLease(members[index]);
      MoveOn(index);
      random, drawn := random', drawn';
    }

    method CountLease(member: Member) returns (lease: TargetLease)
      requires Ledger() && Recorded(member, historyIndices, history)
      modifies this`leases, member.load
      ensures Ledger() && fresh(lease) && leases == old(leases) + {lease}
      ensures IsLeaseOn(lease, member)
      ensures lease.load.count == old(member.load.count) + 1
      ensures forall i :: 0 <= i < |history| && history[i].load != lease.load ==>
                history[i].load.count == old(history[i].load.count)
    {
      member.load.count := member.load.count + 1;
      lease := new TargetLease(member.target, member.load, member.traffic);
      forall i | 0 <= i < |history|
        ensures history[i].load.count == |Holders(leases + {lease}, history[i].load)|
      {
        HoldersGain(leases, lease, history[i].load);
      }
      leases := leases + {lease};
    }

    method MoveOn(index: nat)
      requires Standing() && index < |members| && (strategy == RoundRobin ==> index == cursor)
      modifies this`cursor, this`served, this`rounds
      ensures Standing() && cursor == Following(index, |members|)
      ensures served == Raised(old(served), index)
    {
      if strategy == RoundRobin {
        InTurnAfter(cursor, rounds, served);
      }
      FollowingIsModular(index, |members|);
      cursor := (index + 1) % |members|;
      served := Raised(served, index);
      if index + 1 == |members| {
        rounds := rounds + 1;
      }
    }

    /** What dropping a lease does: its count goes down by one, and never below zero. */
    method Drop(lease: TargetLease)
      requires Consistent() && lease in leases
      modifies this`leases, lease.load
      ensures Consistent() && leases == old(leases) - {lease}
      ensures lease.load.count == old(lease.load.count) - 1
    {
      var entry := historyIndices[lease.target.Key()];
      assert lease in Holders(leases, history[entry].load);
      forall i | 0 <= i < |history|
        ensures |Holders(leases, history[i].load)|
                == |Holders(leases - {lease}, history[i].load)| + (if lease.load == history[i].load then 1 else 0)
      {
        HoldersGain(leases - {lease}, lease, history[i].load);
        assert leases - {lease} + {lease} == leases;
      }
      lease.load.count := lease.load.count - 1;
      leases := leases - {lease};
    }

    // Whether a measurement that began in this generation still counts.
    predicate Accepts(measured: u64)
      reads `generation
    {
      measured == generation
    }

    // A measurement taken by ProbeSnapshot after so many replacements still counts exactly when
    // the replacements since then are a multiple of 2^64.
    lemma GenerationTellsReplacementsApart(measured: u64, taken: nat)
      requires Consistent() && taken <= replacements && measured == taken % TWO_TO_64
      ensures Accepts(measured) <==> (replacements - taken) % TWO_TO_64 == 0
      ensures 0 < replacements - taken < TWO_TO_64 ==> !Accepts(measured)
    {}

    /** Stores a live measurement, unless the members have been replaced since it began. */
    method UpdatePing(measured: u64, target: Target, ping: Option<nat>)
      requires Consistent()
      modifies this`members, this`history
      ensures Consistent()
      ensures !Accepts(measured) || target.Key() !in Keys(old(members)) ==>
                members == old(members) && history == old(history)
      ensures Accepts(measured) ==>
                && |members| == |old(members)|
                && (forall i :: 0 <= i < |members| ==>
                      members[i] == if old(members)[i].Key() == target.Key() then Measured(old(members)[i], ping)
                                    else old(members)[i])
                && |history| == |old(history)|
                && (forall i :: 0 <= i < |history| && old(history)[i].Key() != target.Key() ==>
                      history[i] == old(history)[i])
    {
      if generation == measured {
        var m := 0;
        while m < |members| && members[m].Key() != target.Key()
          invariant m <= |members| && forall i :: 0 <= i < m ==> members[i].Key() != target.Key()
        {
          m := m + 1;
        }
        if m < |members| {
          Remeasure(m, ping);
        }
      }
    }

    method Remeasure(m: nat, ping: Option<nat>)
      requires Consistent() && m < |members|
      modifies this`members, this`history
      ensures Consistent()
      ensures members == old(members)[m := Measured(old(members)[m], ping)]
      ensures |history| == |old(history)|
      ensures forall i :: 0 <= i < |history| && old(history)[i].Key() != old(members)[m].Key() ==>
                history[i] == old(history)[i]
    {
      var i := historyIndices[members[m].Key()];
      MeasuringKeepsRecords(members, historyIndices, history, m, ping);
      history := history[i := Measured(history[i], ping)];
      members := members[m := Measured(members[m], ping)];
    }

    /** The generation and targets that a round of live measurements starts from. */
    method ProbeSnapshot() returns (taken: u64, targets: seq<Target>)
      requires Consistent()
      ensures taken == replacements % TWO_TO_64
      ensures |targets| == |members| && forall i :: 0 <= i < |targets| ==> targets[i] == members[i].target
    {
      taken := generation;
      targets := TargetsOf(members);
    }

    // Since the last replacement, round robin has served any two members equally often, give
    // or take one, whatever drops and measurements came in between.
    lemma RoundRobinIsFair(i: nat, j: nat)
      requires Consistent() && strategy == RoundRobin && i <= j < |members|
      ensures served[j] <= served[i] <= served[j] + 1
    {
    }

    // Members never share a counter, so one choice raises one member's load.
    lemma MembersHaveOwnLoads(i: nat, j: nat)
      requires Consistent() && i < j < |members|
      ensures members[i].load != members[j].load && members[i].traffic != members[j].traffic
    {
      assert Recorded(members[i], historyIndices, history) && Recorded(members[j], historyIndices, history);
      var a, b := historyIndices[members[i].Key()], historyIndices[members[j].Key()];
      assert history[a].Key() != history[b].Key();
    }

    // The loads that Acquire leaves, given the loads before it: one member's is raised.
    lemma LoadsAfterChoice(loads: seq<nat>, index: nat)
      requires Consistent() && |loads| == |members| && index < |members|
      requires members[index].load.count == loads[index] + 1
      requires forall i :: 0 <= i < |members| && members[i].load != members[index].load ==>
                 members[i].load.count == loads[i]
      ensures LoadsOf(members) == RaiseAt(loads, [index])
    {
      assert [index][..0] == [];
      forall i | 0 <= i < |members| && i != index ensures members[i].load.count == loads[i] {
        MembersHaveOwnLoads(if i < index then i else index, if i < index then index else i);
      }
    }

    // Under least load, a choice leaves the loads within max(spread, 1) of each other.
    lemma LeastLoadKeepsBalance(loads: seq<nat>, cursorBefore: nat, index: nat, d: nat)
      requires Consistent() && |loads| == |members| && index < |members| && cursorBefore < |members|
      requires members[index].load.count == loads[index] + 1
      requires forall i :: 0 <= i < |members| && members[i].load != members[index].load ==>
                 members[i].load.count == loads[i]
      requires LeastLoaded(loads, cursorBefore, index) && WithinSpread(loads, d)
      ensures WithinSpread(LoadsOf(members), if d > 1 then d else 1)
    {
      LoadsAfterChoice(loads, index);
      assert [index][..0] == [];
      LeastLoadedStaysBalanced(loads, [index], d);
    }

    /** Current members in rank order, then the rest of the history in first-seen order. */
    function Snapshot(): seq<TargetSnapshot>
      reads this, Loads(members), Traffics(members), Loads(history), Traffics(history)
    {
      MemberRows(members) + RetiredRows(history, RetiredAt(history, members))
    }

    ghost predicate OnlyRowOf(i: nat, a: nat)
      requires i < |history|
      reads this, Loads(members), Traffics(members), Loads(history), Traffics(history)
    {
      && a < |Snapshot()| && Snapshot()[a] == Sample(history[i], if a < |members| then Some(a + 1) else None)
      && forall b :: 0 <= b < |Snapshot()| && Snapshot()[b].target.Key() == history[i].Key() ==> b == a
    }

    lemma MemberHasOneRow(i: nat, a: nat)
      requires Consistent() && i < |history| && a < |members| && members[a].Key() == history[i].Key()
      ensures OnlyRowOf(i, a)
    {
      var at := RetiredAt(history, members);
      assert Keys(members)[a] in Keys(members);
      assert Recorded(members[a], historyIndices, history);
      forall r | 0 <= r < |at| ensures history[at[r]].Key() != history[i].Key() {
        assert at[r] in at;
      }
    }

    lemma RetiredHasOneRow(i: nat, r: nat, a: nat)
      requires Indexes(historyIndices, history) && i < |history|
      requires r < |RetiredAt(history, members)| && RetiredAt(history, members)[r] == i
      requires a == |members| + r
      ensures OnlyRowOf(i, a)
    {
      NoMemberIsRetired(i);
      RetiredOnce(r);
    }

    lemma NoMemberIsRetired(i: nat)
      requires i < |history| && i in RetiredAt(history, members)
      ensures forall b :: 0 <= b < |members| ==> members[b].Key() != history[i].Key()
    {
      forall b | 0 <= b < |members| ensures members[b].Key() != history[i].Key() {
        assert Keys(members)[b] in Keys(members);
      }
    }

    lemma RetiredOnce(r: nat)
      requires Indexes(historyIndices, history) && r < |RetiredAt(history, members)|
      ensures var at := RetiredAt(history, members);
              forall q :: 0 <= q < |at| && q != r ==> history[at[q]].Key() != history[at[r]].Key()
    {
      var at := RetiredAt(history, members);
      forall q | 0 <= q < |at| && q != r ensures history[at[q]].Key() != history[at[r]].Key() {
        assert at[q] != at[r];
      }
    }

    lemma MemberPosition(i: nat) returns (a: nat)
      requires i < |history| && history[i].Key() in Keys(members)
      ensures a < |members| && members[a].Key() == history[i].Key()
    {
      a :| 0 <= a < |members| && Keys(members)[a] == history[i].Key();
    }

    lemma RetiredPosition(i: nat) returns (r: nat)
      requires i < |history| && history[i].Key() !in Keys(members)
      ensures r < |RetiredAt(history, members)| && RetiredAt(history, members)[r] == i
    {
      var at := RetiredAt(history, members);
      assert i in at;
      r :| 0 <= r < |at| && at[r] == i;
    }

    lemma MemberIsShown(i: nat) returns (a: nat)
      requires Consistent() && i < |history| && history[i].Key() in Keys(members)
      ensures a < |members| && OnlyRowOf(i, a)
    {
      a := MemberPosition(i);
      MemberHasOneRow(i, a);
    }

    lemma RetiredIsShown(i: nat) returns (a: nat)
      requires Indexes(historyIndices, history) && i < |history| && history[i].Key() !in Keys(members)
      ensures a >= |members| && OnlyRowOf(i, a)
    {
      var r := RetiredPosition(i);
      a := |members| + r;
      RetiredHasOneRow(i, r, a);
    }

    // Every target ever seen has exactly one row; it shows the target's own counters, and a
    // rank exactly when the target is a member.
    lemma SnapshotShowsEveryTargetOnce(i: nat) returns (a: nat)
      requires Consistent() && i < |history|
      ensures OnlyRowOf(i, a)
      ensures a < |members| <==> history[i].Key() in Keys(members)
    {
      if history[i].Key() in Keys(members) {
        a := MemberIsShown(i);
      } else {
        a := RetiredIsShown(i);
      }
    }

    // Two rows that show targets of the history, in the order in which they were first seen.
    ghost predicate InFirstSeenOrder(x: TargetSnapshot, y: TargetSnapshot)
      reads `history
    {
      exists i, j :: 0 <= i < j < |history| && x.target == history[i].target && y.target == history[j].target
    }

    lemma RetiredRow(a: nat) returns (i: nat)
      requires |members| <= a < |Snapshot()|
      ensures i < |history| && Snapshot()[a].target == history[i].target
      ensures a - |members| < |RetiredAt(history, members)| && i == RetiredAt(history, members)[a - |members|]
    {
      i := RetiredAt(history, members)[a - |members|];
    }

    // The snapshot lists the members in rank order, then the retired targets as they were first seen.
    lemma SnapshotIsInOrder()
      ensures |members| <= |Snapshot()|
      ensures forall a :: 0 <= a < |members| ==> Snapshot()[a].target == members[a].target
      ensures forall a, b :: |members| <= a < b < |Snapshot()| ==> InFirstSeenOrder(Snapshot()[a], Snapshot()[b])
    {
      forall a, b | |members| <= a < b < |Snapshot()| ensures InFirstSeenOrder(Snapshot()[a], Snapshot()[b]) {
        var i := RetiredRow(a);
        var j := RetiredRow(b);
        assert i < j;
      }
    }

    /** The number of leases alive on any target ever seen, including retired ones. */
    method ActiveConnections() returns (total: nat)
      requires Consistent()
      ensures total == |leases|
    {
      total := 0;
      for i := 0 to |history|
        invariant total == HeldUpTo(leases, history, i)
      {
        total := total + history[i].load.count;
      }
      assert history[..|history|] == history;
      LeasesArePartitioned(leases, history, |history|);
      assert HoldersOf(leases, Loads(history)) == leases;
    }
  }

  function Sample(m: Member, rank: Option<nat>): TargetSnapshot
    reads m.load, m.traffic
  {
    TargetSnapshot(m.target, rank, m.ping, m.source, m.load.count, m.traffic.c2s, m.traffic.s2c)
  }

  lemma SampleIsExact(m: Member, rank: Option<nat>)
    ensures var row := Sample(m, rank);
            && row.target == m.target && row.rank == rank && row.ping == m.ping && row.source == m.source
            && row.activeConnections == m.load.count && row.c2sBytes == m.traffic.c2s && row.s2cBytes == m.traffic.s2c
  {}

  function MemberRows(members: seq<Member>): (rows: seq<TargetSnapshot>)
    reads Loads(members), Traffics(members)
    ensures |rows| == |members|
    ensures forall i :: 0 <= i < |rows| ==> rows[i] == Sample(members[i], Some(i + 1))
  {
    if members == [] then []
    else MemberRows(members[..|members| - 1]) + [Sample(members[|members| - 1], Some(|members|))]
  }

  function RetiredRows(history: seq<Member>, at: seq<nat>): (rows: seq<TargetSnapshot>)
    requires forall r :: 0 <= r < |at| ==> at[r] < |history|
    reads Loads(history), Traffics(history)
    ensures |rows| == |at|
    ensures forall r :: 0 <= r < |rows| ==> rows[r] == Sample(history[at[r]], None)
  {
    if at == [] then []
    else RetiredRows(history, at[..|at| - 1]) + [Sample(history[at[|at| - 1]], None)]
  }

  // The history positions whose target is not a member, in first-seen order.
  function RetiredAt(history: seq<Member>, members: seq<Member>): (at: seq<nat>)
    ensures forall r :: 0 <= r < |at| ==> at[r] < |history|
    ensures forall q, r :: 0 <= q < r < |at| ==> at[q] < at[r]
    ensures forall i :: 0 <= i < |history| ==> (i in at <==> history[i].Key() !in Keys(members))
  {
    if history == [] then []
    else
      var n := |history| - 1;
      var earlier := RetiredAt(history[..n], members);
      if history[n].Key() in Keys(members) then earlier else earlier + [n]
  }

  function Measured(m: Member, ping: Option<nat>): Member { m.(ping := ping, source := Live) }

  lemma MeasuredIsExact(m: Member, ping: Option<nat>)
    ensures var n := Measured(m, ping);
            n.ping == ping && n.source == Live && n.target == m.target && n.load == m.load && n.traffic == m.traffic
  {}

  lemma KeptExactlyOnce(targets: seq<Target>)
    ensures var kept := KeepFirst(targets, KeyOf);
            && |kept| <= |targets| && (targets != [] ==> kept != [])
            && forall i, j :: 0 <= i < j < |kept| ==> kept[i].Key() != kept[j].Key()
  {
    var kept := KeepFirst(targets, KeyOf);
    KeptAreDistinct(targets, KeyOf);
    KeptAreFewer(targets);
    forall i, j | 0 <= i < j < |kept| ensures kept[i].Key() != kept[j].Key() {
      assert KeyOf(kept[i]) != KeyOf(kept[j]);
    }
  }

  lemma {:induction false} KeptAreFewer(targets: seq<Target>)
    ensures |KeepFirst(targets, KeyOf)| <= |targets|
    ensures targets != [] ==> KeepFirst(targets, KeyOf) != []
  {
    if |targets| > 1 {
      KeptAreFewer(targets[..|targets| - 1]);
    }
  }
}
