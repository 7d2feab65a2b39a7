/** The pure parts of choosing a pool member, and what makes a choice fair. */
module Selection {
  import opened Arithmetic
  import opened Wrappers

  datatype SelectionStrategy = Random | RoundRobin | LeastPing | LeastLoad

  // The first position holding a least value, ignoring positions without one.
  function FirstLeast(keys: seq<Option<nat>>): (r: Option<nat>)
    ensures r.None? <==> forall i :: 0 <= i < |keys| ==> keys[i].None?
    ensures r.Some? ==> r.value < |keys| && keys[r.value].Some?
    ensures r.Some? ==> forall i :: 0 <= i < |keys| && keys[i].Some? ==>
                          keys[r.value].value <= keys[i].value && (i < r.value ==> keys[r.value].value < keys[i].value)
  {
    if keys == [] then None
    else
      var n := |keys| - 1;
      var best := FirstLeast(keys[..n]);
      if keys[n].None? then best
      else if best.None? || keys[n].value < keys[best.value].value then Some(n)
      else best
  }

  // The offset at which a walk from the cursor, wrapping at count, meets position i.
  function Offset(cursor: nat, i: nat, count: nat): nat
    requires cursor < count && i < count
  {
    if cursor <= i then i - cursor else i + count - cursor
  }

  lemma WalkMeets(cursor: nat, o: nat, count: nat)
    requires cursor < count && o < count
    ensures (cursor + o) % count < count && Offset(cursor, (cursor + o) % count, count) == o
  {
    if cursor + o < count {
      QuotientIsUnique(cursor + o, count, 0, cursor + o);
    } else {
      QuotientIsUnique(cursor + o, count, 1, cursor + o - count);
    }
  }

  lemma WalkReaches(cursor: nat, i: nat, count: nat)
    requires cursor < count && i < count
    ensures Offset(cursor, i, count) < count && (cursor + Offset(cursor, i, count)) % count == i
  {
    QuotientIsUnique(cursor + Offset(cursor, i, count), count, if cursor <= i then 0 else 1, i);
  }

  function LeastLoadIndex(loads: seq<nat>, cursor: nat): (index: nat)
    requires cursor < |loads|
    ensures index < |loads|
  {
    var walk := seq(|loads|, o requires 0 <= o < |loads| => Some(loads[(cursor + o) % |loads|]));
    assert walk[0].Some?;
    (cursor + FirstLeast(walk).value) % |loads|
  }

  // A least-loaded position, and the first such met from the cursor.
  ghost predicate LeastLoaded(loads: seq<nat>, cursor: nat, index: nat)
    requires cursor < |loads| && index < |loads|
  {
    forall i :: 0 <= i < |loads| ==>
      && loads[index] <= loads[i]
      && (Offset(cursor, i, |loads|) < Offset(cursor, index, |loads|) ==> loads[index] < loads[i])
  }

  lemma LeastLoadIndexIsRight(loads: seq<nat>, cursor: nat)
    requires cursor < |loads|
    ensures LeastLoaded(loads, cursor, LeastLoadIndex(loads, cursor))
  {
    var count, index := |loads|, LeastLoadIndex(loads, cursor);
    var walk := seq(count, o requires 0 <= o < count => Some(loads[(cursor + o) % count]));
    assert walk[0].Some?;
    var best := FirstLeast(walk).value;
    WalkMeets(cursor, best, count);
    forall i | 0 <= i < count
      ensures loads[index] <= loads[i]
      ensures Offset(cursor, i, count) < Offset(cursor, index, count) ==> loads[index] < loads[i]
    {
      WalkReaches(cursor, i, count);
      assert walk[Offset(cursor, i, count)] == Some(loads[i]);
      assert walk[best] == Some(loads[index]);
    }
  }

  function LeastPingIndex(pings: seq<Option<nat>>, cursor: nat): (index: nat)
    requires cursor < |pings|
    ensures index < |pings|
  {
    var best := FirstLeast(pings);
    if best.Some? then best.value else cursor
  }

  // The best-ranked position with the lowest known ping, or the cursor when none is known.
  ghost predicate LeastPinged(pings: seq<Option<nat>>, cursor: nat, index: nat)
    requires index < |pings|
  {
    if forall i :: 0 <= i < |pings| ==> pings[i].None? then index == cursor
    else
      && pings[index].Some?
      && forall i :: 0 <= i < |pings| && pings[i].Some? ==>
           pings[index].value <= pings[i].value && (i < index ==> pings[index].value < pings[i].value)
  }

  lemma LeastPingIndexIsRight(pings: seq<Option<nat>>, cursor: nat)
    requires cursor < |pings|
    ensures LeastPinged(pings, cursor, LeastPingIndex(pings, cursor))
  {}

  // The position after this one, back to the first after the last.
  function Following(index: nat, count: nat): (next: nat)
    requires index < count
    ensures next < count
  {
    if index + 1 < count then index + 1 else 0
  }

  lemma FollowingIsModular(index: nat, count: nat)
    requires index < count
    ensures (index + 1) % count == Following(index, count)
  {
    QuotientIsUnique(index + 1, count, if index + 1 < count then 0 else 1, Following(index, count));
  }

  function Raised(counts: seq<nat>, i: nat): (r: seq<nat>)
    ensures |r| == |counts|
  {
    if i < |counts| then counts[i := counts[i] + 1] else counts
  }

  // Choices have gone round in rank order: the members before the cursor are one ahead.
  ghost predicate InTurn(cursor: nat, rounds: nat, served: seq<nat>) {
    forall i :: 0 <= i < |served| ==> served[i] == if i < cursor then rounds + 1 else rounds
  }

  lemma InTurnAfter(cursor: nat, rounds: nat, served: seq<nat>)
    requires cursor < |served| && InTurn(cursor, rounds, served)
    ensures InTurn(Following(cursor, |served|), if cursor + 1 < |served| then rounds else rounds + 1,
                   Raised(served, cursor))
  {}

  // How many of n turns the i-th of count members gets when turns go round in rank order.
  function Share(n: nat, count: nat, i: nat): nat
    requires i < count
  {
    (n + count - 1 - i) / count
  }

  // Choices in turn are exactly shared: the cursor and every count follow from the number of turns.
  lemma InTurnIsShared(cursor: nat, rounds: nat, served: seq<nat>, i: nat)
    requires i < |served| && cursor < |served| && InTurn(cursor, rounds, served)
    ensures var n := rounds * |served| + cursor; n % |served| == cursor && served[i] == Share(n, |served|, i)
  {
    var count := |served|;
    var whole := rounds * count;
    QuotientIsUnique(whole + cursor, count, rounds, cursor);
    ProductOfSum(rounds, 1, count);
    if i < cursor {
      QuotientIsUnique(whole + cursor + count - 1 - i, count, rounds + 1, cursor - 1 - i);
    } else {
      QuotientIsUnique(whole + cursor + count - 1 - i, count, rounds, cursor + count - 1 - i);
    }
  }

  // Turns never differ by more than one, and a better rank never has fewer.
  lemma SharesAreFair(n: nat, count: nat, i: nat, j: nat)
    requires i <= j < count
    ensures Share(n, count, j) <= Share(n, count, i) <= Share(n, count, j) + 1
  {
    var q, r := n / count, n % count;
    var whole := q * count;
    assert n == whole + r;
    ProductOfSum(q, 1, count);
    if r <= i {
      QuotientIsUnique(n + count - 1 - i, count, q, r + count - 1 - i);
    } else {
      QuotientIsUnique(n + count - 1 - i, count, q + 1, r - 1 - i);
    }
    if r <= j {
      QuotientIsUnique(n + count - 1 - j, count, q, r + count - 1 - j);
    } else {
      QuotientIsUnique(n + count - 1 - j, count, q + 1, r - 1 - j);
    }
  }

  predicate WithinSpread(loads: seq<nat>, d: nat) {
    forall i, j :: 0 <= i < |loads| && 0 <= j < |loads| ==> loads[i] <= loads[j] + d
  }

  predicate IsLeast(loads: seq<nat>, i: nat) {
    i < |loads| && forall j :: 0 <= j < |loads| ==> loads[i] <= loads[j]
  }

  function RaiseAt(loads: seq<nat>, chosen: seq<nat>): seq<nat>
    decreases |chosen|
  {
    if chosen == [] then loads
    else Raised(RaiseAt(loads, chosen[..|chosen| - 1]), chosen[|chosen| - 1])
  }

  predicate EachChosenLeast(loads: seq<nat>, chosen: seq<nat>) {
    forall n :: 0 <= n < |chosen| ==> IsLeast(RaiseAt(loads, chosen[..n]), chosen[n])
  }

  // Any number of least-loaded choices keeps the loads within max(spread, 1) of each other.
  lemma {:induction false} LeastLoadedStaysBalanced(loads: seq<nat>, chosen: seq<nat>, d: nat)
    requires WithinSpread(loads, d) && EachChosenLeast(loads, chosen)
    ensures WithinSpread(RaiseAt(loads, chosen), if d > 1 then d else 1)
    decreases |chosen|
  {
    if chosen != [] {
      var earlier := chosen[..|chosen| - 1];
      assert forall n :: 0 <= n < |earlier| ==> earlier[..n] == chosen[..n];
      LeastLoadedStaysBalanced(loads, earlier, d);
      assert IsLeast(RaiseAt(loads, earlier), chosen[|earlier|]);
    }
  }
}
