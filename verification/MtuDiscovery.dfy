/** The binary search for the path MTU. */
module PathMtu {
  import opened Serial
  import Ring

  const MIN_MTU := 576
  const REDISCOVER_MS := 30 * 60 * 1000
  const SEARCH_DONE := 16

  datatype Search = Search(floor: nat, ceiling: nat, last: nat, probeSeq: nat, probeSize: nat, discoverTime: int)

  function Cleared(m: Search): Search {
    m.(probeSeq := 0, probeSize := 0)
  }

  function Reset(m: Search, udpMtu: nat, now: int): Search {
    m.(ceiling := udpMtu, floor := MIN_MTU, discoverTime := now + REDISCOVER_MS)
  }

  function Updated(m: Search, now: int): Search {
    var m1 := Cleared(m).(last := (m.floor + m.ceiling) / 2);
    if m.ceiling - m.floor <= SEARCH_DONE
    then m1.(last := m.floor, ceiling := m.floor, discoverTime := now + REDISCOVER_MS)
    else m1
  }

  predicate IsProbe(m: Search, nr: nat) {
    m.probeSeq != 0 && nr == m.probeSeq
  }

  function ProbeAcked(m: Search, nr: nat, now: int): Search {
    if IsProbe(m, nr) then Updated(m.(floor := m.probeSize), now) else m
  }

  function ProbeLost(m: Search, now: int): Search {
    Cleared(Updated(m.(ceiling := W32(m.probeSize - 1)), now))
  }

  function ProbeTimedOut(m: Search, outstanding: nat, curWindowPackets: nat, now: int): Search {
    if curWindowPackets == 1 && IsProbe(m, outstanding) then ProbeLost(m, now) else Cleared(m)
  }

  function FragmentationNeeded(m: Search, nextHopMtu: nat, now: int): Search {
    var m1 := Updated(m.(ceiling := if nextHopMtu < m.ceiling then nextHopMtu else m.ceiling), now);
    m1.(last := m1.ceiling)
  }

  function FragmentationUnknown(m: Search, now: int): Search {
    Updated(m.(ceiling := (m.floor + m.ceiling) / 2), now)
  }

  class MtuDiscovery {
    var mtuFloor: nat
    var mtuCeiling: nat
    var mtuLast: nat
    var mtuProbeSeq: nat
    var mtuProbeSize: nat
    var mtuDiscoverTime: int

    ghost function State(): Search
      reads this
    {
      Search(mtuFloor, mtuCeiling, mtuLast, mtuProbeSeq, mtuProbeSize, mtuDiscoverTime)
    }

    /** What the code asserts, and what its callers rely on. */
    ghost predicate Valid()
      reads this
    {
      mtuFloor <= mtuCeiling < MOD32 && (mtuProbeSeq != 0 ==> mtuFloor < mtuProbeSize <= mtuCeiling)
    }

    constructor (udpMtu: nat, now: int)
      requires MIN_MTU <= udpMtu < MOD32
      ensures Valid() && State() == Started(udpMtu, now)
    {
      mtuFloor, mtuCeiling, mtuLast := MIN_MTU, udpMtu, udpMtu;
      mtuProbeSeq, mtuProbeSize, mtuDiscoverTime := 0, 0, now + REDISCOVER_MS;
    }

    method ResetSearch(udpMtu: nat, now: int)
      requires Valid() && MIN_MTU <= mtuFloor && mtuCeiling <= udpMtu < MOD32
      modifies this
      ensures Valid() && State() == Reset(old(State()), udpMtu, now)
    {
      mtuCeiling := udpMtu;
      mtuFloor := MIN_MTU;
      mtuDiscoverTime := now + REDISCOVER_MS;
    }

    method SearchUpdate(now: int)
      requires mtuFloor <= mtuCeiling < MOD32
      modifies this
      ensures Valid() && State() == Updated(old(State()), now)
    {
      mtuLast := (mtuFloor + mtuCeiling) / 2;
      mtuProbeSeq, mtuProbeSize := 0, 0;
      if mtuCeiling - mtuFloor <= SEARCH_DONE {
        mtuLast := mtuFloor;
        mtuCeiling := mtuFloor;
        mtuDiscoverTime := now + REDISCOVER_MS;
      }
    }

    /** A packet of `size` bytes goes out as a probe. */
    method SetProbe(nr: nat, size: nat)
      requires Valid() && nr != 0 && mtuFloor < size <= mtuCeiling
      modifies this`mtuProbeSeq, this`mtuProbeSize
      ensures Valid() && State() == old(State()).(probeSeq := nr, probeSize := size)
    {
      mtuProbeSeq, mtuProbeSize := nr, size;
    }

    method HandleProbeAck(nr: nat, now: int) returns (handled: bool)
      requires Valid()
      modifies this
      ensures Valid() && State() == ProbeAcked(old(State()), nr, now) && handled == IsProbe(old(State()), nr)
    {
      handled := mtuProbeSeq != 0 && nr == mtuProbeSeq;
      if handled {
        mtuFloor := mtuProbeSize;
        SearchUpdate(now);
      }
    }

    method HandleProbeLoss(now: int)
      requires Valid() && mtuProbeSeq != 0
      modifies this
      ensures Valid() && State() == ProbeLost(old(State()), now)
    {
      mtuCeiling := mtuProbeSize - 1;
      SearchUpdate(now);
      ClearProbe();
    }

    method HandleProbeTimeout(outstanding: nat, curWindowPackets: nat, now: int) returns (ignoreLoss: bool)
      requires Valid()
      modifies this
      ensures Valid() && State() == ProbeTimedOut(old(State()), outstanding, curWindowPackets, now)
      ensures ignoreLoss == (curWindowPackets == 1 && IsProbe(old(State()), outstanding))
    {
      ignoreLoss := false;
      if curWindowPackets == 1 && mtuProbeSeq != 0 && outstanding == mtuProbeSeq {
        mtuCeiling := mtuProbeSize - 1;
        SearchUpdate(now);
        ignoreLoss := true;
      }
      ClearProbe();
    }

    method HandleIcmpFragmentation(nextHopMtu: nat, now: int)
      requires Valid() && nextHopMtu >= mtuFloor
      modifies this
      ensures Valid() && State() == FragmentationNeeded(old(State()), nextHopMtu, now)
    {
      if nextHopMtu < mtuCeiling {
        mtuCeiling := nextHopMtu;
      }
      SearchUpdate(now);
      mtuLast := mtuCeiling;
    }

    method HandleIcmpUnknown(now: int)
      requires Valid()
      modifies this
      ensures Valid() && State() == FragmentationUnknown(old(State()), now)
    {
      mtuCeiling := (mtuFloor + mtuCeiling) / 2;
      SearchUpdate(now);
    }

    method ClearProbe()
      requires mtuFloor <= mtuCeiling < MOD32
      modifies this`mtuProbeSeq, this`mtuProbeSize
      ensures Valid() && State() == Cleared(old(State()))
    {
      mtuProbeSeq, mtuProbeSize := 0, 0;
    }
  }

  /** After `reset` and `set_last_to_ceiling`. */
  function Started(udpMtu: nat, now: int): Search {
    Search(MIN_MTU, udpMtu, udpMtu, 0, 0, now + REDISCOVER_MS)
  }

  // ---------------------------------------------------------------- every order of events

  datatype Event =
    | Rediscover
    | Update
    | Probe(nr: nat, size: nat)
    | Acked(nr: nat)
    | Lost
    | TimedOut(outstanding: nat, curWindowPackets: nat)
    | NeedFragmentation(nextHopMtu: nat)
    | UnknownFragmentation

  /** The guards of the callers. */
  predicate Allowed(m: Search, e: Event) {
    match e
    case Probe(nr, size) => nr != 0 && m.probeSeq == 0 && m.floor < m.ceiling && m.floor < size <= m.ceiling
    case Lost => m.probeSeq != 0
    case NeedFragmentation(nextHopMtu) => nextHopMtu >= m.floor
    case _ => true
  }

  function Handle(m: Search, e: Event, udpMtu: nat, now: int): Search {
    match e
    case Rediscover => Reset(m, udpMtu, now)
    case Update => Updated(m, now)
    case Probe(nr, size) => m.(probeSeq := nr, probeSize := size)
    case Acked(nr) => ProbeAcked(m, nr, now)
    case Lost => ProbeLost(m, now)
    case TimedOut(outstanding, count) => ProbeTimedOut(m, outstanding, count, now)
    case NeedFragmentation(mtu) => FragmentationNeeded(m, mtu, now)
    case UnknownFragmentation => FragmentationUnknown(m, now)
  }

  datatype Occurrence = Occurrence(event: Event, now: int)

  function HandleAll(m: Search, es: seq<Occurrence>, udpMtu: nat): Search
    decreases |es|
  {
    if es == [] then m
    else Handle(HandleAll(m, es[..|es| - 1], udpMtu), es[|es| - 1].event, udpMtu, es[|es| - 1].now)
  }

  ghost predicate AllowedRun(m: Search, es: seq<Occurrence>, udpMtu: nat)
    decreases |es|
  {
    es == [] ||
    (AllowedRun(m, es[..|es| - 1], udpMtu) && Allowed(HandleAll(m, es[..|es| - 1], udpMtu), es[|es| - 1].event))
  }

  /** The search lies between 576 and what the interface allows, and a probe under way is larger
      than what is known to pass and no larger than what might. */
  predicate InRange(m: Search, udpMtu: nat) {
    && MIN_MTU <= m.floor <= m.ceiling <= udpMtu
    && m.floor <= m.last <= m.ceiling
    && (m.probeSeq != 0 ==> m.floor < m.probeSize <= m.ceiling)
  }

  lemma HandleInRange(m: Search, e: Event, udpMtu: nat, now: int)
    requires InRange(m, udpMtu) && Allowed(m, e) && udpMtu < MOD32
    ensures InRange(Handle(m, e, udpMtu, now), udpMtu)
  {
  }

  /** In every order of events. */
  lemma {:induction false} AlwaysInRange(udpMtu: nat, start: int, es: seq<Occurrence>)
    requires MIN_MTU <= udpMtu < MOD32 && AllowedRun(Started(udpMtu, start), es, udpMtu)
    ensures InRange(HandleAll(Started(udpMtu, start), es, udpMtu), udpMtu)
    decreases |es|
  {
    if es != [] {
      AlwaysInRange(udpMtu, start, es[..|es| - 1]);
      HandleInRange(HandleAll(Started(udpMtu, start), es[..|es| - 1], udpMtu), es[|es| - 1].event, udpMtu,
        es[|es| - 1].now);
    }
  }

  // ---------------------------------------------------------------- convergence

  predicate Done(m: Search) {
    m.floor == m.ceiling
  }

  /** A probe of the current size with number `nr`, answered truthfully for a path that lets
      `pathMtu` bytes pass: acknowledged if it fits; otherwise found lost by duplicate
      acknowledgements or by the timer. */
  function Probed(m: Search, pathMtu: nat, nr: nat, byTimer: bool, now: int): Search {
    var m1 := m.(probeSeq := nr, probeSize := m.last);
    if m.last <= pathMtu then ProbeAcked(m1, nr, now)
    else if byTimer then ProbeTimedOut(m1, nr, 1, now)
    else ProbeLost(m1, now)
  }

  datatype Round = Round(nr: nat, byTimer: bool, now: int)

  /** Probing goes on until the search is done. */
  function ProbedAll(m: Search, pathMtu: nat, rounds: seq<Round>): Search
    decreases |rounds|
  {
    if rounds == [] || Done(m) then m
    else ProbedAll(Probed(m, pathMtu, rounds[0].nr, rounds[0].byTimer, rounds[0].now), pathMtu, rounds[1..])
  }

  /** The search after an update, with the path's MTU between its bounds, or done with an answer
      at most 16 bytes short. */
  predicate Searching(m: Search, pathMtu: nat) {
    if Done(m) then pathMtu - SEARCH_DONE <= m.last == m.floor <= pathMtu
    else && m.floor <= pathMtu <= m.ceiling < MOD32
         && m.ceiling - m.floor > SEARCH_DONE && m.last == (m.floor + m.ceiling) / 2
  }

  lemma UpdateSearches(m: Search, pathMtu: nat, now: int)
    requires m.floor <= pathMtu <= m.ceiling < MOD32
    ensures Searching(Updated(m, now), pathMtu)
  {
  }

  /** Each probe halves the width. */
  lemma ProbeHalves(m: Search, pathMtu: nat, nr: nat, byTimer: bool, now: int)
    requires Searching(m, pathMtu) && !Done(m) && nr != 0
    ensures var m' := Probed(m, pathMtu, nr, byTimer, now);
            Searching(m', pathMtu) && 2 * (m'.ceiling - m'.floor) <= m.ceiling - m.floor + 1
  {
    var m1 := m.(probeSeq := nr, probeSize := m.last);
    if m.last <= pathMtu {
      UpdateSearches(m1.(floor := m.last), pathMtu, now);
    } else {
      FailedSearches(m, m1.(ceiling := m.last - 1), pathMtu, now);
      assert W32(m.last - 1) == m.last - 1;
    }
  }

  lemma FailedSearches(m: Search, m1: Search, pathMtu: nat, now: int)
    requires m.floor <= pathMtu < m.last <= m.ceiling < MOD32 && m.last == (m.floor + m.ceiling) / 2
    requires m1.floor == m.floor && m1.ceiling == m.last - 1
    ensures var m' := Updated(m1, now);
            Searching(m', pathMtu) && 2 * (m'.ceiling - m'.floor) <= m.ceiling - m.floor + 1
    ensures Searching(Cleared(Updated(m1, now)), pathMtu)
  {
    UpdateSearches(m1, pathMtu, now);
  }

  /** Answered truthfully, a search that is at most 16 * 2^k bytes wide is done after k probes, and
      the MTU found is at most the path's and at most 16 bytes less. */
  lemma {:induction false} Converges(m: Search, pathMtu: nat, rounds: seq<Round>, k: nat)
    requires Searching(m, pathMtu) && m.ceiling - m.floor <= SEARCH_DONE * Ring.Pow2(k) && |rounds| >= k
    requires forall i :: 0 <= i < |rounds| ==> rounds[i].nr != 0
    ensures var m' := ProbedAll(m, pathMtu, rounds);
            Done(m') && pathMtu - SEARCH_DONE <= m'.last <= pathMtu
    decreases k
  {
    if !Done(m) {
      assert k > 0;
      var r := rounds[0];
      ProbeHalves(m, pathMtu, r.nr, r.byTimer, r.now);
      Converges(Probed(m, pathMtu, r.nr, r.byTimer, r.now), pathMtu, rounds[1..], k - 1);
    }
  }

  /** From a fresh search and its first update. */
  lemma FreshSearchConverges(udpMtu: nat, pathMtu: nat, start: int, rounds: seq<Round>, k: nat)
    requires MIN_MTU <= pathMtu <= udpMtu < MOD32 && udpMtu - MIN_MTU <= SEARCH_DONE * Ring.Pow2(k) && |rounds| >= k
    requires forall i :: 0 <= i < |rounds| ==> rounds[i].nr != 0
    ensures var m' := ProbedAll(Updated(Started(udpMtu, start), start), pathMtu, rounds);
            Done(m') && pathMtu - SEARCH_DONE <= m'.last <= pathMtu
  {
    UpdateSearches(Started(udpMtu, start), pathMtu, start);
    Converges(Updated(Started(udpMtu, start), start), pathMtu, rounds, k);
  }

  /** When the route may have changed the search starts over, whatever it had come to. */
  lemma RediscoveryConverges(m: Search, udpMtu: nat, pathMtu: nat, now: int, rounds: seq<Round>, k: nat)
    requires MIN_MTU <= pathMtu <= udpMtu < MOD32 && udpMtu - MIN_MTU <= SEARCH_DONE * Ring.Pow2(k) && |rounds| >= k
    requires forall i :: 0 <= i < |rounds| ==> rounds[i].nr != 0
    ensures var m' := ProbedAll(Updated(Reset(m, udpMtu, now), now), pathMtu, rounds);
            Done(m') && pathMtu - SEARCH_DONE <= m'.last <= pathMtu
  {
    UpdateSearches(Reset(m, udpMtu, now), pathMtu, now);
    Converges(Updated(Reset(m, udpMtu, now), now), pathMtu, rounds, k);
  }

  /** A timeout always ends the probe under way; it counts against the probe's size only if the probe
      was alone, and otherwise leaves the search where it was. */
  lemma TimeoutEndsProbe(m: Search, m': Search, outstanding: nat, curWindowPackets: nat, now: int)
    requires m.floor <= m.ceiling < MOD32 && (m.probeSeq != 0 ==> m.floor < m.probeSize <= m.ceiling)
    requires m' == ProbeTimedOut(m, outstanding, curWindowPackets, now)
    ensures m'.probeSeq == 0 && m'.floor == m.floor
    ensures if curWindowPackets == 1 && IsProbe(m, outstanding) then m'.last <= m'.ceiling < m.probeSize
            else m'.ceiling == m.ceiling && m'.last == m.last
  {
    if IsProbe(m, outstanding) {
      assert W32(m.probeSize - 1) == m.probeSize - 1;
    }
  }

  // ---------------------------------------------------------------- what routers say

  /** A router's value is obeyed at once: nothing larger is sent after it, the largest size that it and
      the search leave open is used, and the path's true MTU stays in the search, which is given up
      only when at most 16 bytes are left. */
  lemma RouterIsObeyed(m: Search, m': Search, nextHopMtu: nat, now: int, pathMtu: nat)
    requires m.floor <= nextHopMtu && m.floor <= pathMtu <= m.ceiling && pathMtu <= nextHopMtu
    requires m' == FragmentationNeeded(m, nextHopMtu, now)
    ensures m'.last <= nextHopMtu && m'.ceiling <= nextHopMtu && m'.floor == m.floor && m'.probeSeq == 0
    ensures m'.last == m'.ceiling
    ensures if Done(m') then m'.last <= pathMtu <= m'.last + SEARCH_DONE
            else pathMtu <= m'.last && (m'.last == nextHopMtu || m'.last == m.ceiling)
  {
  }

  /** Only a rediscovery raises the ceiling. */
  lemma CeilingFalls(m: Search, e: Event, udpMtu: nat, now: int)
    requires InRange(m, udpMtu) && Allowed(m, e) && udpMtu < MOD32 && !e.Rediscover?
    ensures Handle(m, e, udpMtu, now).ceiling <= m.ceiling
  {
  }

  lemma {:induction false} CeilingFallsOverRuns(m: Search, es: seq<Occurrence>, udpMtu: nat)
    requires InRange(m, udpMtu) && udpMtu < MOD32 && AllowedRun(m, es, udpMtu)
    requires forall o :: o in es ==> !o.event.Rediscover?
    ensures InRange(HandleAll(m, es, udpMtu), udpMtu) && HandleAll(m, es, udpMtu).ceiling <= m.ceiling
    decreases |es|
  {
    if es != [] {
      var m1 := HandleAll(m, es[..|es| - 1], udpMtu);
      var last := es[|es| - 1];
      CeilingFallsOverRuns(m, es[..|es| - 1], udpMtu);
      CeilingFalls(m1, last.event, udpMtu, last.now);
      HandleInRange(m1, last.event, udpMtu, last.now);
    }
  }

  /** And it stays obeyed in every order of events, until the search starts over. */
  lemma ObeyedUntilRediscovery(m: Search, m': Search, es: seq<Occurrence>, nextHopMtu: nat, udpMtu: nat, now: int)
    requires InRange(m, udpMtu) && udpMtu < MOD32 && m.floor <= nextHopMtu
    requires AllowedRun(FragmentationNeeded(m, nextHopMtu, now), es, udpMtu)
    requires forall o :: o in es ==> !o.event.Rediscover?
    requires m' == HandleAll(FragmentationNeeded(m, nextHopMtu, now), es, udpMtu)
    ensures m'.last <= nextHopMtu && (m'.probeSeq != 0 ==> m'.probeSize <= nextHopMtu)
  {
    HandleInRange(m, NeedFragmentation(nextHopMtu), udpMtu, now);
    CeilingFallsOverRuns(FragmentationNeeded(m, nextHopMtu, now), es, udpMtu);
  }

  /** A router that names no value halves the search from above. */
  lemma UnnamedHalves(m: Search, m': Search, now: int)
    requires m.floor <= m.ceiling && m' == FragmentationUnknown(m, now)
    ensures m'.floor == m.floor <= m'.last <= m'.ceiling <= (m.floor + m.ceiling) / 2 && m'.probeSeq == 0
    ensures 2 * (m'.ceiling - m'.floor) <= m.ceiling - m.floor
  {
  }
}
