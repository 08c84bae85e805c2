/** The list of sockets that owe an acknowledgement, with each socket's place in it, and the
    purge of remembered resets: vectors edited in place by moving the last element. */
module DeferredAcks {
  import opened Serial

  const RST_INFO_TIMEOUT := 10_000
  const MOD64: int := 0x1_0000_0000_0000_0000

  /** A socket as far as the list goes: its index in it, -1 when it is not listed. */
  class AckSocket {
    var ackIndex: int
    var acksSent: nat

    constructor ()
      ensures ackIndex == -1 && acksSent == 0
    {
      ackIndex := -1;
      acksSent := 0;
    }
  }

  datatype RstInfo = RstInfo(connId: U32, ackNr: U16, timestamp: nat)

  /** `(int)(now - timestamp) >= RST_INFO_TIMEOUT`, in 32 bits. */
  predicate Expired(now: nat, r: RstInfo) {
    var age := W32(now - r.timestamp);
    RST_INFO_TIMEOUT <= age < 0x8000_0000
  }

  class UtpContext {
    var ackSockets: seq<AckSocket>
    var rstInfo: seq<RstInfo>
    ghost const sockets: set<AckSocket>

    /** Every listed socket knows its place, and exactly the unlisted ones say -1. */
    ghost predicate Valid()
      reads this, sockets
    {
      && (forall i :: 0 <= i < |ackSockets| ==> ackSockets[i] in sockets && ackSockets[i].ackIndex == i)
      && (forall s :: s in sockets && s !in ackSockets ==> s.ackIndex == -1)
    }

    constructor (ghost all: set<AckSocket>)
      requires forall s :: s in all ==> s.ackIndex == -1
      ensures Valid() && sockets == all && ackSockets == [] && rstInfo == []
    {
      ackSockets, rstInfo := [], [];
      sockets := all;
    }

    /** Listed sockets are listed once. */
    lemma NoDuplicates()
      requires Valid()
      ensures forall i, j :: 0 <= i < j < |ackSockets| ==> ackSockets[i] != ackSockets[j]
    {
    }

    method ScheduleAck(s: AckSocket)
      requires Valid() && s in sockets
      modifies this`ackSockets, s`ackIndex
      ensures Valid()
      ensures ackSockets == if s in old(ackSockets) then old(ackSockets) else old(ackSockets) + [s]
    {
      if s.ackIndex == -1 {
        ackSockets := ackSockets + [s];
        s.ackIndex := |ackSockets| - 1;
      }
    }

    /** The last socket takes the place of the one removed. */
    method RemoveAck(s: AckSocket)
      requires Valid() && s in sockets
      modifies this`ackSockets, sockets`ackIndex
      ensures Valid() && s !in ackSockets
      ensures s !in old(ackSockets) ==> ackSockets == old(ackSockets)
      ensures s in old(ackSockets) ==> ackSockets == SwapPop(old(ackSockets), old(s.ackIndex))
      ensures forall x :: x in ackSockets <==> x in old(ackSockets) && x != s
    {
      var idx := s.ackIndex;
      if idx < 0 {
        return;
      }
      NoDuplicates();
      var last := ackSockets[|ackSockets| - 1];
      last.ackIndex := idx;
      ackSockets := ackSockets[idx := last];
      s.ackIndex := -1;
      ackSockets := ackSockets[..|ackSockets| - 1];
      SwapPopMembers(old(ackSockets), idx);
    }

    /** Sending an acknowledgement takes the socket off the list. */
    method SendAck(s: AckSocket)
      requires Valid() && s in sockets
      modifies this`ackSockets, sockets`ackIndex, s`acksSent
      ensures Valid() && s.acksSent == old(s.acksSent) + 1
      ensures s in old(ackSockets) ==> ackSockets == SwapPop(old(ackSockets), old(s.ackIndex))
      ensures forall x :: x in ackSockets <==> x in old(ackSockets) && x != s
    {
      s.acksSent := s.acksSent + 1;
      RemoveAck(s);
    }

    /** One acknowledgement for every listed socket, none for the others, and an empty list. The
        index is unsigned: stepping back from 0 wraps, and the loop's own step wraps it back. */
    method IssueDeferredAcks()
      requires Valid()
      modifies this`ackSockets, sockets
      ensures Valid() && ackSockets == []
      ensures forall s :: s in sockets ==> s.acksSent == old(s.acksSent) + if s in old(ackSockets) then 1 else 0
    {
      var i: Index := 0;
      while i < |ackSockets|
        invariant i == 0 && Valid()
        invariant forall s :: s in ackSockets ==> s in old(ackSockets)
        invariant forall s :: s in sockets ==>
          s.acksSent == old(s.acksSent) + if s in old(ackSockets) && s !in ackSockets then 1 else 0
        decreases |ackSockets|
      {
        var conn := ackSockets[i];
        SendAck(conn);
        BackAndForth(i);
        i := Prev(i);
        i := Succ(i);
      }
    }

    /** What `check_timeouts` does to the remembered resets: exactly the expired ones go. */
    method PurgeRstInfo(now: nat)
      requires |rstInfo| < MOD64
      modifies this`rstInfo
      ensures forall r :: multiset(rstInfo)[r] == if Expired(now, r) then 0 else multiset(old(rstInfo))[r]
    {
      var i: Index := 0;
      while i < |rstInfo|
        invariant 0 <= i <= |rstInfo| < MOD64
        invariant forall j :: 0 <= j < i ==> !Expired(now, rstInfo[j])
        invariant forall r :: !Expired(now, r) ==> multiset(rstInfo)[r] == multiset(old(rstInfo))[r]
        decreases |rstInfo| - i
      {
        BackAndForth(i);
        if Expired(now, rstInfo[i]) {
          SwapPopRemoves(rstInfo, i);
          rstInfo := SwapPop(rstInfo, i);
          i := Prev(i);
        }
        i := Succ(i);
      }
      assert forall r :: Expired(now, r) ==> r !in rstInfo;
    }
  }

  type Index = n: int | 0 <= n < MOD64

  /** `i--` and `i++` on an unsigned 64-bit index. */
  function Prev(i: Index): Index {
    (i - 1) % MOD64
  }

  function Succ(i: Index): Index {
    (i + 1) % MOD64
  }

  lemma BackAndForth(i: Index)
    ensures Succ(Prev(i)) == i && (i + 1 < MOD64 ==> Succ(i) == i + 1)
  {
  }

  /** The last element moved to `i`, and the list one shorter. */
  function SwapPop<T>(s: seq<T>, i: int): seq<T>
    requires 0 <= i < |s|
  {
    s[i := s[|s| - 1]][..|s| - 1]
  }

  lemma SwapPopMembers<T>(s: seq<T>, i: nat)
    requires i < |s| && forall j, k :: 0 <= j < k < |s| ==> s[j] != s[k]
    ensures forall x :: x in SwapPop(s, i) <==> x in s && x != s[i]
  {
    var t := SwapPop(s, i);
    forall x | x in s && x != s[i]
      ensures x in t
    {
      var j :| 0 <= j < |s| && s[j] == x;
      if j == |s| - 1 {
        assert t[i] == x;
      } else {
        assert t[j] == x;
      }
    }
  }

  /** Moving the last element into the gap loses the removed one and nothing else. */
  lemma SwapPopRemoves<T>(s: seq<T>, i: nat)
    requires i < |s|
    ensures multiset(SwapPop(s, i)) == multiset(s) - multiset{s[i]}
  {
    var last := s[|s| - 1];
    var t := s[i := last];
    assert s == s[..|s| - 1] + [last];
    assert t == t[..|t| - 1] + [last];
    assert multiset(t) == multiset(s) - multiset{s[i]} + multiset{last};
  }
}
