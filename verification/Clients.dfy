/** Which clients stay connected after a broadcast: failures are collected in index order and
    swap-removed from the last to the first. */
module Clients {

  datatype Client = Client(address: nat)

  datatype WriteOutcome = Written | WouldBlock | Disconnected | Failed

  const MAX_CLIENTS: nat := 256
  const MAX_REMOVALS: nat := 64

  predicate Keeps(o: WriteOutcome) {
    o.Written? || o.WouldBlock?
  }

  /** The clients whose write succeeded or would block, in order. */
  function Kept(clients: seq<Client>, outcomes: seq<WriteOutcome>): seq<Client>
    requires |clients| == |outcomes|
  {
    if clients == [] then []
    else
      var k := |clients| - 1;
      Kept(clients[..k], outcomes[..k]) + if Keeps(outcomes[k]) then [clients[k]] else []
  }

  /** The indices of the other clients, in increasing order. */
  function FailedIndices(outcomes: seq<WriteOutcome>): (r: seq<nat>)
    ensures forall j :: 0 <= j < |r| ==> r[j] < |outcomes|
    ensures forall i, j :: 0 <= i < j < |r| ==> r[i] < r[j]
  {
    if outcomes == [] then []
    else
      var k := |outcomes| - 1;
      FailedIndices(outcomes[..k]) + if Keeps(outcomes[k]) then [] else [k]
  }

  function SelectAt(clients: seq<Client>, r: seq<nat>): seq<Client>
    requires forall j :: 0 <= j < |r| ==> r[j] < |clients|
  {
    seq(|r|, j requires 0 <= j < |r| => clients[r[j]])
  }

  function SwapRemove(clients: seq<Client>, i: nat): seq<Client>
    requires i < |clients|
  {
    var last := |clients| - 1;
    if i == last then clients[..last] else clients[..last][i := clients[last]]
  }

  lemma UpdateOne(s: seq<Client>, i: nat, c: Client)
    requires i < |s|
    ensures multiset(s[i := c]) + multiset{s[i]} == multiset(s) + multiset{c}
  {
  }

  lemma SwapRemoveTakesOne(clients: seq<Client>, i: nat)
    requires i < |clients|
    ensures |SwapRemove(clients, i)| == |clients| - 1
    ensures multiset(SwapRemove(clients, i)) + multiset{clients[i]} == multiset(clients)
    ensures forall k :: 0 <= k < i ==> SwapRemove(clients, i)[k] == clients[k]
  {
    var last := |clients| - 1;
    var front := clients[..last];
    assert clients == front + [clients[last]];
    if i < last {
      UpdateOne(front, i, clients[last]);
    }
  }

  /** The clients whose write failed, in order. */
  function Lost(clients: seq<Client>, outcomes: seq<WriteOutcome>): seq<Client>
    requires |clients| == |outcomes|
  {
    if clients == [] then []
    else
      var k := |clients| - 1;
      Lost(clients[..k], outcomes[..k]) + if Keeps(outcomes[k]) then [] else [clients[k]]
  }

  lemma {:induction false} SelectIsLost(clients: seq<Client>, outcomes: seq<WriteOutcome>)
    requires |clients| == |outcomes|
    ensures SelectAt(clients, FailedIndices(outcomes)) == Lost(clients, outcomes)
    decreases |clients|
  {
    if clients != [] {
      var k := |clients| - 1;
      SelectIsLost(clients[..k], outcomes[..k]);
      assert SelectAt(clients[..k], FailedIndices(outcomes[..k])) == SelectAt(clients, FailedIndices(outcomes[..k]));
    }
  }

  lemma CountAppend(s: seq<Client>, c: Client)
    ensures multiset(s + [c]) == multiset(s) + multiset{c}
  {
  }

  lemma LastOutcome(clients: seq<Client>, outcomes: seq<WriteOutcome>)
    requires |clients| == |outcomes| > 0
    ensures var k := |clients| - 1;
      var kept, lost := Kept(clients[..k], outcomes[..k]), Lost(clients[..k], outcomes[..k]);
      if Keeps(outcomes[k]) then Kept(clients, outcomes) == kept + [clients[k]] && Lost(clients, outcomes) == lost
      else Kept(clients, outcomes) == kept && Lost(clients, outcomes) == lost + [clients[k]]
  {
  }

  /** Every client is either kept or lost. */
  lemma {:induction false} KeptOrLost(clients: seq<Client>, outcomes: seq<WriteOutcome>)
    requires |clients| == |outcomes|
    ensures multiset(Kept(clients, outcomes)) + multiset(Lost(clients, outcomes)) == multiset(clients)
    decreases |clients|
  {
    if clients != [] {
      var k := |clients| - 1;
      var kept, lost := Kept(clients[..k], outcomes[..k]), Lost(clients[..k], outcomes[..k]);
      KeptOrLost(clients[..k], outcomes[..k]);
      assert clients == clients[..k] + [clients[k]];
      hide Kept, Lost;
      CountAppend(clients[..k], clients[k]);
      CountAppend(kept, clients[k]);
      CountAppend(lost, clients[k]);
      LastOutcome(clients, outcomes);
    }
  }

  /** Where the client is listed with a write that succeeded or would block. */
  ghost function StaysAt(clients: seq<Client>, outcomes: seq<WriteOutcome>, c: Client): set<nat>
    requires |clients| == |outcomes|
  {
    set i | 0 <= i < |clients| && clients[i] == c && (outcomes[i] == Written || outcomes[i] == WouldBlock)
  }

  lemma LastStays(clients: seq<Client>, outcomes: seq<WriteOutcome>, c: Client)
    requires |clients| == |outcomes| > 0
    ensures var k := |clients| - 1;
      |StaysAt(clients, outcomes, c)| == |StaysAt(clients[..k], outcomes[..k], c)|
        + if clients[k] == c && (outcomes[k] == Written || outcomes[k] == WouldBlock) then 1 else 0
  {
    var k := |clients| - 1;
    var before := StaysAt(clients[..k], outcomes[..k], c);
    if clients[k] == c && (outcomes[k] == Written || outcomes[k] == WouldBlock) {
      assert StaysAt(clients, outcomes, c) == before + {k};
    } else {
      assert StaysAt(clients, outcomes, c) == before;
    }
  }

  lemma {:induction false} KeptStays(clients: seq<Client>, outcomes: seq<WriteOutcome>, c: Client)
    requires |clients| == |outcomes|
    ensures multiset(Kept(clients, outcomes))[c] == |StaysAt(clients, outcomes, c)|
    decreases |clients|
  {
    if clients == [] {
      assert StaysAt(clients, outcomes, c) == {};
    } else {
      var k := |clients| - 1;
      KeptStays(clients[..k], outcomes[..k], c);
      LastStays(clients, outcomes, c);
      LastOutcome(clients, outcomes);
      hide Kept, Lost, StaysAt;
      CountAppend(Kept(clients[..k], outcomes[..k]), clients[k]);
    }
  }

  /** A client stays as often as it is listed with a write that succeeded or would block. */
  lemma KeptByOutcome(clients: seq<Client>, outcomes: seq<WriteOutcome>, c: Client)
    requires |clients| == |outcomes|
    ensures multiset(Kept(clients, outcomes))[c]
         == |set i | 0 <= i < |clients| && clients[i] == c && (outcomes[i] == Written || outcomes[i] == WouldBlock)|
  {
    KeptStays(clients, outcomes, c);
  }

  /** The failures are the clients that were disconnected or failed otherwise. */
  lemma {:induction false} FailedByOutcome(outcomes: seq<WriteOutcome>)
    ensures |FailedIndices(outcomes)|
         == |set i | 0 <= i < |outcomes| && (outcomes[i] == Disconnected || outcomes[i] == Failed)|
    decreases |outcomes|
  {
    var at := set i | 0 <= i < |outcomes| && (outcomes[i] == Disconnected || outcomes[i] == Failed);
    if outcomes == [] {
      assert at == {};
    } else {
      var k := |outcomes| - 1;
      var ends := outcomes[..k];
      FailedByOutcome(ends);
      var before := set i | 0 <= i < |ends| && (ends[i] == Disconnected || ends[i] == Failed);
      if outcomes[k] == Disconnected || outcomes[k] == Failed {
        assert at == before + {k};
      } else {
        assert at == before;
      }
    }
  }

  /** The state of the removal: the failures from the k-th on are gone, and everything in
      front of the latest removal is where it was. */
  ghost predicate RemovedFrom(all: seq<Client>, r: seq<nat>, k: nat, clients: seq<Client>)
    requires k <= |r| && forall j :: 0 <= j < |r| ==> r[j] < |all|
  {
    && |clients| == |all| - (|r| - k)
    && multiset(clients) + multiset(SelectAt(all, r[k..])) == multiset(all)
    && forall i :: 0 <= i < (if k < |r| then r[k] else |all|) ==> i < |clients| && clients[i] == all[i]
  }

  lemma SelectCons(all: seq<Client>, i: nat, r: seq<nat>)
    requires i < |all| && forall j :: 0 <= j < |r| ==> r[j] < |all|
    ensures SelectAt(all, [i] + r) == [all[i]] + SelectAt(all, r)
  {
  }

  lemma RemovalStep(all: seq<Client>, r: seq<nat>, k: nat, clients: seq<Client>)
    requires k < |r| && (forall j :: 0 <= j < |r| ==> r[j] < |all|) && (forall i, j :: 0 <= i < j < |r| ==> r[i] < r[j])
    requires RemovedFrom(all, r, k + 1, clients)
    ensures r[k] < |clients|
    ensures RemovedFrom(all, r, k, SwapRemove(clients, r[k]))
  {
    var idx := r[k];
    assert idx < |clients| && clients[idx] == all[idx];
    SwapRemoveTakesOne(clients, idx);
    assert r[k..] == [idx] + r[k + 1..];
    SelectCons(all, idx, r[k + 1..]);
  }

  lemma {:induction false} FailuresGrow(outcomes: seq<WriteOutcome>, k: nat)
    requires k <= |outcomes|
    ensures |FailedIndices(outcomes[..k])| <= |FailedIndices(outcomes)|
    decreases |outcomes|
  {
    if k < |outcomes| {
      var front := outcomes[..|outcomes| - 1];
      FailuresGrow(front, k);
      assert front[..k] == outcomes[..k];
    } else {
      assert outcomes[..k] == outcomes;
    }
  }

  lemma Cancel(a: multiset<Client>, b: multiset<Client>, c: multiset<Client>)
    requires a + c == b + c
    ensures a == b
  {
    assert a == (a + c) - c && b == (b + c) - c;
  }

  lemma AllRemoved(all: seq<Client>, outcomes: seq<WriteOutcome>, clients: seq<Client>)
    requires |all| == |outcomes| && RemovedFrom(all, FailedIndices(outcomes), 0, clients)
    ensures multiset(clients) == multiset(Kept(all, outcomes))
  {
    hide Kept, Lost, FailedIndices, SelectAt;
    assert FailedIndices(outcomes)[0..] == FailedIndices(outcomes);
    SelectIsLost(all, outcomes);
    KeptOrLost(all, outcomes);
    Cancel(multiset(clients), multiset(Kept(all, outcomes)), multiset(Lost(all, outcomes)));
  }

  lemma NothingRemoved(all: seq<Client>, r: seq<nat>)
    requires forall j :: 0 <= j < |r| ==> r[j] < |all|
    ensures RemovedFrom(all, r, |r|, all)
  {
  }

  lemma {:induction false} AllFail(n: nat)
    ensures |FailedIndices(seq(n, _ => Disconnected))| == n
  {
    if n > 0 {
      AllFail(n - 1);
      assert seq(n, _ => Disconnected)[..n - 1] == seq(n - 1, _ => Disconnected);
    }
  }

  /** There can be more failures than the list of removals holds: 65 of up to 256 clients. */
  lemma TooManyCanFail()
    ensures 65 <= MAX_CLIENTS && |FailedIndices(seq(65, _ => Disconnected))| > 64
  {
    AllFail(65);
  }

  class ClientList {
    var clients: seq<Client>

    method RemoveAll(outcomes: seq<WriteOutcome>, toRemove: seq<nat>)
      requires |outcomes| == |clients| && toRemove == FailedIndices(outcomes)
      modifies this
      ensures multiset(clients) == multiset(Kept(old(clients), outcomes))
    {
      hide RemovedFrom, SwapRemove;
      ghost var all := clients;
      var k := |toRemove|;
      NothingRemoved(all, toRemove);
      while k > 0
        invariant 0 <= k <= |toRemove|
        invariant RemovedFrom(all, toRemove, k, clients)
      {
        k := k - 1;
        RemovalStep(all, toRemove, k, clients);
        clients := SwapRemove(clients, toRemove[k]);
      }
      AllRemoved(all, outcomes, clients);
    }

    /** One broadcast to all clients. More than 64 failures at once overflow the fixed list
        of removals, which aborts the process. */
    method BroadcastBytes(outcomes: seq<WriteOutcome>) returns (aborted: bool)
      requires |outcomes| == |clients|
      modifies this
      ensures aborted <==> |set i | 0 <= i < |outcomes| && (outcomes[i] == Disconnected || outcomes[i] == Failed)| > 64
      ensures aborted ==> clients == old(clients)
      ensures !aborted ==> multiset(clients) == multiset(Kept(old(clients), outcomes))
      ensures !aborted ==> forall c :: (
        multiset(clients)[c] == |set i | 0 <= i < |outcomes| && old(clients)[i] == c
                                         && (outcomes[i] == Written || outcomes[i] == WouldBlock)|)
    {
      FailedByOutcome(outcomes);
      var toRemove: seq<nat> := [];
      for idx := 0 to |clients|
        invariant clients == old(clients)
        invariant toRemove == FailedIndices(outcomes[..idx]) && |toRemove| <= MAX_REMOVALS
      {
        assert outcomes[..idx + 1][..idx] == outcomes[..idx];
        match outcomes[idx] {
          case Written =>
          case WouldBlock =>
          case Disconnected =>
            if |toRemove| == MAX_REMOVALS { FailuresGrow(outcomes, idx + 1); return true; }
            toRemove := toRemove + [idx];
          case Failed =>
            if |toRemove| == MAX_REMOVALS { FailuresGrow(outcomes, idx + 1); return true; }
            toRemove := toRemove + [idx];
        }
      }
      assert outcomes[..|clients|] == outcomes;
      ghost var all := clients;
      RemoveAll(outcomes, toRemove);
      forall c ensures multiset(clients)[c]
           == |set i | 0 <= i < |outcomes| && all[i] == c && (outcomes[i] == Written || outcomes[i] == WouldBlock)|
      {
        KeptByOutcome(all, outcomes, c);
      }
      aborted := false;
    }
  }
}
