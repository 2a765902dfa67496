/**
 Descriptor bookkeeping of the select() server of Code/Ch10-networking/TCPserverSelectHi.c: the
 master set, `fdmax`, and the service loop whose bound and set change while it runs.
 */
module SelectServer {

  /** What one round meets: the ready descriptors, and the one that `accept` would return. */
  datatype Round = Round(ready: set<nat>, newFd: nat)

  /** `accept` does not return a descriptor that is still open when the server socket is served. */
  predicate RoundOk(master: set<nat>, serverFd: nat, r: Round) {
    && r.ready <= master
    && (serverFd in r.ready ==> r.newFd in master ==> r.newFd in r.ready && r.newFd < serverFd)
  }

  /** Clients served in a round: all ready descriptors but the server socket. */
  function Clients(serverFd: nat, r: Round): set<nat> { r.ready - {serverFd} }

  /** The master set after a round: served clients are gone, an accepted one is new. */
  function MasterAfter(master: set<nat>, serverFd: nat, r: Round): set<nat> {
    master - Clients(serverFd, r) + if serverFd in r.ready then {r.newFd} else {}
  }

  predicate Increasing(xs: seq<nat>) {
    forall j, k :: 0 <= j < k < |xs| ==> xs[j] < xs[k]
  }

  predicate IsMaximum(master: set<nat>, fd: nat) {
    fd in master && forall x :: x in master ==> x <= fd
  }

  class Server {
    const serverFd: nat
    var master: set<nat>
    var fdmax: nat

    /** What holds at the head of every round. */
    ghost predicate Valid()
      reads this
    {
      serverFd in master && IsMaximum(master, fdmax)
    }

    constructor (serverFd: nat)
      ensures Valid() && this.serverFd == serverFd && master == {serverFd}
    {
      this.serverFd := serverFd;
      master := {serverFd};
      fdmax := serverFd;
    }

    /** Lower `fdmax` to the largest descriptor in the set; the server socket stops the loop. */
    method LowerMaximum()
      requires serverFd in master && forall x :: x in master ==> x <= fdmax
      modifies this`fdmax
      ensures Valid()
    {
      while fdmax !in master
        invariant serverFd <= fdmax && forall x :: x in master ==> x <= fdmax
        decreases fdmax
      {
        fdmax := fdmax - 1;
      }
    }

    /**
     One round of the service loop.  Every ready descriptor is served exactly once, in increasing
     order, and no other, so an accepted one waits for a later round.
     */
    method Serve(r: Round) returns (served: seq<nat>)
      requires Valid() && RoundOk(master, serverFd, r)
      modifies this
      ensures Valid()
      ensures Increasing(served) && (forall fd :: fd in served <==> fd in r.ready)
      ensures master == MasterAfter(old(master), serverFd, r)
      ensures forall fd :: fd in master <==>
        || (fd in old(master) && (fd == serverFd || fd !in r.ready))
        || (serverFd in r.ready && fd == r.newFd)
    {
      served := [];
      var i := 0;
      while i <= fdmax
        invariant Valid()
        invariant Increasing(served) && forall k :: 0 <= k < |served| ==> served[k] < i
        invariant forall fd :: fd in served <==> fd in r.ready && fd < i
        invariant forall fd :: fd in master <==>
          || (fd in old(master) && !(fd in r.ready && fd != serverFd && fd < i))
          || (serverFd in r.ready && serverFd < i && fd == r.newFd)
        decreases i <= serverFd, fdmax - i
      {
        if i in r.ready {
          served := served + [i];
          if i == serverFd {
            master := master + {r.newFd};
            if r.newFd > fdmax {
              fdmax := r.newFd;
            }
          } else {
            master := master - {i};
            if i == fdmax {
              LowerMaximum();
            }
          }
        }
        i := i + 1;
      }
      forall fd | fd in r.ready
        ensures fd < i
      {
        assert i <= fd ==> fd in master;
      }
    }

    /** Any number of rounds. */
    method ServeAll(rounds: seq<Round>) returns (served: seq<seq<nat>>)
      requires Valid() && RoundsOk(master, serverFd, rounds)
      modifies this
      ensures Valid() && master == MasterAfterAll(old(master), serverFd, rounds)
      ensures |served| == |rounds| && forall k :: 0 <= k < |rounds| ==>
        Increasing(served[k]) && forall fd :: fd in served[k] <==> fd in rounds[k].ready
    {
      served := [];
      ghost var start := master;
      for k := 0 to |rounds|
        invariant Valid() && RoundsOk(master, serverFd, rounds[k..])
        invariant MasterAfterAll(master, serverFd, rounds[k..]) == MasterAfterAll(start, serverFd, rounds)
        invariant |served| == k && forall j :: 0 <= j < k ==>
          Increasing(served[j]) && forall fd :: fd in served[j] <==> fd in rounds[j].ready
      {
        assert rounds[k..][1..] == rounds[k + 1..];
        var now := Serve(rounds[k]);
        served := served + [now];
      }
    }
  }

  // ---------------------------------------------------------------------------------------------
  // Runs
  // ---------------------------------------------------------------------------------------------

  predicate RoundsOk(master: set<nat>, serverFd: nat, rounds: seq<Round>)
    decreases |rounds|
  {
    rounds == [] ||
    (RoundOk(master, serverFd, rounds[0]) && RoundsOk(MasterAfter(master, serverFd, rounds[0]), serverFd, rounds[1..]))
  }

  function MasterAfterAll(master: set<nat>, serverFd: nat, rounds: seq<Round>): set<nat>
    decreases |rounds|
  {
    if rounds == [] then master
    else MasterAfterAll(MasterAfter(master, serverFd, rounds[0]), serverFd, rounds[1..])
  }

  /** The descriptor that `accept` returned in a round. */
  function AcceptedIn(serverFd: nat, r: Round): multiset<nat> {
    if serverFd in r.ready then multiset{r.newFd} else multiset{}
  }

  /** The descriptors that `accept` returned, in all rounds. */
  function Accepted(serverFd: nat, rounds: seq<Round>): multiset<nat> {
    if rounds == [] then multiset{} else AcceptedIn(serverFd, rounds[0]) + Accepted(serverFd, rounds[1..])
  }

  /** The descriptors that were served and closed, in all rounds. */
  function Closed(serverFd: nat, rounds: seq<Round>): multiset<nat> {
    if rounds == [] then multiset{} else multiset(Clients(serverFd, rounds[0])) + Closed(serverFd, rounds[1..])
  }

  /** In a round each ready descriptor is closed once, but not the server socket. */
  lemma RoundCloses(serverFd: nat, r: Round, fd: nat)
    ensures multiset(Clients(serverFd, r))[fd] == if fd in r.ready && fd != serverFd then 1 else 0
    ensures AcceptedIn(serverFd, r)[fd] == if serverFd in r.ready && fd == r.newFd then 1 else 0
  {
  }

  /** How many of the rounds have property `p`. */
  function Count(rounds: seq<Round>, p: Round -> bool): nat {
    if rounds == [] then 0 else (if p(rounds[0]) then 1 else 0) + Count(rounds[1..], p)
  }

  /** A descriptor is closed once in each round that finds it ready. */
  lemma {:induction false} ClosedCountsRounds(serverFd: nat, rounds: seq<Round>, fd: nat)
    requires fd != serverFd
    ensures Closed(serverFd, rounds)[fd] == Count(rounds, (r: Round) => fd in r.ready)
  {
    if rounds == [] {
    } else {
      ClosedCountsRounds(serverFd, rounds[1..], fd);
      RoundCloses(serverFd, rounds[0], fd);
    }
  }

  /** The server socket is never closed. */
  lemma {:induction false} ServerSocketIsNeverClosed(serverFd: nat, rounds: seq<Round>)
    ensures serverFd !in Closed(serverFd, rounds)
  {
    if rounds == [] {
    } else {
      ServerSocketIsNeverClosed(serverFd, rounds[1..]);
    }
  }

  /** A descriptor is accepted in each round in which the server socket is ready and `accept` returns it. */
  lemma {:induction false} AcceptedCountsRounds(serverFd: nat, rounds: seq<Round>, fd: nat)
    ensures Accepted(serverFd, rounds)[fd] == Count(rounds, (r: Round) => serverFd in r.ready && r.newFd == fd)
  {
    if rounds == [] {
    } else {
      AcceptedCountsRounds(serverFd, rounds[1..], fd);
      RoundCloses(serverFd, rounds[0], fd);
    }
  }

  lemma RoundConservesConnections(master: set<nat>, serverFd: nat, r: Round)
    requires serverFd in master && RoundOk(master, serverFd, r)
    ensures serverFd in MasterAfter(master, serverFd, r)
    ensures multiset(MasterAfter(master, serverFd, r)) + multiset(Clients(serverFd, r))
         == multiset(master) + AcceptedIn(serverFd, r)
  {
  }

  lemma Regroup(end: multiset<nat>, closed: multiset<nat>, next: multiset<nat>, accepted: multiset<nat>,
                clients: multiset<nat>, master: multiset<nat>, newFds: multiset<nat>)
    requires end + closed == next + accepted && next + clients == master + newFds
    ensures end + (clients + closed) == master + (newFds + accepted)
  {
    forall fd
      ensures (end + (clients + closed))[fd] == (master + (newFds + accepted))[fd]
    {
      assert (end + closed)[fd] == (next + accepted)[fd] && (next + clients)[fd] == (master + newFds)[fd];
    }
  }

  /**
   Over any number of rounds, every descriptor is open as often as it was at the start or accepted
   since, less the times that it was served and closed.
   */
  lemma {:induction false} ConnectionsAreConserved(master: set<nat>, serverFd: nat, rounds: seq<Round>)
    requires serverFd in master && RoundsOk(master, serverFd, rounds)
    ensures serverFd in MasterAfterAll(master, serverFd, rounds)
    ensures multiset(MasterAfterAll(master, serverFd, rounds)) + Closed(serverFd, rounds)
         == multiset(master) + Accepted(serverFd, rounds)
    decreases |rounds|
  {
    if rounds == [] {
    } else {
      var next := MasterAfter(master, serverFd, rounds[0]);
      var closed, accepted := Closed(serverFd, rounds[1..]), Accepted(serverFd, rounds[1..]);
      RoundConservesConnections(master, serverFd, rounds[0]);
      ConnectionsAreConserved(next, serverFd, rounds[1..]);
      Regroup(multiset(MasterAfterAll(next, serverFd, rounds[1..])), closed, multiset(next), accepted,
              multiset(Clients(serverFd, rounds[0])), multiset(master), AcceptedIn(serverFd, rounds[0]));
    }
  }
}
