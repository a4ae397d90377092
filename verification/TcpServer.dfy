/** The TCP server's connection list and its round-robin choice of worker threads. */
module TcpServerObject {

  /** A relay, numbered in order of creation. */
  type Relay = nat

  datatype Server = Server(
    total: nat,                 // worker threads
    next: nat,                  // the worker for the next relay
    conList: seq<Relay>,
    workers: seq<nat>,          // the worker of every relay created
    deleted: seq<Relay>)        // relays scheduled for deletion

  datatype ServerEvent = Incoming(banned: bool) | Finished(con: Relay) | Destroyed

  function RemoveOne(s: seq<Relay>, x: Relay): seq<Relay> {
    if s == [] then [] else if s[0] == x then s[1..] else [s[0]] + RemoveOne(s[1..], x)
  }

  function ServerStep(s: Server, e: ServerEvent): Server
    requires s.total > 0
  {
    match e
    case Incoming(banned) =>
      if banned then s
      else s.(conList := s.conList + [|s.workers|], workers := s.workers + [s.next],
              next := (s.next + 1) % s.total)
    case Finished(con) =>
      if con in s.conList then s.(conList := RemoveOne(s.conList, con), deleted := s.deleted + [con]) else s
    case Destroyed => s.(deleted := s.deleted + s.conList, conList := [])
  }

  function NewServer(hardware: nat): Server {
    Server(if hardware == 0 then 1 else hardware, 0, [], [], [])
  }

  /** How many relays went to worker w. */
  function Load(workers: seq<nat>, w: nat): nat {
    multiset(workers)[w]
  }

  /** After full rounds, the workers before the next one have had one more turn. */
  ghost predicate Fair(s: Server, rounds: nat) {
    && s.next < s.total
    && forall w: nat :: Load(s.workers, w) == if w >= s.total then 0 else if w < s.next then rounds + 1 else rounds
  }

  /** Every relay created is listed or scheduled for deletion, exactly once. */
  ghost predicate Accounted(s: Server) {
    forall r: Relay :: Known(s)[r] == if r < |s.workers| then 1 else 0
  }

  ghost predicate ServerOk(s: Server) {
    s.total > 0 && Accounted(s) && exists rounds: nat :: Fair(s, rounds)
  }

  lemma {:induction false} RemoveOneMultiset(s: seq<Relay>, x: Relay)
    requires x in s
    ensures multiset(RemoveOne(s, x)) == multiset(s) - multiset{x}
  {
    assert s == [s[0]] + s[1..];
    if s[0] != x {
      RemoveOneMultiset(s[1..], x);
    }
  }

  lemma FairNext(s: Server, rounds: nat)
    requires s.total > 0 && Fair(s, rounds)
    ensures var t := ServerStep(s, Incoming(false));
      if s.next + 1 == s.total then Fair(t, rounds + 1) else Fair(t, rounds)
  {
    var t := ServerStep(s, Incoming(false));
    assert multiset(t.workers) == multiset(s.workers) + multiset{s.next};
    forall w: nat
      ensures Load(t.workers, w) == Load(s.workers, w) + (if w == s.next then 1 else 0)
    {
    }
    assert t.next == if s.next + 1 == s.total then 0 else s.next + 1;
  }

  /** Listed and deleted relays together. */
  ghost function Known(s: Server): multiset<Relay> {
    multiset(s.conList) + multiset(s.deleted)
  }

  lemma KnownStep(s: Server, e: ServerEvent)
    requires s.total > 0
    ensures Known(ServerStep(s, e)) ==
      var created: Relay := |s.workers|;
      if e == Incoming(false) then Known(s) + multiset{created} else Known(s)
  {
    var t := ServerStep(s, e);
    match e
    case Incoming(banned) =>
      if !banned {
        var created: Relay := |s.workers|;
        assert multiset(t.conList) == multiset(s.conList) + multiset{created};
      }
    case Finished(con) =>
      if con in s.conList {
        RemoveOneMultiset(s.conList, con);
        assert con in multiset(s.conList);
        assert multiset(t.deleted) == multiset(s.deleted) + multiset{con};
      }
    case Destroyed =>
      assert multiset(t.deleted) == multiset(s.deleted) + multiset(s.conList);
  }

  lemma FairStep(s: Server, e: ServerEvent, rounds: nat) returns (next: nat)
    requires s.total > 0 && Fair(s, rounds)
    ensures Fair(ServerStep(s, e), next)
  {
    hide Fair;
    next := rounds;
    if e == Incoming(false) {
      FairNext(s, rounds);
      next := if s.next + 1 == s.total then rounds + 1 else rounds;
    } else {
      SameTurns(s, ServerStep(s, e), rounds);
    }
  }

  lemma ServerStepOk(s: Server, e: ServerEvent)
    requires ServerOk(s)
    ensures ServerOk(ServerStep(s, e))
  {
    hide Fair, ServerStep;
    var rounds: nat :| Fair(s, rounds);
    var next := FairStep(s, e, rounds);
    KnownStep(s, e);
    StepKeepsTotal(s, e);
    var t := ServerStep(s, e);
    forall r: Relay
      ensures Known(t)[r] == if r < |t.workers| then 1 else 0
    {
      assert Known(s)[r] == if r < |s.workers| then 1 else 0;
    }
  }

  lemma StepKeepsTotal(s: Server, e: ServerEvent)
    requires s.total > 0
    ensures var t := ServerStep(s, e);
      t.total == s.total && |t.workers| == |s.workers| + (if e == Incoming(false) then 1 else 0)
  {
  }

  lemma NewFair(hardware: nat)
    ensures Fair(NewServer(hardware), 0)
  {
    assert multiset(NewServer(hardware).workers) == multiset{};
  }

  lemma SameTurns(s: Server, t: Server, rounds: nat)
    requires Fair(s, rounds) && t.total == s.total && t.next == s.next && t.workers == s.workers
    ensures Fair(t, rounds)
  {
  }

  ghost predicate ServerRun(hardware: nat, events: seq<ServerEvent>, ss: seq<Server>) {
    && |ss| == |events| + 1 && ss[0] == NewServer(hardware)
    && forall i :: 0 <= i < |events| ==> ss[i].total > 0 && ss[i + 1] == ServerStep(ss[i], events[i])
  }

  /**
   After any run: the worker index is in range, loads differ by at most one, and every relay created is
   listed once or was scheduled for deletion once, however often it reported that it had finished.
   */
  lemma {:induction false} ServerAlwaysOk(hardware: nat, events: seq<ServerEvent>, ss: seq<Server>, n: nat)
    requires ServerRun(hardware, events, ss) && n < |ss|
    ensures ServerOk(ss[n]) && ss[n].next < ss[n].total == if hardware == 0 then 1 else hardware
    ensures forall v, w :: 0 <= v < ss[n].total && 0 <= w < ss[n].total ==>
      Load(ss[n].workers, v) <= Load(ss[n].workers, w) + 1
    ensures forall r: Relay :: Known(ss[n])[r] == if r < |ss[n].workers| then 1 else 0
  {
    if n == 0 {
      NewFair(hardware);
    } else {
      ServerAlwaysOk(hardware, events, ss, n - 1);
      ServerStepOk(ss[n - 1], events[n - 1]);
      StepKeepsTotal(ss[n - 1], events[n - 1]);
    }
  }

  /** A listed relay that finishes is scheduled for deletion and off the list; the destructor empties the list so. */
  lemma Retires(s: Server, con: Relay)
    requires ServerOk(s) && con in s.conList
    ensures var t := ServerStep(s, Finished(con)); con !in t.conList && con in t.deleted
    ensures var t := ServerStep(s, Destroyed); t.conList == [] && con in t.deleted
  {
    hide Fair;
    assert Known(s)[con] <= 1;
    RemoveOneMultiset(s.conList, con);
    assert multiset(s.conList)[con] >= 1;
    var rest: seq<nat> := RemoveOne(s.conList, con);
    assert multiset(rest)[con] == 0;
    assert con in rest ==> con in multiset(rest);
  }

  class TcpServer {
    var totalWorkers: nat
    var workerThreadID: nat
    var threadList: seq<nat>
    var conList: seq<Relay>
    var deleted: seq<Relay>
    ghost var workers: seq<nat>
    var created: nat

    ghost function View(): Server
      reads this
    {
      Server(totalWorkers, workerThreadID, conList, workers, deleted)
    }

    ghost predicate Valid()
      reads this
    {
      ServerOk(View()) && workerThreadID < totalWorkers == |threadList| && created == |workers|
    }

    constructor (hardware: nat)
      ensures Valid() && View() == NewServer(hardware)
    {
      totalWorkers := hardware;
      workerThreadID := 0;
      threadList, conList, deleted, workers, created := [], [], [], [], 0;
      new;
      if totalWorkers == 0 {
        totalWorkers := 1;
      }
      var i := 0;
      while i < totalWorkers
        invariant 0 < totalWorkers && i == |threadList| <= totalWorkers
        invariant View() == NewServer(hardware) && created == 0
      {
        threadList := threadList + [i];
        i := i + 1;
      }
      NewFair(hardware);
    }

    method IncomingConnection(banned: bool)
      requires Valid()
      modifies this
      ensures Valid() && View() == ServerStep(old(View()), Incoming(banned))
    {
      hide ServerOk;
      ServerStepOk(View(), Incoming(banned));
      if banned {
        return;
      }
      var con := created;
      created := created + 1;
      conList := conList + [con];
      workers := workers + [workerThreadID];
      var thread := threadList[workerThreadID];
      workerThreadID := workerThreadID + 1;
      workerThreadID := workerThreadID % totalWorkers;
    }

    method OnConnectionFinished(con: Relay)
      requires Valid()
      modifies this
      ensures Valid() && View() == ServerStep(old(View()), Finished(con))
    {
      hide ServerOk;
      ServerStepOk(View(), Finished(con));
      if con in conList {
        conList := RemoveOne(conList, con);
        deleted := deleted + [con];
      }
    }

    /** The destructor schedules every listed relay; the list goes with the object. */
    method Destroy()
      requires Valid()
      modifies this
      ensures Valid() && View() == ServerStep(old(View()), Destroyed)
    {
      hide ServerOk;
      ServerStepOk(View(), Destroyed);
      var i := 0;
      while i < |conList|
        invariant 0 <= i <= |conList|
        invariant View() == old(View()).(deleted := old(deleted) + conList[..i])
        invariant created == |workers| && workerThreadID < totalWorkers == |threadList|
      {
        deleted := deleted + [conList[i]];
        i := i + 1;
      }
      assert conList[..i] == conList;
      conList := [];
    }
  }
}
