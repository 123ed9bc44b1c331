/** The replica list of app/replicas.c: append, memmove removal, and a propagation loop
    that removes entries from the array it is walking. (`== true` in an invariant keeps the
    verifier from unfolding the predicate there.) */
module Replicas {
  import opened CText
  import R = Resp
  import B = RespBuffers

  datatype Replica = Replica(fd: int, ackOffset: int)

  const INITIAL_REPLICA_CAPACITY: nat := 16

  function Fds(rs: seq<Replica>): (fds: seq<int>)
    ensures |fds| == |rs| && forall i :: 0 <= i < |rs| ==> fds[i] == rs[i].fd
  {
    seq(|rs|, i requires 0 <= i < |rs| => rs[i].fd)
  }

  predicate DistinctFds(rs: seq<Replica>) {
    forall i, j :: 0 <= i < j < |rs| ==> rs[i].fd != rs[j].fd
  }

  function FirstWith(rs: seq<Replica>, fd: int): (i: nat)
    ensures i <= |rs| && (i < |rs| ==> rs[i].fd == fd)
    ensures forall j :: 0 <= j < i ==> rs[j].fd != fd
  {
    if rs == [] || rs[0].fd == fd then 0 else 1 + FirstWith(rs[1..], fd)
  }

  /** The list without its first entry for a descriptor. */
  function RemoveFirst(rs: seq<Replica>, fd: int): seq<Replica> {
    var i := FirstWith(rs, fd);
    if i == |rs| then rs else rs[..i] + rs[i + 1..]
  }

  /** The entries whose write did not fail, in order. */
  function Survivors(rs: seq<Replica>, fails: seq<bool>): (r: seq<Replica>)
    requires |rs| == |fails|
    ensures |r| <= |rs|
    ensures forall x :: x in r ==> x in rs
    decreases |rs|
  {
    if rs == [] then []
    else
      var n := |rs| - 1;
      Survivors(rs[..n], fails[..n]) + if fails[n] then [] else [rs[n]]
  }

  class ReplicaList {
    var replicas: array<Replica>
    var count: nat

    ghost predicate Valid()
      reads this
    {
      0 < replicas.Length && count <= replicas.Length && count < U64
    }

    ghost function Contents(): seq<Replica>
      requires Valid()
      reads this, replicas
    {
      replicas[..count]
    }

    constructor ()
      ensures Valid() && Contents() == [] && fresh(replicas)
    {
      replicas := new Replica[INITIAL_REPLICA_CAPACITY](_ => Replica(0, 0));
      count := 0;
    }

    /** addReplica. */
    method Add(fd: int)
      requires Valid() && count + 1 < U64
      modifies this, replicas
      ensures Valid() && Contents() == old(Contents()) + [Replica(fd, 0)]
      ensures replicas == old(replicas) || fresh(replicas)
    {
      if count >= replicas.Length {
        var grown := new Replica[replicas.Length * 2](_ => Replica(0, 0));
        forall i | 0 <= i < count {
          grown[i] := replicas[i];
        }
        assert grown[..count] == replicas[..count];
        replicas := grown;
      }
      replicas[count] := Replica(fd, 0);
      count := count + 1;
    }

    /** removeReplica. */
    method Remove(fd: int)
      requires Valid()
      modifies this`count, replicas
      ensures Valid() && Contents() == RemoveFirst(old(Contents()), fd)
    {
      var i := 0;
      while i < count && replicas[i].fd != fd
        invariant i <= count
        invariant forall j :: 0 <= j < i ==> replicas[j].fd != fd
      {
        i := i + 1;
      }
      FirstWithIs(Contents(), fd, i);
      if i < count {
        Erase(i);
      }
    }

    /** The memmove of removeReplica. */
    method Erase(i: nat)
      requires Valid() && i < count
      modifies this`count, replicas
      ensures Valid() && Contents() == old(Contents())[..i] + old(Contents())[i + 1..]
    {
      forall j | i <= j < count - 1 {
        replicas[j] := replicas[j + 1];
      }
      count := count - 1;
    }

    /** propagateCommand: prints the command, writes it to the replica at i, and on failure
        removes its descriptor and steps the unsigned index back. `fails` gives the outcome
        of each write, `attempts` the descriptors written to. */
    method Propagate(cmd: seq<string>, fails: seq<bool>) returns (text: string, attempts: seq<int>)
      requires Valid() && |fails| == count
      modifies this`count, replicas
      ensures Valid() && text == R.ArrayText(R.Bulks(cmd)) && attempts == Fds(old(Contents()))
      ensures |Contents()| == |Survivors(old(Contents()), fails)|
      ensures DistinctFds(old(Contents())) ==> Contents() == Survivors(old(Contents()), fails)
    {
      ghost var was := Contents();
      text := B.PrintArray(R.Bulks(cmd));
      attempts := [];
      var i: nat := 0;
      WalkStart(was, fails);
      while i < count
        invariant Valid()
        invariant Walked(was, fails, attempts, Contents(), i) == true
        decreases |was| - |attempts|
      {
        i, attempts := Attempt(i, fails, attempts, was);
      }
      WalkDone(was, fails, attempts, Contents(), i);
    }

    /** One iteration: the write to replica i has failed or not. */
    method Attempt(i: nat, fails: seq<bool>, attempts: seq<int>, ghost was: seq<Replica>)
      returns (next: nat, attempts': seq<int>)
      requires Valid() && i < count && Walked(was, fails, attempts, Contents(), i)
      modifies this`count, replicas
      ensures Valid() && |attempts| < |attempts'| <= |was|
      ensures Walked(was, fails, attempts', Contents(), next)
    {
      WalkStep(was, fails, attempts, Contents(), i);
      var fd := replicas[i].fd;
      next, attempts' := i, attempts + [fd];
      if fails[|attempts|] {
        Remove(fd);
        next := StepBack(next);
      }
      next := StepForward(next);
    }
  }

  /** i-- and i++ on a size_t. */
  function StepBack(i: nat): nat {
    if i == 0 then U64_MAX else i - 1
  }

  function StepForward(i: nat): nat {
    if i >= U64_MAX then 0 else i + 1
  }

  lemma WalkStart(was: seq<Replica>, fails: seq<bool>)
    requires |was| == |fails|
    ensures Walked(was, fails, [], was, 0)
  {
    assert was[..0] == [] && fails[..0] == [];
  }

  /** After some attempts: they were made in order, the first i entries of the list are
      those that survived, and the rest is what has not been attempted. */
  ghost predicate Walked(was: seq<Replica>, fails: seq<bool>, attempts: seq<int>, now: seq<Replica>, i: nat) {
    var a := |attempts|;
    && |was| == |fails| && a <= |was| && i <= |now| && |was| - a == |now| - i
    && attempts == Fds(was[..a])
    && now[i..] == was[a..]
    && i == |Survivors(was[..a], fails[..a])|
    && (DistinctFds(was) ==> now[..i] == Survivors(was[..a], fails[..a]))
  }

  lemma WalkStep(was: seq<Replica>, fails: seq<bool>, attempts: seq<int>, now: seq<Replica>, i: nat)
    requires Walked(was, fails, attempts, now, i) && i < |now|
    ensures |attempts| < |was|
    ensures if fails[|attempts|] then Walked(was, fails, attempts + [now[i].fd], RemoveFirst(now, now[i].fd), i)
            else Walked(was, fails, attempts + [now[i].fd], now, i + 1)
  {
    var a := |attempts|;
    assert now[i] == now[i..][0] == was[a..][0] == was[a];
    assert Fds(was[..a + 1]) == Fds(was[..a]) + [was[a].fd];
    SurvivorsStep(was, fails, a);
    if fails[a] {
      FailedStep(was, fails, attempts, now, i);
    } else {
      assert now[..i + 1] == now[..i] + [now[i]];
      assert now[i + 1..] == now[i..][1..] == was[a..][1..] == was[a + 1..];
    }
  }

  lemma FailedStep(was: seq<Replica>, fails: seq<bool>, attempts: seq<int>, now: seq<Replica>, i: nat)
    requires Walked(was, fails, attempts, now, i) && i < |now|
    requires |attempts| < |was| && now[i] == was[|attempts|]
    requires Fds(was[..|attempts| + 1]) == attempts + [now[i].fd]
    requires Survivors(was[..|attempts| + 1], fails[..|attempts| + 1]) == Survivors(was[..|attempts|], fails[..|attempts|])
    ensures Walked(was, fails, attempts + [now[i].fd], RemoveFirst(now, now[i].fd), i)
  {
    var a := |attempts|;
    RemovalShifts(now, i, now[i].fd);
    RemovalKeepsPrefix(was, fails, a, now, i);
    assert now[i + 1..] == now[i..][1..] == was[a..][1..] == was[a + 1..];
  }

  lemma WalkDone(was: seq<Replica>, fails: seq<bool>, attempts: seq<int>, now: seq<Replica>, i: nat)
    requires Walked(was, fails, attempts, now, i) && i == |now|
    ensures attempts == Fds(was) && |now| == |Survivors(was, fails)|
    ensures DistinctFds(was) ==> now == Survivors(was, fails)
  {
    var a := |attempts|;
    assert was[..a] == was && fails[..a] == fails && now[..i] == now;
  }

  lemma FirstWithIs(rs: seq<Replica>, fd: int, i: nat)
    requires i <= |rs| && (i < |rs| ==> rs[i].fd == fd)
    requires forall j :: 0 <= j < i ==> rs[j].fd != fd
    ensures FirstWith(rs, fd) == i
  {
  }

  lemma SurvivorsStep(rs: seq<Replica>, fails: seq<bool>, a: nat)
    requires |rs| == |fails| && a < |rs|
    ensures Survivors(rs[..a + 1], fails[..a + 1])
         == Survivors(rs[..a], fails[..a]) + if fails[a] then [] else [rs[a]]
  {
    assert rs[..a + 1][..a] == rs[..a] && fails[..a + 1][..a] == fails[..a];
  }

  /** Removing the descriptor at i, or an earlier duplicate of it, moves the entries after
      i down by one. */
  lemma RemovalShifts(rs: seq<Replica>, i: nat, fd: int)
    requires i < |rs| && rs[i].fd == fd
    ensures |RemoveFirst(rs, fd)| == |rs| - 1
    ensures RemoveFirst(rs, fd)[i..] == rs[i + 1..]
    ensures FirstWith(rs, fd) == i ==> RemoveFirst(rs, fd)[..i] == rs[..i]
  {
    var k := FirstWith(rs, fd);
    var r := rs[..k] + rs[k + 1..];
    assert forall j :: i <= j < |r| ==> r[j] == rs[j + 1];
  }

  /** With distinct descriptors it is the failing entry itself that goes. */
  lemma RemovalKeepsPrefix(was: seq<Replica>, fails: seq<bool>, a: nat, before: seq<Replica>, i: nat)
    requires |was| == |fails| && a < |was| && i < |before|
    requires before[i..] == was[a..]
    requires DistinctFds(was) ==> before[..i] == Survivors(was[..a], fails[..a])
    ensures DistinctFds(was) ==> FirstWith(before, was[a].fd) == i
  {
    if DistinctFds(was) {
      assert before[i] == before[i..][0] == was[a];
      forall j | 0 <= j < i ensures before[j].fd != was[a].fd {
        assert before[..i][j] in Survivors(was[..a], fails[..a]);
        assert before[j] in was[..a];
        var m :| 0 <= m < a && was[m] == before[j];
      }
      FirstWithIs(before, was[a].fd, i);
    }
  }

  // ----- What one replica is sent -----

  /** What happens to the list: a command is propagated, with the outcome of each write, or
      another replica joins. */
  datatype Event = Propagation(cmd: seq<string>, fails: seq<bool>) | Joins(fd: int)

  /** The bytes that one propagation delivers to a descriptor. */
  function Delivered(attempts: seq<int>, fails: seq<bool>, fd: int, text: string): string
    requires |attempts| == |fails|
  {
    if attempts == [] then ""
    else (if attempts[0] == fd && !fails[0] then text else "") + Delivered(attempts[1..], fails[1..], fd, text)
  }

  /** The list after an event, as Propagate and Add leave it. */
  function After(rs: seq<Replica>, e: Event): seq<Replica>
    requires e.Propagation? ==> |e.fails| == |rs|
  {
    match e
    case Propagation(_, fails) => Survivors(rs, fails)
    case Joins(fd) => rs + [Replica(fd, 0)]
  }

  /** Every write has an outcome, a joining descriptor is not in the list, and no write to
      fd fails. */
  predicate Served(rs: seq<Replica>, fd: int, events: seq<Event>)
    decreases |events|
  {
    events != [] ==>
      && (match events[0]
          case Propagation(_, fails) =>
            |fails| == |rs| && forall i :: 0 <= i < |rs| && rs[i].fd == fd ==> !fails[i]
          case Joins(other) => other !in Fds(rs))
      && Served(After(rs, events[0]), fd, events[1..])
  }

  /** All the bytes delivered to a descriptor. */
  function Sent(rs: seq<Replica>, fd: int, events: seq<Event>): string
    requires Served(rs, fd, events)
    decreases |events|
  {
    if events == [] then ""
    else
      (match events[0]
       case Propagation(cmd, fails) => Delivered(Fds(rs), fails, fd, R.ArrayText(R.Bulks(cmd)))
       case Joins(_) => "")
      + Sent(After(rs, events[0]), fd, events[1..])
  }

  function Commands(events: seq<Event>): seq<seq<string>> {
    if events == [] then []
    else (if events[0].Propagation? then [events[0].cmd] else []) + Commands(events[1..])
  }

  /** An entry whose write did not fail is still there, and no descriptor is doubled. */
  lemma {:induction false} SurvivorsKeep(rs: seq<Replica>, fails: seq<bool>)
    requires |rs| == |fails|
    ensures forall i :: 0 <= i < |rs| && !fails[i] ==> rs[i] in Survivors(rs, fails)
    ensures DistinctFds(rs) ==> DistinctFds(Survivors(rs, fails))
    decreases |rs|
  {
    if rs != [] {
      var n := |rs| - 1;
      var before := Survivors(rs[..n], fails[..n]);
      SurvivorsKeep(rs[..n], fails[..n]);
      forall i | 0 <= i < |rs| && !fails[i] ensures rs[i] in Survivors(rs, fails) {
        if i < n {
          assert rs[i] == rs[..n][i] && !fails[..n][i];
        }
      }
      if DistinctFds(rs) {
        forall x | x in before ensures x.fd != rs[n].fd {
          assert x in rs[..n];
        }
      }
    }
  }

  lemma FdIn(rs: seq<Replica>, fd: int)
    ensures fd in Fds(rs) <==> exists i :: 0 <= i < |rs| && rs[i].fd == fd
  {
    if fd in Fds(rs) {
      var i :| 0 <= i < |rs| && Fds(rs)[i] == fd;
    }
    if i :| 0 <= i < |rs| && rs[i].fd == fd {
      assert Fds(rs)[i] == fd;
    }
  }

  lemma {:induction false} DeliveredOnce(attempts: seq<int>, fails: seq<bool>, fd: int, text: string)
    requires |attempts| == |fails| && forall i :: 0 <= i < |attempts| && attempts[i] == fd ==> !fails[i]
    requires forall i, j :: 0 <= i < j < |attempts| ==> attempts[i] != attempts[j]
    ensures Delivered(attempts, fails, fd, text) == if fd in attempts then text else ""
    decreases |attempts|
  {
    if attempts != [] {
      DeliveredOnce(attempts[1..], fails[1..], fd, text);
      assert attempts == [attempts[0]] + attempts[1..];
      if attempts[0] == fd {
        assert fd !in attempts[1..];
        assert text + "" == text;
      }
    }
  }

  /** One event keeps a served replica in the list. */
  lemma StaysListed(rs: seq<Replica>, fd: int, events: seq<Event>)
    requires DistinctFds(rs) && fd in Fds(rs) && events != [] && Served(rs, fd, events)
    ensures DistinctFds(After(rs, events[0])) && fd in Fds(After(rs, events[0]))
  {
    var after := After(rs, events[0]);
    FdIn(rs, fd);
    FdIn(after, fd);
    var i :| 0 <= i < |rs| && rs[i].fd == fd;
    match events[0]
    case Propagation(_, fails) =>
      SurvivorsKeep(rs, fails);
      assert rs[i] in after;
    case Joins(other) =>
      FdIn(rs, other);
      assert after[i].fd == fd;
  }

  /** A replica that is in the list at the start and whose writes succeed is sent exactly
      the printed log, whatever happens to the other replicas. */
  lemma {:induction false} PresentIsSentEverything(rs: seq<Replica>, fd: int, events: seq<Event>)
    requires DistinctFds(rs) && fd in Fds(rs) && Served(rs, fd, events)
    ensures Sent(rs, fd, events) == B.Printed(Commands(events))
    decreases |events|
  {
    if events != [] {
      StaysListed(rs, fd, events);
      PresentIsSentEverything(After(rs, events[0]), fd, events[1..]);
      match events[0]
      case Propagation(cmd, fails) =>
        DeliveredOnce(Fds(rs), fails, fd, R.ArrayText(R.Bulks(cmd)));
        assert Commands(events)[1..] == Commands(events[1..]);
      case Joins(_) =>
        assert Commands(events) == Commands(events[1..]);
    }
  }
}
