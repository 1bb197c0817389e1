/**
 * Peer discovery's session rule (watchForPeers in server/cmd/main.go): each
 * discovered instance other than this node's own gets one sync session,
 * unless a session with it is already running; when a session finishes,
 * with or without an error, the instance becomes eligible again.
 */
module Discovery {
  import opened Base
  import opened Decimal

  /** What a browse reports about one advertised instance. */
  datatype ServiceEntry = ServiceEntry(instance: string, hostName: string, port: int)

  /** A peer a session is started for; lastSyncedAt is the time it was found. */
  datatype Peer = Peer(instance: string, addr: string, lastSyncedAt: int)

  /** "%s:%d" of host name and port: the host name, a colon, then the port in decimal. */
  function PeerAddr(hostName: string, port: int): (a: string)
    ensures |a| > |hostName| + 1 && a[..|hostName|] == hostName && a[|hostName|] == ':'
    ensures forall i :: |hostName| + 1 < i < |a| ==> IsDigit(a[i])
  {
    var a := hostName + ":" + Format(port);
    assert a[..|hostName|] == hostName;
    a
  }

  /** The text after the host name's colon reads back as the port. */
  lemma PeerAddrPort(hostName: string, port: Int64)
    ensures ParseInt64(PeerAddr(hostName, port)[|hostName| + 1..]) == Some(port)
  {
    assert PeerAddr(hostName, port)[|hostName| + 1..] == Format(port);
    ParseFormat(port);
  }

  /** The peer a discovered entry yields: its instance, at its host and port, found at time now. */
  function PeerFor(e: ServiceEntry, now: int): (p: Peer)
    ensures p.instance == e.instance && p.addr == PeerAddr(e.hostName, e.port) && p.lastSyncedAt == now
  {
    Peer(e.instance, PeerAddr(e.hostName, e.port), now)
  }

  function Instances(peers: seq<Peer>): set<string> {
    set i | 0 <= i < |peers| :: peers[i].instance
  }

  lemma InstancesCons(p: Peer, rest: seq<Peer>)
    ensures Instances([p] + rest) == {p.instance} + Instances(rest)
  {
    var r := [p] + rest;
    assert forall i :: 0 <= i < |rest| ==> r[i + 1] == rest[i];
    assert r[0] == p;
    forall x | x in {p.instance} + Instances(rest) ensures x in Instances(r) {
      if x != p.instance {
        var i :| 0 <= i < |rest| && rest[i].instance == x;
        assert r[i + 1].instance == x;
      }
    }
    forall x | x in Instances(r) ensures x in {p.instance} + Instances(rest) {
      var i :| 0 <= i < |r| && r[i].instance == x;
      if i > 0 { assert rest[i - 1].instance == x; }
    }
  }

  lemma InstancesSnoc(peers: seq<Peer>, p: Peer)
    ensures Instances(peers + [p]) == Instances(peers) + {p.instance}
  {
    var r := peers + [p];
    assert forall i :: 0 <= i < |peers| ==> r[i] == peers[i];
    assert r[|peers|] == p;
  }

  /**
   * The sessions started, in order, when the entries are discovered one after
   * another while the instances in active already have a session running.
   */
  function Admitted(self: string, active: set<string>, entries: seq<ServiceEntry>, now: int): (r: seq<Peer>)
    ensures |r| <= |entries|
    decreases |entries|
  {
    if entries == [] then []
    else
      var e := entries[0];
      if e.instance == self || e.instance in active then Admitted(self, active, entries[1..], now)
      else [PeerFor(e, now)] + Admitted(self, active + {e.instance}, entries[1..], now)
  }

  /** Discovering one more entry: the dedup rule applied to its head. */
  lemma AdmittedCons(self: string, active: set<string>, entries: seq<ServiceEntry>, now: int)
    requires entries != []
    ensures var e := entries[0];
      Admitted(self, active, entries, now) ==
        if e.instance == self || e.instance in active then Admitted(self, active, entries[1..], now)
        else [PeerFor(e, now)] + Admitted(self, active + {e.instance}, entries[1..], now)
  {
  }

  /** The dedup rule applied to the i-th entry of a cycle. */
  lemma AdmittedAt(self: string, active: set<string>, entries: seq<ServiceEntry>, i: nat, now: int)
    requires i < |entries|
    ensures var e := entries[i];
      Admitted(self, active, entries[i..], now) ==
        if e.instance == self || e.instance in active then Admitted(self, active, entries[i + 1..], now)
        else [PeerFor(e, now)] + Admitted(self, active + {e.instance}, entries[i + 1..], now)
  {
    AdmittedCons(self, active, entries[i..], now);
    assert entries[i..][1..] == entries[i + 1..];
  }

  /**
   * One step of a browse cycle, on values: when the i-th entry is handled by
   * the dedup rule (found and after as Discovered leaves them), the sessions
   * started so far followed by those still to come are unchanged.
   */
  lemma BrowseStep(
    self: string, active: set<string>, entries: seq<ServiceEntry>, i: nat, now: int,
    started: seq<Peer>, found: Option<Peer>, after: set<string>)
    requires i < |entries|
    requires var e := entries[i];
      e.instance == self || e.instance in active ==> found == None && after == active
    requires var e := entries[i];
      e.instance != self && e.instance !in active ==> found == Some(PeerFor(e, now)) && after == active + {e.instance}
    ensures var started' := if found.Some? then started + [found.value] else started;
      && started' + Admitted(self, after, entries[i + 1..], now) == started + Admitted(self, active, entries[i..], now)
      && Instances(started') == Instances(started) + (after - active)
      && after == active + (after - active)
  {
    var e := entries[i];
    AdmittedAt(self, active, entries, i, now);
    if found.Some? {
      InstancesSnoc(started, found.value);
      assert after - active == {e.instance};
    }
  }

  /** No session is started for this node itself or for an instance that already has one. */
  lemma {:induction false} AdmittedFresh(self: string, active: set<string>, entries: seq<ServiceEntry>, now: int)
    ensures var r := Admitted(self, active, entries, now);
      forall i :: 0 <= i < |r| ==> r[i].instance != self && r[i].instance !in active
    decreases |entries|
  {
    if entries != [] {
      AdmittedCons(self, active, entries, now);
      var e := entries[0];
      if e.instance == self || e.instance in active {
        AdmittedFresh(self, active, entries[1..], now);
      } else {
        var rest := Admitted(self, active + {e.instance}, entries[1..], now);
        AdmittedFresh(self, active + {e.instance}, entries[1..], now);
        var r := [PeerFor(e, now)] + rest;
        assert forall i :: 0 < i < |r| ==> r[i] == rest[i - 1];
      }
    }
  }

  /** One browse cycle never starts two sessions with the same instance. */
  lemma {:induction false} AdmittedDistinct(self: string, active: set<string>, entries: seq<ServiceEntry>, now: int)
    ensures var r := Admitted(self, active, entries, now);
      forall i, j :: 0 <= i < j < |r| ==> r[i].instance != r[j].instance
    decreases |entries|
  {
    if entries != [] {
      AdmittedCons(self, active, entries, now);
      var e := entries[0];
      if e.instance == self || e.instance in active {
        AdmittedDistinct(self, active, entries[1..], now);
      } else {
        var rest := Admitted(self, active + {e.instance}, entries[1..], now);
        AdmittedDistinct(self, active + {e.instance}, entries[1..], now);
        AdmittedFresh(self, active + {e.instance}, entries[1..], now);
        var r := [PeerFor(e, now)] + rest;
        assert forall i :: 0 < i < |r| ==> r[i] == rest[i - 1];
      }
    }
  }

  /** Every session started is for one of the discovered entries, at its advertised address. */
  lemma {:induction false} AdmittedFromEntries(self: string, active: set<string>, entries: seq<ServiceEntry>, now: int)
    ensures var r := Admitted(self, active, entries, now);
      forall i :: 0 <= i < |r| ==> exists j :: 0 <= j < |entries| && r[i] == PeerFor(entries[j], now)
    decreases |entries|
  {
    if entries != [] {
      AdmittedCons(self, active, entries, now);
      var e := entries[0];
      var tail := entries[1..];
      assert forall j :: 0 <= j < |tail| ==> tail[j] == entries[j + 1];
      if e.instance == self || e.instance in active {
        AdmittedFromEntries(self, active, tail, now);
        var r := Admitted(self, active, tail, now);
        forall i | 0 <= i < |r| ensures exists j :: 0 <= j < |entries| && r[i] == PeerFor(entries[j], now) {
          var j :| 0 <= j < |tail| && r[i] == PeerFor(tail[j], now);
          assert r[i] == PeerFor(entries[j + 1], now);
        }
      } else {
        var rest := Admitted(self, active + {e.instance}, tail, now);
        AdmittedFromEntries(self, active + {e.instance}, tail, now);
        var r := [PeerFor(e, now)] + rest;
        forall i | 0 <= i < |r| ensures exists j :: 0 <= j < |entries| && r[i] == PeerFor(entries[j], now) {
          if i == 0 {
            assert r[0] == PeerFor(entries[0], now);
          } else {
            assert r[i] == rest[i - 1];
            var j :| 0 <= j < |tail| && rest[i - 1] == PeerFor(tail[j], now);
            assert r[i] == PeerFor(entries[j + 1], now);
          }
        }
      }
    }
  }

  /** Every discovered instance other than this node ends the cycle with a session running. */
  lemma {:induction false} AdmittedCovers(self: string, active: set<string>, entries: seq<ServiceEntry>, now: int)
    ensures var r := Admitted(self, active, entries, now);
      forall j :: 0 <= j < |entries| && entries[j].instance != self ==>
        entries[j].instance in active + Instances(r)
    decreases |entries|
  {
    if entries != [] {
      AdmittedCons(self, active, entries, now);
      var e := entries[0];
      var tail := entries[1..];
      assert forall j :: 0 < j < |entries| ==> entries[j] == tail[j - 1];
      if e.instance == self || e.instance in active {
        AdmittedCovers(self, active, tail, now);
      } else {
        var rest := Admitted(self, active + {e.instance}, tail, now);
        AdmittedCovers(self, active + {e.instance}, tail, now);
        InstancesCons(PeerFor(e, now), rest);
      }
    }
  }

  /** The set of instances with a running sync session (the peers sync.Map). */
  class PeerSet {
    const self: string
    var active: set<string>
    /** The sessions started and not yet finished, one occurrence per running session. */
    ghost var sessions: multiset<string>

    ghost predicate Valid()
      reads this
    {
      sessions == multiset(active) && self !in active
    }

    constructor (self: string)
      ensures Valid()
      ensures this.self == self && active == {} && sessions == multiset{}
    {
      this.self := self;
      active := {};
      sessions := multiset{};
    }

    /** At most one session runs per instance, and one runs exactly when the instance is in the set. */
    lemma AtMostOneSession(instance: string)
      requires Valid()
      ensures sessions[instance] <= 1
      ensures sessions[instance] == 1 <==> instance in active
    {
    }

    /** One discovered entry: ignore self, ignore a running instance, otherwise record it and start a session. */
    method Discovered(e: ServiceEntry, now: int) returns (started: Option<Peer>)
      requires Valid()
      modifies this
      ensures Valid()
      ensures e.instance == self ==> started == None && active == old(active) && sessions == old(sessions)
      ensures e.instance != self && e.instance in old(active) ==>
        started == None && active == old(active) && sessions == old(sessions)
      ensures e.instance != self && e.instance !in old(active) ==>
        && started == Some(PeerFor(e, now))
        && active == old(active) + {e.instance}
        && sessions == old(sessions) + multiset{e.instance}
    {
      if e.instance == self {
        return None;
      }
      if e.instance in active {
        return None;
      }
      active := active + {e.instance};
      sessions := sessions + multiset{e.instance};
      started := Some(PeerFor(e, now));
    }

    /** A session finished, successfully or not: its instance leaves the set. */
    method SessionFinished(instance: string)
      requires Valid() && instance in sessions
      modifies this
      ensures Valid()
      ensures active == old(active) - {instance}
      ensures sessions == old(sessions) - multiset{instance}
    {
      active := active - {instance};
      sessions := sessions - multiset{instance};
    }

    /** One browse cycle: the entries in the order the resolver delivers them. */
    method Browse(entries: seq<ServiceEntry>, now: int) returns (started: seq<Peer>)
      requires Valid()
      modifies this
      ensures Valid()
      ensures started == Admitted(self, old(active), entries, now)
      ensures active == old(active) + Instances(started)
    {
      started := [];
      var i := 0;
      while i < |entries|
        invariant 0 <= i <= |entries| && Valid()
        invariant started + Admitted(self, active, entries[i..], now) == Admitted(self, old(active), entries, now)
        invariant active == old(active) + Instances(started)
      {
        ghost var before := active;
        var found := Discovered(entries[i], now);
        BrowseStep(self, before, entries, i, now, started, found, active);
        if found.Some? {
          started := started + [found.value];
        }
        i := i + 1;
      }
    }
  }
}
