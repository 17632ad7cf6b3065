/** The Lifecycle Reconciler (spy.go): turns free-text status notifications
    into updates of the tracked-container map and of the DNS cache. The pure
    functions below give the meaning of each step; class `Spy` performs the
    same steps in place. */
module Reconciler {
  import opened Wrappers
  import opened Strings
  import opened Names
  import opened Publisher
  import opened Seqs

  /** What is kept per tracked container id. `first` is the status seen when
      the id first arrived with a "create" status, or empty. */
  datatype Container = Container(first: string, status: string, created: bool)

  /** One entry of the runtime's listing of running containers. */
  datatype Listing = Listing(id: string, status: string)

  /** Everything the reconciler writes: the tracked containers and the cache. */
  datatype State = State(containers: map<string, Container>, cache: Cache)

  /** The seven flags of `handleContainerEvent`. */
  datatype Decision = Decision(
    first: bool, created: bool, started: bool, register: bool,
    finished: bool, unregister: bool, update: bool)

  function Get(containers: map<string, Container>, id: string): (c: Option<Container>)
  {
    if id in containers then Some(containers[id]) else None
  }

  /** The decision flags, from the tracked entry (if any) and the new status. */
  function Decide(prev: Option<Container>, status: string): (d: Decision)
  {
    var present := prev.Some?;
    var first := !present && Contains(status, "create");
    var created := present && Contains(prev.value.first, "create");
    var started := created && Contains(status, "start");
    var register := started || Contains(status, "Up");
    var finished := Contains(status, "die");
    var unregister := finished && present;
    var update := register || first;
    Decision(first, created, started, register, finished, unregister, update)
  }

  /** The entry written when the decision says to store one. */
  function Stored(d: Decision, status: string): (c: Container)
  {
    Container(if d.first then status else "", status, true)
  }

  /** Stop tracking `id`. */
  function Forget(st: State, id: string): (r: State)
  {
    st.(containers := st.containers - {id})
  }

  /** `registerAllNames`: publish the container's current names, or stop
      tracking it when it cannot be inspected. */
  function Registering(st: State, id: string, inspect: string -> Option<Metadata>,
                       reverseAddr: string -> Option<string>): (r: State)
  {
    var found := ContainerNames(inspect(id));
    if found.failed then Forget(st, id)
    else st.(cache := PublishAll(st.cache, found.names, reverseAddr))
  }

  /** `unregisterAllNames`: withdraw the container's current names, or stop
      tracking it when it cannot be inspected. */
  function Unregistering(st: State, id: string, inspect: string -> Option<Metadata>): (r: State)
  {
    var found := ContainerNames(inspect(id));
    if found.failed then Forget(st, id)
    else st.(cache := WithdrawAll(st.cache, found.names))
  }

  /** `handleContainerEvent`: store, then register, then unregister and forget.
      Registration and withdrawal each inspect the container anew: `inspect`
      answers the first of those calls and `reinspect` the second, so the
      container may change or vanish between them. */
  function Handle(st: State, id: string, status: string, inspect: string -> Option<Metadata>,
                  reinspect: string -> Option<Metadata>, reverseAddr: string -> Option<string>): (r: State)
  {
    var d := Decide(Get(st.containers, id), status);
    var s1 := if d.update then st.(containers := st.containers[id := Stored(d, status)]) else st;
    var s2 := if d.register then Registering(s1, id, inspect, reverseAddr) else s1;
    if d.unregister then Forget(Unregistering(s2, id, reinspect), id) else s2
  }

  /** The loop of `registerRunningContainers`: every listed container
      handled with its listed status, in listing order. */
  function HandleAll(st: State, listings: seq<Listing>, inspect: string -> Option<Metadata>,
                     reverseAddr: string -> Option<string>): (r: State)
    decreases |listings|
  {
    if listings == [] then st
    else
      var last := listings[|listings| - 1];
      Handle(HandleAll(st, listings[..|listings| - 1], inspect, reverseAddr), last.id, last.status,
             inspect, inspect, reverseAddr)
  }

  /** A tracked entry as `handleContainerEvent` writes it: marked created,
      and `first` either empty or the "create" status that was also stored
      as `status`. */
  predicate WellFormedEntry(c: Container)
  {
    c.created && (c.first == "" || (c.first == c.status && Contains(c.first, "create")))
  }

  predicate Consistent(st: State)
  {
    && (forall id :: id in st.containers ==> WellFormedEntry(st.containers[id]))
    && KeyedByName(st.cache)
  }

  // ---------------------------------------------------------------------
  // Properties of one step

  /** Every entry written is marked created, carries the new status, and has
      `first` set to the status exactly when the id was untracked and the
      status contains "create"; no other id's entry changes. */
  lemma HandleWrites(st: State, id: string, status: string, inspect: string -> Option<Metadata>,
                     reinspect: string -> Option<Metadata>, reverseAddr: string -> Option<string>)
    ensures var r := Handle(st, id, status, inspect, reinspect, reverseAddr);
      && r.containers - {id} == st.containers - {id}
      && (id in r.containers && (id !in st.containers || r.containers[id] != st.containers[id]) ==>
            r.containers[id] == Container(if id !in st.containers && Contains(status, "create") then status else "",
                                          status, true))
  {
  }

  /** Each step keeps every tracked entry well formed and every record filed
      under its own name. */
  lemma HandleConsistent(st: State, id: string, status: string, inspect: string -> Option<Metadata>,
                         reinspect: string -> Option<Metadata>, reverseAddr: string -> Option<string>)
    requires Consistent(st)
    ensures Consistent(Handle(st, id, status, inspect, reinspect, reverseAddr))
  {
    var d := Decide(Get(st.containers, id), status);
    var s1 := if d.update then st.(containers := st.containers[id := Stored(d, status)]) else st;
    assert Consistent(s1);
    var found := ContainerNames(inspect(id));
    PublishAllKeyedByName(s1.cache, found.names, reverseAddr);
    var s2 := if d.register then Registering(s1, id, inspect, reverseAddr) else s1;
    assert Consistent(s2);
    WithdrawAllRemoves(s2.cache, ContainerNames(reinspect(id)).names);
  }

  /** A notification for an id that is not tracked, with neither "create"
      nor "Up" in its status, changes nothing. In particular a "die" for a
      container that was never registered withdraws nothing, and a "start"
      after a "die" (a restart) publishes nothing. */
  lemma HandleUntrackedIgnored(st: State, id: string, status: string, inspect: string -> Option<Metadata>,
                               reinspect: string -> Option<Metadata>, reverseAddr: string -> Option<string>)
    requires id !in st.containers
    requires !Contains(status, "create") && !Contains(status, "Up")
    ensures Handle(st, id, status, inspect, reinspect, reverseAddr) == st
  {
  }

  /** After a "die" for a tracked id the id is no longer tracked, whether or
      not the container could still be inspected. */
  lemma HandleTrackedDie(st: State, id: string, status: string, inspect: string -> Option<Metadata>,
                         reinspect: string -> Option<Metadata>, reverseAddr: string -> Option<string>)
    requires id in st.containers && Contains(status, "die")
    ensures id !in Handle(st, id, status, inspect, reinspect, reverseAddr).containers
  {
  }

  /** A "die" for a tracked id that registers nothing withdraws exactly the
      names the container has when it is inspected for the withdrawal, which
      need not be the names published earlier. */
  lemma HandleTrackedDieWithdraws(st: State, id: string, died: string, inspect: string -> Option<Metadata>,
                                  reinspect: string -> Option<Metadata>, reverseAddr: string -> Option<string>)
    requires id in st.containers && Contains(died, "die")
    requires !Decide(Get(st.containers, id), died).register
    ensures Handle(st, id, died, inspect, reinspect, reverseAddr).cache
            == st.cache - NameKeys(ContainerNames(reinspect(id)).names)
  {
    WithdrawAllRemoves(st.cache, ContainerNames(reinspect(id)).names);
  }

  /** A "start" for a tracked id whose stored `first` has no "create" (the id
      was already started once) changes nothing. */
  lemma HandleRepeatedStart(st: State, id: string, status: string, inspect: string -> Option<Metadata>,
                            reinspect: string -> Option<Metadata>, reverseAddr: string -> Option<string>)
    requires id in st.containers && !Contains(st.containers[id].first, "create")
    requires Contains(status, "start") && !Contains(status, "Up") && !Contains(status, "die")
    ensures Handle(st, id, status, inspect, reinspect, reverseAddr) == st
  {
  }

  /** When the inspection made while registering fails, no record is set:
      every record left is an old record, unchanged, and a registering step
      stops tracking the id. Whatever the withdrawal's inspection returns, a
      "die" for a tracked id stops tracking it too. */
  lemma HandleInspectFails(st: State, id: string, status: string, inspect: string -> Option<Metadata>,
                           reinspect: string -> Option<Metadata>, reverseAddr: string -> Option<string>)
    requires inspect(id).None?
    ensures var r := Handle(st, id, status, inspect, reinspect, reverseAddr);
      && (forall k :: k in r.cache ==> k in st.cache && r.cache[k] == st.cache[k])
      && ((Decide(Get(st.containers, id), status).register || (id in st.containers && Contains(status, "die")))
          ==> id !in r.containers)
  {
    WithdrawAllRemoves(st.cache, ContainerNames(reinspect(id)).names);
  }

  /** When neither inspection succeeds, the cache is unchanged. */
  lemma HandleInspectFailsTwice(st: State, id: string, status: string, inspect: string -> Option<Metadata>,
                                reinspect: string -> Option<Metadata>, reverseAddr: string -> Option<string>)
    requires inspect(id).None? && reinspect(id).None?
    ensures Handle(st, id, status, inspect, reinspect, reverseAddr).cache == st.cache
  {
  }

  /** When one notification both registers and unregisters, and the
      container vanishes between the two inspections, the records just
      published stay in the cache although the id is no longer tracked. */
  lemma HandleVanishedBeforeWithdrawal(st: State, id: string, status: string,
                                       inspect: string -> Option<Metadata>,
                                       reinspect: string -> Option<Metadata>,
                                       reverseAddr: string -> Option<string>)
    requires Decide(Get(st.containers, id), status).register
    requires Decide(Get(st.containers, id), status).unregister
    requires inspect(id).Some? && reinspect(id).None?
    ensures var r := Handle(st, id, status, inspect, reinspect, reverseAddr);
      && r.cache == PublishAll(st.cache, ContainerNames(inspect(id)).names, reverseAddr)
      && id !in r.containers
  {
  }

  /** A step sets or removes only records under the names the container has
      at its two inspections. */
  lemma HandleCacheFrame(st: State, id: string, status: string, inspect: string -> Option<Metadata>,
                         reinspect: string -> Option<Metadata>, reverseAddr: string -> Option<string>)
    ensures var keys := NameKeys(ContainerNames(inspect(id)).names) + NameKeys(ContainerNames(reinspect(id)).names);
      Handle(st, id, status, inspect, reinspect, reverseAddr).cache - keys == st.cache - keys
  {
    var found := ContainerNames(inspect(id));
    var found2 := ContainerNames(reinspect(id));
    var keys := NameKeys(found.names) + NameKeys(found2.names);
    var d := Decide(Get(st.containers, id), status);
    var s1 := if d.update then st.(containers := st.containers[id := Stored(d, status)]) else st;
    PublishAllKeys(s1.cache, found.names, reverseAddr);
    forall k | k in s1.cache && k !in keys
      ensures PublishAll(s1.cache, found.names, reverseAddr)[k] == s1.cache[k]
    {
      PublishAllElsewhere(s1.cache, found.names, reverseAddr, k);
    }
    assert PublishAll(s1.cache, found.names, reverseAddr) - keys == s1.cache - keys;
    var s2 := if d.register then Registering(s1, id, inspect, reverseAddr) else s1;
    WithdrawAllRemoves(s2.cache, found2.names);
    assert WithdrawAll(s2.cache, found2.names) - keys == s2.cache - keys;
  }

  /** An "Up" report handled twice in a row leaves the containers and the
      cache as handling it once. */
  lemma HandleUpIdempotent(st: State, id: string, status: string, inspect: string -> Option<Metadata>,
                           reinspect: string -> Option<Metadata>, reverseAddr: string -> Option<string>)
    requires Contains(status, "Up") && !Contains(status, "create") && !Contains(status, "die")
    ensures var once := Handle(st, id, status, inspect, reinspect, reverseAddr);
      Handle(once, id, status, inspect, reinspect, reverseAddr) == once
  {
    var once := Handle(st, id, status, inspect, reinspect, reverseAddr);
    var c := Container("", status, true);
    var found := ContainerNames(inspect(id));
    if found.failed {
      assert once.containers == st.containers - {id};
      assert (once.containers[id := c]) - {id} == once.containers;
    } else {
      assert once.containers == st.containers[id := c];
      assert once.containers[id := c] == once.containers;
      PublishAllIdempotent(st.cache, found.names, reverseAddr);
    }
  }

  /** Under the invariant, the string test on the stored `first` is a plain
      flag: the id was seen arriving with a "create" status. */
  lemma CreatedIsFlag(st: State, id: string, status: string)
    requires Consistent(st)
    ensures Decide(Get(st.containers, id), status).created
            <==> id in st.containers && st.containers[id].first != ""
  {
  }

  // ---------------------------------------------------------------------
  // Properties of several steps

  /** A container seen arriving ("create"), then starting ("start"), then
      dying ("die"), with unchanged metadata, ends untracked, and its names
      are exactly the records removed from the cache. */
  lemma LifecycleRoundTrip(st: State, id: string, created: string, started: string, died: string,
                           inspect: string -> Option<Metadata>, reverseAddr: string -> Option<string>)
    requires id !in st.containers
    requires Contains(created, "create") && !Contains(created, "Up") && !Contains(created, "die")
    requires Contains(started, "start") && !Contains(started, "Up") && !Contains(started, "die")
    requires Contains(died, "die") && !Contains(died, "Up")
    requires inspect(id).Some?
    ensures var s1 := Handle(st, id, created, inspect, inspect, reverseAddr);
      var s2 := Handle(s1, id, started, inspect, inspect, reverseAddr);
      var s3 := Handle(s2, id, died, inspect, inspect, reverseAddr);
      && s3.containers == st.containers
      && s3.cache == st.cache - NameKeys(ContainerNames(inspect(id)).names)
  {
    var names := ContainerNames(inspect(id)).names;
    var s1 := Handle(st, id, created, inspect, inspect, reverseAddr);
    assert s1 == st.(containers := st.containers[id := Container(created, created, true)]);
    var s2 := Handle(s1, id, started, inspect, inspect, reverseAddr);
    assert s2.cache == PublishAll(st.cache, names, reverseAddr);
    var s3 := Handle(s2, id, died, inspect, inspect, reverseAddr);
    WithdrawAfterPublish(st.cache, names, reverseAddr);
    assert s3.containers == st.containers;
  }

  /** The startup pass keeps the invariant. */
  lemma {:induction false} HandleAllConsistent(st: State, listings: seq<Listing>,
                                               inspect: string -> Option<Metadata>,
                                               reverseAddr: string -> Option<string>)
    requires Consistent(st)
    ensures Consistent(HandleAll(st, listings, inspect, reverseAddr))
    decreases |listings|
  {
    if listings != [] {
      var last := listings[|listings| - 1];
      HandleAllConsistent(st, listings[..|listings| - 1], inspect, reverseAddr);
      HandleConsistent(HandleAll(st, listings[..|listings| - 1], inspect, reverseAddr),
                       last.id, last.status, inspect, inspect, reverseAddr);
    }
  }

  /** Starting from nothing, a listing with one running container (an "Up"
      status) and one merely created container (the capitalised "Created"
      has no lower-case "create") publishes the first container's names and
      tracks it, and leaves the second untracked. */
  lemma StartupExample(a: string, b: string, up: string, createdStatus: string,
                       inspect: string -> Option<Metadata>, reverseAddr: string -> Option<string>)
    requires a != b
    requires up == "Up 2 hours" && createdStatus == "Created"
    requires inspect(a).Some?
    ensures var r := HandleAll(State(map[], map[]), [Listing(a, up), Listing(b, createdStatus)], inspect, reverseAddr);
      && r.containers == map[a := Container("", up, true)]
      && r.cache == PublishAll(map[], ContainerNames(inspect(a)).names, reverseAddr)
  {
    ContainsIff(up, "Up");
    assert OccursAt(up, "Up", 0);
    ContainsNeedsHead(up, "create");
    ContainsNeedsHead(up, "die");
    ContainsNeedsHead(createdStatus, "Up");
    ContainsIff(createdStatus, "die");
    forall i ensures !OccursAt(createdStatus, "die", i) {
      if 0 <= i && i + 3 <= 7 {
        assert createdStatus[i..i + 3][0] == createdStatus[i];
      }
    }
    ContainsIff(createdStatus, "create");
    forall i ensures !OccursAt(createdStatus, "create", i) {
      if 0 <= i && i + 6 <= 7 {
        assert createdStatus[i..i + 6][0] == createdStatus[i];
      }
    }
    var empty := State(map[], map[]);
    var listings := [Listing(a, up), Listing(b, createdStatus)];
    assert listings[..1] == [Listing(a, up)];
    assert listings[..1][..0] == [];
    assert HandleAll(empty, [], inspect, reverseAddr) == empty;
    var s1 := Handle(empty, a, up, inspect, inspect, reverseAddr);
    assert HandleAll(empty, listings[..1], inspect, reverseAddr) == s1;
    var d1 := Decide(None, up);
    assert !d1.first && d1.register && !d1.unregister;
    assert s1 == State(map[a := Container("", up, true)], PublishAll(map[], ContainerNames(inspect(a)).names, reverseAddr));
    var d2 := Decide(Get(s1.containers, b), createdStatus);
    assert Get(s1.containers, b) == None;
    assert !d2.update && !d2.register && !d2.unregister;
    assert Handle(s1, b, createdStatus, inspect, inspect, reverseAddr) == s1;
  }

  // ---------------------------------------------------------------------
  // The reconciler object

  class Spy {
    var containers: map<string, Container>
    var cache: Cache

    ghost function Snapshot(): State
      reads this
    {
      State(containers, cache)
    }

    ghost predicate Valid()
      reads this
    {
      Consistent(Snapshot())
    }

    constructor ()
      ensures containers == map[] && cache == map[]
      ensures Valid()
    {
      containers := map[];
      cache := map[];
    }

    /** Set the record for `n`, computing its reverse-lookup name. */
    method RegisterName(n: PublishedName, reverseAddr: string -> Option<string>)
      modifies this`cache
      ensures cache == Published(old(cache), n, reverseAddr)
    {
      var arpa := "";
      var reversed := reverseAddr(n.ip);
      if reversed.Some? {
        arpa := reversed.value;
      }
      cache := cache[n.name := Record(n.ip, arpa, n.name)];
    }

    /** Remove the record for `n`, if any. */
    method UnregisterName(n: PublishedName)
      modifies this`cache
      ensures cache == Withdrawn(old(cache), n)
    {
      cache := cache - {n.name};
    }

    /** Inspect `id` and collect the names it publishes. */
    method GetContainerNames(id: string, inspect: string -> Option<Metadata>)
      returns (names: seq<PublishedName>, failed: bool)
      ensures NameList(names, failed) == ContainerNames(inspect(id))
    {
      names := [];
      var container := inspect(id);
      failed := container.None?;
      if !failed {
        var md := container.value;
        names := names + [ImplicitName(md)];
        assert md.env[..0] == [];
        for i := 0 to |md.env|
          invariant names == [ImplicitName(md)] + EnvNames(md.env[..i])
        {
          ghost var before := names;
          var line := md.env[i];
          var env := SplitOnce(line, '=');
          if HasPrefix(env[0], OverridePrefix) && |env| > 1 {
            var info := SplitOnce(env[1], ':');
            if |info| > 1 {
              names := names + [PublishedName(info[0] + ".", info[1])];
              assert EnvName(line) == Some(PublishedName(info[0] + ".", info[1]));
            } else {
              assert EnvName(line) == None;
            }
          } else {
            assert EnvName(line) == None;
          }
          assert names == before + EnvName(line).ToSeq();
          CollectSnoc([ImplicitName(md)], md.env, EnvName, i, names);
        }
        assert md.env[..|md.env|] == md.env;
      }
    }

    method RegisterAllNames(id: string, inspect: string -> Option<Metadata>,
                            reverseAddr: string -> Option<string>)
      modifies this
      ensures Snapshot() == Registering(old(Snapshot()), id, inspect, reverseAddr)
    {
      var names, failed := GetContainerNames(id, inspect);
      if failed {
        containers := containers - {id};
        return;
      }
      for i := 0 to |names|
        invariant containers == old(containers)
        invariant PublishAll(cache, names[i..], reverseAddr) == PublishAll(old(cache), names, reverseAddr)
      {
        assert names[i..][1..] == names[i + 1..];
        RegisterName(names[i], reverseAddr);
      }
    }

    method UnregisterAllNames(id: string, inspect: string -> Option<Metadata>)
      modifies this
      ensures Snapshot() == Unregistering(old(Snapshot()), id, inspect)
    {
      var names, failed := GetContainerNames(id, inspect);
      if failed {
        containers := containers - {id};
        return;
      }
      for i := 0 to |names|
        invariant containers == old(containers)
        invariant WithdrawAll(cache, names[i..]) == WithdrawAll(old(cache), names)
      {
        assert names[i..][1..] == names[i + 1..];
        UnregisterName(names[i]);
      }
    }

    /** One notification. `inspect` answers the inspection made while
        registering and `reinspect` the one made while unregistering. */
    method HandleContainerEvent(id: string, status: string, inspect: string -> Option<Metadata>,
                                reinspect: string -> Option<Metadata>, reverseAddr: string -> Option<string>)
      modifies this
      ensures Snapshot() == Handle(old(Snapshot()), id, status, inspect, reinspect, reverseAddr)
      ensures old(Valid()) ==> Valid()
    {
      var prev := Get(containers, id);
      var d := Decide(prev, status);
      var c := Container("", status, false);
      if d.first {
        c := c.(first := status);
      }
      if d.update {
        c := c.(created := true);
        containers := containers[id := c];
      }
      if d.register {
        RegisterAllNames(id, inspect, reverseAddr);
      }
      if d.unregister {
        UnregisterAllNames(id, reinspect);
        containers := containers - {id};
      }
      if old(Valid()) {
        HandleConsistent(old(Snapshot()), id, status, inspect, reinspect, reverseAddr);
      }
    }

    /** The startup pass. A failed listing is fatal for the process: the
        state is left as it was and `fatal` is set. */
    method RegisterRunningContainers(listing: Option<seq<Listing>>, inspect: string -> Option<Metadata>,
                                     reverseAddr: string -> Option<string>)
      returns (fatal: bool)
      modifies this
      ensures fatal <==> listing.None?
      ensures Snapshot() == if fatal then old(Snapshot()) else HandleAll(old(Snapshot()), listing.value, inspect, reverseAddr)
      ensures old(Valid()) ==> Valid()
    {
      if listing.None? {
        return true;
      }
      var listings := listing.value;
      for i := 0 to |listings|
        invariant Snapshot() == HandleAll(old(Snapshot()), listings[..i], inspect, reverseAddr)
      {
        assert listings[..i + 1][..i] == listings[..i];
        HandleContainerEvent(listings[i].id, listings[i].status, inspect, inspect, reverseAddr);
      }
      assert listings[..|listings|] == listings;
      if old(Valid()) {
        HandleAllConsistent(old(Snapshot()), listings, inspect, reverseAddr);
      }
      return false;
    }
  }
}
