/** The Name Publisher: writes and removes resolution records in the DNS
    cache (spy.go, `registerName` and `unregisterName`) and the loops over a
    container's names (`registerAllNames`, `unregisterAllNames`). The cache
    is a plain map from fully-qualified name to record. */
module Publisher {
  import opened Wrappers
  import opened Names

  /** The unit written to the cache: address, reverse-lookup name, name. */
  datatype Record = Record(ip: string, arpa: string, name: string)

  type Cache = map<string, Record>

  /** The reverse-lookup name for `ip`; a failing computation yields the
      empty string and publication goes on. */
  function Arpa(reverseAddr: string -> Option<string>, ip: string): (arpa: string)
  {
    match reverseAddr(ip)
    case None => ""
    case Some(arpa) => arpa
  }

  function RecordFor(n: PublishedName, reverseAddr: string -> Option<string>): (rec: Record)
  {
    Record(n.ip, Arpa(reverseAddr, n.ip), n.name)
  }

  /** `registerName`: the cache with `n`'s record set under `n.name`. */
  function Published(cache: Cache, n: PublishedName, reverseAddr: string -> Option<string>): (c: Cache)
    ensures c.Keys == cache.Keys + {n.name}
    ensures c[n.name] == Record(n.ip, Arpa(reverseAddr, n.ip), n.name)
    ensures forall k :: k in cache && k != n.name ==> c[k] == cache[k]
  {
    cache[n.name := RecordFor(n, reverseAddr)]
  }

  /** `unregisterName`: the cache without `n.name`. */
  function Withdrawn(cache: Cache, n: PublishedName): (c: Cache)
    ensures c.Keys == cache.Keys - {n.name}
    ensures forall k :: k in c ==> c[k] == cache[k]
  {
    cache - {n.name}
  }

  /** The keys a list of names publishes under. */
  function NameKeys(names: seq<PublishedName>): (keys: set<string>)
  {
    set n | n in names :: n.name
  }

  lemma NameKeysCons(names: seq<PublishedName>)
    requires names != []
    ensures NameKeys(names) == {names[0].name} + NameKeys(names[1..])
  {
    assert forall n :: n in names <==> n == names[0] || n in names[1..];
  }

  /** The loop of `registerAllNames`: every name published, in order. */
  function PublishAll(cache: Cache, names: seq<PublishedName>, reverseAddr: string -> Option<string>): (c: Cache)
    decreases |names|
  {
    if names == [] then cache
    else PublishAll(Published(cache, names[0], reverseAddr), names[1..], reverseAddr)
  }

  /** The loop of `unregisterAllNames`: every name withdrawn, in order. */
  function WithdrawAll(cache: Cache, names: seq<PublishedName>): (c: Cache)
    decreases |names|
  {
    if names == [] then cache
    else WithdrawAll(Withdrawn(cache, names[0]), names[1..])
  }

  /** Publishing twice is publishing once. */
  lemma PublishedIdempotent(cache: Cache, n: PublishedName, reverseAddr: string -> Option<string>)
    ensures Published(Published(cache, n, reverseAddr), n, reverseAddr) == Published(cache, n, reverseAddr)
  {
  }

  /** Withdrawing a name that is not cached changes nothing. */
  lemma WithdrawnAbsent(cache: Cache, n: PublishedName)
    requires n.name !in cache
    ensures Withdrawn(cache, n) == cache
  {
  }

  /** Publishing a list overlays the records it builds on the old cache:
      the list's own records win and no other key changes. */
  lemma {:induction false} PublishAllOverlay(cache: Cache, names: seq<PublishedName>, reverseAddr: string -> Option<string>)
    ensures PublishAll(cache, names, reverseAddr) == cache + PublishAll(map[], names, reverseAddr)
    decreases |names|
  {
    if names != [] {
      var n, rest := names[0], names[1..];
      var r := RecordFor(n, reverseAddr);
      PublishAllOverlay(cache[n.name := r], rest, reverseAddr);
      PublishAllOverlay(map[n.name := r], rest, reverseAddr);
      assert map[][n.name := r] == map[n.name := r];
      assert cache[n.name := r] + PublishAll(map[], rest, reverseAddr)
          == cache + (map[n.name := r] + PublishAll(map[], rest, reverseAddr));
    }
  }

  /** Publishing a list adds exactly the list's keys. */
  lemma {:induction false} PublishAllKeys(cache: Cache, names: seq<PublishedName>, reverseAddr: string -> Option<string>)
    ensures PublishAll(cache, names, reverseAddr).Keys == cache.Keys + NameKeys(names)
    decreases |names|
  {
    if names != [] {
      NameKeysCons(names);
      PublishAllKeys(Published(cache, names[0], reverseAddr), names[1..], reverseAddr);
    }
  }

  /** A key no name of the list uses keeps its entry, or its absence. */
  lemma {:induction false} PublishAllElsewhere(cache: Cache, names: seq<PublishedName>, reverseAddr: string -> Option<string>, k: string)
    requires k !in NameKeys(names)
    ensures k in PublishAll(cache, names, reverseAddr) <==> k in cache
    ensures k in cache ==> PublishAll(cache, names, reverseAddr)[k] == cache[k]
    decreases |names|
  {
    if names != [] {
      NameKeysCons(names);
      PublishAllElsewhere(Published(cache, names[0], reverseAddr), names[1..], reverseAddr, k);
    }
  }

  /** The record under a name is the one built from the last element of the
      list that carries that name. */
  lemma {:induction false} PublishAllLastWins(cache: Cache, names: seq<PublishedName>, reverseAddr: string -> Option<string>, i: int)
    requires 0 <= i < |names|
    requires forall j :: i < j < |names| ==> names[j].name != names[i].name
    ensures names[i].name in PublishAll(cache, names, reverseAddr)
    ensures PublishAll(cache, names, reverseAddr)[names[i].name] == RecordFor(names[i], reverseAddr)
    decreases |names|
  {
    var c' := Published(cache, names[0], reverseAddr);
    if i == 0 {
      var k := names[0].name;
      assert k !in NameKeys(names[1..]);
      PublishAllElsewhere(c', names[1..], reverseAddr, k);
    } else {
      assert forall j :: i - 1 < j < |names| - 1 ==> names[1..][j] == names[j + 1];
      PublishAllLastWins(c', names[1..], reverseAddr, i - 1);
    }
  }

  /** Registering the same names twice leaves the cache as registering them once. */
  lemma PublishAllIdempotent(cache: Cache, names: seq<PublishedName>, reverseAddr: string -> Option<string>)
    ensures PublishAll(PublishAll(cache, names, reverseAddr), names, reverseAddr) == PublishAll(cache, names, reverseAddr)
  {
    var m := PublishAll(map[], names, reverseAddr);
    PublishAllOverlay(cache, names, reverseAddr);
    PublishAllOverlay(cache + m, names, reverseAddr);
    assert (cache + m) + m == cache + m;
  }

  /** Withdrawing a list removes exactly the list's keys. */
  lemma {:induction false} WithdrawAllRemoves(cache: Cache, names: seq<PublishedName>)
    ensures WithdrawAll(cache, names) == cache - NameKeys(names)
    decreases |names|
  {
    if names != [] {
      NameKeysCons(names);
      WithdrawAllRemoves(Withdrawn(cache, names[0]), names[1..]);
      assert (cache - {names[0].name}) - NameKeys(names[1..]) == cache - NameKeys(names);
    }
  }

  /** Withdrawing the names just published leaves the old cache minus those names. */
  lemma WithdrawAfterPublish(cache: Cache, names: seq<PublishedName>, reverseAddr: string -> Option<string>)
    ensures WithdrawAll(PublishAll(cache, names, reverseAddr), names) == cache - NameKeys(names)
  {
    var c := PublishAll(cache, names, reverseAddr);
    WithdrawAllRemoves(c, names);
    PublishAllKeys(cache, names, reverseAddr);
    forall k | k in cache && k !in NameKeys(names)
      ensures c[k] == cache[k]
    {
      PublishAllElsewhere(cache, names, reverseAddr, k);
    }
  }

  /** Every record is filed under its own name. */
  predicate KeyedByName(cache: Cache)
  {
    forall k :: k in cache ==> cache[k].name == k
  }

  lemma {:induction false} PublishAllKeyedByName(cache: Cache, names: seq<PublishedName>, reverseAddr: string -> Option<string>)
    requires KeyedByName(cache)
    ensures KeyedByName(PublishAll(cache, names, reverseAddr))
    decreases |names|
  {
    if names != [] {
      PublishAllKeyedByName(Published(cache, names[0], reverseAddr), names[1..], reverseAddr);
    }
  }
}
