# docker-spy reconciler, modelled in Dafny

docker-spy watches the containers on a Docker host and keeps a DNS cache that
matches them. This project models its reconciler (`spy.go`), which has two
parts:

- a map of tracked container ids;
- a cache from fully-qualified name to record.

Each status notification `(id, status)` goes through one transition. The
transition works from substring tests on the status text and on the stored
`first` field. It stores the entry, publishes the container's names, or
withdraws them and forgets the id. The names come from inspecting the
container:

- the implicit name is `hostname.domainname.` at its primary IP address;
- each environment line `DNS_PUBLISH_NAME_*=name:ip` adds the name `name.` at `ip`.

Layout:

- `wrappers.dfy` (module `Wrappers`): `Option`.
- `strings.dfy` (module `Strings`): models of Go's `strings.Contains`, `strings.HasPrefix` and `strings.SplitN(s, sep, 2)`, with their meaning proved.
- `seqs.dfy` (module `Seqs`): `Collect`, the "range over a slice and conditionally append" loop as a function, with its lemmas.
- `names.dfy` (module `Names`): the resolver `getContainerNames` as a specification function (`ContainerNames`, `EnvName`, `EnvNames`).
- `publisher.dfy` (module `Publisher`): `registerName`/`unregisterName` and their loops, as functions on the cache map.
- `reconciler.dfy` (module `Reconciler`):
  - the seven decision flags (`Decide`);
  - one transition as a function on the state (`Handle`);
  - the startup pass (`HandleAll`);
  - the lemmas about them;
  - class `Spy`, whose methods do the same work in place on its two map fields. Each method is proved equal to the specification function.

The two outside inputs are parameters:

- `inspect: string -> Option<Metadata>` stands for the Docker inspect call. `None` is an inspect error. One notification can inspect the container twice, once while registering and once while unregistering. `Handle` and `Spy.HandleContainerEvent` therefore take a second oracle, `reinspect`, for the second call, so the container may change or vanish in between.
- `reverseAddr: string -> Option<string>` stands for `dns.ReverseAddr`. `None` is its error. Go then gets an empty reverse name, and the model uses `""`.

Behaviour of the code worth knowing:

- The status tests are case-sensitive. The test for `create` fails on a status `Created`, so a notification or listing entry with that status does not track the container. `StartupExample` shows what the transition does with such a status. The startup listing is requested with default options (spy.go:35), which list only running containers, so in practice a `Created` entry does not reach the startup pass.
- The name in `DNS_PUBLISH_NAME_X=name:ip` is not checked to be non-empty. With a matching key, the value `:1.2.3.4` publishes the name `"."`.
- The tracked entry's `created` flag is always written as `true`. Whether the id "was created" is re-derived each time from the substring `"create"` in the stored `first`. `CreatedIsFlag` proves that, given the invariant, this test equals "`first` is non-empty".

## Model

| member | source | states |
|---|---|---|
| Strings.Contains | spy.go:52-56 | Go's `strings.Contains` as a left-to-right scan for the pattern; its meaning is `ContainsIff` |
| Strings.ContainsIff | spy.go:52-56 | the left-to-right scan used for every status test returns true exactly when the pattern occurs at some index |
| Strings.HasPrefix | spy.go:87 | Go's `strings.HasPrefix`: the pattern is an initial segment of the string; its meaning is `HasPrefixIff` |
| Strings.HasPrefixIff | spy.go:87 | `HasPrefix(s, p)`, Go's `strings.HasPrefix`, holds exactly when `s` is `p` followed by some rest |
| Strings.SplitOnce | spy.go:86-88 | `SplitN(s, sep, 2)`: one part, equal to `s`, exactly when `sep` does not occur; otherwise two parts that rejoin with `sep` to `s`, the first with no `sep` in it |
| Strings.SplitOnceJoin | spy.go:86-88 | splitting `a + sep + b` where `a` has no `sep` gives back exactly `[a, b]` |
| Seqs.CollectMember | spy.go:85-96 | a name is among the override names exactly when some environment line yields it |
| Seqs.CollectAppend | spy.go:85-96 | the override names of a concatenated environment are the concatenation of the two lists, so environment order is kept |
| Seqs.CollectLength | spy.go:85-96 | at most one override name per environment line |
| Names.EnvName | spy.go:86-94 | what one environment line contributes: split once on `=`; when the key has the prefix `DNS_PUBLISH_NAME_` and a value exists, split the value once on `:`; two parts give the name `part0.` at `part1`, anything else gives nothing; its meaning is `EnvNameIff` |
| Names.ContainerNames | spy.go:77-99 | the result of `getContainerNames`: on inspect error an empty list with the failure flag; otherwise `hostname.domainname.` at the primary address, then the names of the environment lines in order |
| Names.EnvNameOfOverride | spy.go:86-94 | a line `key=name:ip` whose key has the prefix and no `=`, and whose name has no `:`, publishes exactly `name.` at `ip` |
| Names.EnvNameIsOverride | spy.go:86-94 | every line that publishes a name has that shape, with the published name and address being its parts |
| Names.EnvNameIff | spy.go:85-96 | a line publishes a name exactly when it has the override shape; a line with no `=`, another key or no `:` in the value contributes nothing |
| Names.ContainerNamesQualified | spy.go:81-93 | every published name is fully qualified: it ends with a dot |
| Names.OverrideExample | spy.go:86-94 | `DNS_PUBLISH_NAME_X=foo.example.com:10.0.0.5` publishes `foo.example.com.` at `10.0.0.5` |
| Names.BadValueExample | spy.go:86-89 | `DNS_PUBLISH_NAME_X=badvalue` publishes nothing |
| Publisher.Published | spy.go:125-137 | after `registerName` the key `n.name` holds `Record(n.ip, arpa, n.name)`, with `arpa` empty when the reverse name cannot be computed; no other key is added or changed |
| Publisher.Withdrawn | spy.go:139-142 | after `unregisterName` exactly `n.name` is gone and every remaining record is unchanged |
| Publisher.PublishAll | spy.go:108-110 | the registration loop: `registerName` applied to each name in list order; its meaning is `PublishAllOverlay` and `PublishAllLastWins` |
| Publisher.WithdrawAll | spy.go:120-122 | the withdrawal loop: `unregisterName` applied to each name in list order; its meaning is `WithdrawAllRemoves` |
| Publisher.PublishedIdempotent | spy.go:125-137 | registering a name twice leaves the cache as registering it once |
| Publisher.WithdrawnAbsent | spy.go:139-142 | removing a name that is not cached leaves the cache unchanged |
| Publisher.PublishAllOverlay | spy.go:108-110 | registering a list of names overlays the records built from the list on the old cache |
| Publisher.PublishAllKeys | spy.go:108-110 | registering a list adds exactly the list's names as keys |
| Publisher.PublishAllElsewhere | spy.go:108-110 | a key no name of the list uses keeps its record, or stays absent |
| Publisher.PublishAllLastWins | spy.go:108-110 | the record under a name is built from the last list element that has that name |
| Publisher.PublishAllIdempotent | spy.go:108-110 | registering the same list twice equals registering it once |
| Publisher.WithdrawAllRemoves | spy.go:120-122 | unregistering a list removes exactly the list's names from the cache |
| Publisher.WithdrawAfterPublish | spy.go:108-110 | withdrawing the names just registered leaves the old cache minus those names |
| Publisher.PublishAllKeyedByName | spy.go:132-136 | if every record is filed under its own name before registration, it still is afterwards |
| Reconciler.Decide | spy.go:51-58 | the seven flags from the tracked entry (if any) and the status: `first` (untracked and "create"), `created` (stored `first` has "create"), `started` (created and "start"), `register` (started or "Up"), `finished` ("die"), `unregister` (finished and tracked), `update` (register or first) |
| Reconciler.Registering | spy.go:101-111 | `registerAllNames`: untrack the id on inspect failure, otherwise publish every name of the inspect result |
| Reconciler.Unregistering | spy.go:113-123 | `unregisterAllNames`: untrack the id on inspect failure, otherwise withdraw every name of the inspect result |
| Reconciler.Handle | spy.go:50-75 | `handleContainerEvent`: store the entry when `update`, then register when `register` (first inspection), then unregister (second inspection) and forget the id when `unregister` |
| Reconciler.HandleAll | spy.go:39-41 | the startup loop: every listed container handled with its listed status, in listing order |
| Reconciler.HandleWrites | spy.go:51-67 | every entry a transition writes has `created == true`, the new status, and `first` equal to the status exactly when the id was untracked and the status contains "create" (empty otherwise); no other id's entry changes |
| Reconciler.HandleConsistent | spy.go:50-75 | each transition keeps every tracked entry well formed and every record filed under its own name |
| Reconciler.HandleUntrackedIgnored | spy.go:52-58 | for an untracked id, a status with neither "create" nor "Up" changes neither map: a "die" withdraws nothing, a "start" after a "die" publishes nothing |
| Reconciler.HandleTrackedDie | spy.go:71-74 | after a "die" for a tracked id, the id is untracked, whether or not inspect fails |
| Reconciler.HandleTrackedDieWithdraws | spy.go:113-122 | a "die" for a tracked id whose flags say not to register removes from the cache exactly the names of the inspection made while unregistering, not the names published earlier |
| Reconciler.HandleRepeatedStart | spy.go:53-58 | a tracked id whose stored `first` lacks "create", given a "start" status without "Up" or "die", leaves both maps unchanged |
| Reconciler.HandleInspectFails | spy.go:101-118 | when the inspection made while registering fails, no cache key is set: every remaining record is an old one, unchanged, whatever the second inspection returns; a registering or withdrawing transition leaves the id untracked |
| Reconciler.HandleInspectFailsTwice | spy.go:101-118 | when both inspections fail, the cache is unchanged |
| Reconciler.HandleVanishedBeforeWithdrawal | spy.go:68-74 | when one notification both registers and unregisters and the container vanishes between the two inspections, the records just published stay in the cache while the id is untracked |
| Reconciler.HandleCacheFrame | spy.go:68-74 | a transition changes the cache only under the names found by its two inspections |
| Reconciler.HandleUpIdempotent | spy.go:55-70 | an "Up" status without "create" or "die", handled twice in a row with unchanged metadata, leaves both maps as one handling does |
| Reconciler.CreatedIsFlag | spy.go:53 | given the invariant, the re-derived `created` flag is the same as "the id is tracked with a non-empty `first`" |
| Reconciler.LifecycleRoundTrip | spy.go:50-75 | create, start and die for a new id, with unchanged metadata, end with the id untracked, every other entry unchanged, and exactly the published names removed from the cache |
| Reconciler.HandleAllConsistent | spy.go:39-41 | the startup pass keeps the invariant |
| Reconciler.StartupExample | spy.go:39-41 | from an empty state, listings "Up 2 hours" and "Created" track and publish the first container only |
| Reconciler.Spy.constructor | spy.go:16-20 | the two maps of the `Spy` struct, both empty; the source does not show how a `Spy` and its DNS cache are created, so the empty start is the model's own starting state |
| Reconciler.Spy.RegisterName | spy.go:125-137 | sets the cache to `Published` of the old cache |
| Reconciler.Spy.UnregisterName | spy.go:139-142 | sets the cache to `Withdrawn` of the old cache |
| Reconciler.Spy.GetContainerNames | spy.go:77-99 | returns exactly `ContainerNames` of the inspect result: an empty list and a failure on inspect error, otherwise the implicit name followed by the override names in environment order |
| Reconciler.Spy.RegisterAllNames | spy.go:101-111 | the new state is `Registering` of the old: untrack on inspect failure, otherwise every name registered |
| Reconciler.Spy.UnregisterAllNames | spy.go:113-123 | the new state is `Unregistering` of the old: untrack on inspect failure, otherwise every name withdrawn |
| Reconciler.Spy.HandleContainerEvent | spy.go:50-75 | the new state is `Handle` of the old, with the registration and the withdrawal each inspecting through its own oracle; the invariant is preserved |
| Reconciler.Spy.RegisterRunningContainers | spy.go:34-42 | a failed listing is reported as fatal and the state is unchanged; otherwise the new state is `HandleAll` of the old over the listing, in order; the invariant is preserved |

## Left out

- `Watch` and `readEventStream` (spy.go:27-32, 44-48): the goroutine, the channel and the event subscription are concurrency and I/O plumbing. Each event they deliver is one `HandleContainerEvent` call.
- `ListContainers` and `InspectContainer`, the Docker client calls: these are network calls into a foreign library. The listing is an `Option<seq<Listing>>` argument and inspection is the `inspect` oracle.
- Reconciler.Spy.RegisterRunningContainers: uses one `inspect` oracle for the whole startup pass. It does not model container metadata changing between the inspect calls of that pass.
- Reconciler.HandleAll: gives one oracle to both inspections of every listed container, for the same reason as the line above.
- `log.Fatalf` (spy.go:37): process termination is modelled as a `fatal` result that leaves the state unchanged. No later call is prevented.
- `dns.ReverseAddr` (spy.go:126): the in-addr.arpa / ip6.arpa name construction of section 3.5 of RFC 1035 and section 2.5 of RFC 3596 is the uninterpreted `reverseAddr` parameter.
- Every `log.Printf` call: logging has no effect on state.
- The `DNS` type, the DNS server and the internals of `cache.Set`/`cache.Remove`: no source for them is part of this model. The cache is a plain map from name to record, and `Set`/`Remove` are map update and key removal.
- Byte strings: Go strings are sequences of bytes, and the model's strings are sequences of characters. Every pattern and separator used (`create`, `start`, `Up`, `die`, `=`, `:`, `DNS_PUBLISH_NAME_`, `.`) is ASCII, so the tests, splits and concatenations agree on valid UTF-8 text. Invalid UTF-8 is not modelled.
- The `Record` type is declared outside `spy.go`. The model's field names `ip`, `arpa` and `name` follow the initialiser order at spy.go:132-136.
