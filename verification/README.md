# Verified model of the UnyPort backend kernels

UnyPort is a web dashboard for Alpine and Xen hosts. Most of its Go backend moves data between
`/proc`, HTTP and the browser; this project models the parts that keep state or decide something,
and proves what they promise over whole runs:

- **Live stream** (`Broker`, `BrokerLaws`, `Scales`): the 60-slot ring, the client channels of
  capacity four, and the oscilloscope axes.
- **Neighbour identity** (`OuiTable`, `DeviceTables`, `Classifier`, `Identity`, `IdentityLaws`,
  `IdentityMeaning`, `DeviceMeaning`, `IdentityCache`, `IdentityCacheLaws`, `IdentityExact`, `ShippedIdentity`):
  the vendor table, the weighted vote, the memo in front of it, and all of it with the shipped tables.
- **ISP lookups** (`Rdap`, `RdapLaws`): the single-flight cache of RDAP answers.
- **Device order** (`NaturalOrder`, `NaturalOrderLaws`, `NaturalOrderMeaning`): the natural comparator handed to the sort.
- **Login limiter** (`RateLimit`, `RateLimitLaws`): counting windows and the janitor.
- **Users** (`Accounts`, `AccountLaws`, `LoadPass`, `UserStore`, `AdminHandlers`, `AdminRuns`, `RequestLaws`,
  `AdminOverlap`, `AdminFile`): the keyed store, the load pass that rehashes while iterating, the guarded admin requests, served one
  after the other or overlapping, and the file behind them.
- **Startup history** (`StartupLog`, `StartupLogLaws`, `Calendar`, `Heatmap`): writer, reader and the
  yearly heatmap.
- **Text algorithms** (`Tail`, `TailMeaning`, `LogPaths`, `ApkDb`): the bounded tail, the paths it may read, and the package
  database.

`Common`, `Text`, `TextMeaning`, `Digits` and `Sets` hold shared helpers. The modules named `Meaning` say what the
specification functions answer in terms of characters, addresses, times and weights, without naming them. State that the source updates in place is a class;
loops of the source are methods with loops, each tied to a specification function or predicate, and
the laws are lemmas about those specifications. Concurrency is a step system: a trace of states in which
every step is one critical section, and the laws hold for every trace.

Where a promise is not met by the code for all inputs, the exact condition under which it is met is
proved instead, with a concrete failing input beside it: leading zeros in device names
(`OrderedExactlyOnCanonical`), the sliding login window (`SlidesIff`), commas and separators in the
arguments of the identity memo (`AlwaysRightIff`; `KeyEqualIff`, `CommasHarmlessIff`, `SharedKeyIff` for keys
and signals), the order of a client's stream (`StreamInOrderIff`), clashing
emails at load time (`NobodyLostIffSeparate`), overlapping admin requests (`ActKeepsAdminIff`,
`RunKeepsAdminIff`), two boots with one boot time (`OneRecordForEachBootIff`,
`FirstStartOfEachBootIffTimesApart`), log paths (`AllowedStaysIff`), nameless package
sections (`NamelessIsHarmlessIff`) and a cut log file (`WindowAgreesIff`).

Run `dafny verify dfyconfig.toml` to check everything.

## Model

| member | source | states |
|---|---|---|
| NaturalOrder.ReadUintChunk | unyport/backend/sse/metrics.go:1940-1947 | From a position, the end of the maximal digit run and its value, saturated at the largest 64-bit number (an overflow error is dropped, its saturated value is not). |
| NaturalOrder.NaturalLess | unyport/backend/sse/metrics.go:1918-1938 | The two-cursor loop decides, on all pairs of strings, the relation defined on token sequences: the first differing token decides, digit runs as numbers and other bytes as bytes; if one token sequence runs out, the byte lengths decide. |
| NaturalOrderLaws.RenderTokens | unyport/backend/sse/metrics.go:1918-1947 | Rendering a string's tokens never lengthens it and gives the string back exactly when every digit run is a 64-bit numeral without leading zeros (canonical). |
| NaturalOrderLaws.CanonicalAgrees | unyport/backend/sse/metrics.go:1918-1938 | On canonical strings the comparator is the lexicographic order of the token sequences, and equal tokens mean equal strings. |
| NaturalOrderLaws.CanonicalStrictTotal | unyport/backend/sse/metrics.go:1909-1938 | On canonical strings the comparator is irreflexive, transitive and total. |
| NaturalOrderLaws.CanonicalIsMaximal | unyport/backend/sse/metrics.go:1918-1938 | Adding any other string to the canonical ones breaks the order: two distinct strings become incomparable or three form a cycle. |
| NaturalOrderLaws.OrderedExactlyOnCanonical | unyport/backend/sse/metrics.go:1918-1938 | The comparator is a strict total order on the canonical strings together with s if and only if s is canonical. |
| NaturalOrderLaws.LeadingZerosCycle | unyport/backend/sse/metrics.go:1918-1938 | The concrete failure: "a1z" before "a001" before "a1aaa" before "a1z". |
| NaturalOrderLaws.SortedDisksUnique | unyport/backend/sse/metrics.go:1882-1914 | Two sorted lists of the same disks with canonical names are equal, so the displayed order does not depend on the order in which the map of mounts is iterated. |
| NaturalOrderMeaning.NumbersDecide | unyport/backend/sse/metrics.go:1922-1928 | Behind any common text that does not end in a digit, the smaller of two numbers below the 64-bit limit comes first, however they are written and whatever follows: sda2 before sda10. |
| NaturalOrderMeaning.BytesDecide | unyport/backend/sse/metrics.go:1930-1932 | Where the first different bytes do not both belong to numbers, the smaller byte comes first, a digit against another byte included. |
| NaturalOrderMeaning.EqualNumbersTie | unyport/backend/sse/metrics.go:1925-1936 | Equal numbers, or two beyond 64 bits, decide nothing: the next byte does, and at the end of either string the byte lengths. |
| NaturalOrderMeaning.PrefixFirst | unyport/backend/sse/metrics.go:1918-1938 | Every string comes before every longer one that starts with it, even where that prolongs a number. |
| NaturalOrderMeaning.FirstDifferenceDecides | unyport/backend/sse/metrics.go:1918-1938 | For every pair of strings, said of the strings themselves: they are read alike up to two positions, and there the smaller number or byte decides, or the byte lengths if one string has ended. |
| NaturalOrderMeaning.SmallerDeviceFirst | unyport/backend/sse/metrics.go:1909-1914 | In every list the sort may leave, of two devices named alike the one with the smaller number stands first. |
| NaturalOrderMeaning.SmallerMountFirst | unyport/backend/sse/metrics.go:1909-1914 | A device mounted twice is listed by its mounts. |
| RateLimit.LoginRateLimiter.Middleware | unyport/backend/middleware/ratelimit.go:43-79 | Only POST requests count; one opens a window when there is none or the reset time has passed, is counted in it, touches no other address, and passes exactly when its count is at most the maximum. |
| RateLimit.LoginRateLimiter.Sweep | unyport/backend/middleware/ratelimit.go:82-95 | A sweep removes exactly the buckets whose reset time lies before the given time, which may have been read before the lock was taken. |
| RateLimitLaws.DecisionsArePure | unyport/backend/middleware/ratelimit.go:43-79 | In every run, whatever the sweeps, request k of an address passes exactly when fewer than the maximum number of its requests precede it in its window; the windows are a function of that address's request times alone. |
| RateLimitLaws.JanitorTransparent | unyport/backend/middleware/ratelimit.go:53-95 | For every schedule of sweeps, also with stale sweep times, the log of requests and verdicts equals that of a limiter that never purges. |
| RateLimitLaws.IntervalBound | unyport/backend/middleware/ratelimit.go:12-21 | At most 2*max-1 requests of an address pass in any closed interval as long as the window (none when max is not positive). The source's comments promise a sliding window; the code keeps fixed windows. |
| RateLimitLaws.BoundIsTight | unyport/backend/middleware/ratelimit.go:43-79 | For every positive maximum and window a run reaches 2*max-1 passed requests in one interval. |
| RateLimitLaws.SlidesIff | unyport/backend/middleware/ratelimit.go:12-21 | The promise of a sliding window, never more than max passed requests in an interval as long as the window, holds in every run if and only if max is at most 1. |
| RateLimitLaws.EveryPostIsDecided | unyport/backend/middleware/ratelimit.go:43-79 | Every POST request of a run is decided, once and at its own time. |
| RateLimitLaws.ModestPass | unyport/backend/middleware/ratelimit.go:53-74 | An address that, request included, made at most max requests within a window before it is not refused. |
| RateLimitLaws.BurstIsCut | unyport/backend/middleware/ratelimit.go:53-74 | After a pause longer than the window, and at the start, exactly the first max requests pass until a window has gone by. |
| Rdap.IspCache.Lookup | unyport/backend/sse/metrics.go:1418-1434 | A lookup answers from a fresh entry or with nothing, launches a fetch exactly when the address is public, not freshly known and not in flight, and marks it in flight. |
| Rdap.IspCache.Store | unyport/backend/sse/metrics.go:1436-1446 | The end of a fetch stores its result for a day, or an empty result for an hour after a failure, and clears the mark. |
| RdapLaws.Reachable | unyport/backend/sse/metrics.go:1407-1446 | Every state of every interleaving satisfies the invariant that ties marks, running fetches, start and end times and the entry of an address together. |
| RdapLaws.SingleFlight | unyport/backend/sse/metrics.go:1429-1446 | An address is marked in flight exactly while one fetch for it is outstanding; there are never two, and every other started fetch has ended. |
| RdapLaws.StartsApart | unyport/backend/sse/metrics.go:1418-1446 | The next fetch of an address starts a day after the end of a successful one, or an hour after the end of a failed one, at the earliest. |
| RdapLaws.FetchRate | unyport/backend/sse/metrics.go:1418-1446 | A closed span of time holds at most 1 + span / 1h fetch starts of one address. |
| RdapLaws.AnswersAreFresh | unyport/backend/sse/metrics.go:1415-1428 | A non-empty answer is the result of the latest completed fetch of that very address, completed less than 24 hours before the clock was read. |
| RdapLaws.UnansweredIsFetched | unyport/backend/sse/metrics.go:1424-1434 | After a lookup of a public address, either a fresh entry answered it or exactly one fetch for it is running. |
| RdapLaws.LookupMeans | unyport/backend/sse/metrics.go:1415-1446 | What a lookup of a public address does, in every run, in terms of the fetches of the past alone: for a day after a success it answers what was fetched, otherwise nothing; it launches a fetch if and only if none is running and there was none, the last one succeeded a day ago or failed an hour ago. |
| RdapLaws.PrivateIsIgnored | unyport/backend/sse/metrics.go:1418-1421 | A lookup of any other address answers nothing and changes nothing. |
| OuiTable.BuildOuiTable | unyport/backend/sse/device_identity.go:141-162 | The table holds a lower-cased prefix exactly when some group lists it and all groups listing it share one vendor; the device type is that of the first such group. |
| OuiTable.FirstLister | unyport/backend/sse/device_identity.go:146-156 | The first group that lists a prefix; none before it does. |
| OuiTable.VendorsIgnoreOrder | unyport/backend/sse/device_identity.go:141-162 | Permuting the groups changes neither the prefixes nor their vendors. |
| OuiTable.ConflictRemoves | unyport/backend/sse/device_identity.go:143-160 | A prefix that two vendors list, in any case of its letters, is not in the table. |
| OuiTable.LoneVendorStays | unyport/backend/sse/device_identity.go:141-162 | A prefix no other vendor lists is in the table, for its vendor, and with the device type of the group that lists it first. |
| Classifier.Tally | unyport/backend/sse/device_identity.go:263-270 | The score map holds exactly the supported types with their total weights, and the types are listed in order of first appearance. |
| Classifier.Elect | unyport/backend/sse/device_identity.go:263-276 | The winner has maximal total weight, and among equals it was seen first. |
| Classifier.ElectedUnique | unyport/backend/sse/device_identity.go:261-276 | There is only one such winner. |
| Classifier.CollectSources | unyport/backend/sse/device_identity.go:284-292 | The loop collects the distinct sources of the supporting signals. |
| Classifier.SourcesFaithful | unyport/backend/sse/device_identity.go:284-297 | The sources are exactly those of the supporting signals, once each, in signal order, and there is one whenever the type has support, so that taking the first is safe. |
| Classifier.AgreementKeeps | unyport/backend/sse/device_identity.go:261-283 | One more signal in favour of the settled type, inserted anywhere, keeps the result and never lowers its score, in spite of tie-breaks and the hostname rule. |
| DeviceTables.FirstPatternWins | unyport/backend/sse/metrics.go:1580-1608 | The type a hostname suggests is that of the first pattern, in the order of the list, one of whose words it contains. |
| DeviceTables.NoPatternMatches | unyport/backend/sse/metrics.go:1606-1608 | Without a matching pattern the hostname suggests the unknown type. |
| DeviceTables.OuiPrefixIff | unyport/backend/sse/device_identity.go:349-367 | An address has a vendor prefix if and only if its normal form is six pairs of hexadecimal digits between colons, and the prefix is the first three of them. |
| DeviceTables.ShippedCovers | unyport/backend/sse/metrics.go:1580-1608 | Every type a hostname can suggest is accepted as a network type by the shipped catalogue; the hostname rule relies on it. |
| TextMeaning.FoldTogetherIff | unyport/backend/auth/users.go:351-353 | Case folding, which keys of users, hosts and vendors go through, identifies two characters exactly when they are equal or the two cases of one letter. |
| TextMeaning.TrimmedIff | unyport/backend/auth/users.go:351-353 | Trimming gives the one part of a text that neither begins nor ends with a blank and has nothing but blanks around it. |
| TextMeaning.SplitIff | unyport/backend/auth/users.go:355-361 | The parts of a text are the one non-empty list that joins to it without holding the separator. |
| TextMeaning.FieldsOfJoin | unyport/backend/sse/device_identity.go:304-308 | Words joined by any separator of the class are its fields again. |
| DeviceMeaning.TokenIsWordIff | unyport/backend/sse/metrics.go:1610-1622 | In a name of words between separators a token is found if and only if it is one of the words, or has five characters or more and occurs anywhere. |
| DeviceMeaning.TokenAnywhere | unyport/backend/sse/metrics.go:1610-1622 | A token of five characters is found anywhere, the camera prefix at the start only. |
| DeviceMeaning.HostnameNameMeans | unyport/backend/sse/metrics.go:1580-1582 | Underscores and blanks in a hostname count as dashes, and case does not count. |
| DeviceMeaning.NoHostname | unyport/backend/sse/metrics.go:1580-1608 | Without a hostname nothing is suggested, whatever the patterns. |
| DeviceMeaning.NormalizeMacMeans | unyport/backend/sse/metrics.go:1630-1632 | In a hardware address dashes count as colons, and case does not count. |
| DeviceMeaning.HexAddressIff | unyport/backend/sse/device_identity.go:349-367 | An address is six pairs of hexadecimal digits with colons at five fixed places. |
| DeviceMeaning.VirtualInterfaceIff | unyport/backend/sse/device_identity.go:341-346 | An interface belongs to a guest if and only if its name begins with vif, tap or vnet, in any case. |
| DeviceMeaning.EntryMeans | unyport/backend/sse/device_identity.go:304-319 | An inventory entry speaks for its address alone, and only with a type of the catalogue; without an equality sign it says nothing. |
| DeviceMeaning.InventoryMeans | unyport/backend/sse/device_identity.go:304-319 | In a list of entries between any of the five separators the first one that speaks for the address decides; without one there is no manual type. |
| DeviceMeaning.StorageTypes | unyport/backend/sse/device_identity.go:321-331 | A storage type is accepted for a neighbour if and only if it is nas or san. |
| Identity.CollectSignals | unyport/backend/sse/device_identity.go:227-249 | The signals are added in the order of the code, each only if its type is a network type. |
| Identity.Classify | unyport/backend/sse/device_identity.go:251-299 | Without a manual type the outcome is unknown when there is no signal, and otherwise the settled election with capped score and faithful sources. |
| Identity.ComputeNeighborIdentity | unyport/backend/sse/device_identity.go:213-299 | The computation meets the identification relation: a valid manual override first, then the vote. |
| Identity.SettledSupported | unyport/backend/sse/device_identity.go:279-297 | The settled type always has a signal of its own. |
| IdentityLaws.IdentityExists | unyport/backend/sse/device_identity.go:213-299 | Every neighbour has an identity: the relation is total. |
| IdentityLaws.IdentityUnique | unyport/backend/sse/device_identity.go:213-299 | The identification relation is a function of the arguments. |
| IdentityLaws.IdentitySound | unyport/backend/sse/device_identity.go:213-331 | The type is unknown or a network type of the catalogue; a known one has confidence in (0,1], an unknown one 0; unless manual, the type is the elected one or the hostname's where "server" was elected, and the sources are exactly those of its signals in order. |
| IdentityLaws.UnknownWithoutSignals | unyport/backend/sse/device_identity.go:251-259 | Without a manual type, a neighbour stays unknown exactly when there is no signal. |
| IdentityLaws.AgreeingService | unyport/backend/sse/device_identity.go:244-299 | An observed service that suggests the settled type, anywhere in the list, keeps the type and never lowers the confidence. |
| IdentityMeaning.VendorMeans | unyport/backend/sse/device_identity.go:372-385 | The vendor of every identity, from the address alone: a hypervisor prefix comes first, then group and local addresses have none, then the table decides, and anything that is not an address has none. |
| IdentityMeaning.ScoreMeans | unyport/backend/sse/device_identity.go:217-270 | The score of every type is 65 hundredths for the hostname, 50 for a public address, 60 for a hypervisor's address, 55 for the vendor, 35 for each service and 20 for a virtual interface that suggest it, and nothing for a type that is none of the network. |
| IdentityMeaning.NoVotesMeans | unyport/backend/sse/device_identity.go:251-259 | Without votes for any type the neighbour is unknown, with confidence 0 and the source arp. |
| IdentityMeaning.VoteMeans | unyport/backend/sse/device_identity.go:261-299 | Otherwise it has a type with most votes, or the one its hostname names where that is server, and its votes, capped at 100 hundredths, are the confidence. |
| IdentityMeaning.ManualMeans | unyport/backend/sse/device_identity.go:217-225 | A manual type is final, with full confidence and the source manual. |
| IdentityMeaning.FirstOfEqualsWins | unyport/backend/sse/device_identity.go:261-276 | Of types with equal scores the winner was suggested first. |
| IdentityMeaning.SourcesMeans | unyport/backend/sse/device_identity.go:227-299 | Where the vote decides, the sources are exactly those that speak for the type, each once, in the fixed order dhcp, public-ip, mac, oui, service, interface, and the first is reported. |
| IdentityCache.NeighborCache.NeighborIdentityFor | unyport/backend/sse/device_identity.go:185-211 | On keyed arguments a call returns what the computation would, stores it under its key, and resets the memo when it is full. |
| IdentityCache.NeighborCache.Put | unyport/backend/sse/device_identity.go:204-209 | The second critical section: a full memo is emptied before the new entry goes in. |
| IdentityCache.KeyEqualIff | unyport/backend/sse/device_identity.go:186-193 | For all arguments: two keys are equal if and only if the pieces of the fields between separators agree. |
| IdentityCache.ServicesFieldEqualIff | unyport/backend/sse/device_identity.go:192-192 | Two lists of services make the same field if and only if their pieces between commas agree up to case. |
| IdentityCache.KeyInjective | unyport/backend/sse/device_identity.go:186-193 | Without separators in any field but the hostname, equal keys mean equal normalised fields and services whose pieces differ in case only. |
| IdentityCache.SplitSignalsIff | unyport/backend/sse/device_identity.go:192-246 | Splitting the services at their commas leaves the signals as they are if and only if no piece of a service that carries a comma hints at a network type. |
| IdentityCache.KeyDetermines | unyport/backend/sse/device_identity.go:185-202 | Keyed arguments (separators in the hostname at most, harmless commas, an address whose padding does not matter) with one key have one identity: the computation is invariant under every normalisation the key applies. |
| IdentityCache.CommasHarmlessIff | unyport/backend/sse/device_identity.go:192-246 | The commas in the services are harmless if and only if no keyed arguments with the same key give other signals. |
| IdentityCache.SharedKeyIff | unyport/backend/sse/device_identity.go:185-202 | For arguments whose key has no stray separator: all arguments whatever that share the key compute from the same inputs of the vote if and only if the address has no manual type and there is a single service piece or none that hints at a network type. The condition on identities is IdentityExact.AlwaysRightIff. |
| IdentityCache.SeparatorMoves | unyport/backend/sse/device_identity.go:191-193 | A separator at the border of hostname and services can belong to either: such arguments share a key. |
| IdentityCache.SameKeyIff | unyport/backend/sse/device_identity.go:186-193 | Without separators two tuples share a key if and only if address, interface and hostname agree up to blanks, the hardware address in normal form, hostname and service pieces up to case, and the inventory exactly. |
| IdentityCache.RememberMeans | unyport/backend/sse/device_identity.go:204-209 | The memo keeps what it has until it holds 4096 identities, and then starts afresh with the new one. |
| IdentityCacheLaws.Reachable | unyport/backend/sse/device_identity.go:195-209 | In every interleaving of the two critical sections, with any arguments, every entry is the identity of the arguments of an earlier call with its key. |
| IdentityCacheLaws.HitComesFrom | unyport/backend/sse/device_identity.go:195-209 | A call that finds its key gets the identity an earlier call with that key computed, whatever the arguments are. |
| IdentityCacheLaws.CacheTransparent | unyport/backend/sse/device_identity.go:195-210 | In every interleaving of keyed calls, a call that finds its key gets exactly the identity the computation returns. |
| IdentityCacheLaws.TransparentIff | unyport/backend/sse/device_identity.go:185-211 | The memo is right about given arguments in every run, whatever the other calls, if and only if all arguments that share their key have their identity. |
| IdentityCacheLaws.UnambiguousAlwaysRight | unyport/backend/sse/device_identity.go:185-211 | Arguments without stray separators, manual type and hinted service pieces are answered right in every run, whatever the other calls are. |
| IdentityExact.ReadingIff | unyport/backend/sse/device_identity.go:186-193 | The ways to read a key are finitely many groupings of its pieces: six fields that the normalisations leave alone and that join to the key. |
| IdentityExact.AlwaysRightIff | unyport/backend/sse/device_identity.go:185-211 | The exact condition on identities, for all arguments, stray separators included: the memo is right about them in every run, whatever the other calls, if and only if every reading of their key has no manual type and gives the same identity with every grouping of its service pieces. |
| IdentityExact.CleanAlwaysRightIff | unyport/backend/sse/device_identity.go:185-211 | Without stray separators there is one reading: the trimmed address has no manual type, and every grouping of the service pieces gives the same identity. |
| IdentityExact.OnlyAloneHints | unyport/backend/sse/device_identity.go:192-246 | Of a grouping only the pieces that stand alone matter to the vote; a group of several hints at nothing. |
| IdentityCacheLaws.CacheBounded | unyport/backend/sse/device_identity.go:205-208 | The memo never holds more than 4096 entries. |
| IdentityCacheLaws.TrimmingTheAddress | unyport/backend/sse/device_identity.go:187-187 | Trimming the address changes the identity exactly when the trimmed address has a manual type and the raw one does not: the key trims it, the inventory lookup does not. |
| ShippedIdentity.ShippedSound | unyport/backend/sse/device_identity.go:213-331 | The soundness of an identity, the elected type and its sources included, for the shipped catalogue, patterns, hints and hypervisor prefixes, without conditions on tables. |
| ShippedIdentity.ShippedTransparent | unyport/backend/sse/device_identity.go:185-211 | The transparency of the memo for the shipped tables, without conditions on tables. |
| ShippedIdentity.WithoutServices | unyport/backend/sse/metrics.go:1371-1371 | The program passes no services: then arguments are keyed if and only if no field but the hostname carries a separator and padding of the address does not matter. |
| ShippedIdentity.CommaCollision | unyport/backend/sse/device_identity.go:192-192 | With the shipped tables, ["ssh,rdp"] and ["ssh","rdp"] share a key and have different identities. |
| ShippedIdentity.SeparatorCollision | unyport/backend/sse/device_identity.go:191-193 | With the shipped tables, hostname "h\x1fsynology" with an empty service and hostname "h" with the service "synology\x1f" share a key and have different identities. |
| ShippedIdentity.QemuGuest | unyport/backend/sse/device_identity.go:213-299 | A neighbour of which only a private address and a QEMU hardware address are known is a server of vendor QEMU/KVM with full confidence and the sources mac and oui. |
| Scales.BoundsTight | unyport/backend/sse/broker.go:208-241 | The running minimum and maximum are the tight bounds of the current and the visited samples; frequencies that are not positive are skipped. |
| Scales.TightUnique | unyport/backend/sse/broker.go:208-241 | Tight bounds are unique, so the order of the samples does not matter. |
| Scales.CpuEnvelope | unyport/backend/sse/broker.go:243-259 | A CPU sample of the window lies inside its axis exactly when it is a percentage; the axis stays within 0 to 100, and it is not empty once a sample is a percentage. |
| Scales.FreqEnvelope | unyport/backend/sse/broker.go:261-277 | The current frequency and every positive one of the window lies inside its axis exactly when it is not negative; the axis is not empty once one of them is not negative. |
| Scales.MemEnvelope | unyport/backend/sse/broker.go:279-296 | No 64-bit subtraction wraps; the whole window lies inside the memory axis exactly when no sample exceeds the current total and the upper margin does not wrap; the axis never exceeds the total, and under that condition it is not empty when the total is positive. |
| Scales.CpuAxisMeans | unyport/backend/sse/broker.go:243-259 | The published CPU axis ends a twentieth of the span beyond the extreme samples, 0.1 beyond them where the span is 2 or less, or at 0 and 100. A comment above the function speaks of 10 percent. |
| Scales.FreqAxisMeans | unyport/backend/sse/broker.go:261-277 | The published frequency axis ends a twentieth of the span, rounded down and at least 1, beyond the extreme samples, or at 0 below. |
| Scales.MemAxisMeans | unyport/backend/sse/broker.go:279-296 | So does the memory axis, which also ends at the total; a top beyond 64 bits wraps. |
| Scales.OnlyAxesChange | unyport/backend/sse/broker.go:200-299 | Measurements are published as they were taken. |
| Broker.Broker.Subscribe | unyport/backend/sse/broker.go:144-150 | A fresh empty channel joins the clients; nothing else changes. |
| Broker.Broker.Unsubscribe | unyport/backend/sse/broker.go:152-156 | The channel leaves the clients; nothing else changes. |
| Broker.Broker.ReadLatest | unyport/backend/sse/broker.go:176-184 | The newest snapshot, or none before the first publication. |
| Broker.Channel.Receive | unyport/backend/sse/broker.go:186-189 | The oldest pending snapshot is taken. |
| Broker.Broker.ComputeOscilloScales | unyport/backend/sse/broker.go:201-299 | The axes are those of the samples at indices 1 to n-1 behind the head, never-written slots skipped; nothing else of the snapshot changes. The loop starts at 1 before the insertion, so the preceding snapshot is not visited. |
| Broker.SetAxes | unyport/backend/sse/broker.go:243-296 | Margins and clamps step by step, for bounds with minimum at most maximum. |
| Broker.Broker.Record | unyport/backend/sse/broker.go:127-131 | The newest snapshot overwrites the slot at the head; head and count advance. |
| Broker.Broker.Broadcast | unyport/backend/sse/broker.go:132-138 | Every client is offered the snapshot once, in whatever order the map yields, and drops it when four are pending. |
| Broker.Broker.Publish | unyport/backend/sse/broker.go:118-139 | The critical section as a whole is one publication of the abstract hub. |
| BrokerLaws.Delivery | unyport/backend/sse/broker.go:118-194 | In every interleaving, received followed by pending is exactly what was published since the subscription, in order, without repetition, minus what was published while four were pending; never more than four are pending. |
| BrokerLaws.DeliverOne | unyport/backend/sse/broker.go:132-156 | Only its own receive and publications change a client's channel. |
| BrokerLaws.LossOnlyWhenFull | unyport/backend/sse/broker.go:132-138 | The channel part is complete if and only if no publication found the channel full. |
| BrokerLaws.RingRefinement | unyport/backend/sse/broker.go:127-131 | After any run, slot (head-1-i) mod 60 holds the i-th newest publication for all i below the count. |
| BrokerLaws.VisitedArePublished | unyport/backend/sse/broker.go:215-220 | The samples the scale computation visits are the second newest to the n-th newest publication. |
| BrokerLaws.FourFit | unyport/backend/sse/broker.go:132-138 | In every run a publication joins the end of a client's queue while fewer than four are pending there, and is dropped for that client otherwise. |
| BrokerLaws.FifteenAreScaled | unyport/backend/sse/broker.go:120-218 | In every run the axes of a publication look at the publications number 2 to number 15 before it that were measured, and at no others. |
| BrokerLaws.AxesEncloseWindow | unyport/backend/sse/broker.go:118-139 | In every run, the axes of a published snapshot enclose its own sample and the second newest to n-th newest publication before it: CPU samples exactly when percentages, counted frequencies exactly when not negative, all memory samples exactly when the total bounds them without wrap. |
| BrokerLaws.NothingFallsBetween | unyport/backend/sse/broker.go:171-194 | The initial snapshot is the newest at read time, and with an unfilled channel nothing published since the subscription is missing from the channel part. |
| BrokerLaws.StreamInOrderIff | unyport/backend/sse/broker.go:171-194 | A handler sends snapshots in the order of their publication, each once, if and only if nothing is published between its subscription and its first read. |
| BrokerLaws.NumbersOfKept | unyport/backend/sse/broker.go:132-138 | The numbers of the kept publications ascend and belong to the snapshots in the channel part. |
| BrokerLaws.RepeatedSnapshot | unyport/backend/sse/broker.go:171-189 | A concrete run: a publication between subscription and first read reaches the client twice. |
| Accounts.RoleOf | unyport/backend/auth/users.go:52-61 | The main role is admin exactly when the first listed role, folded, is admin; likewise operator; every other list means viewer. |
| Accounts.NormalizationsAgree | unyport/backend/auth/handlers.go:290-324 | The handlers lower first and trim second, the store the other way round: both give the same key. |
| Accounts.KeyedOverRuns | unyport/backend/auth/users.go:222-349 | Over all runs of add, delete, set role, password and profile changes every key equals the email of its account and is normalised. |
| Accounts.RenameMovesOne | unyport/backend/auth/users.go:265-309 | A successful rename moves exactly one account to a free key with role and password unchanged and touches no other; a failed edit moves nothing and changes at most the display name, which is assigned before the picture checks. |
| AccountLaws.LooksLikeEmailIff | unyport/backend/auth/users.go:355-361 | An address is accepted if and only if it has a single @, not at the start, and a dot behind it. |
| AccountLaws.SameKeyIff | unyport/backend/auth/users.go:351-353 | Two addresses are one key if and only if they differ in case and in the blanks around them at most. |
| AccountLaws.SetPasswordIff | unyport/backend/auth/users.go:312-332 | A password is changed if and only if the new one has 8 characters, the account exists, the old one was right and hashing works; each error has its exact condition; only that password changes. |
| AccountLaws.SetRoleIff | unyport/backend/auth/users.go:335-349 | A role is given if and only if it is one of the three, however typed, and the account exists; it is then the only role, and nobody else changes. |
| AccountLaws.AddIff | unyport/backend/auth/users.go:222-250 | An account is added if and only if its address is new and not empty and its password, if any, has 8 characters and can be hashed; every field of it is stated, and nobody else changes. |
| AccountLaws.DeleteIff | unyport/backend/auth/users.go:252-262 | An account is deleted if and only if it exists, and nobody else is. |
| AccountLaws.SetProfileIff | unyport/backend/auth/users.go:265-309 | A profile is edited if and only if the address is plausible and free or the own one, the account exists and the pictures are good; each error has its exact condition, and a failed edit changes one display name at most, exactly when only the pictures were bad. |
| AccountLaws.EditedFields | unyport/backend/auth/users.go:285-308 | A successful edit takes the fields of the profile, keeps password and roles, and gives a new address and id exactly when the account moved. |
| LoadPass.RehashIsKeyed | unyport/backend/auth/users.go:139-155 | Under any iteration order the load pass ends with every key equal to the normalised email of its user, and every user has a role. |
| LoadPass.SeparateIsKept | unyport/backend/auth/users.go:139-155 | Separate entries all survive, and every order gives the same table. |
| RequestLaws.LoadedUser | unyport/backend/auth/users.go:139-155 | What the load pass makes of a user of a file with separate entries: filed under the own address, or the old key if that is blank, with missing id and roles filled in and everything else as it was. |
| LoadPass.RehashSize | unyport/backend/auth/users.go:139-155 | The pass never adds users. |
| LoadPass.ClashLoses | unyport/backend/auth/users.go:139-155 | Two entries that clash lose a user in some order that visits every key once. |
| LoadPass.NobodyLostIffSeparate | unyport/backend/auth/users.go:139-155 | The pass never adds users, and it keeps every user in every order if and only if the normalised emails are pairwise distinct and none equals the original key of another entry. |
| LoadPass.RehashIdentity | unyport/backend/auth/users.go:139-155 | On a keyed table whose users have roles the pass changes nothing. |
| AdminRuns.AdminRemains | unyport/backend/auth/handlers.go:280-368 | From a keyed store with an admin, every sequence of authenticated requests and first sign-ins, served one after the other, keeps the store keyed and at least one admin in it. |
| AdminRuns.ServeKeeps | unyport/backend/middleware/auth.go:39-85 | One request: the caller's role is read from the store, the route's role list and the guards are applied, and an admin remains. |
| AdminRuns.DeleteKeepsCaller | unyport/backend/auth/handlers.go:332-343 | Deleting somebody else leaves the caller an admin. |
| AdminRuns.RoleKeepsCaller | unyport/backend/auth/handlers.go:345-363 | So does a role change, unless it is the caller's own and not to admin. |
| AdminRuns.SignInKeeps | unyport/backend/auth/oauth.go:151-170 | A first sign-in adds a viewer and takes nothing away. |
| RequestLaws.CreateIff | unyport/backend/auth/handlers.go:280-315 | Creating a user goes through if and only if the caller is an admin, the address is new and not blank, and the password has 8 characters and can be hashed. |
| RequestLaws.CreatedUser | unyport/backend/auth/handlers.go:290-309 | The new user has the hashed password and the role asked for, or viewer if that is none; nobody else changes. |
| RequestLaws.DeleteUserIff | unyport/backend/auth/handlers.go:322-343 | Deleting goes through if and only if the caller is an admin and names somebody else who exists, and removes just that user. |
| RequestLaws.ChangeRoleIff | unyport/backend/auth/handlers.go:345-363 | Changing a role goes through if and only if the caller is an admin, the account exists, the role is one of the three, and it is admin if the account is the own one; it becomes the only role. |
| RequestLaws.ChangePasswordIff | unyport/backend/auth/handlers.go:214-241 | Changing the own password goes through if and only if the caller is no viewer, knows the old one, and gives one of 8 characters that can be hashed; nothing else changes. |
| RequestLaws.EditProfileIff | unyport/backend/auth/handlers.go:159-211 | Editing the own profile goes through if and only if the caller is no viewer, the address is plausible and free or the own one, and the pictures are good, all of it trimmed first. |
| RequestLaws.MovesIff | unyport/backend/auth/handlers.go:194-200 | An edit moves the account, and reissues the cookie, if and only if a new address is given that is not the old one up to case and blanks. |
| RequestLaws.SignInMeans | unyport/backend/auth/oauth.go:156-168 | An unknown user who signs in becomes a viewer if and only if accounts are created automatically; everything else stays. |
| RequestLaws.AnswerMeans | unyport/backend/auth/handlers.go:280-363 | What the caller is told: the guard's refusal, success when the operation went through and the file was written, and the store's failure otherwise. |
| AdminOverlap.ActKeepsAdminIff | unyport/backend/auth/handlers.go:322-363 | For a caller who may have been renamed, demoted or deleted since authentication: an admin remains after the action if and only if some admin is not the one account the handler's guards let the request strip. |
| AdminOverlap.RunKeepsAdminIff | unyport/backend/middleware/auth.go:39-85 | With authentication and action as separate steps in any interleaving: there is an admin in every state if and only if no step strips the last one. |
| AdminOverlap.CurrentCallersKeepAdmin | unyport/backend/middleware/auth.go:57-60 | Overlap does no harm as long as every admin who acts is still an admin under the same key at that moment. |
| AdminOverlap.SerialIsInterleaving | unyport/backend/middleware/auth.go:39-85 | A request that is handled right after it entered is a served request. |
| AdminOverlap.OverlappingDeletes | unyport/backend/auth/handlers.go:330-338 | Two admins who are both authenticated before either acts can delete each other. |
| AdminOverlap.StaleRename | unyport/backend/auth/handlers.go:334-338 | One admin is enough: a request authenticated before the admin's own rename passes the self-delete guard against the new address. |
| AdminRuns.ReloadIsIdentity | unyport/backend/auth/users.go:139-199 | Loading what any run of requests saved gives the same table back in every iteration order. |
| AdminFile.FileIsEarlierTable | unyport/backend/auth/users.go:182-199 | In every run with any save failures and restarts, the file is a table the store had at some moment of the run. |
| AdminFile.RestartKeepsAdmin | unyport/backend/auth/users.go:120-157 | A restart at any point, with any order of the load pass, brings back such a table, with an admin. |
| AdminFile.SuccessIsSaved | unyport/backend/auth/users.go:182-199 | A request that goes through is in the file at once when saving works. |
| AdminFile.FailedRequest | unyport/backend/auth/users.go:285-290 | A request that fails changes one display name at most. |
| AdminFile.OnlyNamesLag | unyport/backend/auth/users.go:182-199 | In every run in which saving works, restarts included, memory and file differ in display names at most. |
| UserStore.UserStore.Save | unyport/backend/auth/users.go:182-199 | A successful save makes the file equal to memory; a failed one leaves the file alone. |
| UserStore.UserStore.Find | unyport/backend/auth/users.go:201-210 | The user under the normalised email, if any. |
| UserStore.UserStore.Add | unyport/backend/auth/users.go:222-250 | Memory becomes the specified table, each object stays under one key, and after success the file equals memory; a failed save keeps the change in memory. |
| UserStore.UserStore.Delete | unyport/backend/auth/users.go:252-261 | The account under the normalised email disappears, or "not found" is reported and nothing changes; after success the file equals memory. |
| UserStore.UserStore.SetRole | unyport/backend/auth/users.go:335-349 | A valid role becomes the only role of one account; an invalid role or unknown account changes nothing; after success the file equals memory. |
| UserStore.UserStore.UpdatePassword | unyport/backend/auth/users.go:312-332 | A password of 8 characters or more replaces that of one account when the old one matches; otherwise nothing changes; after success the file equals memory. |
| UserStore.UserStore.UpdateProfile | unyport/backend/auth/users.go:265-309 | The shared object is edited and moved to its new key in the order of the code, with every error at its place; after success the file equals memory. |
| UserStore.UserStore.Normalize | unyport/backend/auth/users.go:139-155 | The loop that deletes and inserts while iterating is the rehash under some order; entries it inserted may come up again and are then left alone. |
| UserStore.UserStore.Load | unyport/backend/auth/users.go:120-157 | A missing or empty file gives the default admin; an unreadable one fails; one whose decoding fails keeps the entries decoded so far and fails; a null document or entry ends the process; any other file is rehashed and not written back. |
| UserStore.UserStore.SeedAdmin | unyport/backend/auth/users.go:160-180 | The default account is an admin under its normalised email. |
| AdminHandlers.RequireRole | unyport/backend/middleware/auth.go:68-85 | A role passes exactly when it is in the list. |
| AdminHandlers.RouteAllows | unyport/backend/server/routes.go:158-271 | The role lists of the routes decide as specified. |
| AdminHandlers.Handler.Auth | unyport/backend/middleware/auth.go:39-60 | Identity and role come from the store, whatever the token says. |
| AdminHandlers.Handler.AdminCreateUser | unyport/backend/auth/handlers.go:280-315 | Folding, guards, store call, reply and file of user creation: refused requests change nothing, and the file changes exactly on the success reply. |
| AdminHandlers.Handler.AdminDeleteUser | unyport/backend/auth/handlers.go:322-343 | The self-delete guard, the store call, the reply and the file. |
| AdminHandlers.Handler.AdminChangeRole | unyport/backend/auth/handlers.go:322-363 | The self-demotion guard, the store call, the reply and the file. |
| AdminHandlers.Handler.UpdateProfile | unyport/backend/auth/handlers.go:159-211 | The trimmed profile goes to the store under the caller's key; reply and file follow the store's outcome, and a cookie that cannot be reissued after a change of address gives an internal error with the change in place. |
| AdminHandlers.Handler.ChangeOwnPassword | unyport/backend/auth/handlers.go:214-241 | The password change goes to the store under the caller's key; reply and file follow the store's outcome. |
| AdminHandlers.Handler.ServeRequest | unyport/backend/server/routes.go:156-273 | A whole request on the object store is the transition the run theorems are about; unknown users and roles not let through are told apart, only a success reaches the file, and success is reported exactly when the request went through, the file was written and no cookie failed. |
| StartupLog.StartupHistoryContains | unyport/backend/cmd/unyport/main.go:151-176 | The scan finds a record exactly when one shares the non-empty boot id or the non-empty boot time. |
| StartupLog.History.RecordStartupEvent | unyport/backend/cmd/unyport/main.go:96-125 | A start is appended exactly when no readable record shares its boot id or boot time and the file can be written. |
| StartupLog.ParseStartupHistoryByDay | unyport/backend/sse/broker.go:767-816 | The count of a day is the number of usable lines, first of their boot, whose reference time falls on it; the seen-sets are exactly what deduplication needs. |
| StartupLog.AttemptMeans | unyport/backend/cmd/unyport/main.go:96-176 | A start is written down if and only if the file can be written and no record it could read shares a known boot id or a known boot time; the record holds what was known at the start. |
| StartupLog.OneRecordCounts | unyport/backend/sse/broker.go:787-814 | A record alone counts if and only if it is a startup with a time, on the day of its boot time, or of its own time if the boot time is unknown. |
| StartupLog.RepeatIff | unyport/backend/sse/broker.go:794-804 | A second usable record repeats the boot of the first if and only if it has a boot id and the first has the same, or neither has one and both have the same known boot time. |
| StartupLogLaws.OneRecordPerBoot | unyport/backend/cmd/unyport/main.go:96-125 | Whatever starts happen, no two records share a boot id or a boot time, and every record is one of the starts. |
| StartupLogLaws.EveryStartIsCovered | unyport/backend/cmd/unyport/main.go:96-125 | Every start stays on record under its boot id or its boot time. |
| StartupLogLaws.FirstStartOfEachBootIffTimesApart | unyport/backend/cmd/unyport/main.go:96-176 | With boot ids, the log is the list of first starts, one for each boot, if and only if no two of those share a known boot time. |
| StartupLogLaws.OnRecordIff | unyport/backend/cmd/unyport/main.go:96-176 | A boot is on record if and only if one of its starts had no boot time, or one not on record for another boot at that moment. |
| StartupLogLaws.OneRecordForEachBootIff | unyport/backend/cmd/unyport/main.go:96-176 | There are as many records as boots if and only if every boot had such a start. |
| StartupLogLaws.SharedBootTimeLosesABoot | unyport/backend/cmd/unyport/main.go:151-176 | The concrete failure: two boots with one estimated boot time leave a single record. |
| StartupLogLaws.FailedWritesVanish | unyport/backend/cmd/unyport/main.go:104-124 | A start that could not write its record is as if it had not happened, so the laws hold for the starts that could. |
| StartupLogLaws.OneFirstLine | unyport/backend/sse/broker.go:794-804 | Every boot of a file has exactly one first line. |
| StartupLogLaws.TotalIsDatedBoots | unyport/backend/sse/broker.go:767-816 | For any file whatever, the year's total is the number of distinct boots dated in it. |
| StartupLogLaws.CopyChangesNothingIff | unyport/backend/sse/broker.go:787-814 | Appending a copy of a line changes no count if and only if it is not a counted line with neither boot id nor boot time. |
| StartupLogLaws.YearTotalIsBoots | unyport/backend/sse/broker.go:767-816 | Writer and reader together: over any sequence of starts with boot ids and distinct boot times, the total is the number of distinct boots whose boot time falls into the year. |
| StartupLogLaws.YearTotalIsRecords | unyport/backend/sse/broker.go:767-816 | Over any run of starts with boot ids the reader drops no record: the total is the number of records dated in the year. |
| Calendar.YearsMeet | unyport/backend/sse/broker.go:831-839 | The leap-year rule agrees with the closed form for the days before a year, for all years. |
| Calendar.AddDaysCounts | unyport/backend/sse/broker.go:708-708 | Adding i days, by month overflow, moves the day number by i. |
| Calendar.NumberIdentifies | unyport/backend/sse/broker.go:708-708 | No two valid dates share a day number. |
| Calendar.WalkMeetsEveryDate | unyport/backend/sse/broker.go:697-708 | Day i of the walk is a given date of the year exactly when i is its position. |
| Calendar.MonthLengths | unyport/backend/sse/broker.go:708-708 | Thirty days have April, June, September and November; February has 28, or 29 in a year divisible by 4 that is no century or one divisible by 400; the others have 31. |
| Calendar.NextDay | unyport/backend/sse/broker.go:708-708 | One day further is the next day of the month, the first of the next month, or new year's day. |
| Calendar.NextWeekday | unyport/backend/sse/broker.go:724-724 | Weekdays follow each other; with AMonday this fixes the weekday of every date. |
| Calendar.AMonday | unyport/backend/sse/broker.go:724-724 | The first of January 2024 was a Monday. |
| Heatmap.KeyIdentifies | unyport/backend/sse/broker.go:709-709 | Dates of one year have different keys. |
| Heatmap.EveryDateOnce | unyport/backend/sse/broker.go:707-710 | The loop looks up the key of every date of the year exactly once. |
| Heatmap.RebootHeatmapLevel | unyport/backend/sse/broker.go:818-829 | The level is the count up to 2, and 3 from there on. |
| Heatmap.FoldDay | unyport/backend/sse/broker.go:707-722 | One turn of the loop extends cells, total and maximum by one day. |
| Heatmap.Fold | unyport/backend/sse/broker.go:697-724 | 365 or 366 cells, their sum, their maximum and the leading blanks. |
| Heatmap.DayCellsAt | unyport/backend/sse/broker.go:716-721 | Cell i shows day i of the year under its own key. |
| Heatmap.LeadBlankAlignsWeekdays | unyport/backend/sse/broker.go:724-724 | (LeadBlank + i) mod 7 is the Monday-first weekday of day i. |
| Heatmap.TotalIsConservedIff | unyport/backend/sse/broker.go:707-715 | The total equals the sum of all counts if and only if every date with a count lies in the year. |
| Heatmap.MaximumOverCounts | unyport/backend/sse/broker.go:712-714 | With all dates in the year, the peak of the cells is the peak of the counts. |
| Heatmap.TwoDays | unyport/backend/sse/broker.go:707-724 | Key, caption and row of a new year's day on a Monday and of a leap day, letter by letter. |
| Heatmap.RebootsHandler | unyport/backend/sse/broker.go:681-740 | On either path the response fits together: every day in order with its date, caption and shade, the sum and the peak of the counts shown, and the blanks before new year's day. From the startup history the counts are those of its boots and the total is the number of distinct boots dated in the year; the fallback log is used exactly when the history is unreadable or counts nothing. |
| Tail.ReadWindow | unyport/backend/sse/sysinfo.go:758-775 | The bytes from the start of the window, behind its first newline when the file is cut. |
| Tail.TailLogFile | unyport/backend/sse/sysinfo.go:747-791 | The last n sanitised lines of the window; files up to 1 MiB give exactly the lines of the whole file. |
| Tail.TailAllowed | unyport/backend/sse/sysinfo.go:736-744 | Given the outcome of the path test: a denied path or unreadable file fails, otherwise the lines are those of the window, an odd line count becomes 100, and whenever the window suffices the answer is that of the whole file. |
| LogPaths.IsAllowedLogPath | unyport/backend/sse/sysinfo.go:793-806 | A path is allowed exactly when it begins with one of the three log directories; the list of known files adds nothing. |
| LogPaths.KnownAreAllowed | unyport/backend/sse/sysinfo.go:702-711 | All known files are in the first directory. |
| LogPaths.StaysInsideIff | unyport/backend/sse/sysinfo.go:734-735 | A walk stays inside its directory if and only if its depth never goes negative. |
| LogPaths.AllowedStaysIff | unyport/backend/sse/sysinfo.go:734-806 | For every allowed path: it stays inside its directory all the way if and only if the depth of the rest of it never goes negative; the prefix test does not look at that. |
| LogPaths.PrefixIsNotEnough | unyport/backend/sse/sysinfo.go:793-798 | The prefix test alone allows paths that lead out of the directory; the comment above it promises that they are refused. |
| LogPaths.PlainNameStays | unyport/backend/sse/sysinfo.go:852-859 | Every name the handler lets through is a file of the first directory. |
| LogPaths.TailPath | unyport/backend/sse/sysinfo.go:736-744 | A path outside the directories or an unreadable file fails; otherwise as above. |
| LogPaths.LogsTail | unyport/backend/sse/sysinfo.go:846-874 | The handler answers a missing name, a name with a slash, dot or backslash and a file that cannot be read apart, and otherwise shows the lines of a file in the first directory. |
| Tail.WindowAgreesIff | unyport/backend/sse/sysinfo.go:758-779 | Window and whole file show the same raw lines if and only if the file fits, or the kept text is not all newlines and has at least n lines, or the file is all newlines, or one line is wanted and the window is exactly that line. |
| Tail.WindowRefinesWhole | unyport/backend/sse/sysinfo.go:747-791 | Whenever that condition holds, the answer is that of the simple form. |
| Tail.SanitizeInPlace | unyport/backend/sse/sysinfo.go:780-789 | The loop rewrites every line in place to its sanitised form. |
| Tail.SanitizeIsClean | unyport/backend/sse/sysinfo.go:780-789 | A sanitised line has no control characters but tabs, no trailing blank, and is left alone by a second pass. |
| Tail.PlainTextIsKept | unyport/backend/sse/sysinfo.go:780-789 | Text without control characters and trailing blanks is shown as it is. |
| Tail.EscapesAreInvisible | unyport/backend/sse/sysinfo.go:34-34 | A complete escape sequence behind text without escapes can be taken out without changing what is shown. |
| TailMeaning.EscapeLengthIff | unyport/backend/sse/sysinfo.go:34-34 | A text begins with an escape sequence of k characters if and only if its first k characters are ESC, a bracket, parameters, intermediate bytes and one final byte. |
| TailMeaning.ColourIsInvisible | unyport/backend/sse/sysinfo.go:780-781 | Such a sequence, behind text without ESC, is not shown. |
| TailMeaning.BrokenSequenceIsShown | unyport/backend/sse/sysinfo.go:780-788 | Of anything else that begins with ESC only that character goes, and the rest is shown. |
| TailMeaning.ControlIsInvisible | unyport/backend/sse/sysinfo.go:782-787 | Control characters other than tabs are not shown. |
| TailMeaning.TrailingBlanksGo | unyport/backend/sse/sysinfo.go:788-788 | Blanks at the end of a line are not shown. |
| TailMeaning.RequestedMeans | unyport/backend/sse/sysinfo.go:740-742 | Between 1 and 1000 lines are shown as asked for; any other number means 100. |
| TailMeaning.LastLinesOfFile | unyport/backend/sse/sysinfo.go:776-779 | Of a file made of lines and any newlines behind them the last n lines are shown, or all of them. |
| ApkDb.CollectAPKPackages | unyport/backend/sse/sysinfo.go:392-431 | The accumulator loop is the fold over the lines; an unreadable file gives no package. |
| ApkDb.ParseIntRoundTrip | unyport/backend/sse/sysinfo.go:422-422 | Every 64-bit size survives printing and parsing. |
| ApkDb.ParseIntMeans | unyport/backend/sse/sysinfo.go:422-422 | A size is a decimal number with an optional sign, held within 64 bits. |
| ApkDb.ParseIntOther | unyport/backend/sse/sysinfo.go:422-422 | Any other text counts as no size, unless its digits already exceed 64 bits. |
| ApkDb.KeysInFile | unyport/backend/sse/sysinfo.go:410-426 | The letters of the five fields in the file that RoundTrip reads back. |
| ApkDb.SectionMeaning | unyport/backend/sse/sysinfo.go:399-426 | Whatever their order, repetition and the lines between them, the keyed lines of a section yield the last value of each key. |
| ApkDb.SectionsParse | unyport/backend/sse/sysinfo.go:399-430 | Named sections, separated by blank lines, parse to their meanings in order. |
| ApkDb.RoundTrip | unyport/backend/sse/sysinfo.go:392-431 | Printing any list of packages with non-empty names, ignored lines interleaved and the final blank line optional, parses back to the same list. |
| ApkDb.NamelessSectionRunsOn | unyport/backend/sse/sysinfo.go:400-405 | A section without a name is not closed by its blank line: its fields run into the next section. |
| ApkDb.SectionsAreFiled | unyport/backend/sse/sysinfo.go:399-430 | What any file of sections is parsed to: a named section takes in the nameless ones before it, and a nameless one at the end is lost. |
| ApkDb.NamelessIsHarmlessIff | unyport/backend/sse/sysinfo.go:399-430 | In any file of sections, named or not, the named ones are read as if each stood alone if and only if every one of them sets all of version, architecture, size and description that the nameless sections before it filled. |
| ApkDb.LeakedVersion | unyport/backend/sse/sysinfo.go:400-405 | The concrete failure: a version from a nameless section ends up in the next package. |

## Left out

- Unicode: strings are ASCII; case folding, rune counts and replacement of invalid bytes are not modelled.
- Floating point: identity weights are integer hundredths and CPU percentages are reals, so rounding is not modelled; integer overflow of frequencies and counters is not modelled either, while memory sizes wrap as 64-bit numbers.
- Clocks: times are integers on one clock that never goes back; daylight saving is not modelled, dates are civil.
- Environment answers: `isPublicNeighborIP`, RDAP fetch results, bcrypt hashing and comparison, file errors, JSON decoding of a line, time and number parsing of query values are parameters of the model, with every outcome allowed.
- Startup log: the line length limit of the scanner and a write that fails half-way through a line are not modelled.
- Fallback reboot log: its regular expression and parser are not modelled; its counts are an input of `Heatmap.RebootsHandler`.
- Vendor groups: the shipped list of vendor prefixes is a parameter of the table builder and of the identity laws; the catalogue, hostname patterns, service hints and hypervisor prefixes are the shipped ones or parameters.
- User fields: the fields of a user object are one account value, updated in place on the shared object; creation time and second factor are not modelled.
- Store methods after a failed save: memory keeps the change, as in the code; the contracts say so, and a reload would then lose it.
- AdminRuns.AdminRemains: claimed for requests served one after the other, because authentication and action are separate critical sections; `AdminOverlap` treats every interleaving.
- BrokerLaws.Delivery: claimed for the channel part only, because the initial snapshot can be newer than pending ones; `BrokerLaws.StreamInOrderIff` says when the whole stream is in order.
- AdminOverlap.RunKeepsAdminIff: a request reads address and role in the step that looks its user up; the code reads them from the shared user object shortly after the lookup has released the lock.
- LogPaths.AllowedStaysIff: paths are resolved by their names; symbolic links are not modelled.
- IdentityCacheLaws.CacheTransparent: assumes keyed calls, because the memo is not transparent for all; `IdentityExact.AlwaysRightIff` says exactly for which arguments it is, whatever the other calls are.
- Tail: short reads of a file that shrinks while it is read.
- HTTP transport, cookies, tokens, OAuth exchange, CSRF, mail, branding: plumbing over libraries.
- Collection of system metrics, Xen control, Kea and hosts file parsing: input and output around short formulas.
- The browser side and the shell scripts.
