# Verified models of the ndn.cxx core

ndn.cxx is a C++ library for Named Data Networking. This project models, in Dafny, the parts of it that work
mainly on their own data, and proves what they promise:

- **Name trie with a replacement policy** (`BoundedMap`, `NameTrie`, `PolicyTrie`, `TrieSweep`): a heap of nodes with
  parent pointers, pruned upwards, under an LRU or a persistent policy whose `insert` calls back into `erase`. Every
  operation is proved to act on the trie, the policy list and the payloads as one step of a plain bounded map, and the
  laws of a cache are proved of all runs of that map.
- **Name regular expressions** (`RegexMatcher`, `RegexCompiler`, `RegexSyntax`, `RegexTop`, `RegexLaws`,
  `RegexTemplate`, `RegexExpand`): the compiler
  from text to matchers, the greedy backtracking matcher with its captures in mutable fields, anchoring and templates.
- **Certificate-chain validation** (`CertificateCache`, `Validation`, `ValidationRuns`, `ValidationChains`,
  `Keychain`): an asynchronous
  protocol over a shared cache, as a transition system whose events are network answers, timeouts, callbacks and
  cleaning passes; the classes of `Keychain` and `CertificateCache` are proved to take exactly its steps. `Runs` carries the
  results over to arbitrary runs of the trie, cache and keychain objects.
- **Exclude filters** (`Exclude`), **DER trees** (`Der`, `DerForest`), **ndnb blocks** (`Ndnb`) and
  **name URIs** (`Uri`): interval sets and codecs, against the sets and values they stand for.

`Sequences` and `Octets` hold shared vocabulary. Code that updates fields is modelled by classes and methods with
`modifies` clauses and loops; each method's contract ties the new state to a specification function, and the lemmas are
about those functions and about whole runs. What is decided elsewhere (one-component matching, signatures, policy rules,
clocks, network answers) is a parameter, so every result holds for all of its possible values.

## Where the code departs from its promise

Each of these has an input that shows it and the exact condition under which the promise holds:

- `deepest_prefix_match` returns a stored *proper prefix* of the key, instead of a stored extension, when there is one and
  the key itself is not stored: `PolicyTrie.DeepestMatchCanBeShallow`, `PolicyTrie.PolicyTrie.DeepestPrefixMatch`. The
  variant with a predicate does not: `PolicyTrie.PolicyTrie.DeepestPrefixMatchIf`.
- `clear` keeps the payload of the empty key in the trie but drops it from the list: `PolicyTrie.ClearCanLeaveTheRoot`,
  `PolicyTrie.PolicyTrie.Clear`.
- A repetition with a positive minimum refuses the empty slice even if its body takes it: `RegexMatcher.RepetitionCanRefuse`,
  `RegexMatcher.RepeatIsRepetition`.
- A group under a repetition with minimum 0 can hold what a failed attempt wrote: `RegexMatcher.CaptureCanBeStale`. What every
  group holds is said by `RegexMatcher.Engine.Match`; the others hold their own slice: `RegexTop.CapturesAreDetermined`.
- A template that ends with a literal always raises an exception: `RegexTemplate.LoneLiteralFails`, `RegexTemplate.ExpandsExactly`.
- An in-date certificate that does not verify the packet, or one that does not decode, ends a validation without any
  callback: `ValidationRuns.RunCanBeDropped`, `ValidationRuns.OutcomeExactly`.
- The step limit is compared with `==`, so a validation started beyond it is not stopped:
  `ValidationRuns.BeyondTheLimitNothingStops`, `ValidationRuns.EndsExactlyWithinTheLimit`.
- `excludeRange` lets components through again when both ends lie under one ANY bound: `Exclude.RangeCanShrink`,
  `Exclude.RangeIsUnion`.
- A timestamp loses a carry when the fraction rounds up to a whole second in the last of sixteen seconds:
  `Ndnb.CarryCanBeLost`, `Ndnb.TimestampReads`.
- A name with an empty component or a `/` byte does not come back from its URI: `Uri.SlashIsLost`, `Uri.UriReadsBack`.
- Negative numbers in an object identifier keep only their low seven bits, and an identifier of one number is written like
  the one with a 0 behind it: `Der.OidsCanCollide`, `Der.OidPayloadInjective`.

## Model

| member | source | states |
|---|---|---|
| `BoundedMap.RunIsConsistent` | ndn.cxx/trie/trie-with-policy.h:46-108 | After every run of inserts, erasures, modifications and lookups, under either policy, list and map hold the same keys, each listed once, and at most a non-zero limit of them |
| `BoundedMap.RecencyIsLastUse` | ndn.cxx/trie/policies/lru-policy.h:57-91 | In every LRU run the list orders the stored keys by the index of the last operation that used them |
| `BoundedMap.EvictsLeastRecentlyUsed` | ndn.cxx/trie/policies/lru-policy.h:66-76 | Inserting a new key into a full LRU container removes exactly one key, the one whose last use in the run is longest ago |
| `BoundedMap.StoredIsLastWritten` | ndn.cxx/trie/trie-with-policy.h:46-108 | In every run each stored key holds the value of the last insert or modification of it that took effect |
| `BoundedMap.PutAfter` | ndn.cxx/trie/trie-with-policy.h:46-67 | After any run, an insert leaves a stored key alone, stores a new one while there is room, and is refused by a full persistent container |
| `BoundedMap.OthersAfter` | ndn.cxx/trie/trie-with-policy.h:69-108 | After any run, an erasure takes out its key, a modification replaces its payload, and nothing else changes the entries; the persistent policy keeps its order on a use |
| `NameTrie.Trie.MakePath` | ndn.cxx/trie/trie.h:134-162 | Walking a key adds exactly the missing nodes on its way, all new, and changes no payload |
| `NameTrie.Trie.Insert` | ndn.cxx/trie/trie.h:130-171 | The entries gain exactly the key when it was absent and are unchanged otherwise; a pruned trie stays pruned; old nodes stay where they were |
| `NameTrie.Trie.Prune` | ndn.cxx/trie/trie.h:186-200 | From one possibly useless node, pruning restores that every non-root leaf carries a payload, removes only nodes between that node and the returned ancestor, and loses no entry |
| `NameTrie.Trie.Erase` | ndn.cxx/trie/trie.h:176-181 | Exactly one entry goes, the trie is pruned again, and the order of all other children is kept |
| `NameTrie.Trie.FindIf` | ndn.cxx/trie/trie.h:230-292 | The result is the longest stored prefix that satisfies the predicate, with the root untested, and the flag says whether the whole key could be walked |
| `NameTrie.Trie.FindBelow` | ndn.cxx/trie/trie.h:298-316 | The depth-first search finds a satisfying entry at or below the node, or there is none |
| `NameTrie.Trie.StoredBelow` | ndn.cxx/trie/trie.h:186-200 | In a pruned trie every non-root node has a stored key at or below it |
| `NameTrie.Trie.NodesFromEntries` | ndn.cxx/trie/trie.h:186-200 | The nodes of a pruned trie are the root and the prefixes of stored keys, nothing else |
| `NameTrie.Trie.Clear` | ndn.cxx/trie/trie.h:99-103 | Everything below the root goes; the payload of the empty key stays |
| `PolicyTrie.PolicyTrie.EraseNode` | ndn.cxx/trie/trie-with-policy.h:82-89 | Erasing a listed node, also re-entrantly while a new node is not yet listed, removes its key from trie and list together |
| `PolicyTrie.PolicyTrie.PolicyErase` | ndn.cxx/trie/policies/lru-policy.h:87-91 | Exactly the node goes from the list, its payload still in the trie |
| `PolicyTrie.PolicyTrie.DropPayload` | ndn.cxx/trie/trie-with-policy.h:54-59 | An unlisted node is taken out of the trie with exactly its entry; the other nodes stay as they were |
| `PolicyTrie.PolicyTrie.PolicyInsert` | ndn.cxx/trie/policies/lru-policy.h:66-76 | A full LRU list evicts its front through the trie before the new node is listed, a full persistent one refuses and changes nothing |
| `PolicyTrie.PolicyTrie.Insert` | ndn.cxx/trie/trie-with-policy.h:46-67 | Trie, list and payloads together make one step of the bounded map; an insert is refused exactly for a new key in a full persistent container, and then every node of the trie is as before |
| `PolicyTrie.PolicyTrie.Erase` | ndn.cxx/trie/trie-with-policy.h:69-80 | Exactly the given key goes from map and list, or nothing when it is not stored |
| `PolicyTrie.PolicyTrie.Modify` | ndn.cxx/trie/trie-with-policy.h:98-108 | The payload of a stored node becomes what the modifier makes of it, all others stay, and under LRU its key becomes the most recent; otherwise nothing changes |
| `PolicyTrie.PolicyTrie.PolicyTouch` | ndn.cxx/trie/policies/lru-policy.h:57-64 | Moving a node to the end of the list is the bounded map's use of its key; the persistent policy does nothing |
| `PolicyTrie.PolicyTrie.FindExact` | ndn.cxx/trie/trie-with-policy.h:113-124 | Null exactly when the key is not stored, otherwise the listed node of the key |
| `PolicyTrie.PolicyTrie.LongestPrefixMatchIf` | ndn.cxx/trie/trie-with-policy.h:145-157 | The longest admissible stored prefix is returned and becomes the most recently used key |
| `PolicyTrie.PolicyTrie.ReachedMeans` | ndn.cxx/trie/trie-with-policy.h:172-196 | The walk reaches the end of a key exactly when some stored key extends it |
| `PolicyTrie.PolicyTrie.DeepestPrefixMatch` | ndn.cxx/trie/trie-with-policy.h:172-196 | Something is found exactly when a stored extension exists; a stored key itself is what is returned; otherwise the answer extends the key exactly when it has no stored proper prefix, and is the longest stored prefix when it has one |
| `PolicyTrie.DeepestMatchCanBeShallow` | ndn.cxx/trie/trie-with-policy.h:172-196 | With /a and /a/b/c stored, looking for /a/b gives /a |
| `PolicyTrie.PolicyTrie.DeepestPrefixMatchIf` | ndn.cxx/trie/trie-with-policy.h:201-227 | A stored extension of the key that satisfies the predicate is returned and used, or there is none |
| `PolicyTrie.PolicyTrie.Clear` | ndn.cxx/trie/trie-with-policy.h:91-96 | The list is empty, the trie holds at most the empty key, and the two agree exactly when the empty key was not stored |
| `PolicyTrie.ClearCanLeaveTheRoot` | ndn.cxx/trie/trie-with-policy.h:91-96 | After storing something under the empty key, clearing leaves it in the trie and off the list |
| `Runs.Perform` | ndn.cxx/trie/trie-with-policy.h:46-196 | Any insert, erase, modify or match on the mutable trie and its list is one step of the bounded map, and which one: a match uses exactly the key that it should find, or none |
| `Runs.RunTrie` | ndn.cxx/trie/trie-with-policy.h:46-196 | After any sequence of commands, with any fixed maximum size, trie and list are in the state that these commands, each as it is meant, bring the bounded map to; they hold the same keys once each and stay within the limit |
| `Runs.RunAndEvict` | ndn.cxx/trie/policies/lru-policy.h:66-76 | After any commands, an insert into the full LRU trie drops exactly the key whose last using command is longest ago |
| `TrieSweep.GoUp` | ndn.cxx/trie/trie.h:549-568 | The cursor goes on with exactly the nodes that come later in preorder |
| `TrieSweep.Next` | ndn.cxx/trie/trie.h:527-535 | One step of the recursive iterator visits one node and leaves exactly the rest to visit |
| `TrieSweep.SweepBack` | ndn.cxx/trie/trie.h:105-120 | Sending the cursor back to an ancestor skips nothing that was still to be visited |
| `TrieSweep.SweepOn` | ndn.cxx/trie/trie.h:112-119 | Each turn of the sweep removes a node or shortens what is left to visit, and accounts for every entry |
| `TrieSweep.ClearIf` | ndn.cxx/trie/trie.h:105-120 | The sweep terminates, keeps exactly the entries whose payload fails the condition, and leaves no payload-free leaf but the root |
| `CertificateCache.TtlCache.InsertCertificate` | ndn.cxx/security/cache/ttl-certificate-cache.cc:67-94 | The name holds the given certificate and expiry, also when it was known before, and becomes the most recent; a new one is added after evicting the least recent when full; map, list and the pointers between them stay in step |
| `CertificateCache.TtlCache.GetCertificate` | ndn.cxx/security/cache/ttl-certificate-cache.cc:96-115 | The stored certificate, if any, is returned and its name becomes the most recent |
| `CertificateCache.TtlCache.Clean` | ndn.cxx/security/cache/ttl-certificate-cache.cc:122-146 | One pass, in any order over the map, removes exactly the expired entries and keeps the order of the rest |
| `Runs.RunCache` | ndn.cxx/security/cache/ttl-certificate-cache.cc:67-146 | After any sequence of calls and cleaning passes the object is in the state of the abstract run, with list and map in step and at most maxSize names |
| `CertificateCache.CacheRunIsLruRun` | ndn.cxx/security/cache/ttl-certificate-cache.cc:67-146 | Every run of the cache, cleaning passes included, ends like a run of the bounded LRU map |
| `CertificateCache.CacheStaysBounded` | ndn.cxx/security/cache/ttl-certificate-cache.cc:67-146 | In every run list and map hold the same names once each, at most maxSize of them |
| `CertificateCache.ListIsByLastUse` | ndn.cxx/security/cache/ttl-certificate-cache.cc:67-115 | In every run the list is sorted by the time of last use |
| `CertificateCache.StoreEvictsLeastRecentlyUsed` | ndn.cxx/security/cache/ttl-certificate-cache.cc:82-92 | Storing a new name in a full cache drops exactly the name whose last use is longest ago |
| `CertificateCache.CachedIsLastStored` | ndn.cxx/security/cache/ttl-certificate-cache.cc:67-94 | In every run a name holds the certificate and the expiry that were stored under it last |
| `CertificateCache.CacheAfter` | ndn.cxx/security/cache/ttl-certificate-cache.cc:67-146 | After any run, a store puts its certificate under its name, a fetch changes no entry, and a cleaning pass leaves exactly the entries that have not expired |
| `Validation.JudgeTrust` | ndn.cxx/security/policy/simple-policy-manager.cc:138-222 | What is reported verified at once has a trust proof, and a certificate is fetched only for a packet that passed all rules and names no anchor |
| `Validation.CallbackTrust` | ndn.cxx/security/policy/simple-policy-manager.cc:107-136 | Passing on the verdict on a certificate keeps that everything verified, cached or waiting is justified |
| `Validation.OnlyTrustedIsVerified` | ndn.cxx/security/keychain.cc:258-319 | In every reachable state, whatever the network answers, each packet reported verified and each cached certificate has a finite trust proof whose certificates were in date when accepted; a run without outcome had a certificate that does not decode, or an in-date one that does not verify its child |
| `ValidationChains.ChainedIsVerified` | ndn.cxx/security/keychain.cc:258-293 | From any state: if a chain of certificates stands behind a packet, each passing the rules, named by and signing the one before, in date when its callback runs, and the last one exempt or signed by an anchor or a cached certificate, then answering the Interests and running the callbacks ends with the packet reported verified |
| `ValidationChains.ChainedIsVerifiedReachably` | ndn.cxx/security/keychain.cc:258-293 | The same in every reachable state |
| `ValidationChains.ChainNames` | ndn.cxx/security/policy/simple-policy-manager.cc:206-215 | Each Interest on the way asks for the certificate that its packet names, with three retries, one step further than the last |
| `ValidationChains.BadNewsGoesUp` | ndn.cxx/security/policy/simple-policy-manager.cc:132-136 | A packet found unverified makes every packet that waits for it unverified, up to the application |
| `ValidationChains.TimeoutsGiveUp` | ndn.cxx/security/keychain.cc:295-319 | An unanswered Interest is sent again exactly as often as it has retries left, and then its packet is unverified |
| `ValidationChains.InDateIsCached` | ndn.cxx/security/policy/simple-policy-manager.cc:115-117 | A verified certificate in date is cached under its name without the version until its freshness is over |
| `ValidationChains.OutOfDateIsRefused` | ndn.cxx/security/policy/simple-policy-manager.cc:125-129 | One out of date is not cached and makes its packet unverified |
| `ValidationRuns.RunsStaySingle` | ndn.cxx/security/keychain.cc:258-319 | Every started run stands in exactly one place: one Interest, one callback, one outcome or one drop |
| `ValidationRuns.OneOutcomePerRun` | ndn.cxx/security/keychain.cc:258-319 | At most one outcome callback fires per run, and there is exactly one, or a recorded drop, exactly when nothing of this run waits |
| `ValidationRuns.DroppedExactly` | ndn.cxx/security/policy/simple-policy-manager.cc:107-130 | A run is dropped exactly when one of its callbacks gets a verified certificate that does not decode, or an in-date one that does not verify the packet |
| `ValidationRuns.OutcomeExactly` | ndn.cxx/security/policy/simple-policy-manager.cc:107-148 | A run with nothing left waiting had its one outcome exactly when no callback of it failed so, and a run that failed so has none |
| `ValidationRuns.FailureStays` | ndn.cxx/security/policy/simple-policy-manager.cc:107-130 | A run that failed so has no outcome in any continuation |
| `ValidationRuns.InterestsAreBounded` | ndn.cxx/security/keychain.cc:266-319 | A run started within the limit asks for at most stepLimit minus stepCount certificates, and sends at most four times as many Interests |
| `ValidationRuns.FourInterestsEach` | ndn.cxx/security/keychain.cc:266-319 | Every run, wherever it started, sends at most four Interests for each certificate that it asks for |
| `ValidationRuns.InterestsAreCounted` | ndn.cxx/security/keychain.cc:266-319 | Each event sends at most one Interest of a run, and these are all that count as sent |
| `ValidationRuns.EventLowersWeight` | ndn.cxx/security/keychain.cc:295-319 | Every event that moves a run started within the limit strictly lowers a measure of what the run has left to do, and no other event changes it: not other runs, new starts or cleaning passes |
| `ValidationRuns.EachRunEnds` | ndn.cxx/security/keychain.cc:266-319 | From any reachable state and through any further events, starts and cleaning passes included, a run that started within the limit moves only as often as its measure says |
| `ValidationRuns.WholeRunIsShort` | ndn.cxx/security/keychain.cc:266-319 | A run started within the limit takes at most five events for each step left, and two more |
| `ValidationRuns.NotOverMoves` | ndn.cxx/security/keychain.cc:258-319 | A run without outcome or drop always has an event that moves it |
| `ValidationRuns.EndsExactlyWithinTheLimit` | ndn.cxx/security/policy/simple-policy-manager.cc:144-148 | Over all policies, states and continuations there is a bound on the events of a run exactly when it starts at most at the limit |
| `ValidationRuns.BeyondTheLimitNothingStops` | ndn.cxx/security/policy/simple-policy-manager.cc:144-148 | Started beyond the limit, a run can be kept fetching for any number of answers |
| `ValidationRuns.RunCanBeDropped` | ndn.cxx/security/policy/simple-policy-manager.cc:107-130 | A run of three events that ends without any outcome, because the fetched certificate does not verify the packet |
| `Keychain.SimplePolicyManager.RequireVerify` | ndn.cxx/security/policy/simple-policy-manager.cc:41-59 | True exactly when some positive or must-fail rule matches the packet |
| `Keychain.SimplePolicyManager.SkipVerifyAndTrust` | ndn.cxx/security/policy/simple-policy-manager.cc:61-72 | True exactly when some exemption matches |
| `Keychain.SimplePolicyManager.CheckVerificationPolicy` | ndn.cxx/security/policy/simple-policy-manager.cc:138-222 | For a packet that needs verification: it is verified exactly when it stands within the limit, passes all rules and is signed by the anchor, or else the cached certificate, that it names; the certificate is asked for by its name exactly when the packet passes all rules and it is not at hand |
| `Keychain.SimplePolicyManager.CheckSigner` | ndn.cxx/security/policy/simple-policy-manager.cc:172-216 | Anchors come before the cache, and the cache before the network |
| `Keychain.Keychain.VerifyData` | ndn.cxx/security/keychain.cc:258-293 | The object's fields and cache make exactly the protocol's verification step |
| `Keychain.Keychain.OnCertificateInterestTimeout` | ndn.cxx/security/keychain.cc:295-319 | A timeout makes exactly the protocol's step: one retry less, or an unverified verdict |
| `Keychain.Keychain.OnCertificateVerified` | ndn.cxx/security/policy/simple-policy-manager.cc:107-130 | An in-date certificate is cached and its child judged; an out-of-date one makes the child unverified; the third case fires no callback |
| `Keychain.Keychain.RunCallback` | ndn.cxx/security/policy/simple-policy-manager.cc:107-136 | Running any waiting callback makes exactly the protocol's step |
| `Keychain.Keychain.Clean` | ndn.cxx/security/cache/ttl-certificate-cache.cc:122-146 | A cleaning pass during validation makes exactly the protocol's step |
| `Runs.Happen` | ndn.cxx/security/keychain.cc:258-319 | Whatever event comes next, keychain, policy manager and cache together make exactly the protocol's step |
| `Runs.RunKeychain` | ndn.cxx/security/keychain.cc:258-319 | After any sequence of events, every packet that the objects reported verified has a trust proof and no run had two outcomes |
| `RegexMatcher.Engine.Match` | ndn.cxx/regex/regex-matcher.cc:32-52 | A matcher accepts a slice exactly when the slice is in its language, and then the captures are those of the preferred match; accepted or not, all captures are exactly what the attempts in their order leave of the old ones |
| `RegexMatcher.Engine.MatchItems` | ndn.cxx/regex/regex-matcher.cc:55-78 | Backtracking over a list is sound and complete, the split it finds is the lexicographically greatest, and the captures belong to that split whatever failed attempts wrote |
| `RegexMatcher.Engine.MatchRepeat` | ndn.cxx/regex/regex-repeat-matcher.cc:158-198 | The search succeeds exactly when the rest can be finished within the bounds, takes the greatest run, and leaves the captures of the last repetition |
| `RegexMatcher.Engine.MatchSet` | ndn.cxx/regex/regex-componentset-matcher.cc:122-152 | A set takes exactly one component, namely one that some body fits, the empty body fitting all, or, when negated, one that none fits |
| `RegexMatcher.SetTakes` | ndn.cxx/regex/regex-componentset-matcher.cc:122-152 | A negated set takes exactly the single components that the same set without negation refuses |
| `RegexMatcher.Engine.MatchGroup` | ndn.cxx/regex/regex-matcher.cc:32-52 | A group captures exactly the slice it takes, and nothing when it fails |
| `RegexMatcher.EmptiesFirst` | ndn.cxx/regex/regex-repeat-matcher.cc:158-198 | Empty pieces of a cut of a non-empty slice can be moved to the front without changing their number |
| `RegexMatcher.FinishesIsRepeated` | ndn.cxx/regex/regex-repeat-matcher.cc:137-198 | On a non-empty slice the bounded search decides mathematical repetition, also with bodies that take the empty slice |
| `RegexMatcher.RepeatIsRepetition` | ndn.cxx/regex/regex-repeat-matcher.cc:137-198 | A repetition is mathematical repetition on all slices exactly when its minimum is 0 or its body refuses the empty slice |
| `RegexMatcher.RepetitionCanRefuse` | ndn.cxx/regex/regex-repeat-matcher.cc:137-156 | One repetition of an optional component refuses the empty slice |
| `RegexTop.CapturesAreDetermined` | ndn.cxx/regex/regex-matcher.cc:38-44 | After a match, a group under no zero-minimum repetition holds the one slice that expression and name determine |
| `RegexTop.CaptureBelongs` | ndn.cxx/regex/regex-matcher.cc:38-44 | After a match, capture k is a slice of the name that the k-th group itself accepts, unless a zero-minimum repetition stands above it |
| `RegexMatcher.CaptureCanBeStale` | ndn.cxx/regex/regex-repeat-matcher.cc:142-146 | `(<a>)?<a>` takes a name of one component only with its group left out, and the group holds the component afterwards |
| `RegexCompiler.Compiler.CompilePatterns` | ndn.cxx/regex/regex-patternlist-matcher.cc:34-50 | The scan compiles the list that the text denotes, or fails where it denotes none, and pushes exactly the texts of its groups, each before those inside it |
| `RegexCompiler.Compiler.ExtractPattern` | ndn.cxx/regex/regex-patternlist-matcher.cc:52-106 | Finds where the first pattern has its repetition and where it ends, always after the start |
| `RegexCompiler.Compiler.ExtractSubPattern` | ndn.cxx/regex/regex-patternlist-matcher.cc:108-130 | The counting loop ends behind the bracket that closes the first one, or reports a mismatch |
| `RegexCompiler.Compiler.ExtractRepetition` | ndn.cxx/regex/regex-patternlist-matcher.cc:132-166 | Finds the end of a repetition mark, or reports a missing brace |
| `RegexCompiler.Compiler.CompilePattern` | ndn.cxx/regex/regex-repeat-matcher.cc:40-61 | A pattern becomes a bounded repetition of a group or a component set |
| `RegexCompiler.Compiler.CompileComponentSet` | ndn.cxx/regex/regex-componentset-matcher.cc:41-93 | Compiles single components and bracketed sets with their negation |
| `RegexCompiler.Compiler.CompileMultipleComponents` | ndn.cxx/regex/regex-componentset-matcher.cc:95-120 | The bodies are exactly those written between the brackets |
| `RegexCompiler.Compiler.ExtractComponent` | ndn.cxx/regex/regex-componentset-matcher.cc:186-215 | The end of a component is behind its closing bracket, and a NUL or the end of the text is an error |
| `RegexCompiler.Compiler.CompileGroup` | ndn.cxx/regex/regex-backref-matcher.cc:35-56 | A group pushes its own text and then those of the groups inside it, in order |
| `RegexSyntax.ParensAreGroups` | ndn.cxx/regex/regex-patternlist-matcher.cc:67-81 | The groups of the compiled matchers are the written parentheses, in the order in which they open |
| `RegexMatcher.GroupAtOfHasText` | ndn.cxx/regex/regex-patternlist-matcher.cc:67-81 | The group with capture number k is the one with the k-th pushed text |
| `RegexLaws.RepeatedSetTakes` | ndn.cxx/regex/regex-repeat-matcher.cc:137-198 | A repeated set takes exactly the slices within the bounds whose every component fits |
| `RegexLaws.SinglesTake` | ndn.cxx/regex/regex-matcher.cc:55-78 | A list of single components takes exactly the slices of as many components that fit one by one |
| `RegexLaws.GreatestMeans` | ndn.cxx/regex/regex-matcher.cc:55-78 | In the split that is found, no longer first piece would leave the rest a way, and the rest is split likewise |
| `RegexLaws.GreatestRunMeans` | ndn.cxx/regex/regex-repeat-matcher.cc:158-198 | In the run that is found, no longer first piece would let the repetition finish, and the rest is run likewise |
| `RegexLaws.AllCertain` | ndn.cxx/regex/regex-repeat-matcher.cc:144-146 | Without optional repetitions every group is one whose capture is determined |
| `RegexSyntax.BoundsOfText` | ndn.cxx/regex/regex-repeat-matcher.cc:63-135 | Every written form of a repetition is read as its bounds |
| `RegexSyntax.PrintedReads` | ndn.cxx/regex/regex-repeat-matcher.cc:103-123 | A number written in decimal, with any zeros in front, is read as that number |
| `RegexSyntax.MarksMean` | ndn.cxx/regex/regex-repeat-matcher.cc:73-96 | No mark is one repetition, ? none or one, + at least one, * any number |
| `RegexSyntax.PrintedBounds` | ndn.cxx/regex/regex-repeat-matcher.cc:98-132 | Bounds written in decimal are those numbers, and an error when out of order or beyond an int |
| `RegexSyntax.BracketCompiles` | ndn.cxx/regex/regex-componentset-matcher.cc:41-72 | A bracket compiles to the set of its bodies, negated when it starts with a caret |
| `RegexLaws.MarkedBodies` | ndn.cxx/regex/regex-patternlist-matcher.cc:83-89 | A component with each of the marks compiles to its repetition |
| `RegexLaws.ParenthesesGroup` | ndn.cxx/regex/regex-patternlist-matcher.cc:67-81 | Parentheses compile to a group of what they hold |
| `RegexLaws.BadTexts` | ndn.cxx/regex/regex-patternlist-matcher.cc:99-130 | A NUL in a component, an unclosed component, a stray character and a bare mark are errors |
| `RegexSyntax.CompileGivesBack` | ndn.cxx/regex/regex-patternlist-matcher.cc:34-166 | Compiling the text of any well-formed pattern list rebuilds its items, negations, bounds and nesting |
| `RegexSyntax.CompilesExactlyTheWritten` | ndn.cxx/regex/regex-patternlist-matcher.cc:34-166 | A text compiles to a list of matchers exactly when it is the text of a well-formed pattern list that means it |
| `RegexSyntax.TidyIsGood` | ndn.cxx/regex/regex-patternlist-matcher.cc:108-130 | Component bodies that balance their own brackets make every nesting well-formed |
| `RegexTop.TopCompiles` | ndn.cxx/regex/regex-top-matcher.cc:47-72 | A written expression with or without anchors compiles to its patterns with wildcards at the open ends |
| `RegexTop.AnchorsMean` | ndn.cxx/regex/regex-top-matcher.cc:47-98 | The two compiled lists together match a name exactly when the patterns take a slice of it that the anchors allow |
| `RegexLaws.CountedExpression` | ndn.cxx/regex/regex-top-matcher.cc:47-98 | A component with decimal bounds lo and hi between anchors takes exactly the names of lo to hi components that it fits |
| `RegexLaws.AnchoredSet` | ndn.cxx/regex/regex-top-matcher.cc:47-98 | A bracket between anchors takes exactly the one-component names that some body fits, and with a caret exactly the other ones |
| `RegexExpand.Compile` | ndn.cxx/regex/regex-top-matcher.cc:47-72 | Fails exactly when the expression denotes nothing, and otherwise builds both lists with their back references, one capture for each |
| `RegexExpand.TopMatcher.Match` | ndn.cxx/regex/regex-top-matcher.cc:74-98 | Matches when either list accepts the name, prefers the first, and keeps the captures of the list used |
| `RegexExpand.TopMatcher.Expand` | ndn.cxx/regex/regex-top-matcher.cc:106-202 | The scanning loop yields what the template says from the captures of the last match, or an exception: literals are unescaped, and no empty component is appended |
| `RegexTemplate.WholeTemplateMeans` | ndn.cxx/regex/regex-top-matcher.cc:106-202 | A template of literals and references expands to the unescaped literals, the whole match for reference 0 and the k-th group for reference k, without empty components; it raises an exception when it ends with a literal, a literal does not unescape or a reference exceeds the groups |
| `RegexTemplate.ExpandsExactly` | ndn.cxx/regex/regex-top-matcher.cc:106-202 | A written template raises no exception exactly when it does not end with a literal, every literal unescapes and every reference is within range |
| `RegexTemplate.ExpandsExactlyTheWritten` | ndn.cxx/regex/regex-top-matcher.cc:106-202 | Any text expands to a name exactly when it is written of such parts that come to that name |
| `RegexTemplate.LiteralsAreUnescaped` | ndn.cxx/fields/name.h:459-464 | A literal with a bracket inside is refused, and an empty literal adds nothing |
| `RegexTemplate.LiteralSample` | ndn.cxx/regex/regex-top-matcher.cc:128-142 | `<a>\0` expands to the component a and the whole match |
| `RegexTemplate.PrintedReference` | ndn.cxx/regex/regex-top-matcher.cc:132-149 | A reference written in decimal, with any zeros in front, expands to the group of that number |
| `RegexTemplate.AppendAll` | ndn.cxx/fields/name.h:418-435 | Appending components one by one leaves out exactly the empty ones |
| `RegexTemplate.LoneLiteralFails` | ndn.cxx/regex/regex-top-matcher.cc:179-198 | The template `<a>` is refused |
| `RegexExpand.MatchWritten` | ndn.cxx/regex/regex-top-matcher.cc:47-155 | End to end: the text of a pattern list with its anchors, compiled and matched, accepts a name exactly when the patterns take a slice that the anchors allow; the captures are those of the preferred match of the whole name; reference k is the k-th written parenthesis and expands to the slice of the name that it took |
| `Exclude.CompareOrders` | ndn.cxx/fields/name-component.cc:71-87 | Comparing components is a total order in which only equal components compare equal |
| `Exclude.NothingBetween` | ndn.cxx/fields/name-component.cc:71-87 | Every component has a next one in the order, with nothing in between |
| `Exclude.Filter.IsExcluded` | ndn.cxx/fields/exclude.cc:34-47 | The lookup decides membership in the set that the map denotes |
| `Exclude.Filter.ExcludeOne` | ndn.cxx/fields/exclude.cc:49-57 | The set gains exactly the component |
| `Exclude.Filter.ExcludeAfter` | ndn.cxx/fields/exclude.cc:129-152 | The set gains exactly everything from the component on |
| `Exclude.Filter.ExcludeRange` | ndn.cxx/fields/exclude.cc:87-127 | Refused exactly when from is not below to; otherwise the set is the union with the range, less what lies behind it under an ANY bound that both ends share |
| `Exclude.Filter.ExcludeBefore` | ndn.cxx/fields/exclude.h:131-135 | The same for the range from the empty component on |
| `Exclude.RangeIsUnion` | ndn.cxx/fields/exclude.cc:98-124 | The new set is the union with the range exactly unless both ends lie under one ANY bound and the component that follows the range is not a bound |
| `Exclude.RangeCanShrink` | ndn.cxx/fields/exclude.cc:112-118 | With everything excluded, excluding a range lets a component behind it through |
| `Der.EncodeHeader` | ndn.cxx/helpers/der/der.cc:48-79 | The five-byte buffer never overflows and holds the length octets; a negative length is refused |
| `Der.DecodeHeader` | ndn.cxx/helpers/der/der.cc:82-126 | The loop reads tag, length and end of the header that the bytes denote |
| `Der.HeaderReadsBack` | ndn.cxx/helpers/der/der.cc:48-126 | Every header, long form at 127 included, is read back with its exact end wherever it stands |
| `Der.HeaderSamples` | ndn.cxx/helpers/der/der.cc:48-79 | The headers of an octet string of 126, 127 and 300 bytes |
| `Der.OddHeaderSample` | ndn.cxx/helpers/der/der.cc:82-126 | A length octet of 128 is followed by one byte of length |
| `Der.Parse` | ndn.cxx/helpers/der/der.cc:149-178 | The recursive parser builds the tree that the bytes denote |
| `Der.ReadChildren` | ndn.cxx/helpers/der/der.cc:195-212 | The loop reads children until their sizes reach the size in the header |
| `Der.ParseGivesBack` | ndn.cxx/helpers/der/der.cc:149-212 | Parsing the encoding of any tree that fits an int, whatever precedes or follows it, gives the same tree and consumes exactly its encoding |
| `Der.TagsParse` | ndn.cxx/helpers/der/der.cc:149-178 | Eight tags are primitive, 48 is the sequence, and every other tag is refused |
| `Der.OvershootSample` | ndn.cxx/helpers/der/der.cc:200-211 | A child that reaches beyond the length of its sequence is accepted |
| `Der.Encode128` | ndn.cxx/helpers/der/der.cc:520-547 | The six-byte buffer never overflows and holds the base-128 digits; of a negative number the low seven bits are written |
| `Der.Decode128` | ndn.cxx/helpers/der/der.cc:549-563 | The loop reads the number and its end |
| `Der.OidReadsBack` | ndn.cxx/helpers/der/der.cc:520-563 | Any list of non-negative numbers is read back from its encoding |
| `Der.OidNumbers` | ndn.cxx/helpers/der/der.cc:482-518 | The payload holds 40 times the first number plus the second, and then the other numbers |
| `Der.OidSample` | ndn.cxx/helpers/der/der.cc:482-547 | The bytes of 1.2.840.113549 |
| `Der.PrepareEncoding` | ndn.cxx/helpers/der/der.cc:482-518 | The payload of an identifier, and the errors for missing or out-of-range leading numbers |
| `Der.OidPayloadInjective` | ndn.cxx/helpers/der/der.cc:482-518 | Any two accepted identifiers share a payload exactly when they agree but for a 0 as the second of two numbers and for the bits that negative numbers lose |
| `Der.OidsCanCollide` | ndn.cxx/helpers/der/der.cc:520-529 | 1.2.-1 and 1.2.127 have the same payload, and so have 1 and 1.0 |
| `DerForest.Forest.NewSequence` | ndn.cxx/helpers/der/der.cc:189-193 | A new sequence is an unchanged root without children, and the forest stays sound |
| `DerForest.Forest.AddChild` | ndn.cxx/helpers/der/der.cc:261-278 | Adding a child keeps that changed children have changed parents and that unchanged nodes know their size |
| `DerForest.Forest.SetChildChanged` | ndn.cxx/helpers/der/der.cc:280-290 | The notice marks exactly the unmarked stretch of ancestors above a node |
| `DerForest.Forest.GetSize` | ndn.cxx/helpers/der/der.cc:217-229 | The result is the encoded length of the tree, and only flags and sizes that were out of date change |
| `DerForest.Forest.UpdateSize` | ndn.cxx/helpers/der/der.cc:246-259 | The node becomes unchanged with the total size of its children, and the rest of the forest stays sound |
| `DerForest.Forest.Encode` | ndn.cxx/helpers/der/der.cc:292-305 | The bytes written are the encoding of the tree below the node, as many as `getSize` says |
| `DerForest.NoticeGoesUp` | ndn.cxx/helpers/der/der.cc:280-290 | Stopping at the first marked ancestor loses no notice |
| `DerForest.UnchangedKnows` | ndn.cxx/helpers/der/der.cc:217-259 | An unchanged node's cached size is the total encoded size of everything below it |
| `DerForest.TreeIsBuilt` | ndn.cxx/helpers/der/der.cc:292-305 | While sizes fit an int, computed sizes are the lengths of the encodings |
| `Ndnb.AppendBlockHeader` | ndn.cxx/wire/ndnb.cc:24-41 | Filling the buffer from its end appends the header of value and type and never overflows for a 64-bit value |
| `Ndnb.HeaderFits` | ndn.cxx/wire/ndnb.cc:24-41 | A 64-bit value needs at most nine bytes before the last |
| `Ndnb.HeaderReadsBack` | ndn.cxx/wire/ndnb.cc:24-41 | Value, type and end of a header can be read back wherever it stands |
| `Ndnb.HeadersArePrefixFree` | ndn.cxx/wire/ndnb.cc:24-41 | No header is the start of another |
| `Ndnb.HeaderIsNoCloser` | ndn.cxx/wire/ndnb.cc:24-41 | No header starts with the closer byte |
| `Ndnb.HeaderSamples` | ndn.cxx/wire/ndnb.cc:24-41 | The headers of names, components and blobs, and one of two bytes |
| `Ndnb.AppendTaggedBlob` | ndn.cxx/wire/ndnb.h:305-318 | Appends tag, sized content unless it is empty, and closer |
| `Ndnb.AppendName` | ndn.cxx/wire/ndnb.cc:53-62 | Appends the block of the name, one tagged blob per component |
| `Ndnb.NamesAreUnique` | ndn.cxx/wire/ndnb.cc:53-62 | Whatever follows, bytes start with the encoding of at most one name |
| `Ndnb.NamesArePrefixFree` | ndn.cxx/wire/ndnb.cc:53-62 | No name's encoding is the start of another's |
| `Ndnb.NameSample` | ndn.cxx/wire/ndnb.cc:53-62 | The bytes of the name of the one component a |
| `Ndnb.EmptyComponentSample` | ndn.cxx/wire/ndnb.h:305-318 | An empty component has no blob inside |
| `Ndnb.AppendTimestampBlob` | ndn.cxx/wire/ndnb.cc:64-89 | Appends the header and bytes of the time, with the number of bytes that the shifting loop counts |
| `Ndnb.FractionIsClose` | ndn.cxx/wire/ndnb.cc:82-84 | The 12-bit fraction is within about half a tick of the true fraction and at most 4096 |
| `Ndnb.FractionIsWhole` | ndn.cxx/wire/ndnb.cc:82-84 | The fraction is rounded up to a whole second exactly from 999877930 nanoseconds on |
| `Ndnb.TimestampReads` | ndn.cxx/wire/ndnb.cc:64-89 | Below 2^44 seconds the blob read big-endian is the time in 4096ths, less 65536 exactly when the seconds are 15 modulo 16 and there are at least 999877930 nanoseconds |
| `Ndnb.TimestampSample` | ndn.cxx/wire/ndnb.cc:64-89 | The bytes of one and a half seconds |
| `Ndnb.CarryCanBeLost` | ndn.cxx/wire/ndnb.cc:82-86 | A nanosecond short of sixteen seconds is written as zero |
| `Ndnb.TimestampIsShort` | ndn.cxx/wire/ndnb.cc:69-73 | The blob has two bytes, or its first byte is needed |
| `Uri.Escape` | ndn.cxx/helpers/uri.h:131-150 | The loop writes the escaped form |
| `Uri.Unescape` | ndn.cxx/helpers/uri.h:95-129 | The loop reads the escaped form, or reports a bad escape or a byte that should have been escaped |
| `Uri.EscapeReadsBack` | ndn.cxx/helpers/uri.h:95-150 | Unescaping undoes escaping on all byte strings |
| `Uri.UnescapedBytes` | ndn.cxx/helpers/uri.h:25-36 | The bytes that stand for themselves, listed |
| `Uri.EscapeSample` | ndn.cxx/helpers/uri.h:131-150 | A space is written as %20 |
| `Uri.UnescapeSamples` | ndn.cxx/helpers/uri.h:57-129 | Escapes are read in both cases of letters; bad and short ones and bytes to be escaped are refused |
| `Uri.NameFromUri` | ndn.cxx/fields/name.cc:33-97 | The constructor's scan gives the name of the URI: scheme checked, authority skipped, extra slashes dropped, components unescaped; the laws of these are the rows below |
| `Uri.UriFromName` | ndn.cxx/fields/name.cc:225-243 | Writes the escaped components, each behind a slash |
| `Uri.UriReadsBack` | ndn.cxx/fields/name.cc:33-97 | A name comes back from its URI exactly when its components are non-empty and contain no slash |
| `Uri.SchemeIsDropped` | ndn.cxx/fields/name.cc:45-62 | ndn: in any case in front of the path of a plain name changes nothing |
| `Uri.AuthorityIsDropped` | ndn.cxx/fields/name.cc:64-73 | An authority between two slashes and the next one is skipped |
| `Uri.SchemeAndAuthorityAreDropped` | ndn.cxx/fields/name.cc:45-73 | So is an authority behind the scheme |
| `Uri.OtherSchemesFail` | ndn.cxx/fields/name.cc:38-62 | Any other text in front of the first slash is refused, and so is a text without a slash |
| `Uri.SlashesAreSkipped` | ndn.cxx/fields/name.cc:82-96 | Further slashes change nothing, and the empty name is written as one slash |
| `Uri.SlashIsLost` | ndn.cxx/helpers/uri.h:25-36 | The name of the one component `/` does not come back |

## Left out

- Wrapper, sockets, threads, scheduler and executor: an Interest yields one data or timeout event, and callbacks wait in a queue from which any one may run next, which includes calling them at once.
- Signing, key stores, encryption and sqlite storage: signature checks, certificate decoding and validity are parameters.
- boost::regex inside one component, and the pseudo-matchers that mirror its sub-groups: one-component matching is a parameter, a body it cannot compile raises no error here, and bodies with groups of their own are not given back references.
- RegexTop.AnchorsMean: takes the wildcard `.*` to fit every component and names to have at most INT_MAX components, because the wildcard is repeated at most INT_MAX times.
- RegexTop.CapturesAreDetermined: not for groups under a zero-minimum repetition, of which it is false (`RegexMatcher.CaptureCanBeStale`).
- RegexExpand.Compile: not for the empty expression, whose last character the source reads; numbers that `atoi` cannot hold are refused.
- RegexExpand.TopMatcher.Expand: takes the template in force; falling back to the constructor's template is not modelled, and a reference number that `atoi` cannot hold is read as the number written, so it exceeds the groups.
- Match results of matchers that are not capture groups: never read after a match, except that of the whole expression, which is modelled.
- Keychain.SimplePolicyManager.CheckVerificationPolicy: for packets that need verification, the only ones it is called for; a signature of another type, which the source would dereference as null, counts as naming no key.
- Keychain.Keychain.VerifyData: the rules' own `satisfy` is a parameter; the name under which a certificate with an empty name is cached is the empty name.
- PolicyTrie.PolicyTrie.DeepestPrefixMatch: not for the empty key on an empty trie, where the source passes null to the policy.
- Runs.RunTrie: a deepest match for the empty key is made only when something is stored, for the same reason.
- CertificateCache.TtlCache.InsertCertificate: takes the name without its version and the expiry time as given; maxSize is at least 1, since with 0 the source pops an empty list.
- Hash buckets and rehashing in the trie: children are kept by key with a fixed order.
- Changing the maximum size during a run, and the random, multi, LFU, FIFO and counting policies.
- Der.DecodeHeader: a length beyond an int gives no result, where the source's int overflows.
- Der.Parse: input that ends early gives no result, where the source reads past it; the contents of booleans, integers, bit strings and dates are plain payload bytes.
- DerForest.Forest.AddChild: the default call that notifies the parent; children added while parsing keep the size read from the header, which `Der.ReadChildren` covers.
- DerForest.Forest.GetSize: for trees whose encoding fits an int; `encode` and `getSize` are called on roots and inner nodes of a forest in which no node is added twice.
- Der.Decode128: numbers beyond an int are not wrapped around.
- Ndnb.AppendTimestampBlob: for durations that are not negative.
- ndnb parsing, Interests, Data packets, signatures and exclude filters on the wire: unique decodability of the encoder stands in for a round trip.
- Uri.Unescape: an escape that is cut short is an error, where the source reads past the end.
- The order of numeric components: characters are modelled by their rank among the 256 values of `char`, so the order holds whether `char` is signed or not, but what it says about numbers is not modelled.
- Scheduler, logging, visitors, date formatting and build scripts.
