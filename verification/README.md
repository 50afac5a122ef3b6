# Verified model of the stream core and the configuration tools

A Dafny model of the parts of this repository that carry state machines, wire formats, bit arithmetic and
rewrites, with proofs about every input, every run and every routing decision. `dafny verify dfyconfig.toml`
checks it all. Each component has its model in one module; where the interesting statements are about whole
runs, they are in a second module named after it.

- `Rfc1321`, `Md5`: MD5 as RFC 1321 defines it (bits, padding, 64 operations in place on named registers), and the
  hand-written loop on four rotating registers, proved to compute it.
- `Ja3`, with `Decimal` and `Text`: the fingerprint string, a parser for it, and GREASE values (RFC 8701).
- `Lru`: "remove the minimum by (last use, key)", shared by three tables. What an eviction loop keeps is described
  without the loop: the entries with fewer than *n* newer peers.
- `CertCache`, `CertCacheRuns`: the certificate cache, its expiry, its two caps, its deny list.
- `Overlay`, `OverlayRuns`: the overlay session table. The authenticator is any pair of predicates, which may differ
  from call to call. A lifetime is a successful open followed by calls after each of which the session is still there.
- `Ingress`, `IngressRuns`: the batch packet buffer and a driver that sends each batch back.
- `Coalescing`, `CoalescingRuns`: the HTTP/2 coalescing table and authority normalisation.
- `ListMerge`, `ConfigMerge`: the JSON deep merge with its control keys, and its list strategies. `ListPremerge`,
  `MergeLaws`: when fragments can be merged beforehand, whatever strategies they name. `MergePlans`: fragments of which
  that can be told in advance. `MergeRepeats`: what repeating a merge does. `MergeNames`: what the control keys, the
  strategy names and the tag keys mean.
- `Routing`, `Profiles`, `RouteGraph`, `RouteOrder`, `RouteIntent`: routing rules under first-match, the profile generator, the
  isolation verifier and the documented rule order. Matching is an arbitrary predicate on a rule's criteria.
- `Dns`, `DnsExchange`: DNS messages (section 4.1 of RFC 1035) as abstract syntax, the byte walkers, and the query
  and response builders.

Objects with mutable fields are classes, loops are methods with invariants, and their contracts tie the new state to
functions of the old one; the theorems are lemmas about those functions. A choice that depends on the traversal order
of a hash map is an arbitrary choice (`:|`), so that the contracts hold for every order.

The lemmas carry `{:induction false}`: every induction is written out, and no proof depends on one that the verifier
finds.

Where the statement one would like is false, the exact condition is proved, and an input at which it fails:

- The certificate just inserted can be the one evicted: `CertCacheRuns.FreshEntrySurvives` says exactly when it is not,
  `NewestIsLost` is a run of two calls.
- Sequence numbers stop at 2^64 - 1, and from there on the same number is accepted again:
  `OverlayRuns.ReplayOnlyAtSaturation`, and `NumberRepeats` for a lifetime of 2^64 + 1 chunks.
- Normalising an authority is not idempotent: `Coalescing.NormalizingAgain`, and `NormalizingDiffers` for `a:1:2`, which
  gives `a:1`, which gives `a`. A host with a colon and the same host with a port differ: `Coalescing.PortIsIgnored`.
- A stale packet reference can be accepted: `IngressRuns.StaleReference`, and `StaleReferenceSends` for a run that sends
  another packet with one.
- A generated profile need not pass the verifier that its base passes: `RouteGraph.ProfileSilence`, and
  `ProfileIsReported` for one that does not.
- A second merge of the same overlay can change the result of the first: `MergeRepeats.TwiceIsOnce`, and
  `SecondMergeDiffers`. A third can change the result of the second: `MergeRepeats.ThirdMergeIsSecond`, and
  `AppendGrows`.
- Merging two fragments beforehand can give another configuration than merging one after the other:
  `MergeLaws.PremergeTwo`, for all values. The last fragment may overwrite the one before it but not the primary
  (`MergeRepeats.SandwichedLists`); and what is merged beforehand keeps the strategies of the first fragment only
  (`MergeRepeats.StrategiesMatter`).
- Generator and checker do not agree on the rule order of every base: `RouteIntent.OrderIsExpected`, and `OrderDiffers`
  for a base of two rules.
- The lab server answers queries whose answer the extractor cannot read: `DnsExchange.AnswerIsRead`, for names without
  a pointer, and `LongPartIsLost` for a part of 64 bytes.

The comment at the head of src/ja3.rs (line 3) speaks of colon-separated fields; the code separates them with commas,
and so does the model.

## Model

| member | source | states |
|---|---|---|
| `Md5.Md5` | src/ja3.rs:117-186 | for every byte string whose length in bits fits 64 bits, the result is the digest of RFC 1321, defined over bits and by 64 in-place operations |
| `Md5.Pad` | src/ja3.rs:139-145 | the padding loop and the length bytes yield the message, one 0x80 byte, the fewest zero bytes that reach 56 modulo 64, and the 64-bit length |
| `Md5.ProcessAll` | src/ja3.rs:146-185 | the block loop over the padded bytes yields the output of RFC section 3.5 on the registers after all blocks of RFC section 3.4 |
| `Md5.ProcessBlock` | src/ja3.rs:146-180 | one block updates the registers as the RFC does: all operations, then addition of the saved registers |
| `Md5.Steps` | src/ja3.rs:157-175 | the single loop on four rotating registers ends with the registers that the 64 in-place operations leave |
| `Md5.Step` | src/ja3.rs:158-175 | one pass of the loop body, from any registers that the rotating ones present, does one in-place operation |
| `Md5.DecodeBlock` | src/ja3.rs:147-156 | the sixteen words of a chunk are its bytes in groups of four, low-order byte first |
| `Md5.OperationTable` | src/ja3.rs:118-122 | the index formulas and the shift table reproduce, for each of the 64 steps, the operation listed in section 3.4 of RFC 1321 |
| `Md5.TablesAgree` | src/ja3.rs:123-134 | the table of constants of the source is that of the RFC |
| `Md5.MixIsAuxiliary` | src/ja3.rs:159-164 | the four mixing expressions, as written for rotating registers, are the functions F, G, H, I of the RFC |
| `Md5.StepRefines` | src/ja3.rs:158-175 | one step on the rotating registers presents the registers after the in-place operation of the same number |
| `Md5.PaddingIsPadding` | src/ja3.rs:140-144 | padding bytes is the bit padding of section 3.1 of RFC 1321: a one bit, then zero bits to 448 modulo 512 |
| `Md5.MessageIsPadded` | src/ja3.rs:139-156 | the words decoded from the padded bytes are the message words of the RFC, with the length as two words, low-order word first |
| `Rfc1321.RotatedInRound1` | src/ja3.rs:168-175 | the rotations of round 1 move the word up, and what is pushed out at the top comes in at the bottom |
| `Rfc1321.RotatedInRound2` | src/ja3.rs:168-175 | the rotations of round 2 move the word up, and what is pushed out at the top comes in at the bottom |
| `Rfc1321.RotatedInRound3` | src/ja3.rs:168-175 | the rotations of round 3 move the word up, and what is pushed out at the top comes in at the bottom |
| `Rfc1321.RotatedInRound4` | src/ja3.rs:168-175 | the rotations of round 4 move the word up, and what is pushed out at the top comes in at the bottom |
| `Rfc1321.OutputReadsBack` | src/ja3.rs:181-185 | the sixteen bytes of the digest read back, low-order byte first, as the four registers in order |
| `Ja3.GreaseValues` | src/ja3.rs:51-56 | the test accepts exactly the sixteen values reserved by RFC 8701 |
| `Ja3.VersionIsHighest` | src/ja3.rs:83-95 | the version field is the highest version that is not a GREASE value, and 771 when there is none |
| `Ja3.ListParses` | src/ja3.rs:97-105 | a printed list has no comma and splits back at hyphens into the list |
| `Ja3.ParsesBack` | src/ja3.rs:58-77 | splitting the string at commas and hyphens recovers the version, the three filtered lists and the point formats |
| `Ja3.PrintsAlike` | src/ja3.rs:58-77 | two hellos have the same string if and only if these five fields agree |
| `Ja3.GreaseIsInvisible` | src/ja3.rs:58-105 | a GREASE value inserted at any place of any of the four filtered lists leaves the string unchanged |
| `Ja3.StringOfFields` | src/ja3.rs:58-77 | the string is the version, the ciphers, the extensions, the groups and the point formats, in this order, with commas between them |
| `Ja3.PrintedWithHyphens` | src/ja3.rs:97-105 | a list is its numerals in order, with hyphens between them, and empty if the list is |
| `Ja3.FilteredInOrder` | src/ja3.rs:97-105 | filtering keeps, in order, whatever is not a GREASE value |
| `Ja3.HexReadsBack` | src/ja3.rs:107-115 | the hash text has two digits for each byte: sixteen times the first, plus the second, is the byte |
| `Ja3.AsciiBytesAre` | src/ja3.rs:17-24 | what is hashed are the codes of the digits, commas and hyphens of the string |
| `Ja3.Ja3StringIsPlain` | src/ja3.rs:58-105 | the string is made of digits, commas and hyphens |
| `Ja3.ComputeJa3` | src/ja3.rs:17-24 | the fingerprint is the string and the hexadecimal RFC 1321 digest of its (ASCII) bytes |
| `Decimal.NumeralReadsBack` | src/ja3.rs:97-105 | a printed number is a nonempty string of digits that reads back as the number |
| `Decimal.DecimalDigits` | src/ja3.rs:97-105 | numerals have the digits `0` to `9`, from the high-order one to the low-order one |
| `Lru.DropOldest` | src/cert_cache.rs:128-151 | removing the minimum by (last use, key) of a group over its bound does not change which entries are the newest within the bound |
| `Lru.NewestIsTop` | src/cert_cache.rs:128-178 | every entry kept is newer than every entry of its group that is not, and each group keeps as many as the bound allows |
| `Lru.LeastRecentGoes` | src/cooperative_overlay.rs:233-247 | a table at most one over its bound loses exactly its least (last use, key) entry, and otherwise nothing |
| `Lru.FindOldest` | src/cert_cache.rs:164-178 | the search finds the unique minimum by (last use, key), in whatever order the hash map is traversed, and nothing exactly when there is no candidate |
| `Lru.FindLeastRecent` | src/h2_coalescing.rs:105-110 | the search over a whole table finds its minimum by (last use, key) |
| `CertCache.KeyOrder` | src/cert_cache.rs:4-23 | the derived order on keys is a strict total order, so minima are unique |
| `CertCache.KeysOfOneGroup` | src/cert_cache.rs:4-23 | within a group, keys are ordered by provider (Google, Meta, Fastly, Generic) and then by algorithm (ECDSA, RSA) |
| `CertCache.KeysOfTwoGroups` | src/cert_cache.rs:4-23 | across groups, the first character that differs decides, or the shorter group comes first |
| `CertCache.CertCache.constructor` | src/cert_cache.rs:49-56 | a new cache is empty and has the given caps |
| `CertCache.CertCache.Get` | src/cert_cache.rs:58-67 | answers the entry touched at `now` with one more hit and stores it; removes and misses an expired entry |
| `CertCache.CertCache.Insert` | src/cert_cache.rs:69-90 | whichever over-cap provider each pass picks, the table becomes the unexpired entries, cut per provider to the cap newest when the cap is not zero, then cut to the newest `max_entries` |
| `CertCache.CertCache.EvictExpired` | src/cert_cache.rs:122-126 | both maps keep exactly the entries that expire after `now` |
| `CertCache.CertCache.EvictForProviderCap` | src/cert_cache.rs:128-141 | the loop, with its arbitrary choice of provider, ends with each provider cut to its newest entries within the cap |
| `CertCache.CertCache.EvictForGlobalCap` | src/cert_cache.rs:143-151 | the loop ends with the newest `max_entries` entries |
| `CertCache.CertCache.FindProviderOverCap` | src/cert_cache.rs:153-162 | yields some provider whose count exceeds the cap, and none exactly when there is none |
| `CertCache.CertCache.FindOldestForProvider` | src/cert_cache.rs:164-170 | yields the minimum by (last use, key) among the entries of one provider |
| `CertCache.CertCache.FindOldestKey` | src/cert_cache.rs:172-178 | yields the minimum by (last use, key) of all entries |
| `CertCache.CertCache.MarkDenied` | src/cert_cache.rs:92-100 | records the reason and expiry under the domain in lower case |
| `CertCache.CertCache.DeniedReason` | src/cert_cache.rs:102-112 | answers the recorded reason while it lasts, and forgets it once expired |
| `CertCacheRuns.HitIsFaithful` | src/cert_cache.rs:58-90 | in every run a hit carries the bytes, key id, creation and expiry of the latest insertion under its key, is unexpired, and counts one plus the hits since then, itself included, saturating |
| `CertCacheRuns.LastUsedIs` | src/cert_cache.rs:58-90 | in every run, a stored entry's last use is when its key was last inserted or looked up |
| `CertCacheRuns.InsertKeepsRecentlyUsed` | src/cert_cache.rs:69-178 | in every run, which entries an insertion keeps is decided by when their keys were last inserted or looked up, and by the keys at equal times: fewer than each cap were used after a kept one |
| `CertCacheRuns.LookedUpStays` | src/cert_cache.rs:58-90 | with room for two, if the older of two entries is looked up, a third insertion evicts the other |
| `CertCacheRuns.BehavesLikeUnboundedTtlMap` | src/cert_cache.rs:58-90 | when no clock reading has passed `now` and the keys fit the caps, a lookup hits if and only if an unbounded map with times to live would |
| `CertCacheRuns.FreshEntrySurvives` | src/cert_cache.rs:69-90 | for every table and clock, the entry just inserted is kept if and only if it does not expire at once, its provider has fewer newer unexpired entries than the provider cap, and these, counted per provider up to that cap, are fewer than the global cap |
| `CertCacheRuns.NewestIsLost` | src/cert_cache.rs:69-90 | two insertions at one millisecond with room for one entry keep the older call's |
| `CertCacheRuns.SizeBound` | src/cert_cache.rs:128-151 | in every run the table respects both caps |
| `CertCacheRuns.DenialsAreFaithful` | src/cert_cache.rs:92-112 | in every run whose clock has not passed `now`, the deny list answers with the latest denial of the domain in any letter case, while it lasts |
| `Overlay.CooperativeOverlay.constructor` | src/cooperative_overlay.rs:109-116 | a new table is empty and each limit is at least one |
| `Overlay.CooperativeOverlay.OpenSession` | src/cooperative_overlay.rs:118-141 | authentication first, then the duplicate check; on success the room-making and the new session, otherwise no change |
| `Overlay.CooperativeOverlay.AcceptChunk` | src/cooperative_overlay.rs:143-186 | authentication before anything else, then the size, the session and the sequence; only an accepted chunk changes the table |
| `Overlay.CooperativeOverlay.MarkUdpPathFailed` | src/cooperative_overlay.rs:188-199 | sets the mode and the time of a known session only |
| `Overlay.CooperativeOverlay.MarkUdpPathValidated` | src/cooperative_overlay.rs:201-212 | sets the mode and the time of a known session only |
| `Overlay.CooperativeOverlay.PruneStale` | src/cooperative_overlay.rs:214-219 | keeps exactly the sessions within the idle limit and returns how many went |
| `Overlay.CooperativeOverlay.EvictIfNeeded` | src/cooperative_overlay.rs:233-247 | leaves the `max_sessions` - 1 most recently seen of the sessions within the idle limit |
| `OverlayRuns.SessionProtocol` | src/cooperative_overlay.rs:118-212 | from a successful open for as long as the session lives, the i-th accepted chunk carries min(i, 2^64-1), and what is accepted is what the session would accept alone on the operations addressed to it |
| `OverlayRuns.OpenNeedsAuthentication` | src/cooperative_overlay.rs:118-141 | in every run an open succeeds if and only if the authenticator accepts it and its id is not in the table; a refused token gives `AuthFailed` whether or not the id is known; an open that fails changes nothing |
| `OverlayRuns.StemsFromOpen` | src/cooperative_overlay.rs:118-141 | in every run, every session stems from an open whose authenticator accepted, with its endpoint, and is in the table ever since |
| `OverlayRuns.ReportedMode` | src/cooperative_overlay.rs:169-186 | a chunk is accepted if and only if it is authentic, small enough and next in sequence, and the mode reported is that of the last mark before it since the open |
| `OverlayRuns.RefusalOf` | src/cooperative_overlay.rs:143-186 | why a chunk is refused: authentication, size, a number that was accepted before, or one that is ahead, in this order |
| `OverlayRuns.LifetimesAgree` | src/cooperative_overlay.rs:118-212 | two lifetimes with the same operations addressed to the session accept the same chunks, whatever else the tables see |
| `OverlayRuns.ReplayOnlyAtSaturation` | src/cooperative_overlay.rs:165-180 | within a lifetime a sequence number is accepted twice if and only if the counter has saturated |
| `OverlayRuns.NumberRepeats` | src/cooperative_overlay.rs:165-180 | of 2^64 + 1 chunks accepted in one lifetime, the last two carry the same number |
| `OverlayRuns.LifetimeState` | src/cooperative_overlay.rs:118-212 | during a lifetime the stored mode and counter are functions of the operations addressed to the session |
| `OverlayRuns.LastSeenIs` | src/cooperative_overlay.rs:118-212 | during a lifetime, the time stored is that of the last mark or accepted chunk addressed to the session, or of its open |
| `OverlayRuns.IdleLimit` | src/cooperative_overlay.rs:214-219 | a session outlives a prune if and only if the time since then is at most the idle limit |
| `OverlayRuns.LeastRecentIs` | src/cooperative_overlay.rs:233-247 | the session evicted is the one seen first, with the least id of those seen at once |
| `OverlayRuns.IdsByBytes` | src/cooperative_overlay.rs:233-247 | ids are compared by the first byte in which they differ |
| `OverlayRuns.OpenTable` | src/cooperative_overlay.rs:118-141 | in every run a successful open leaves the sessions within the idle limit, less the least (last seen, id) one when they fill the table, plus the new one |
| `OverlayRuns.SizeBound` | src/cooperative_overlay.rs:233-247 | in every run the table holds at most `max_sessions` sessions |
| `OverlayRuns.PruneTwice` | src/cooperative_overlay.rs:214-219 | pruning at two times is pruning once at the later, and the counts add up |
| `Ingress.BatchPacketBuffer.constructor` | src/ingress.rs:94-101 | a new buffer is empty and its packet size is at least 256 |
| `Ingress.BatchPacketBuffer.PushRx` | src/ingress.rs:109-117 | queues a packet of one to the maximal number of bytes and rejects any other without change |
| `Ingress.BatchPacketBuffer.PopTx` | src/ingress.rs:120-122 | pops the oldest transmitted packet |
| `Ingress.BatchPacketBuffer.FillBatch` | src/ingress.rs:127-143 | never fails; moves as many packets as fit into the batch, writes their references into the slice in place and leaves the other slots alone; an empty slice changes nothing |
| `Ingress.BatchPacketBuffer.SlotFor` | src/ingress.rs:153-169 | succeeds if and only if the reference was emitted by the latest fill with slots, with the packet it was emitted for; otherwise the error is that of the first check it fails |
| `Ingress.BatchPacketBuffer.SendBatch` | src/ingress.rs:175-188 | succeeds if and only if every reference was emitted, and then appends their packets in the given order; otherwise nothing changes and the error is that of the first reference at fault |
| `Ingress.SlotOf` | src/ingress.rs:139-160 | the division on the send path undoes the stride multiplication of the fill path |
| `Ingress.ReferencedIs` | src/ingress.rs:153-169 | a reference of the batch stands for one slot only |
| `Ingress.RangesAreDisjoint` | src/ingress.rs:127-143 | the byte ranges of two references of one batch do not overlap |
| `Ingress.RangesFit` | src/ingress.rs:127-143 | the byte range of each reference of a batch ends within the strides of the batch |
| `Ingress.FaultlessIsEmitted` | src/ingress.rs:153-169 | the three checks find no fault with a reference if and only if it was emitted |
| `IngressRuns.ReceiveConservation` | src/ingress.rs:109-143 | in every run the packets accepted are the batches delivered, end to end, followed by the receive queue |
| `IngressRuns.PushTakes` | src/ingress.rs:109-117 | in every run, a packet of one byte to the maximal size goes to the end of the receive queue, and no other does |
| `IngressRuns.EndToEndConservation` | src/ingress.rs:109-188 | with a driver that sends each batch back once before the next fill, every accepted packet is, in push order, popped or still held |
| `IngressRuns.PopsInPushOrder` | src/ingress.rs:109-188 | such a driver pops packets in push order, none lost or repeated, and all of them once the queues are empty |
| `IngressRuns.SendingBack` | src/ingress.rs:175-188 | sending back the references of a whole batch queues exactly its packets |
| `IngressRuns.StaleReference` | src/ingress.rs:153-169 | a reference from an older batch is accepted if and only if its slot now holds a packet of the same length |
| `IngressRuns.StaleReferenceSends` | src/ingress.rs:127-188 | after two fills of one packet each, of equal lengths, the reference of the first sends the packet of the second |
| `Coalescing.CoalescingController.constructor` | src/h2_coalescing.rs:47-52 | a new table is empty and its bound is at least one |
| `Coalescing.CoalescingController.AssertAuthority` | src/h2_coalescing.rs:54-87 | adds the normalised host to a session of the same provider, or creates the session after making room; fails without change on a bad authority or another provider |
| `Coalescing.CoalescingController.EvictIfNeeded` | src/h2_coalescing.rs:101-113 | a full table loses its least (last seen, id) session |
| `Coalescing.PortIsIgnored` | src/h2_coalescing.rs:116-160 | for every trimmed host, host and host:port give the same result, for any port text that parses as u16, if and only if the host has no colon, or in brackets: is not closed, is empty, or is not followed by a valid port already |
| `Coalescing.BracketedPortIsIgnored` | src/h2_coalescing.rs:121-141 | a bracketed address, with any port text that parses as u16 or none, gives the address in lower case |
| `Coalescing.CaseIsIgnored` | src/h2_coalescing.rs:116-120 | letter case makes no difference |
| `Text.TrimIs` | src/h2_coalescing.rs:116-120 | trimming removes the white space around a text and nothing else |
| `Text.AsciiSpaces` | src/h2_coalescing.rs:116-120 | which of the ASCII characters are white space |
| `Text.LowerLetters` | src/h2_coalescing.rs:116-120 | the 26 letters go to their small ones, and everything else stays |
| `Coalescing.NormalizingAgain` | src/h2_coalescing.rs:116-160 | normalising an accepted authority again changes nothing if and only if, once trimmed, it is bracketed, has no colon, or has a single one with no white space before it |
| `Coalescing.NormalizingDiffers` | src/h2_coalescing.rs:116-160 | `a:1:2` gives `a:1`, which gives `a` |
| `Coalescing.OnlyPortsAreAccepted` | src/h2_coalescing.rs:142-160 | outside brackets, an authority with a colon gives its host in lower case if what follows the last colon is a port and the host is not empty, and an error otherwise |
| `Coalescing.PlainHostsAreAccepted` | src/h2_coalescing.rs:116-160 | without a colon, everything but the empty authority gives itself in lower case |
| `Coalescing.BracketsAreClosed` | src/h2_coalescing.rs:121-141 | in brackets there must be an address, and after them nothing or a port; anything else is an error |
| `Coalescing.PortNumbers` | src/h2_coalescing.rs:142-160 | the numerals that parse as ports are those of 0 to 65535 |
| `CoalescingRuns.AuthoritiesAreTheAsserted` | src/h2_coalescing.rs:54-87 | in every run a session holds exactly the normalised forms of the successful assertions on its id since it was last created, all under its one provider |
| `CoalescingRuns.ReplyIs` | src/h2_coalescing.rs:54-87 | in every run, a call succeeds if and only if its authority is good and the session, if there, has its provider; the authority's error comes first |
| `CoalescingRuns.LastSeenIs` | src/h2_coalescing.rs:54-87 | in every run, the time stored with a session is that of the last successful call for it |
| `CoalescingRuns.CreatedTable` | src/h2_coalescing.rs:54-113 | in every run, a new session in a full table takes the place of the one whose last successful call is the earliest, with the least id at equal times |
| `CoalescingRuns.FailureChangesNothing` | src/h2_coalescing.rs:54-87 | a failed call leaves the table as it was |
| `CoalescingRuns.SizeBound` | src/h2_coalescing.rs:101-113 | in every run the table holds at most `max_sessions` sessions |
| `ListMerge.MergeAssociates` | scripts/config_src_merge.py:34-73 | each of the four list strategies is associative |
| `ListMerge.MergeTwice` | scripts/config_src_merge.py:34-73 | merging an overlay list twice is merging it once if and only if the strategy is not `append` or the overlay is empty |
| `ListMerge.ByTagKeeps` | scripts/config_src_merge.py:50-73 | merging by tag keeps the tags in order of first occurrence, the last item of each tag, and the distinct untagged items |
| `ListMerge.NeatMergesToItself` | scripts/config_src_merge.py:41-73 | a list merged onto the empty one stays as it is if and only if it is distinct and, by tag, has its tagged items first with no tag repeated |
| `ListMerge.MergeAbsorbs` | scripts/config_src_merge.py:34-73 | merging gives the overlay itself if and only if, for each strategy, it is in that form and starts with what the base would contribute |
| `ListMerge.AppendUniqueLoop` | scripts/config_src_merge.py:41-49 | the loop yields the distinct items in order of first occurrence |
| `ListMerge.Place` | scripts/config_src_merge.py:54-72 | the loop body keeps the insertion-ordered table of last items per tag and the distinct untagged items |
| `ListMerge.ByTagLoops` | scripts/config_src_merge.py:50-73 | the two loops yield, per tag in order of first occurrence over base and overlay, its last item, then the distinct untagged items |
| `ListMerge.MergeListLoop` | scripts/config_src_merge.py:34-73 | the code of each strategy computes its specification |
| `ConfigMerge.MergeInto` | scripts/config_src_merge.py:76-93 | the recursive code that fills a copy of the base computes the deep merge, errors included |
| `ConfigMerge.MergeFields` | scripts/config_src_merge.py:83-90 | the key loop, in any order of the keys, writes every merged child over the base, or fails if one of them fails |
| `ConfigMerge.CompileConfig` | scripts/config_src_merge.py:100-104 | the loop folds the deep merge over the fragments and stops at the first error |
| `MergeNames.NamedAppend` | scripts/config_src_merge.py:34-93 | a list under a key for which the overlay names `append` is put after the base's, whatever strategy is in force |
| `MergeNames.NamedReplace` | scripts/config_src_merge.py:34-93 | under `replace`, it is left alone |
| `MergeNames.NamedAppendUnique` | scripts/config_src_merge.py:41-93 | under `append_unique`, each item of both lists is kept once, in order of first occurrence, whatever its tag |
| `MergeNames.NamedByTagReplaces` | scripts/config_src_merge.py:50-93 | under `append_unique_by_tag`, an item takes the place of the one with the same tag |
| `MergeNames.NamedByTagAppends` | scripts/config_src_merge.py:50-93 | and an item with a new tag is put after the tagged ones |
| `MergeNames.UnknownName` | scripts/config_src_merge.py:34-36 | any other name is an error when there are lists to merge |
| `MergeNames.CompileAppends` | scripts/config_src_merge.py:76-104 | without a name, compiling appends |
| `MergeNames.ReplaceKey` | scripts/config_src_merge.py:76-80 | `__replace__` set to true takes the overlay without its control keys; set to anything else it does nothing |
| `MergeNames.TagIs` | scripts/config_src_merge.py:24-31 | the tag of an item is the first of its `tag`, `ruleTag`, `id` and `name` that holds a string with something in it, and that string without surrounding white space |
| `MergeNames.StripIs` | scripts/config_src_merge.py:24-31 | the white space around a text is removed, and nothing else |
| `MergeNames.AsciiPythonSpaces` | scripts/config_src_merge.py:24-31 | which of the ASCII characters are white space to Python |
| `MergeLaws.FailsExactly` | scripts/config_src_merge.py:76-93 | a merge fails if and only if, at a path that both values share, an unknown strategy is needed for lists or a strategy map is neither an object nor null |
| `MergeLaws.NeverFails` | scripts/config_src_merge.py:76-93 | an overlay can be merged onto every value if and only if all strategies it can need are known and all strategy maps are objects or null; otherwise it fails onto itself already |
| `MergeLaws.MergesTo` | scripts/config_src_merge.py:76-93 | what an object merged onto another is, field by field, whatever control keys there are |
| `MergeLaws.AbsorbsExactly` | scripts/config_src_merge.py:76-93 | merging an overlay gives the overlay itself if and only if it has every key of the base, the same control keys, and absorbs each child; for lists, if it starts with what the base would contribute |
| `ListPremerge.IndifferentExactly` | scripts/config_src_merge.py:34-73 | two strategies merge two lists alike if and only if the lists have the form that the stricter one leaves alone, strategy by strategy |
| `ListPremerge.ClashExactly` | scripts/config_src_merge.py:34-73 | for each pair of strategies, merging a list and then another onto a first equals merging the second of them onto the first of them beforehand, if and only if a condition on forms, prefixes and last items of tags holds |
| `MergeLaws.IndifferentExactly` | scripts/config_src_merge.py:76-93 | two strategies merge an overlay alike if and only if they do so at each pair of lists that it shares with the base |
| `MergeLaws.AssociatesUnlessClashing` | scripts/config_src_merge.py:76-93 | whatever strategies the overlays name at any depth, where neither of the steps fails, the merge of three values is associative if and only if they do not clash: the last overwrites or replaces the second without absorbing the first, or a key is merged under strategies that make a difference |
| `MergePlans.AssociatesUnlessSandwiched` | scripts/config_src_merge.py:76-93 | for overlays that cannot fail and name the same strategies, if and only if the last nowhere replaces or overwrites the second without absorbing the first |
| `MergeLaws.PremergeTwo` | scripts/config_src_merge.py:100-104 | for all primaries and all pairs of fragments, merging the fragments beforehand gives what compiling them gives if and only if both ways fail, or neither does and there is no clash |
| `MergeLaws.PremergeSound` | scripts/config_src_merge.py:100-104 | for fragments that cannot fail, whatever strategies they name, if and only if there is no clash |
| `MergeLaws.PremergeOneMore` | scripts/config_src_merge.py:100-104 | if the fragments so far could be merged beforehand, one more can if and only if it does not clash with their bundle |
| `MergePlans.MappedAreGoverned` | scripts/config_src_merge.py:76-93 | fragments with the same map of known strategies at the head and no other control key are such fragments, whatever keys they have |
| `MergePlans.ControlFreeAreGoverned` | scripts/config_src_merge.py:76-93 | and so are fragments without control keys, under each strategy |
| `MergePlans.FollowingAssociate` | scripts/config_src_merge.py:76-93 | for values whose kinds agree at shared paths, and that name the same strategies, the merge is associative under each strategy |
| `MergePlans.ControlFreeFollows` | scripts/config_src_merge.py:76-93 | values without control keys whose kinds agree at shared paths are such values, under each strategy |
| `MergeLaws.Premerge` | scripts/config_src_merge.py:100-104 | any number of fragments that compile, none of which clashes with the bundle of those before it, can be merged into one beforehand |
| `MergePlans.PremergePlanned` | scripts/config_src_merge.py:100-104 | any number of fragments that follow one plan of kinds and strategies can, onto any primary of its shape |
| `MergeRepeats.TwiceIsOnce` | scripts/config_src_merge.py:76-93 | for every base, overlay and strategy, the merge succeeds and a second one changes nothing if and only if every list that the first appends is empty, every list that it copies to be made unique later is unique already, and every replacement meets an object |
| `MergeRepeats.ThirdMergeIsSecond` | scripts/config_src_merge.py:76-93 | once a merge succeeds, a third merge of the overlay is the second if and only if the overlay appends no nonempty list and fails nowhere, whatever it is merged onto |
| `MergeRepeats.SecondMergeDiffers` | scripts/config_src_merge.py:76-93 | `[1, 1]` merged by `append_unique` under a new key is copied by the first merge and cut by the second |
| `MergeRepeats.AppendGrows` | scripts/config_src_merge.py:39-40 | appending `[1]` three times gives `[1]`, `[1, 1]` and `[1, 1, 1]` |
| `MergeRepeats.StrategiesMatter` | scripts/config_src_merge.py:100-104 | a fragment that replaces a list appends it once it is merged beforehand onto an empty one |
| `MergeRepeats.SandwichedLists` | scripts/config_src_merge.py:76-93 | lists on both sides of a value of another kind, for which the merge is not associative |
| `MergeRepeats.RepeatedDeepMerge` | scripts/config_src_merge.py:76-93 | without control keys and under any strategy but `append`, a third merge never fails and never changes the result of the second |
| `Profiles.RuleList.InsertUdpPolicy` | scripts/generate_profiles.py:62-77 | inserts the rule after the first r040 rule, or at the front, unless some rule has its tag |
| `Profiles.RuleList.SetGlobalCatchall` | scripts/generate_profiles.py:80-91 | repoints and renames the first r900 rule of either name, and no other |
| `Profiles.MakeProfile` | scripts/generate_profiles.py:125-141 | a profile is an edited copy of the base rules |
| `Profiles.ProfileRouting` | scripts/generate_profiles.py:62-91 | under first-match routing every connection goes where the base sends it, except those first matched by the first r900 rule, and UDP to port 443 not decided before the insertion point when the rule is inserted |
| `Profiles.FourPolicies` | scripts/generate_profiles.py:26-47 | the UDP/443 rule and the catch-all outbound of each of the four profiles, literally |
| `Profiles.InsertedAfterR040` | scripts/generate_profiles.py:62-77 | the rule comes right after the first rule tagged `r040_direct_private_regional` |
| `Profiles.CatchallRenamed` | scripts/generate_profiles.py:80-91 | the first r900 rule under either name gets the outbound and the name that goes with it |
| `Profiles.InsertionRouting` | scripts/generate_profiles.py:62-77 | an inserted rule takes the connections it matches that no earlier rule decides, and moves no other decision |
| `Profiles.ProfileTwice` | scripts/generate_profiles.py:62-91 | generating a profile from the profile changes nothing |
| `Routing.FirstAfterInsertion` | scripts/generate_profiles.py:72-77 | where the first rule with a property is found after an insertion |
| `RouteGraph.ScanRules` | scripts/route_graph_verify.py:47-67 | the scan of one inbound reports and sees exactly what the specification of the scan says |
| `RouteGraph.Verify` | scripts/route_graph_verify.py:34-72 | the verifier reports, in order, the errors of each decrypted inbound |
| `RouteGraph.DecryptedMembers` | scripts/route_graph_verify.py:36-41 | the inbounds verified are those whose tag starts with `tls-decrypt-`, as often as they occur |
| `RouteGraph.DecryptedAppend` | scripts/route_graph_verify.py:36-41 | and in the order in which they occur |
| `RouteGraph.AppliesInScope` | scripts/route_graph_verify.py:18-31 | a rule applies to every inbound without an `inboundTag`, and to the tag or the listed tags with one |
| `RouteGraph.ReportsExactly` | scripts/route_graph_verify.py:34-72 | what is reported: for each decrypted inbound, what the rules call for that it meets before a scoped block or the two-CIDR direct rule ends the scan, and a missing repack rule or block |
| `RouteGraph.SilenceMeansIsolation` | scripts/route_graph_verify.py:34-72 | the verifier reports nothing if and only if every decrypted inbound meets a repack rule, and no leaking rule, before a scoped terminal block |
| `RouteGraph.NoLeakUnderSilence` | scripts/route_graph_verify.py:34-72 | if it reports nothing, no connection that the terminal block would catch leaves by an inbound-scoped direct rule, an unscoped repack rule or the two-CIDR direct rule |
| `RouteGraph.SilenceMeansTerminal` | scripts/route_graph_verify.py:34-72 | if it reports nothing, every decrypted inbound reaches a terminal block, and meets a repack rule before it |
| `RouteGraph.ProfileSilence` | scripts/generate_profiles.py:62-91 | if the verifier reports nothing on the base, it reports nothing on a profile if and only if, for each decrypted inbound, the first r900 rule follows the terminal block, or does not apply, or becomes a scoped block after a repack rule, or stays unscoped and is not the two-CIDR direct rule |
| `RouteGraph.ProfileIsReported` | scripts/generate_profiles.py:80-91 | a base that passes, with the two-CIDR rule ahead of the terminal block, is reported on its balanced profile |
| `RouteGraph.ProfileStaysSilent` | scripts/generate_profiles.py:62-91 | if it reports nothing and the first r900 rule follows the terminal blocks, it reports nothing on any generated profile |
| `RouteIntent.ComputeExpectedOrder` | scripts/route_intent_sync.py:49-65 | the list built step by step is the expected order, for the four profiles, the base and names that the tables do not list |
| `RouteIntent.UnlistedIsBase` | scripts/route_intent_sync.py:49-65 | for the base and for unlisted names the expected order is the documented one |
| `RouteOrder.RenamingMoves` | scripts/route_intent_sync.py:49-65 | renaming the first catch-all tag in place is moving it to the end if and only if it is there already, but for block tags and the final one |
| `RouteIntent.OrderIsExpected` | scripts/route_intent_sync.py:49-65 | for every fully tagged base, the tags of a generated profile are in the order expected for it if and only if no rule has the UDP policy tag, the UDP rule is inserted sixth or last, and the first r900 rule is where and what the profile needs |
| `RouteIntent.OrderDiffers` | scripts/generate_profiles.py:72-77 | of two rules with r040 first, the UDP rule is generated second and expected last |
| `RouteIntent.GeneratedOrderIsExpected` | scripts/route_intent_sync.py:49-65 | for every documented base table the tags of each of the four generated profiles are in the order expected for it |
| `Dns.SkipDnsName` | scripts/dns_lab_harness.py:74-88 | the loop ends in bounds or fails, on every byte string |
| `Dns.SkipDnsQuestions` | scripts/dns_lab_harness.py:51-56 | the question loop computes the end of the questions |
| `Dns.ExtractFirstAIpv4` | scripts/dns_lab_harness.py:45-71 | the extractor computes its specification on every byte string |
| `Dns.ExtractsFirstAddress` | scripts/dns_lab_harness.py:45-88 | on every well-formed message (section 4.1 of RFC 1035) the extractor returns the first type-1, 4-byte answer among the counted ones, or nothing if there is none |
| `Dns.ExtractedIsFirstAddress` | scripts/dns_lab_harness.py:45-88 | conversely, whenever it returns an address the bytes are a message whose counted answers have it as their first |
| `Dns.SkipEncodedName` | scripts/dns_lab_harness.py:74-88 | the walker steps over every encoded name exactly |
| `Dns.SkippedIsName` | scripts/dns_lab_harness.py:74-88 | whatever the walker steps over is an encoded name of labels of 1 to 63 bytes ended by zero or a pointer |
| `DnsExchange.EncodeNameText` | scripts/check_dns.py:21-29 | the encoder yields the length-prefixed labels and a zero if every part is ASCII and at most 63 long, and otherwise the error of the first part that is not |
| `DnsExchange.BuildDnsAResponse` | scripts/dns_lab_harness.py:26-42 | echoes the question and appends one address record, or fails on a short packet, name or question |
| `DnsExchange.ResponseBytes` | scripts/dns_lab_harness.py:26-42 | the bytes of a response |
| `DnsExchange.NoAnswer` | scripts/dns_lab_harness.py:26-42 | when there is no answer: a query without a header, a name that runs out of it, or no room for type and class |
| `DnsExchange.AnswerComesBack` | scripts/dns_lab_harness.py:26-88 | from the response to any query whose name has only length bytes below 64, the extractor returns the address |
| `DnsExchange.AnswerParses` | scripts/check_dns.py:39-47 | from the response to any query that is answered, the parser reports the same id, no error and one answer |
| `DnsExchange.ParsedBytes` | scripts/check_dns.py:40-47 | for all bytes, what the parser reads: the id in bytes 0 and 1, the rcode in the low half of byte 3, the counts in bytes 6 to 11 |
| `DnsExchange.AnswerIsRead` | scripts/dns_lab_harness.py:26-88 | of the queries answered whose name has no pointer, the extractor returns the address exactly for those with length bytes below 64, and nothing for the others |
| `DnsExchange.LongPartIsLost` | scripts/dns_lab_harness.py:26-88 | a name of one part of 64 bytes is answered, and the extractor returns nothing |
| `DnsExchange.QueryIsPlain` | scripts/check_dns.py:32-37 | every built query carries its id and a name that the answering side can walk |
| `DnsExchange.QueryBytes` | scripts/check_dns.py:32-37 | the bytes of a query: id, recursion desired, one question, name, type, Internet class |
| `DnsExchange.RoundTrip` | scripts/check_dns.py:21-47 | for every name the encoder accepts, every id, type and address, the response built on the built query gives the address back, with rcode 0 and one answer |
| `DnsExchange.OrdinaryNameIsAccepted` | scripts/check_dns.py:21-29 | a name of labels of 1 to 63 ASCII characters, with or without a final dot, is accepted and encoded label by label |

## Left out

- Md5.Md5: requires the length in bits to fit 64 bits, as the multiplication in src/ja3.rs:139 does; longer inputs do not fit in memory.
- Md5.Step: the source has one function with nested loops; the model gives the step loop, the block and the padding methods of their own, with the same statements in the same order.
- Ingress.BatchPacketBuffer.FillBatch: offsets are natural numbers; by `Ingress.RangesFit` none overflows `usize` unless
  the number of packets times `max_packet_size` does, and that case is not modelled.
- DnsExchange.AnswerComesBack: does not say what the extractor returns when the name has a pointer, which the server
  steps over as a long label; it then depends on the bytes that follow.
- MergeLaws.Premerge: one direction only; later fragments can cover up a clash. `MergeLaws.PremergeOneMore` is exact for
  each further fragment.
- Profiles.MakeProfile: the remarks and log settings of a generated profile and the error for a `routing.rules` that is not
  a list; they do not touch the rules.
- ConfigMerge.MergeInto: the order of keys inside JSON objects and the sharing that deep copies avoid are not modelled, and all errors are the one `ValueError`.
- The stable key of a list item is modelled by the item itself: the text with sorted keys determines the JSON value, and conversely.
- Session identifiers and packet payloads are byte sequences of any length where the source fixes 16 bytes; nothing depends on it.
- Socket addresses, IPv4 text conversion, clocks and random transaction ids: addresses are opaque or four bytes, times and ids are arguments.
- `attach_for_operating_profile`: it is taken to leave `routing.rules` alone.
- `self_audit` (src/ja3.rs:34-49): a comparison of trimmed lower-case texts.
- `sync_config` (scripts/route_intent_sync.py:68-117): a list of independent checks and messages.
- `apply_port_offset` (scripts/generate_profiles.py:94-122): a fixed map of five ports.
- The sine origin of the MD5 table: its 64 constants are given in the model of the RFC. Addition of words is that of the
  bit-vector type.
- Display texts, JSON text parsing, file and network I/O, threads, and the other scripts and crates: not part of this model.
