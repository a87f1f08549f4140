# A verified model of the DNS proxy

The program is a caching DNS proxy. A query packet comes in; the service parses
it, answers from a user's override or from a two-layer cache, or asks several
upstream resolvers at once and merges what they say, and writes a reply packet.
This project models that way from bytes to bytes, and proves what holds of it on
every input, in every run and under every interleaving.

## How it is organised

| modules | part of the program |
|---|---|
| GoText, IpText, DnsTypes | Go strings as byte sequences, splitting, joining, decimals, address text, TTL arithmetic |
| Names, Records, Messages | the wire codec: names with compression, resource records, whole messages |
| WireFormat | the format byte by byte, and what the codec makes of every well-formed message |
| RoundTrips, SurvivingData, Replies | what survives writing and reading back, and how replies are framed |
| Merge, Resolvers | the fan-out, the merge of replies, and the way of a record from resolver to client |
| CacheKeys, Pipeline | the keys, and the query service as a state machine over any number of requests |
| Slots, Coalescing, Provenance, Accounting, Progress, Runs, Outcomes | invariants of that machine, what they mean for whole runs, and what becomes of each request and refresh |
| ByteOrder, LayeredCache, CacheSessions, CacheInterleaving | the cache as a class over ordered keys, against one map over restarts, and under interleaving |
| RuleScan, Routing, NormalForms | rule files and routing by parent domains, and both told byte by byte |
| Latency | the latency window |

The code that changes things step by step is written as methods and classes and
proved against functions (`Names.UnpackNameLoop` against `Names.UnpackName`,
`Merge.Reduce` against `Merge.Reduced`, and so on); the results are then proved
about those functions. The query service is a state machine: one step is one
atomic action of one request or background refresh, and a run is any sequence
of enabled steps, with arrivals, clock ticks and upstream replies chosen freely.

## What the main results say

- **Names.** Reading a compressed name terminates on every packet, its guards
  against pointer loops never fire, and every well-formed name of section 4.1.4
  of RFC 1035 is read exactly (`Names.Decompression`). The names accepted in a
  question are characterised exactly (`Names.QuestionNameExact`).
- **Messages.** Against the format written out in bytes, every well-formed
  response is read right, with its compressed names and aliases
  (`WireFormat.ResponseIsRead`), and the packets taken as queries are
  characterised exactly (`WireFormat.QueryExact`).
- **Round trips, in both directions of an if-and-only-if.** A query is read back
  as built exactly when every label has 1 to 63 bytes, apart from one case of
  the empty name (`RoundTrips.QueryRoundTrip`). A reply is parsed back to its
  records exactly when the data of each is canonical
  (`Replies.ResponseRoundTrip`), which for an alias means labels of 1 to 191
  bytes, wherever its bytes may point when they are read as compression
  pointers (`SurvivingData.AliasExact`). What resolvers sent is relayed intact
  exactly when no alias has an empty label (`Resolvers.RelayRoundTrip`), and so
  is what the service serves in any run (`Runs.RepliesReadBack`).
- **Whole runs of the service.** One live owner for each key, each channel
  closed once, no deadlock, at most 22 steps for each arrival; a waiter goes
  upstream only behind an owner that left no cache entry; records served come
  from a resolve of the very pair asked for; a cached pair is never resolved
  synchronously again; the counters balance; every reply is framed for its query
  (`Runs`, `Progress`).
- **The outcome of each request.** An upstream success is the answer and is
  cached, a failure is a failure, and everything else is an override or served
  from the cache; upstream is the last resort (`Outcomes`).
- **The cache.** Over any sequence of operations and restarts it is one
  persistent map (`CacheSessions.Session`). Under interleaving its layers agree
  as long as the steps are orderly, and the guard of each step is exact
  (`CacheInterleaving.CoherentRuns`); two runs show how they come to differ.
- **Merging** does not depend on arrival order, and its reported TTL is
  characterised on every input (`Merge.ReducedTTLExact`,
  `Merge.ReduceKeepsMinTTL`).
- **Routing** is a longest-suffix match, without regard to case, over exactly the
  names in the rule file (`Routing.Router.Route`, `NormalForms.RoutedAlike`,
  `NormalForms.RulesExact`).

## Where the code differs from what is said of it

- `ResolveAll` is documented to return the last error; it returns the first that
  arrived (internal/upstream/manager.go:40, internal/upstream/manager.go:93-95).
- The merged TTL is described as the minimum over all records; zero TTLs are left
  out, and a zero hides the other TTLs of its record (`Merge.ReducedTTLExact`,
  `Merge.ZeroTtlHidesPositive`).
- A resolver's NXDOMAIN does not pass the fan-out, so the service never answers
  NXDOMAIN and its negative cache stays empty
  (`Runs.NegativeCacheStaysEmpty`).
- A UDP resolver reports a reply it cannot parse as a success without records
  (internal/upstream/udp/client.go:63-68).
- `answerCount` is described as treating expired answers apart; it counts the
  records (internal/dns/build.go:121-129). `BuildResponse` writes each record's
  own TTL and the question's name, whatever the result's TTL and the record's
  owner.
- The cache size is counted once, when the file is opened
  (internal/cache/boltdb.go:77).
- Normalizing a domain twice is not the same as once
  (`Routing.NormalizeTwiceDiffers`, `Routing.NormalizeTwiceExact`).
- Parsing is meant to go on past an error in a trailing section; the records read
  before the error are dropped with it, so a response that is cut off behind an
  answer yields none (`WireFormat.CutResponseIsEmpty`).
- `List` is meant to return every stored entry; a bar in a domain makes it skip
  or misname the entry (`CacheSessions.ListingExact`).

## Model

| member | source | states |
|---|---|---|
| Names.UnpackNameLoop | internal/dns/parse.go:205-277 | The loop with its visited set and jump counter returns what the recursive reader without them returns, on every packet, start and mode, and never fails by one of those guards |
| Names.UnpackName | internal/dns/parse.go:205-277 | Reading terminates, and a name that is read ends after its start and within the packet |
| Names.Decompression | internal/dns/parse.go:205-277 | Every well-formed compressed name is read as exactly its labels joined by dots, with the offset just past it; a pointer is told by its two bytes, two high bits and a 14-bit target before the start of its segment |
| Names.ScanReadsWire | internal/dns/parse.go:205-277 | An encoded name is read back at any place of any packet: up to 63 bytes a label in a question, up to 191 elsewhere |
| Names.BehindLabels | internal/dns/parse.go:205-277 | What the general reader makes of any place behind labels: an end with the packet is a name, a label or pointer that runs out and a pointer that does not go back are refused, and a target that cannot be read is forgiven if there were labels |
| Names.QuestionNameFound | internal/dns/parse.go:205-277 | A question name that is read lies there as labels of 1 to 63 bytes, which join to its text |
| Names.QuestionNameRead | internal/dns/parse.go:205-277 | Such labels, ended by a zero byte or by the end of the packet, are read as their join with the right end |
| Names.QuestionNameExact | internal/dns/parse.go:205-277 | A question name is accepted with a text and an end exactly when labels of 1 to 63 bytes lie there, ended by a zero byte or by the end of the packet, and join to that text |
| Names.EncodeDomainName | internal/dns/build.go:159-167 | The loop writes the length-prefixed labels of the split name |
| Names.ParseUncompressedName | internal/dns/parse.go:179-201 | The loop, with its early exits, computes the name that the RDATA results below are about |
| Names.ReadersAgree | internal/dns/parse.go:160-170 | On data that reaches a zero terminator with no pointer byte at a length position, the simple reader and the general reader give the same name, and the latter stays within the data |
| Names.PlainOnWellFormed | internal/dns/parse.go:179-201 | On a well-formed name, compressed or not, the simple reader gives that name or gives up |
| RoundTrips.QuestionTextExact | internal/dns/parse.go:205-277 | A name that was encoded and terminated is read back as a question name with the right end exactly when each label has 1 to 63 bytes |
| RoundTrips.QueryRoundTrip | internal/dns/build.go:80-119 | For every name, type and id, parsing the built query gives them back exactly when each label has 1 to 63 bytes or the name is empty and the type 0; with such labels the question ends where the packet ends |
| RoundTrips.EmptyQuestion | internal/dns/parse.go:12-42 | An empty name is read one byte early, so its type comes back only if it is zero |
| Messages.QuestionEnd | internal/dns/build.go:107-119 | The offset computed for slicing lies between the header and the end of the packet, so copying the question never reads outside |
| WireFormat.QuestionEndExact | internal/dns/build.go:107-119 | It is behind the type and class of the name that lies there, or behind the name without room for them, or at the beginning without a name |
| Messages.BuildQuery | internal/dns/build.go:80-96 | The bytes written are the query layout that the round trip is about, with id 0 |
| Messages.BuildQueryWithID | internal/dns/build.go:99-103 | Overwriting the first two bytes of a built query gives the layout with that id, the rest untouched |
| WireFormat.QueryWire | internal/dns/build.go:80-103 | The bytes of that layout: one question, recursion desired, Internet class |
| Messages.BuildResponse | internal/dns/build.go:28-56 | Header, copied question and one pointer-owned entry for each record, in order: the layout that framing and round trip are about |
| Messages.BuildErrorResponse | internal/dns/build.go:60-76 | Header with the code's low four bits and the copied question |
| WireFormat.ResponseWire | internal/dns/build.go:28-43 | The first twelve bytes of a reply, with flags 0x8180, one question and the answer count, which is zero for a missing domain |
| WireFormat.AnswerWire | internal/dns/build.go:45-53 | The bytes of one answer, its owner a pointer to offset 12 |
| WireFormat.ErrorWire | internal/dns/build.go:60-76 | The bytes of an error reply |
| WireFormat.DataWire | internal/dns/build.go:133-155 | What record data is written: the four bytes of exactly the printed quads and mapped addresses, the sixteen bytes of an address, a terminated name, and nothing for other texts and types |
| Messages.ParseResponseLoop | internal/dns/parse.go:46-86 | The method over the three section counts returns what the parse function returns on every byte string |
| Messages.ResponseBound | internal/dns/parse.go:46-147 | Whatever the counts claim, only A, AAAA, CNAME and SOA records with data are returned, at least 11 bytes of packet for each after the first 17, and an NXDOMAIN result has none |
| Records.UnpackRRSection | internal/dns/parse.go:102-147 | The loop, at every point where it can stop, returns the records, offset and success of the section function |
| Records.UnpackRR | internal/dns/parse.go:106-144 | A record that is read takes at least 11 bytes and stays in the packet; where reading fails, the offset handed on is in the packet too |
| WireFormat.AliasIsRead | internal/dns/parse.go:160-170 | CNAME data that is a well-formed name, compressed or not, shows the joined labels of that name |
| WireFormat.RecordIsRead | internal/dns/parse.go:106-144 | A record that lies in the packet byte by byte, name, type, class, TTL, length and data, is read with these and the text it shows: a quad, an address, an alias, or "300"; others are passed over up to their end |
| WireFormat.SectionIsRead | internal/dns/parse.go:102-147 | Records that follow each other are read in order, up to the end of the last |
| WireFormat.ResponseIsRead | internal/dns/parse.go:46-86 | Every well-formed response is read right: all records that show a text, from all three sections in order, with the minimum TTL, or no such domain, or the error code in its fourth byte |
| WireFormat.CutResponseIsEmpty | internal/dns/parse.go:66-82 | A response that is cut off behind one of its answers yields none of them |
| WireFormat.ResponseIsRefused | internal/dns/parse.go:46-61 | A packet without a header, or with another response code, is refused with that reason |
| WireFormat.QueryExact | internal/dns/parse.go:12-42 | A packet is taken as a query for a name and type exactly when it has a header with a question count that is not zero, and there the labels of that name and the bytes of that type; its first two bytes are the identity |
| Records.SectionBound | internal/dns/parse.go:102-147 | A section, complete or failed part-way, stops within the packet and used 11 bytes or more for each record |
| Records.EncodeU16 | internal/dns/build.go:170-174 | The two bytes read back as the number |
| Records.EncodeU32 | internal/dns/build.go:177-181 | The four bytes read back as the number |
| Records.AnswerIsRead | internal/dns/build.go:45-53 | An answer lying after the question, with data of a length that 16 bits can tell, is read with the question's name as owner, its own type, class and TTL, and up to its last byte |
| Records.AnswerEnds | internal/dns/parse.go:122-130 | With data of any length, it is read up to where the low 16 bits of the length point |
| IpText.AddressReads | internal/dns/build.go:133-155 | Printing a 4- or 16-byte address and parsing the text gives it back, 4-in-16 forms included |
| IpText.QuadIsPrinted | internal/dns/parse.go:150-156 | Four bytes are printed as four decimal numbers, first byte first |
| IpText.QuadExact | internal/dns/build.go:133-145 | A text is read as a quad exactly if it is how that quad is printed |
| IpText.AddressExact | internal/dns/build.go:133-150 | A text is an address exactly if it is a printed quad, or a colon is the first of dot, colon and percent sign and the IPv6 reader takes it |
| IpText.LawfulIsSatisfiable | internal/dns/build.go:133-155 | The law assumed of IPv6 text can be met, so what is proved under it says something |
| SurvivingData.PlainTextExact | internal/dns/parse.go:179-201 | The simple reader gives back an encoded name, and not the empty text, exactly when each label has 1 to 191 bytes |
| SurvivingData.NamesHaveShortRuns | internal/dns/parse.go:205-277 | No name read from any packet, through any pointers, has more than 191 bytes without a dot |
| SurvivingData.AliasExact | internal/dns/parse.go:160-170 | CNAME data written into a packet is read back from there exactly when each label has 1 to 191 bytes, the fallback through compression pointers included |
| SurvivingData.SurvivesExactly | internal/dns/parse.go:150-175 | Record data of any type is read back as written exactly when it is canonical |
| Replies.QuestionCopied | internal/dns/build.go:42 | The question of an accepted query, copied behind any header, is skipped to its exact end and read as the same name by both sets of rules |
| Replies.AnswersWalk | internal/dns/parse.go:102-147 | With data of less than 65536 bytes each, the answers asked for are walked to the exact end of the last, and all of them come back as they were, renamed, exactly when all are canonical |
| Replies.ResponseFraming | internal/dns/build.go:28-56 | With data of less than 65536 bytes each, a reply with records has the query's id and question byte for byte, the response bit, one question, and an answer count whose records end at the last byte, exactly when there are fewer than 65536 records |
| Replies.LongDataMisframes | internal/dns/build.go:50-52 | A single record with longer data makes a reply whose walk does not end at the last byte |
| Replies.ErrorFraming | internal/dns/build.go:60-76 | Every error reply is framed so too, without answers |
| Replies.ResponseRoundTrip | internal/dns/build.go:28-56 | With data of less than 65536 bytes each, parsing a built reply gives the same records in order under the question's name, with type, class, TTL and data, and the minimum TTL of the list, exactly when every record's data is canonical and there are fewer than 65536 records |
| Replies.ErrorRoundTrip | internal/dns/parse.go:46-86 | Parsing a built error reply tells no error, no such domain, or the code |
| DnsTypes.MinTTLFrom | internal/dns/parse.go:281-295 | The loop computes the least positive TTL or the default |
| DnsTypes.MinTTLMeaning | internal/dns/parse.go:281-295 | The reported TTL is positive; it is 300 when every TTL is zero or the largest value, and otherwise a TTL that occurs and is the least of the positive ones |
| Merge.Reduce | internal/upstream/manager.go:131-163 | The index map and in-place updates compute the merge function |
| Merge.DedupedMeaning | internal/upstream/manager.go:131-163 | The merge has one record for each (name, type, data) seen and no other, with the least TTL of that key |
| Merge.MergeExact | internal/upstream/manager.go:131-163 | Told by record fields: each record given has one of its name, type and data in the merge with a TTL no larger, there is only one such, and its TTL was given with that name, type and data |
| Merge.MergeKeepsOrder | internal/upstream/manager.go:131-163 | Merged records stand in the order in which their kind was first given |
| Merge.DedupedComeFrom | internal/upstream/manager.go:131-163 | Apart from its TTL, each merged record is one of those given |
| Merge.ReduceIsIdempotent | internal/upstream/manager.go:131-163 | Merging a merge changes nothing |
| Merge.ReduceIgnoresOrder | internal/upstream/manager.go:131-163 | The same records in any order or number merge to the same keys, least TTLs, count and reported TTL |
| Merge.ReducedTTLExact | internal/upstream/manager.go:131-163 | On every input the merged TTL is the minimum over the records whose key has no zero TTL |
| Merge.ReduceKeepsMinTTL | internal/upstream/manager.go:131-163 | It is the minimum TTL of the input exactly when that minimum is shown by a record whose key has no zero TTL, or no such record shows a TTL and the minimum is the default |
| Merge.UnmixedKeepsMinTTL | internal/upstream/manager.go:131-163 | In particular when no key mixes zero and positive TTLs, as when all TTLs are positive |
| Merge.ZeroTtlHidesPositive | internal/dns/parse.go:281-295 | Any record with a TTL, and the same record with a zero TTL, merge to the default TTL whatever the first was |
| Resolvers.ZeroTtlArrives | internal/dns/parse.go:281-295 | For every accepted query, a packet makes a resolver report two such records and their minimum TTL of 20, and merging them gives 300 |
| Merge.ResolveAll | internal/upstream/manager.go:41-97 | For every arrival order and every moment of the deadline: success exactly if some reply taken succeeded, then the merge of all of those; and which error otherwise |
| Merge.FanOutIgnoresOrder | internal/upstream/manager.go:41-97 | Neither success nor the records, TTLs and total TTL depend on the arrival order |
| Resolvers.ResolversExact | internal/upstream/udp/client.go:63-78 | Of a well-formed response both resolvers report the records that show a text and their minimum TTL, or a missing domain; another response code is an empty answer over UDP and a failure over DoH |
| Resolvers.DohIsFromWire | internal/upstream/doh/client.go:161-174 | A DoH answer is what a UDP resolver makes of the same bytes |
| Resolvers.ResponseData | internal/dns/parse.go:150-175 | All data of a parsed response is canonical but for aliases, which have no run of 192 bytes without a dot |
| Resolvers.MergedResult | internal/upstream/manager.go:41-97 | A merge of resolver results has distinct records with such data, no NXDOMAIN flag, and as TTL the least positive TTL of its records |
| Resolvers.RelayRoundTrip | internal/query/service.go:194-220 | With data of less than 65536 bytes each, what the resolvers parsed, merged and sent on, is parsed by the client unchanged, under the question's name and with the same TTL, exactly when no alias among the records has an empty label and there are fewer than 65536 records |
| Resolvers.WireRecordsRelayed | internal/dns/build.go:28-56 | So are any records with parsed data |
| Resolvers.DottedLabelIsRead | internal/dns/parse.go:179-201 | The simple reader can read such an alias: a label may hold a dot |
| Resolvers.DottedAliasArrives | internal/upstream/udp/client.go:63-78 | For every accepted query, a packet makes a resolver report such an alias |
| Resolvers.DottedAliasIsLost | internal/query/service.go:194-220 | A client does not get that alias back |
| CacheKeys.CacheKeyInjective | internal/query/service.go:132 | Different (domain, type) pairs have different keys, in the in-flight table and in the cache, even for domains with a bar |
| CacheKeys.PrefixExact | internal/cache/boltdb.go:86-88 | A key has the deletion prefix of a domain exactly if it is a key of that domain or of one that continues it with a bar |
| Slots.SlotInvKept | internal/query/service.go:132-154 | Every step of every request keeps: slots and live owners correspond one to one, channels are closed once and by their owner, waiters wait for an owner of their key |
| Slots.OneOwnerPerKey | internal/query/service.go:132-154 | There is at most one live owner of a key |
| Slots.DeletesOwnSlot | internal/query/service.go:149-153 | An owner's deletion removes its own slot and leaves every other owner's |
| Slots.WaiterIsServed | internal/query/service.go:134-136 | A blocked waiter's channel is closed, or its owner is live, has the slot and is not itself waiting |
| Slots.NoDeadlock | internal/query/service.go:86-221 | While a request is unfinished, it or the owner it waits for can step |
| Slots.NoSlotLeft | internal/query/service.go:149-153 | Once all requests are finished the table is empty |
| Progress.QuietEnds | internal/query/service.go:86-271 | A stretch of a run without arrivals and ticks is no longer than the work left at its start, refreshes included |
| Progress.StillMeansDone | internal/query/service.go:86-221 | Where no step is possible any more, every request is finished, no slot is left and no refresh is under way |
| Progress.StepsBounded | internal/query/service.go:86-271 | In every run, whatever arrives and however the clock moves, the steps of requests and refreshes are at most 22 for each arrival |
| Coalescing.CacheInvKept | internal/query/service.go:132-147 | Every step keeps what requests know of the cache: what an owner released, what a waiter may rely on, what was cached on arrival |
| Provenance.ProvenanceKept | internal/query/service.go:162-220 | Every step keeps each entry, in flight or in either layer, traceable to a resolve of its own pair or to the disk at startup, and what a refresh carries to a resolve of its pair |
| Provenance.CacheableIsSound | internal/query/service.go:207-215 | An entry built from what a resolver or the fan-out may report has parsed data, and lives for the least positive TTL but at least 300 seconds |
| Accounting.BalanceKept | internal/query/service.go:86-199 | Every step keeps the counters in balance with the requests |
| Runs.SlotSafety | internal/query/service.go:128-154 | In every state of every run: one owner for each key, slots exactly for the live owners, channels closed once by owners, someone able to step for each unfinished request, no slot left at the end |
| Runs.WaiterGoesUpstream | internal/query/service.go:138-147 | A waiter starts a resolve only behind an owner of its key that closed with no entry in either layer |
| Outcomes.SuccessIsAnswered | internal/query/service.go:194-220 | When the fan-out or the bootstrap resolver replies, the request's answer is exactly the records of that reply, and an entry with them was put in the hot layer and on disk for its pair |
| Outcomes.FailureExact | internal/query/service.go:194-199 | A request answers code 2 exactly if its resolve failed |
| Outcomes.OverrideExact | internal/query/service.go:102-110 | A request answers with an override exactly if it met one, and with just its records |
| Outcomes.OthersAreServedFromCache | internal/query/service.go:132-183 | A readable request that met no override and went through no resolve answers with the records of an entry that the hot layer had for its key after it arrived |
| Outcomes.UpstreamIsLastResort | internal/query/service.go:102-186 | A request goes upstream only after it met no override, found no live denial, and missed in the hot layer and on disk |
| Outcomes.OverridesComeFirst | internal/query/service.go:102-110 | A request is served from the cache only after it met no override |
| Outcomes.ChoicesExact | internal/query/service.go:103-110 | An override is met only for types 1 and 28 and with a record; a resolve may fail or reply, and only it |
| Outcomes.RefreshChoicesExact | internal/query/service.go:253-260 | A refresh that is fetching, and only such, may fail or get a reply |
| Outcomes.NegativeExact | internal/query/service.go:157-160 | Whatever the negative cache holds, exactly a domain with a live denial is denied, with code 3, and a denial lives for 300 seconds |
| Runs.Coalesced | internal/query/service.go:132-147 | When an owner resolved and answered, no request that waited on it started a resolve |
| Runs.StaleIsRefreshed | internal/query/service.go:163-183 | A request that found an entry answers with its records at once, and starts a refresh of the same pair exactly if the entry is stale |
| Runs.RefreshesEnd | internal/query/service.go:253-271 | Where no step is possible any more, each refresh failed, or stored an entry resolved for its own pair, which then has entries in both layers |
| Outcomes.RefreshIsStored | internal/query/service.go:253-271 | A refresh that got a reply ends stored: an entry with the records of that reply was put in both layers for its pair |
| Outcomes.RefreshFailureExact | internal/query/service.go:253-260 | A refresh fails exactly if its resolve did |
| Runs.StaleRefreshEnds | internal/query/service.go:163-183 | So ends, for the pair asked for, the refresh that a stale answer started |
| Runs.ServesStale | internal/query/service.go:162-183 | Once a pair has an entry, no request for it that arrives later resolves synchronously |
| Runs.EntriesLiveLongEnough | internal/query/service.go:207-215 | Every entry built at time T lives for the least positive TTL of its records, expires at T + 300 or later, and its remaining TTL stays between 300 and its TTL at every later clock value, without 32-bit overflow |
| Runs.NoCrossContamination | internal/query/service.go:162-220 | Records served, overrides apart, came from a resolve of the pair asked for or from its entry on disk at startup |
| Runs.ServedRecordsCanBeShown | internal/query/service.go:162-220 | They have a known type and data, if those on disk at startup had |
| Runs.ServedRecordsAreParsed | internal/query/service.go:162-220 | They have data as parsing gives it, if those on disk at startup had |
| Runs.RepliesReadBack | internal/query/service.go:86-221 | In every run, a request answered from cache or upstream sends bytes that parse back to exactly the records of a resolve of its own pair, or of its entry at startup, under the question's name, exactly when no alias among them has an empty label and there are fewer than 65536 of them (data of less than 65536 bytes each, startup entries with parsed data) |
| Runs.CountersConserve | internal/query/service.go:86-199 | Queries are hits, misses, unreadable packets and requests not yet classified; errors are unreadable packets and failed resolves; failed resolves do not exceed misses; latencies are the finished requests |
| Runs.NegativeCacheStaysEmpty | internal/query/service.go:201-205 | In every run the negative cache is empty and no reply says NXDOMAIN |
| Runs.RepliesAreFramed | internal/query/service.go:86-221 | In every run a finished request sends a reply exactly if its packet can be parsed, and with data of less than 65536 bytes each the reply is framed for that packet exactly when it has fewer than 65536 records |
| Runs.RepliesParse | internal/query/service.go:86-221 | With data of less than 65536 bytes each, any answer, an override's too, is parsed back to its records exactly when the data of each is canonical and there are fewer than 65536; a failed resolve is parsed as code 2 |
| ByteOrder.LessExact | internal/cache/boltdb.go:161-183 | Keys are ordered by the first byte that differs, a prefix first |
| ByteOrder.PrefixContiguous | internal/cache/boltdb.go:161-183 | In byte order, the keys with a prefix lie together |
| ByteOrder.Seek | internal/cache/boltdb.go:161-183 | The cursor finds the least key not before the given one, or there is none |
| ByteOrder.Next | internal/cache/boltdb.go:161-183 | The cursor goes on to the least key after the given one, or there is none |
| LayeredCache.Cache.constructor | internal/cache/boltdb.go:42-83 | Opening starts cold, and counts the size once |
| LayeredCache.Cache.Get | internal/cache/boltdb.go:101-140 | Returns what the one map has for the pair, promotes it, counts a hit or a miss, and keeps the hot layer contained in the disk |
| LayeredCache.Cache.Set | internal/cache/boltdb.go:143-158 | Both layers and the one map change at that key and nowhere else |
| LayeredCache.Cache.Del | internal/cache/boltdb.go:161-183 | Exactly the keys with the domain's prefix leave both layers |
| LayeredCache.Cache.DelFromBucket | internal/cache/boltdb.go:169-181 | The cursor walk deletes exactly the keys with the prefix |
| LayeredCache.Cache.List | internal/cache/boltdb.go:187-216 | Lists exactly the items whose key and value can be read, at most one for each key |
| LayeredCache.Cache.Close | internal/cache/boltdb.go:250-265 | Writing the hot entries again changes no key and no entry |
| LayeredCache.ItemOfKey | internal/cache/boltdb.go:194-210 | The key of any pair is listed as the pair itself or, with a bar in the domain, as the part before the first bar with the type scanned from what follows, or not at all |
| LayeredCache.ScanExact | internal/cache/boltdb.go:198-201 | The type of a key is scanned exactly as blanks, then a maximal run of digits with a 16-bit value |
| CacheSessions.Session | internal/cache/boltdb.go:42-216 | Any sequence of gets, sets, deletions, listings and reopenings gives the outputs and the final contents of one map from (domain, type) to entry, for all domains |
| CacheSessions.ListingExact | internal/cache/boltdb.go:187-216 | A listing is exactly the entries of the map if and only if no stored domain has a bar |
| CacheSessions.BarredDomainsMislisted | internal/cache/boltdb.go:194-201 | An entry whose domain is a lone bar is not listed, and one whose domain is "a", a bar and "5" is listed as of domain "a" and type 5 |
| CacheSessions.Perform | internal/cache/boltdb.go:42-216 | Each operation, a reopening included, keeps the cache standing for that map |
| CacheSessions.RepresentsAt | internal/cache/boltdb.go:86-88 | Looking up a key is looking up its pair |
| CacheInterleaving.GetReturnsKnown | internal/cache/boltdb.go:101-158 | Under every interleaving, what a Get returns was given to a Set of that key already begun, or was on disk at the start |
| CacheInterleaving.LaterGetsHit | internal/cache/boltdb.go:101-158 | Once a key is in a layer and while no deletion steps, every Get that begins later and finishes hits |
| CacheInterleaving.SparedKeysStay | internal/cache/boltdb.go:161-183 | A deletion leaves the keys of other prefixes alone: until one of a prefix of the key begins, the key stays in a layer once it is in one |
| CacheInterleaving.HitsAndMisses | internal/cache/boltdb.go:101-140 | Hits and misses together are the completed Gets |
| CacheInterleaving.PromotionUndoesSet | internal/cache/boltdb.go:128-133 | A run in which a promotion puts an old entry over a completed Set, so that the layers differ |
| CacheInterleaving.SetsCross | internal/cache/boltdb.go:143-158 | A run in which two Sets of one key cross, so that the layers differ |
| CacheInterleaving.CoherentExactly | internal/cache/boltdb.go:101-183 | What is hot staying what is, or is about to be, on disk: each step keeps this exactly under a guard on stores, promotions and deletions of that key |
| CacheInterleaving.CoherentRuns | internal/cache/boltdb.go:101-183 | Along every run it holds in all states exactly when all steps meet their guards |
| CacheInterleaving.OrderlyAgrees | internal/cache/boltdb.go:101-183 | Then, whenever no Set of the key is between its two stores, what is hot is on disk |
| CacheInterleaving.IncoherenceShows | internal/cache/boltdb.go:143-158 | From any other state, the Sets under way can finish in an order that leaves the layers different |
| RuleScan.FindNames | internal/router/router.go:152-178 | The scanner returns the captured names of a line, in order |
| RuleScan.CapturesExact | internal/router/router.go:152-154 | A name is captured exactly if it is a maximal run of label bytes and single inner dots with at least one dot |
| NormalForms.LabelAlphabet | internal/router/router.go:152-154 | The bytes of a label are letters, digits, underscore and hyphen |
| Routing.Router.ParseRules | internal/router/router.go:156-178 | The loop adds exactly the normalized names of the lines before the whitelist, comments and headers apart |
| Routing.Router.Reload | internal/router/router.go:89-105 | The rules become those of the file, and the size their number |
| Routing.WhitelistStops | internal/router/router.go:156-178 | Lines after the whitelist marker have no effect |
| Routing.RulesAreNormal | internal/router/router.go:156-185 | Every loaded rule is a text of label bytes and dots that lowering and normalization leave alone, and has a dot |
| NormalForms.RulesExact | internal/router/router.go:156-178 | A text is a rule exactly if it has no capitals and is, in some case of its letters, a maximal dotted name of a line that is not empty and begins with neither "!" nor "[", before any line with "Whitelist" in it |
| NormalForms.NoCapitals | internal/router/router.go:180-185 | A normal form has no capital letters |
| NormalForms.CaseIsIgnored | internal/router/router.go:180-185 | Names that differ only in the case of their letters have one normal form |
| NormalForms.CoreIsNormalForm | internal/router/router.go:180-185 | Blanks around a lower-case name, and "http://", "https://" or both before it, are removed, and a name without them is left alone |
| NormalForms.RoutedAlike | internal/router/router.go:61-80 | Names that differ only in case are routed alike |
| Routing.ParentsExact | internal/router/router.go:61-80 | The parents that split and join visit are exactly the rules that the name ends with after a dot |
| Routing.Router.Route | internal/router/router.go:61-80 | The decision is proxy exactly if the normalized name is a rule or ends with a dot and a rule, and names the longest such rule |
| Routing.DecisionUnique | internal/router/router.go:61-80 | There is one such decision |
| Routing.RoutingIsMonotone | internal/router/router.go:61-80 | More rules never turn proxy into direct, nor shorten the rule |
| Routing.SubdomainsAreProxied | internal/router/router.go:61-80 | Every subdomain of a rule is proxied, by that rule or a longer one |
| Routing.LoadedRuleRoutes | internal/router/router.go:61-185 | Every loaded rule routes its own domain by that very rule |
| Routing.NormalizeTwiceDiffers | internal/router/router.go:180-185 | A doubled scheme prefix shows that normalization is not idempotent |
| Routing.NormalizeTwiceExact | internal/router/router.go:180-185 | Normalizing again changes the result exactly when the trimmed, lowered name has a scheme prefix and behind it white space or one scheme too many |
| Latency.LatencyTracker.Add | internal/upstream/doh/client.go:42-49 | The window becomes the last samples, as many as the buffer holds, the new one included |
| Latency.InsertionSort | internal/upstream/doh/client.go:66-70 | The in-place sort yields a sorted permutation |
| Latency.Sink | internal/upstream/doh/client.go:66-70 | Its inner loop brings one more sample to its place among the sorted ones |
| Latency.SortsUnique | internal/upstream/doh/client.go:66-70 | There is one sorted permutation, so ranks are well defined |
| Latency.LatencyTracker.Percentiles | internal/upstream/doh/client.go:53-89 | The figures are the samples at ranks n/2 and 99n/100 of the sorted window, the former no larger, and the mean, which lies between the least and the greatest; zeros without samples |

## Left out

- Sockets, HTTP, DoH and UDP exchange, TCP ping: a resolver is a free choice of
  bytes received or of an error. The 20-second deadline is the number of replies
  taken before it fires; it may be any.
- bbolt: the bucket is an ordered map with atomic transactions and no disk
  errors. After a cursor's deletion the cursor is taken to go to the next larger
  key.
- gob: a pair of functions, decoding being the inverse of encoding on entries.
- IPv6 text: a pair of functions with the law that parsing undoes printing, for
  addresses that are not 4-in-16; dotted quads are written out.
- Unicode case and white space in `normalize`, and the regular-expression engine:
  ASCII only, and a scanner in its place. Reading, downloading and decoding the
  rule file, and splitting it into lines.
- White space outside ASCII that the decimal scan in `List` would skip.
- The hit rate, disk size, last access and memory figures of the cache, and the
  wrap-around of the 64-bit counters.
- Atomicity below the listed steps, and Go's memory model.
- Deletions and closing while requests are under way: the service itself never
  deletes, so deletion is in `LayeredCache`, `CacheSessions` and
  `CacheInterleaving` but not in `Pipeline`.
- The choice of resolver pool by mode and route: which resolvers answer is free
  in `Pipeline`. Which domains are bootstrap hosts and which have overrides is
  free as well.
- The stores behind the negative cache and the overrides, host names in URLs,
  configuration, the web interface, the service manager and the front end.
- Replies.ResponseFraming: record data of less than 65536 bytes each; longer lengths are truncated on the wire, and `Replies.LongDataMisframes` shows what that does to a single record.
- Replies.ResponseRoundTrip: the same, since behind a truncated length the next record is read from the middle of the data.
- Resolvers.RelayRoundTrip: the same.
- Runs.RepliesAreFramed: the same.
- Runs.RepliesReadBack: the same, and does not cover overrides, whose text the user writes.
- Names.Decompression: names whose labels have 1 to 63 bytes; what the reader makes of longer labels, up to 191 bytes outside questions, and of malformed names is in `Names.BehindLabels`.
- Latency.LatencyTracker.Percentiles: exact real arithmetic, without floating-point rounding, so the ranks are floor(n/2) and floor(99n/100).
- CacheInterleaving.LaterGetsHit: says that a later Get hits, not which entry it returns; see `CacheInterleaving.PromotionUndoesSet`.
