# domaintest, verified core

A Dafny model of the parts of `domaintest` whose results rest on reasoning rather than on
plumbing, and proofs of what they promise. `dafny verify dfyconfig.toml` checks the project.

| modules | subject |
|---|---|
| `SpfTerms`, `SpfPrefixes`, `SpfWalk`, `SpfEvaluator` | the SPF evaluator of `mail.go`: the record parser, the redundant prefixes, and the stateful walk over includes and redirects |
| `SpfVisits`, `SpfCharges`, `SpfMeaning` | what records say, visit by visit, and what an evaluation comes to in these terms |
| `SpfTheorems`, `SpfInvariants`, `SpfCutoff`, `SpfCutoffExample` | what holds of every SPF evaluation, and what its cutoff does |
| `SpfProblems`, `SpfClassification` | the evaluator's problem texts and the table of `report.go` that turns them back into codes |
| `TxtPresentation`, `Records`, `WireFormat` | TXT decoding, and answer sizes against an encoder of DNS messages |
| `PreloadCache`, `PreloadProtocol`, `Sorting` | the HSTS preload cache: its file format, and the protocol by which processes share it |
| `Names` | tests on names by string suffix, and what they mean for labels |
| `RequestKeys`, `Redirects` | the redirect follower and the keys it knows requests by |
| `Dial`, `LookupCache`, `LookupProtocol`, `Slots`, `Wildcard` | the concurrency kernels: racing dials, the memo of lookups and the attempts behind it, the semaphores, staged wildcard probing |
| `Text`, `Arithmetic` | strings and numbers |

Main results:

- The cutoff of the SPF walk (more than 30 lookups, or a path longer than 20) never changes
  the verdict "over 10 lookups". Any evaluation counted at most 20 lookups is the same with
  and without it, in everything reported. The verdict is filed in the report exactly when the
  uncut count is over the limit, an error message that reads like the verdict aside. However many
  lookups there are, the cutoff only leaves things out: but for the number in a verdict it adds
  no include, problem or finding.
- The result of the evaluation without cutoff is given field by field in terms of the records
  it visits: lookups, void lookups, includes, all, and the exact cause of every problem. With
  the results on the cutoff this says what the evaluator counts and reports.
- Over any DNS, an evaluation makes at most 30 fetches behind the apex, along paths that
  repeat no domain.
- Every problem text the evaluator can emit is classed as itself. The one exception is an
  invalid name whose error message holds another problem's phrase; `InvalidFiled` says where
  each goes, and the theorems on whole evaluations count it in.
- Deleting the mechanisms `redundantIPs` names keeps the covered addresses per qualifier and
  leaves no prefix inside another.
- The size of a TXT answer is the length of the encoded message but for two things, both
  counted exactly: escapes in names, and over dog empty strings directly behind one of 255
  octets.
- However many processes share a preload cache, and wherever they crash: no two fetches at
  once, none while the cache is fresh, no torn file read, the lists put in place are dated at
  least a week apart, and what each process answers with is exact.
- In every interleaving of the lookups, a stored answer is a query's outcome or, exactly if
  the storing call's deadline ended while it waited for a slot, a timeout no query produced.
- A redirect chain is a first-repeat search over the URLs the server leads to: it stops at the
  first URL that repeats a request, with the hops before it, or behind eleven.

The class `SpfEvaluator.Evaluator` changes its fields as the source's evaluator does. Its
methods are proved to do what the functions of `SpfWalk` say, and the theorems are about
those. `SpfWalk` also has the walk without a cutoff, as a list of events over a finite zone;
it carries no state and terminates on the domains not yet on the path.

The redirect follower's server is a function of URL and address. A run fetches no URL twice,
since the second visit would close a loop, so a server that answers differently each time
shows one run no more than some function does.

Where the code and its comments disagree, the model follows the code. `run.go:62-64` says a
phase that is over leaves no timeout behind for later phases. The check there keeps that
promise, but a call that passes it and whose deadline ends in the queue of `limitedRunner` gets
a timeout from `dog.go:73-77` without dog having run, and `run.go:70-72` stores it.
`LaterPhasePoisoned` is such a run, and `StoredIsSourced` and `LaterPhaseAsksAgain` say exactly
when it happens.

The dog reader's joining of a 255-octet character-string with the next one is modelled as
`dog.go:263-269` describes it. The octets of a string in dog's JSON are taken to be those on the
wire, which TXT octets that are not UTF-8 need not be.

`udpAnswerOctets` is applied to lookups that dog made (`mail.go:174`, `mail.go:416`). The records
that dig prints carry the same lengths (`records.go:140-149`) but are not sized today, so
`DigAnswerExact` says what the formula would be worth for them.

## Model

| member | source | states |
|---|---|---|
| SpfTerms.ParseField | mail.go:231-241 | one field becomes the term the parser function gives: qualifier, name, argument, kind |
| SpfTerms.FieldTakenApart | mail.go:231-241 | what any field is parsed to: its qualifier, whether it is a modifier, the name in lower case and the argument, by the places of its delimiters |
| SpfTerms.ParseSpfTerms | mail.go:228-245 | all fields behind the version tag become terms, in order |
| SpfTerms.ParseInvertsWrite | mail.go:228-245 | for every list of well-formed terms, written with or without a leading +, parsing the record gives back the terms |
| SpfTerms.ParsedTermsSpaceFree | mail.go:228-245 | no name or argument of a parsed term holds white space, whatever the record |
| SpfTerms.IsSpfRecordMeans | mail.go:215-218 | a TXT record is an SPF record exactly when, white space aside, it starts with v=spf1 in either case and goes on with a space or not at all |
| SpfTerms.SpfRecordsSnoc | mail.go:193-201 | the SPF records of an answer are those among its records, in order and trimmed |
| SpfPrefixes.ParseMechanism | mail.go:337-350 | there is a mechanism exactly for an unmodified ip4 or ip6 that one of the two parsers takes; it has the term's text and qualifier and holds the addresses with the leading bits of the parsed prefix, or the one address parsed |
| SpfPrefixes.InsideIsLeadingBits | mail.go:320 | an address is inside a prefix exactly when it is of its family, 32 or 128 bits wide, and shares its leading bits |
| SpfPrefixes.PrefixesStandForTerms | mail.go:335-353 | the mechanisms of a record stand, in order, for exactly those of its terms that name addresses |
| SpfPrefixes.CoveredByTerms | mail.go:335-353 | an address is covered under a qualifier exactly when some term of the record with that qualifier holds it |
| SpfPrefixes.MaskedSameAddresses | mail.go:350 | clearing the host bits does not change which addresses a prefix holds |
| SpfPrefixes.SameAddressesSamePrefix | mail.go:323 | two masked prefixes are equal exactly when they hold the same addresses |
| SpfPrefixes.FindCover | mail.go:319-328 | the inner loop finds the first mechanism that covers one |
| SpfPrefixes.RedundantIPs | mail.go:315-331 | the mechanisms reported, each with its first cover, in order |
| SpfPrefixes.ReportedIsDropped | mail.go:315-331 | one problem for each redundant mechanism, in order, naming it and its first cover; the deletion drops these and keeps everything else |
| SpfPrefixes.RedundantMeansSubsumed | mail.go:311-331 | a mechanism is named exactly when another with its qualifier holds all its addresses; of two with the same addresses, exactly the later one |
| SpfPrefixes.CoverSurvives | mail.go:315-331 | following covers ends at a mechanism that is not named and holds all the addresses: no cycle of covers exists |
| SpfPrefixes.DeletionKeepsCoverage | mail.go:311-331 | deleting every named mechanism keeps, per qualifier, exactly the covered addresses |
| SpfPrefixes.DeletionLeavesNoneInside | mail.go:311-331 | afterwards no prefix lies inside another of its qualifier, copies included |
| SpfEvaluator.Evaluator.Problem | mail.go:205-209 | a problem is recorded once, and nothing else changes |
| SpfEvaluator.Evaluator.NoteInclude | mail.go:465-469 | a target is listed once, and nothing else changes |
| SpfEvaluator.Evaluator.Term | mail.go:371-382 | what a term without a target counts and reports |
| SpfEvaluator.Evaluator.NoteAll | mail.go:387-398 | what is reported of an all that passes or ignores everyone |
| SpfEvaluator.Evaluator.ApexSize | mail.go:403-410 | what is reported of the apex answer's size |
| SpfEvaluator.Evaluator.IncludeSize | mail.go:415-419 | what is reported of an included answer's size |
| SpfEvaluator.Evaluator.Walk | mail.go:251-274 | the whole new state, the all and the way to it are those of the specified walk |
| SpfEvaluator.Evaluator.Terms | mail.go:256-269 | the loop over the terms: the state, the all, the way to it, and whether a redirect was among them |
| SpfEvaluator.Evaluator.Redirect | mail.go:278-285 | a redirect counts one lookup and hands on its target's all |
| SpfEvaluator.Evaluator.Mechanism | mail.go:288-302 | an include counts one lookup, descends, and reports a target that passes everyone |
| SpfEvaluator.Evaluator.Descend | mail.go:426-443 | macros, invalid names, loops and the cutoff, in the source's order |
| SpfEvaluator.Evaluator.Enter | mail.go:444-462 | the fetch, the unanswered, void and missing cases, and the walk of the record found |
| SpfEvaluator.RecordAll | mail.go:357-364 | the first all mechanism, qualified |
| SpfEvaluator.EvaluateSPF | mail.go:164-191 | every field of the result is that of the specified evaluation |
| SpfTheorems.WalkAgrees | mail.go:426-462 | from any state with as many lookups as path steps, the cut walk and the uncut walk agree in everything, or both have counted more than 20 lookups |
| SpfTheorems.DescendAgrees | mail.go:441-443 | lookups are at least the path length whenever a target is descended into, so a cut happens only beyond any limit |
| SpfTheorems.CutoffInvisible | mail.go:164-191 | over every finite zone the cutoff never changes "over 10 lookups"; at up to 20 lookups every field of the result is the same |
| SpfTheorems.StateIsTally | mail.go:154-161 | the counters are the numbers of counted events, the lists hold what was included and reported |
| SpfTheorems.FetchedExactly | mail.go:426-444 | a target that is a name off the path is fetched if and only if at most 30 lookups are counted and at most 20 domains are on the path, and is listed in any case |
| SpfCharges.WalkWeight | mail.go:251-302 | whatever price is put on each kind of event, the events of an uncut walk cost what its record does, a visit being set off against the answer and the record it brings |
| SpfMeaning.LookupsAreCounted | mail.go:278-302 | section 4.6.4 of RFC 7208: the lookups of an uncut evaluation are the terms a, mx, ptr and exists, the includes, and the redirects beside no all, of the apex record and of every record visited, once for each visit |
| SpfMeaning.VoidsAreCounted | mail.go:451-454 | its void lookups are the visits whose answer is definite and holds no TXT record |
| SpfMeaning.VisitsAreExact | mail.go:421-462 | a domain is visited behind a path once for every visit of that path and every include or followed redirect there that leads to it: one with a target that is a name off the path |
| SpfMeaning.IncludesAreVisited | mail.go:440 | the includes are the domains visited |
| SpfMeaning.AllIsWhereItEnds | mail.go:251-285 | the all is the apex record's own first, else that of its last redirect's target, followed on |
| SpfMeaning.ProblemsAreCaused | mail.go:164-191 | the problems are exactly those with a cause: an apex answer over 512 or 450 octets, several records; on each visit an unanswered, missing or oversized record, a ptr, an unknown mechanism, an invalid name, a loop, an include that passes everyone, a redundant prefix; no all at the apex; an all that passes or ignores everyone; over 10 lookups; over 2 void lookups |
| SpfMeaning.RestOfResult | mail.go:164-174 | the number of records and the apex answer's size, and nothing without an SPF record |
| SpfTheorems.RedirectsIgnored | mail.go:251-274 | section 6.1 of RFC 7208: deleting all redirects of a record that has an all changes nothing in its evaluation, and its all is its own |
| SpfInvariants.WalkInv | mail.go:251-302 | a walk over arbitrary DNS keeps the bound on fetches, simple paths, duplicate-free lists and meaningful problems |
| SpfInvariants.FetchesBounded | mail.go:426-462 | at most 30 fetches behind the apex, each along a path from the apex of at most 21 domains without repetition; no include or problem twice |
| SpfInvariants.EveryProblemClassified | report.go:1404-1455 | every problem in any evaluation's result is the text of one that can be emitted, filed under the code and severity meant for it if and only if it is no invalid name with another problem's phrase, and under that phrase's else |
| SpfInvariants.OneMeaning | report.go:1423-1440 | no text is that of two such problems of different kinds, so the kind it is filed under is the kind it was emitted as |
| SpfInvariants.VerdictsFiled | report.go:1404-1455 | the report files too many lookups, or too many void lookups, if and only if the evaluator counted more than 10, or more than 2, or the name normaliser complained of a reported name in the words of that verdict; one that is honest never does |
| SpfInvariants.CutoffNeverFiled | mail.go:183-185 | the same with the count of the evaluation without cutoff: the report on too many lookups never depends on the cutoff |
| SpfCutoff.WalkWithin | mail.go:426-462 | from any state, the events of the cut walk are those of the uncut walk with some left out, and its all is the uncut one or none |
| SpfCutoff.CutoffOnlyOmits | mail.go:164-191 | over every finite zone, however many lookups it takes, the cutoff only leaves things out: counts are at most the uncut ones, includes and problems among the uncut ones but for the number in a verdict, the all the uncut one or none |
| SpfCutoff.CutoffAddsNoFinding | report.go:1404-1455 | every code the report files of an evaluation it also files of the one without cutoff |
| SpfCutoffExample.VoidVerdictHidden | mail.go:441-443 | a record for which void lookups over the limit are counted without the cutoff and none with it |
| SpfProblems.FirstMatch | report.go:1446-1450 | the class found matches and none before it does |
| SpfProblems.SpfProblemClass | report.go:1445-1455 | the loop returns the first matching class, else one of the two fallbacks |
| SpfProblems.EdnsNoteWhen | mail.go:136-141 | the clause on the EDNS buffer is there exactly for an answer over 1232 octets |
| SpfClassification.ClassifyRender | report.go:1423-1455 | for every problem that can be emitted, with any names, numbers, paths and messages, the text falls to the code and severity of its class, which is its own but for an invalid name with another's phrase |
| SpfClassification.ReportGrades | report.go:1423-1440 | the code and severity of every kind of problem, by kind |
| SpfClassification.InvalidFiled | report.go:1446-1450 | an invalid name falls to the first class whose phrase its message holds, else to its own |
| SpfClassification.ClassifyInvalid | report.go:1423-1455 | an invalid name is classed as one exactly when the name parser's message holds none of three phrases |
| SpfClassification.MisleadingMessage | report.go:1423-1455 | a message with which it is not |
| TxtPresentation.DecodeEscape | records.go:207-219 | the octet and the end of a decimal escape, an escaped character, or a lone backslash |
| TxtPresentation.TxtStrings | records.go:178-202 | the strings are those the reading function finds, for any rdata |
| TxtPresentation.DecodeInvertsEncode | records.go:178-219 | for every non-empty list of octet strings and every style per octet that section 5.1 of RFC 1035 allows, decoding gives back the list |
| Records.UdpAnswerOctets | records.go:246-263 | the size computed is the sum over the counted records; 0 for other types |
| Records.OthersAddNothing | records.go:256-261 | records of other types add nothing to the size |
| WireFormat.WireNameLenExcess | records.go:232-238 | for every printed name, escapes included, the length exceeds that of its encoding by 1 for each octet behind a backslash and 3 for each in decimal, less 1 when an escaped final dot is taken for the root's |
| WireFormat.WireNameLenIsEncoded | records.go:232-238 | for an absolute name it is the encoded length if and only if nothing is escaped |
| WireFormat.EscapedNameMeasured | records.go:232-238 | a name for which it is 3 octets more |
| WireFormat.DigRecordLength | records.go:141-146 | the joined text and the length kept for a TXT record that dig printed |
| WireFormat.DigTxtLengthIsEncoded | records.go:144-146 | that length is the encoded rdata's |
| WireFormat.DogRecordLength | dog.go:252-256 | the length kept for a TXT record that dog sent |
| WireFormat.DogTxtLengthDeficit | dog.go:263-275 | that length falls short of the encoded rdata by one octet for each empty string directly behind a 255-octet one, and by nothing else |
| WireFormat.DogTxtLengthExact | dog.go:263-275 | it is exact if and only if there is no such string |
| WireFormat.EmptyStringSwallowed | dog.go:263-275 | a record for which it is one octet short |
| WireFormat.AnswerOctetsIsMessageLength | records.go:240-263 | for any lookup, the size is the length of the encoded message of its TXT and CNAME records, plus what escaped names add and less the octets dog's joining loses |
| WireFormat.DigAnswerExact | records.go:240-263 | over dig, with absolute names, the size is the encoded message's length if and only if no name of the answer holds an escape |
| WireFormat.DogAnswerExact | records.go:240-263 | over dog it is that length if and only if escapes add what the joining loses; with no escaped name, if and only if no TXT record holds an empty string directly behind a 255-octet one |
| Sorting.ListingUnique | preloadlist.go:268 | a set of strings has one sorted listing |
| Sorting.LessIsBytewise | preloadlist.go:268 | the order of strings is that of their first difference, and a prefix comes first |
| PreloadCache.MarshalCache | preloadlist.go:263-284 | the text is header and lines over the sorted names, whatever order the map gives them in |
| PreloadCache.UnmarshalCache | preloadlist.go:289-310 | what a text is read as, damage included |
| PreloadCache.CacheTextUnique | preloadlist.go:261-284 | the file is reproducible: entries and stamp determine the text |
| PreloadCache.OneEntryText | preloadlist.go:261-284 | the text of a list of one entry, character by character |
| PreloadCache.ParseLineInverts | preloadlist.go:325-335 | a line is read back as the entry it was written for |
| PreloadCache.ParseCutLine | preloadlist.go:325-335 | a line cut short is refused, or names the same entry and flag with a policy cut short |
| PreloadCache.ParseLineExactly | preloadlist.go:325-335 | three fields are taken exactly when the name is not empty and the flag is one that Go reads as a bool |
| PreloadCache.CacheRoundTrip | preloadlist.go:263-310 | reading what was written restores every name, flag and policy, and hands the header's stamp to the time parser unchanged |
| PreloadCache.TruncationHarmless | preloadlist.go:286-310 | any truncation still accepted has only original names, their flags, policies that are prefixes of the originals, and the whole stamp |
| PreloadCache.EmptyListRefused | preloadlist.go:306-308 | a file cut off directly behind its header is refused |
| PreloadCache.AcceptedHoldsEntries | preloadlist.go:289-308 | whatever the text, an accepted list holds an entry and starts with this version's header |
| PreloadProtocol.NextInv | preloadlist.go:349-533 | every step of every process, crashes included, keeps the invariant: the lock and critical section agree, the file is whole, a refresh sees no fresh file, writes are spaced |
| PreloadProtocol.FetchesNeverOverlap | preloadlist.go:442-460 | in every run at most one process is between the start of its fetch and the placing of its result |
| PreloadProtocol.NoFetchWhileFresh | preloadlist.go:462-468 | no fetch starts while a fresh cache exists, even one written while the process waited |
| PreloadProtocol.AnswersFromRecentCache | preloadlist.go:447-467 | a process answers from the cache if and only if what it read is less than seven days old when it decides; else it waits for the lock or, holding it, fetches |
| PreloadProtocol.ReadsThePath | preloadlist.go:484-493 | what it read is what was at the path, and under the lock still is |
| PreloadProtocol.FailedFetchAnswers | preloadlist.go:468-475 | after a failed fetch a load answers with the list at the path if and only if one can be read there; a warm-up never does |
| PreloadProtocol.FetchedAnswers | preloadlist.go:476-481 | after a fetch a process answers with what it fetched, written or not |
| PreloadProtocol.NoListOnlyIf | preloadlist.go:454-475 | over a whole run, a load is left without a list only if it gave up waiting for the lock, or its fetch failed with nothing readable at the path |
| PreloadProtocol.ReadersSeeWholeFiles | preloadlist.go:349-380 | neither the cache path nor any answer read from it is ever a partly written file |
| PreloadProtocol.DownloadsBounded | preloadlist.go:442-482 | header times of successive writes are at least seven days apart, and by time T at most 1 + (T - start) / seven days lists were written |
| Names.SuffixIsAncestor | reserved.go:34 | a string suffix behind a dot is exactly a proper suffix of the label list |
| Names.StatusOf | preloadlist.go:97-118 | the exact entry, else the nearest ancestor that includes subdomains, and absent only when there is none |
| Names.ReservedOnce | reserved.go:16-24 | no name is under two of the reserved suffixes |
| Names.ReservedName | reserved.go:28-39 | the RFC of the suffix the name is at or under, whatever order the map is iterated in, and none exactly when there is no such suffix |
| Names.MatchesAny | mail.go:743-760 | the host is a pattern's name, or exactly one label below that of a "*." pattern; a pattern that is no name matches nothing |
| Names.InBailiwick | nsaudit.go:382-392 | exactly the names whose labels end in the zone's, sorted and once each |
| Names.EnclosingZone | run.go:358-367 | the first SOA owner in the order asked that lies strictly above the name, root excepted, normalised; none exactly when there is no such owner |
| RequestKeys.RequestKey | webconsistency.go:123-141 | the key grown piece by piece is the printed one, and none for what is no HTTP URL with a name |
| RequestKeys.KeyGiven | webconsistency.go:123-127 | there is a key exactly for an http or https URL whose host is a name |
| RequestKeys.KeyUnambiguous | webconsistency.go:111-141 | two URLs have the same key if and only if scheme, name and query are the same, the ports are the same or both the scheme's 80 or 443 or none, and the paths are the same or both "/" or none |
| Redirects.RedirectChain.Admit | httpprobe.go:198-223 | a repeated request closes a loop; else the request is remembered and the chain connects or ends, its fields agreeing with the reason |
| Redirects.RedirectChain.Advance | httpprobe.go:227-243 | a response leads onward, or ends the chain with fields that agree with the reason |
| Redirects.RedirectChain.Turn | httpprobe.go:176-188 | one turn of the loop: what is remembered, what is recorded, where it leads |
| Redirects.SeenMeansRepeat | httpprobe.go:199-207 | the set of keys tells exactly whether an earlier URL made the same request |
| Redirects.OneVisit | httpprobe.go:194-206 | two URLs count as one visit exactly when they make the same request, or make none and are the same text |
| Redirects.FollowRedirects | httpprobe.go:171-192 | ends in a loop if and only if some URL up to the eleventh repeats a request, and then at the first that does, with one hop for each URL before it; at the hop limit if and only if eleven different requests all lead onward, and then behind eleven hops; hop by hop, a hop carries the status and Location of the response from its host's address, its status is 301, 302, 303, 307 or 308, and the next URL is that Location, of at most 4096 octets, resolved against it; a chain that ends final stopped at a hop that does not redirect, external at a URL of an unknown host, with an error at one that cannot be requested or a Location that cannot be followed |
| Dial.DialFirst | mail.go:828-846 | for every order of arrival the first connection is kept and all later ones closed; it fails exactly when every dial did, with the last error |
| Dial.ResultsConserved | mail.go:821-831 | in every run, dials under way, results in the channel and results received are as many as the addresses, and what was sent is what was received and what is in the channel, in order |
| Dial.SenderNeverBlocks | mail.go:821-827 | whenever a dial has yet to send there is room in the channel |
| Dial.EndsWithAllReceived | mail.go:828-846 | when nothing can move, every result sent has been received, one for each address |
| Dial.EveryConnectionAccounted | mail.go:814-846 | at the end of any run, the connections any dial made are exactly the one returned and those closed, and the dial fails exactly when none was made |
| LookupCache.KeyUnambiguous | run.go:53 | a key stands for one name and one type, whatever characters the name holds |
| LookupCache.Cache.Recall | run.go:54-57 | the first visit under the mutex: the entry, or else the current phase |
| LookupCache.Cache.Store | run.go:70-72 | the second visit: one entry is set and nothing else changes |
| LookupCache.Cache.Get | run.go:45-74 | the answer and the new memo in each of the four cases of an undisturbed call |
| LookupCache.Cache.SetContext | run.go:31-35 | only the phase changes |
| LookupCache.Cache.DropTrust | run.go:661-671 | the keys stay, every entry has no trust, and every other field of it is as before |
| LookupProtocol.NextInv | run.go:45-74 | every step of every call, of the deadlines and of the semaphore keeps the invariant: entries and answers are copies of what some call stored, and what a call stores is its query's outcome or, when none was started, a timeout |
| LookupProtocol.BegunUnlessStarved | runner.go:114-124 | a call that is through had dog started for it if and only if its deadline did not end while it was still in the queue |
| LookupProtocol.StoredIsSourced | run.go:61-74 | in every interleaving an entry is the outcome of a query its storing call ran for that same name and type, its trust possibly erased; or a made-up timeout, if and only if the deadline of that call ended between its check and its slot |
| LookupProtocol.StoredIsReal | run.go:61-74 | so every entry is a real outcome when no deadline of a call for its question ends in the queue |
| LookupProtocol.DropLeavesNoTrust | run.go:661-671 | the step that drops trust leaves none in any entry, and changes nothing else |
| LookupProtocol.RetriesOnce | dog.go:48-57 | a second attempt is made exactly when the first timed out with time left |
| LookupProtocol.AnswersExplained | run.go:45-74 | what a caller gets has one of these two sources, told apart the same way, or its phase was over when it came |
| LookupProtocol.StoredExactlyWhen | run.go:61-72 | with no call on its way, a question is stored if and only if a query was run for it or a call for it was starved in the queue; a phase over at the check leaves nothing |
| LookupProtocol.LaterPhaseAsksAgain | run.go:61-66 | with no query run for its question yet, a call misses and goes on under its own phase if and only if no starved call has stored; else it gets that call's timeout |
| LookupProtocol.LaterPhasePoisoned | dog.go:73-77 | a run in which the promise of run.go:62-64 fails: no query was ever run, the phase is live, and the caller gets the stored timeout |
| LookupProtocol.KeysKept | run.go:70-72 | no key is ever removed |
| LookupProtocol.NeverAskedAgain | run.go:20-28 | once stored, with no call on its way past a miss, no query for the question is run again |
| LookupProtocol.DogsWithinCap | runner.go:94-124 | composed with the semaphore, no more dog processes of the cache's lookups run at once than the cap allows, whatever other tools do with their slots |
| LookupProtocol.HeldUpOnlyForSlot | runner.go:114-124 | a call that has not returned is held up if and only if it waits with its deadline ahead and every slot taken |
| Slots.NextInv | runner.go:114-124 | every step keeps tokens equal to the calls inside and within the cap |
| Slots.NeverOverCap | run.go:801-803 | at no time are more calls inside than the cap |
| Slots.AllTokensReturn | runner.go:114-124 | once every call has returned or given up, failures included, all tokens are back |
| Slots.ReturnNeverBlocks | runner.go:117 | a call inside can always give its token back |
| Wildcard.SetWildcardVerdict | wildcard.go:174-195 | the verdict and the probe that decides it: the first denied, else the first unresolved |
| Wildcard.AssessWildcard | wildcard.go:150-169 | the status: absent when probing was skipped, unknown without probes, else the verdict on all outcomes |
| Wildcard.VerdictEvidence | wildcard.go:113-195 | present if and only if every random name has an address or an alias; absent if and only if one is known not to exist |
| Wildcard.VerdictUnordered | wildcard.go:174-195 | permuting the probes does not change the verdict |
| Wildcard.ProbeWildcard | run.go:528-546 | the probes issued are those of the first name, and of all names in order when it answers |
| Wildcard.StagedSound | run.go:520-546 | whichever name is asked first, an early absent is the verdict on all names, present is never gained or lost, an early unknown could not have become present; the verdicts differ exactly for an unresolved first name with a denied one behind it |
| Wildcard.SameAddressSet | report.go:756-770 | the loop decides equal length and inclusion of the second in the first |
| Wildcard.SameSetDecided | report.go:756-770 | on lists without repetition that is set equality |
| Wildcard.DecidesExactly | report.go:756-770 | the lists that compare rightly with every list free of repetitions, as first argument or as second, are exactly those free of repetitions themselves |
| Wildcard.RepeatedAddressAccepted | report.go:756-770 | with a repeated address in the second list the test is one-sided: [1, 1] passes for the set of [1, 2] |

## Left out

- Running dog, dig and quicprobe, sockets, TLS, HTTP reading, RDAP and JSON shapes: foreign calls, whose results are parameters here.
- The name normaliser (`dnsName`, `bareName`, `fqdnOf`), `netip` parsing, `url.Parse`, `Parse` of references, `time.Parse` and `ToValidUTF8` are functions given to the model; their code is not part of this model.
- Strings hold one octet per character. Case folding and white space are ASCII's.
- The findings of report.go other than SPF's, CAA, TLSA, DNSSEC and delegation: decision tables that one branch settles.
- Flags, versions, regular expressions that scrub messages, and the wording of messages other than SPF problems, `clipLocation` and the follower's errors.
- `cachedList`, `fsCause` and the notes on a list: a cache that cannot be read is a missing or damaged file.
- Two processes that find different lock paths (`lockPath`) do not exclude one another; the protocol has one lock. So does a process that caches nowhere, which takes no part.
- Deadlines are abstract: a phase, a call or a first attempt is over or not, and a waiter gives up or not. How long half of what is left lasts (`firstAttemptContext`) is not modelled.
- Cancellation other than by a deadline, and the retry count and error text of a lookup.
- The evaluator's `lookup` is a function of the name, as the memo makes it within one evaluation; its trust field plays no part there.
- `wwwIsWildcard`, `probesAgree`, `unionAddrs` and `wildcardSkipReason`: single tests that no verdict on the probes depends on; the skip reason is a parameter.
- An unlimited runner (`limitRunner` with a cap of 0 or less) has no semaphore and is not modelled.
- CNAME targets are encoded without compression, as `udpAnswerOctets` counts them; a server that compresses them sends fewer octets.
- SpfInvariants.EveryProblemClassified: asks that the normaliser returns names without spaces, which domain names are.
- SpfInvariants.VerdictsFiled: the same.
- SpfInvariants.CutoffNeverFiled: the same.
- SpfMeaning.ProblemsAreCaused: says which problems and includes there are, not their order; `SpfInvariants.FetchesBounded` says that none is listed twice.
- SpfCutoff.CutoffOnlyOmits: which problems are left out beyond 20 lookups is not characterised; `CutoffInvisible` says that none is up to there.
- WireFormat.DigAnswerExact: asks for absolute names, as dig prints them; `AnswerOctetsIsMessageLength` covers the others.
- PreloadCache.CacheRoundTrip: asks for names and policies without tab or newline, which `cachePolicy` ensures for policies, and an entry at least, the empty list being refused.
- Redirects.FollowRedirects: says that an error text is there, not its words.
