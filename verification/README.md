# Deployment logic of pulumi-defang, modelled in Dafny

The providers and the CD program of this repository decide in which order services are deployed, which
permissions they get, how a build machine is created and removed again, and which names, records, schedules
and sizes the cloud is asked for. The modules below model those decisions and prove what they promise.
`dafny verify dfyconfig.toml` checks the whole project.

Code that changes state step by step is a class or a method with loops, proved against a specification;
code that only computes is a function. The order in which Go ranges over a map is an arbitrary choice, made
afresh in every run: a `:|` inside the loop, or the parameters `roots` and `ranges` where a result depends on
it. A call to a cloud API is a nondeterministic step that may fail, and a failed call may or may not have
taken effect.

| module | subject |
|---|---|
| Options, Selections, Strings, Decimal | shared by the others |
| Compose, Topo, AwsBuild | service graphs, the deployment order, and the AWS project loop over it |
| Teardown | one Scaleway build instance, from creation to the last deleted volume |
| Extract | finding JSON objects in mixed output |
| Shell, Ordering | rendered command lines, read back by the shell's own rules |
| Cron, Calendar | when a yearly cron expression first fires |
| LineWriter | whole lines out of arbitrary chunks, filtered |
| Dns, CustomDomain | zones, record names, and which hostnames get records and certificates |
| S3, Image, Naming | endpoint hosts, image references and target group names |
| EnvVars, Fargate, Probe, Autonaming | container environments, task sizes, health probes, a nested setting |

## Where the code falls short of its comments

Each of these is a proved statement about the code as it is, next to the condition under which the code
does keep the promise.

- The fold keeps a parent's own `depends_on` on its sidecar, an edge `collectDeps` is careful to skip. The
  deployment order then contains the sidecar as a service of its own, which reads as a container without an
  image, and the build stops (`AwsBuild.OwnSidecarDangles`). The same goes for an optional dependency on a
  service that does not exist (`AwsBuild.DanglingStops`; the exact condition is `AwsBuild.FinishesExactly`).
- A required dependency on a cycle makes some key order fail the build (`AwsBuild.RequiredCycleStops`). With an
  optional one, a store that reaches its user back can be created after it, and the grant is silently skipped
  (`AwsBuild.BucketSkipped`; `AwsBuild.BucketGranted` says when it is not).
- On a cycle the sort can emit a name before a transitive dependency (`Topo.TransitiveOrderNeedsAcyclicity`). A
  name has everything it reaches in front of it in every run, iff it lies on no cycle through another name
  (`Topo.ReachedFirstExactly`).
- A build server that already answers 404 when it is listed takes the ids of its volumes and IPs with it:
  they stay behind without a warning, and no deletion is even tried (`Teardown.Job.TeardownServer`). A server
  whose creation took effect but whose reply was lost is never torn down (`Teardown.RunInstanceBuild`).
- The log window opens at a fixed time and answers 1000 lines at most. A build that writes as many before its
  marker is never seen to end, and a marker that an earlier build of the same destination left in the window
  decides the new one (`Teardown.OwnVerdictExactly`). So does a marker among the lines docker prints, and a
  printed line `BUILD_EXIT=0` passes for success (`Teardown.OutcomeReportedExactly`).
- `ByodRecordEligible` is meant to say whether records would be created. The two sides differ on exactly the
  hostnames that normalise to nothing and on `*` followed by two dots or more
  (`CustomDomain.AgreementExactly`). The first kind takes a zone map written by hand: the lookup files nothing
  under the empty name, and with at most one trailing dot both sides follow the listing
  (`CustomDomain.RecordsFromListing`).
- A record name `@` made from the host `@.<zone>` stands for the zone itself (`Dns.RelativeRebuilds`).
- A bucket that ends in `s3` or `s3.dualstack` is cut short in front of a legacy endpoint
  (`S3.BucketRecovered`).
- The user's own DEFANG_SERVICE, DEFANG_ETAG or DEFANG_FQDN ends up twice in the environment, although the
  code takes care not to set AZURE_CLIENT_ID twice (`EnvVars.NamesDistinctExactly`).
- The self-destruct trigger is exact up to 364 days and fires too early from 366 days on
  (`Cron.FiresOnceItIsDue`, `Cron.FiresTooEarly`; between the two `Cron.FirstMatchIff` decides).
- Above 122880 MiB the search for a Fargate size ends in the panic (`Fargate.FargateResources`).

## Model

| member | source | states |
|---|---|---|
| Topo.Sorter.Visit | provider/common/topo.go:9-19 | entering a name does exactly what depth-first post-order prescribes for the order in which this run ranges over each name's dependencies |
| Topo.EnterKeeps | provider/common/topo.go:9-19 | whenever the names on the recursion stack all reach the one entered: the order is kept, the stack is left as it was, and only names reachable from it are emitted |
| Topo.TopologicalSort | provider/common/topo.go:5-26 | for every graph, cyclic or not, and every order of every map range: no duplicates; exactly the keys and what they reach, names missing from the map included; each dependency before its dependent unless it reaches it back; everything a name reaches before that name unless the name and another one reach each other; all the first key reaches comes before it |
| Topo.SortedInOrder | provider/common/topo.go:5-26 | the same of the order any choice of ranges prescribes |
| Topo.EmitKeepsOrder | provider/common/topo.go:15-18 | appending a name keeps the order, of direct and of transitive dependencies, when its dependencies have been entered and every open name reaches it |
| Topo.LeavesThroughOpen | provider/common/topo.go:10-18 | a path from a name out of what has been emitted passes a name on the stack, so the two reach each other |
| Topo.ClosedUnderPaths | provider/common/topo.go:15-17 | a set closed under direct dependencies holds everything reachable from its members |
| Topo.AcyclicOrder | provider/common/topo.go:5-26 | on an acyclic graph every order of the sort respects transitive dependencies throughout |
| Topo.UntangledOrder | provider/common/topo.go:5-26 | on any graph it does so for every name that lies on no cycle through another name |
| Topo.PathOrder | provider/common/topo.go:15-18 | along any dependency path from such a name the end is emitted before the start |
| Topo.ReachedFirstExactly | provider/common/topo.go:5-26 | in every run, whatever order maps are ranged over, everything a name reaches comes before it, iff the name lies on no cycle through another name |
| Topo.EntangledComesLate | provider/common/topo.go:21-23 | a run that starts at the other name of such a cycle emits the first one before it |
| Topo.TransitiveOrderNeedsAcyclicity | provider/common/topo.go:10-19 | a graph with a cycle and an order of its map ranges for which the sort emits a name before a transitive dependency that does not reach it back |
| AwsBuild.PartitionSidecars | provider/defangaws/project.go:26-52 | succeeds iff every sidecar has an existing, standalone, unmanaged parent; then exactly the services without a parent are standalone and each group holds exactly the services that name its parent, unchanged; an error names a sidecar that has the fault it reports |
| Compose.SidecarParentMeaning | provider/compose/types.go:203-210 | a service is a sidecar of a parent iff its network mode is "service:" and that name; an empty name makes none |
| AwsBuild.MergeOne | provider/defangaws/project.go:417-424 | one sidecar adds exactly its dependencies that lead out of the group, and replaces no entry |
| AwsBuild.MergeDeps | provider/defangaws/project.go:414-425 | the merged keys are the parent's own and all that lead out of the group; the parent's entries win, any other entry is one of the sidecars' |
| AwsBuild.FoldSidecarDeps | provider/defangaws/project.go:400-430 | every standalone service keeps its configuration save that its dependencies gain exactly those its own sidecars declare outside the group |
| AwsBuild.CollectDeps | provider/defangaws/project.go:340-358 | the handles are exactly those of the dependencies created so far, own sidecars apart; fails iff a required one is missing, and names one such |
| AwsBuild.ObjectStoreGrants | provider/defangaws/project.go:368-387 | a service is granted exactly the buckets of the stores created so far that it depends on, each with its own ARN |
| AwsBuild.NewService | provider/defangaws/project.go:457-536 | Postgres goes to RDS, else Redis to ElastiCache, else an object store to S3, and a service is a container iff it is none of them, as for a sidecar's parent; it carries its dependencies, and its grants if it is a container; it yields a bucket iff it is an object store; a container without image and build, or with a sidecar without image, never comes out of it |
| AwsBuild.DispatchedAsAsked | provider/defangaws/project.go:473-531 | every dispatch of every run went to the backend its service asks for |
| AwsBuild.FirstWithoutImage | provider/defangaws/aws/ecs.go:806-812 | the sidecar complained about is the first in ascending order that has no image; none iff all have one |
| AwsBuild.DeployAll | provider/defangaws/project.go:240-276 | every run of the loop: names follow the order; each dispatch had its images, waited for exactly the earlier services it depends on and, if a container, was granted exactly their buckets; a stop is a missing image, a required dependency not created yet, or resources that could not be created |
| AwsBuild.BuildProject | provider/defangaws/project.go:226-276 | partition, fold, sort and loop composed: every execution is a run over the project's own services in an order of the sort |
| AwsBuild.NeverMissing | provider/defangaws/project.go:347-357 | if no required edge lies on a cycle, no run fails for a missing dependency, in whatever order maps are ranged over |
| AwsBuild.RequiredCycleStops | provider/defangaws/project.go:347-357 | if one does, every run whose key iteration starts with that dependency ends in a failure |
| AwsBuild.EmittedExactly | provider/defangaws/project.go:238-240 | the order consists of the services themselves iff every dependency names one of them |
| AwsBuild.DispatchedExactly | provider/defangaws/project.go:240-276 | a finished run dispatched exactly the standalone services, none twice, and then no name dangles and no container lacks an image |
| AwsBuild.DanglingStops | provider/defangaws/project.go:240-254 | a dependency on a name that is no service stops every build, whatever the cloud does, even when it is not required |
| AwsBuild.FinishesExactly | provider/defangaws/project.go:240-254 | when creating resources does not fail and no required edge lies on a cycle, a build finishes iff no name dangles and no container or sidecar lacks an image; otherwise it stops for a missing image |
| AwsBuild.DispatchedIsStandalone | provider/defangaws/aws/image.go:141-163 | nothing but a standalone service is ever dispatched: a missing name reads as a container without an image |
| AwsBuild.BucketGranted | provider/defangaws/project.go:366-399 | for a container, a store that does not reach it back was created earlier and its bucket is granted, with that store's ARN: no grant is silently skipped |
| AwsBuild.BucketSkipped | provider/defangaws/project.go:389-399 | if the store does reach the service back, a run that starts at the store dispatches the service without its bucket, and reports nothing if the edge is optional |
| AwsBuild.OnlyNamedStoresGranted | provider/defangaws/project.go:360-387 | on any graph, a grant is to a container and for an object store among its folded dependencies |
| AwsBuild.FoldedMeaning | provider/defangaws/project.go:389-399 | a service depends on another after the fold iff it or a sidecar shipped inside it names that other |
| AwsBuild.FoldedExactly | provider/defangaws/project.go:389-430 | for any name: a service depends on it after the fold iff it does itself, or a sidecar does and the name is neither the service nor one of its sidecars |
| AwsBuild.GrantedExactly | provider/defangaws/project.go:360-387 | on acyclic projects a dispatch is granted a store iff it is a container whose group names that store in depends_on |
| AwsBuild.AcyclicBuild | provider/defangaws/project.go:226-276 | an acyclic build grants every service it dispatches exactly the buckets its group is entitled to; unless creating resources fails it finishes iff no name dangles and no container lacks an image, and it has then created every standalone service exactly once |
| AwsBuild.OwnSidecarDangles | provider/defangaws/project.go:409-428 | a parent naming its own sidecar in depends_on puts the sidecar into the order as a service of its own, and no such build finishes |
| Teardown.ReadResources | provider/defangscaleway/build.go:756-777 | the ids picked up are exactly the non-empty ones of the sbs_volume and l_ssd volumes and of the public IPs in either field, each IP once |
| Teardown.RetryableExactly | provider/defangscaleway/build.go:826-842 | waiting is worth while for exactly 409, 412, 429, server errors, and a 400 that mentions in_use |
| Teardown.Job.DeleteVolume | provider/defangscaleway/build.go:798-814 | polling is bounded by the detach timeout, success means the volume is gone, and it gives up only on a failure that waiting cannot mend or once the timeout has passed |
| Teardown.Job.DeleteServerResources | provider/defangscaleway/build.go:789-821 | no error means every listed volume and IP is gone; otherwise the error still tells which may remain, unless the context was cancelled |
| Teardown.Job.TerminateServer | provider/defangscaleway/build.go:714-723 | no error means the server is gone or on its way out, with at most one fallback delete |
| Teardown.Job.RetryCleanup | provider/defangscaleway/build.go:474-486 | what one successful attempt guarantees, within three attempts; otherwise the last error, after at least three refused calls |
| Teardown.Job.ListAndTerminate | provider/defangscaleway/build.go:437-458 | the server is described before it is ended; nothing attached to it is touched before that; it is gone or on its way out unless a warning says not |
| Teardown.Job.TeardownServer | provider/defangscaleway/build.go:436-464 | over all failures: description, then the end of the server, then volumes and IPs, and no volume is tried while the server is present unless a warning says that it was not removed; nothing the server owned is left without a warning, iff the server had not already vanished when listed or left nothing; if it had, nothing is deleted and nothing logged, so what does not disappear on its own stays; at most three warnings, each backed by at least three refused calls, and a bounded number of calls |
| Teardown.RunInstanceBuild | provider/defangscaleway/build.go:372-427 | every way out after an acknowledged creation goes through teardown, whatever a booting server was given meanwhile; all calls come in the one sensible order, cloud-init before power-on and the wait only after it; success and build failure are what the window that opens a minute before the wait decides; a rejected source or missing credentials touch nothing; only a lost creation reply leaves a server untouched |
| Teardown.ConfigureBootAndWait | provider/defangscaleway/build.go:409-424 | the script is set before the server is powered on, and the build is waited for once power-on was accepted and only then |
| Teardown.WaitForInstanceBuild | provider/defangscaleway/build.go:493-519 | success and build failure are what the first marker among the first 1000 lines since a minute before the wait says; a time-out comes only past the deadline, and only if no marker was there to begin with |
| Teardown.OwnVerdictExactly | provider/defangscaleway/build.go:493-517 | the first marker the build writes decides iff what an earlier build of the destination left in the window says the same, or says nothing and leaves room for the build's lines up to that marker |
| Teardown.OutcomeReportedExactly | provider/defangscaleway/build.go:351-362 | docker's exit code is what is reported, iff no earlier verdict, no marker among the printed lines, no printed line that looks like exit code 0 and no limit gets in first, or what does says the same |
| Teardown.AnswerDecides | provider/defangscaleway/build.go:863-905 | a verdict reached by one poll stays the decision whatever arrives afterwards |
| Teardown.AnswerGrows | provider/defangscaleway/build.go:863-905 | each answer starts with every earlier one: the window's start and the limit never move |
| Teardown.VerdictAppend | provider/defangscaleway/build.go:510-517 | polls without a marker do not change the verdict on later lines |
| Teardown.ParseS3Source | provider/defangscaleway/build.go:234-245 | what is accepted is rebuilt from its two non-empty parts, the bucket free of slashes |
| Teardown.ParseS3SourceComplete | provider/defangscaleway/build.go:234-245 | every URL of that form is accepted and split there |
| Extract.ExtractJsonObjects | compare/compare.py:28-66 | one value comes back, in order, for each candidate among the flushed buffers that the parser accepts, and no other |
| Extract.RunAppend | compare/compare.py:34-64 | scanning a text in two parts is scanning it whole |
| Extract.ValueSwallowed | compare/compare.py:35-55 | any JSON value inside an object, braces and escaped quotes in its strings included, is buffered whole and leaves depth and quoting as they were |
| Extract.ObjectRun | compare/compare.py:48-64 | a top-level object is flushed as one buffer, exactly its text |
| Extract.DocumentRun | compare/compare.py:34-64 | objects interleaved with plain text are flushed one by one, in order, and nothing else |
| Extract.LooksNonEmpty | compare/compare.py:58-59 | the candidate filter lets an object through iff it has a member |
| Extract.ExtractsExactlyTheObjects | compare/compare.py:22-66 | what reaches the parser is exactly the non-empty objects of the document, in order and whole |
| Extract.DocumentObjects | compare/compare.py:22-66 | if the parser accepts a document's non-empty objects, exactly its readings of them come back, one for one and in order |
| Selections.AllSelected | compare/compare.py:59-61 | a selection that rejects nothing has as many values as there were candidates, position by position |
| Extract.OnlyPieces | compare/compare.py:34-64 | from any reachable position, later candidates are pieces of the text from that buffer's start on |
| Extract.ParsesOnlyPieces | compare/compare.py:22-66 | on arbitrary text, everything parsed is a contiguous piece from an opening to a closing brace, in order and without overlap |
| Ordering.SortedKeys | provider/common/maps.go:12-20 | the keys in ascending order, each once |
| Ordering.LessMeaning | provider/common/maps.go:10-14 | a string comes before another iff it ends where they stop agreeing, or has the smaller character there |
| Ordering.ListingUnique | provider/common/maps.go:10-14 | that listing does not depend on how the map was ranged over |
| Shell.QuotedReadsBack | provider/defangscaleway/build.go:226-229 | any string, quoted either way, is read back unchanged as part of whatever word it stands in |
| Shell.BothEscapesAgree | provider/defangaws/aws/codebuild.go:128 | the two escapes in the repository stand for the same single word |
| Shell.LexInSingle | provider/defangscaleway/build.go:227-229 | inside single quotes, replaced quotes read back as quotes and everything else as itself |
| Shell.RenderedReadsBack | provider/defangscaleway/build.go:352-353 | a list of plain and quoted words reads back as their values, whatever follows |
| Shell.RenderBuildArgs | provider/defangscaleway/build.go:273-276 | the rendered arguments are the written form of one --build-arg pair for each key, in order |
| Shell.RenderBuildLine | provider/defangscaleway/build.go:268-281 | lexing the docker line by POSIX.1-2017 XCU sections 2.2.1 to 2.2.3 gives exactly the intended argument vector, with the build arguments sorted, and stops at the redirection; docker reads it as the build the inputs ask for |
| Shell.DockerReads | provider/defangscaleway/build.go:351-353 | read as docker reads its options, those words give back the dockerfile, the target if there is one, every build argument once and in order, the destination, and the two switches |
| Shell.LineReadsBack | provider/defangscaleway/build.go:351-353 | the same for the line in parts: each part is read as its words and nothing of the next |
| Cron.FireWindow | cd/program/selfdestruct_azure.go:90-92 | the trigger is set after now + ttl, by at most a minute |
| Cron.PrintedFields | cd/program/ttl.go:57-60 | the five fields are the minute and hour that make up the fire time of day, the day and month of its date, and a star |
| Cron.PrintedOn | cd/program/ttl.go:57-60 | h:m on any date is printed as minute, hour, day and month in decimal |
| Cron.PrintedExample | cd/program/ttl.go:51-52 | 14:30 on a 17th of August is "30 14 17 8 *" |
| Cron.ExpressionMeaning | cd/program/ttl.go:57-60 | read back, the printed five fields match exactly the minutes with the same month, day, hour and minute |
| Cron.PreviousMatchMatches | cd/program/ttl.go:51-56 | the expression also matched at least 365 days earlier, at a time that is computed |
| Cron.NothingBetween | cd/program/ttl.go:51-56 | and at no time between the two |
| Cron.FirstMatchIff | cd/program/ttl.go:51-60 | the trigger first fires at its own minute iff the previous match is not after now |
| Cron.FiresOnceItIsDue | cd/program/selfdestruct_azure.go:90-92 | for every deploy time and every ttl up to 364 days the first match after now is the fire time, within a minute of now + ttl |
| Cron.FiresTooEarly | cd/program/ttl.go:51-60 | from 366 days on it is not, a fire time on the 29th of February apart |
| Calendar.DateOf | cd/program/ttl.go:58-59 | every day has a Gregorian date that numbers it |
| Calendar.DateUnique | cd/program/ttl.go:58-59 | and only one |
| Calendar.MonthLengths | cd/program/ttl.go:58-59 | the lengths of the months |
| Calendar.KnownDays | cd/program/ttl.go:58-59 | the count of days agrees with Unix time and with the leap years of the Gregorian rule |
| Calendar.AnniversaryGap | cd/program/ttl.go:51-56 | the same month and day in different years are at least 365 days apart |
| Decimal.ValueAppend | cd/program/ttl.go:59 | printed numbers are decimal, the most significant digit first |
| LineWriter.IgnoreWriter.WriteString | cd/log.go:56-63 | a string goes on iff it contains no ignored substring |
| LineWriter.LineWriter.Write | cd/log.go:75-91 | all pieces but the last go out and the last is buffered; on a failing sink the earlier lines went out and the failing line stays buffered |
| LineWriter.LineWriter.Flush | cd/log.go:102-111 | the buffer goes out as one piece if there is anything in it, and is empty afterwards either way |
| LineWriter.LinesMeaning | cd/log.go:76-89 | the lines and the partial line cut a text at its newlines |
| LineWriter.CutUnique | cd/log.go:76-89 | there is no other way to cut it |
| LineWriter.OneWrite | cd/log.go:75-91 | a buffer without a newline makes no difference to where lines are cut |
| LineWriter.ChunksDoNotMatter | cd/log.go:75-91 | however the input is chunked, exactly its newline-terminated lines come out and its last partial line is buffered |
| LineWriter.InputAccountedFor | cd/log.go:75-91 | output and buffer together are the input, every piece is one line, and the buffer holds no newline |
| LineWriter.KeptMeaning | cd/log.go:56-63 | the filtered output holds exactly the pieces without an ignored substring |
| LineWriter.KeptInOrder | cd/log.go:56-63 | each of them once, as it was, and in order |
| LineWriter.Stream | cd/log.go:75-111 | however the whole input is cut at its newlines, after all writes and a flush the sink has exactly its lines and its tail, the ignored ones apart, each once and in order |
| Dns.NormalizeTwice | provider/common/dns.go:28-30 | normalising is idempotent and leaves no trailing dot |
| Dns.NormalizeMeaning | provider/common/dns.go:28-30 | a name with any number of dots after it becomes the name in lower case |
| Dns.LowerMeaning | provider/common/dns.go:28-30 | capital letters become the small ones, and nothing else changes |
| Dns.WildcardMeaning | provider/common/dns.go:82-88 | a wildcard is a star, a dot, and something after it |
| Dns.ParseDNSZoneID | provider/defangazure/azure/customdomain.go:430-447 | the scan finds the group after the first "resourceGroups" segment and the last segment, or fails |
| Dns.CanonicalIdParses | provider/defangazure/azure/customdomain.go:98-107 | parsing a canonical zone id gives back the group and zone it was made from |
| Dns.CanonicalIdText | provider/defangazure/azure/customdomain.go:98-107 | the id's segments, as Azure writes them |
| Dns.BestZoneMatch | provider/defangazure/azure/dnszone.go:71-87 | the result is a longest zone name that equals the domain or is a parent of it, with the id of the first zone so named; nothing iff there is none |
| Dns.SameLengthSameZone | provider/defangazure/azure/dnszone.go:79-84 | two equally long zones of one domain are the same |
| Dns.BestNameIgnoresOrder | provider/defangazure/azure/dnszone.go:67-87 | the zone found does not depend on the order of the listing |
| Dns.RelativeRebuilds | provider/defangazure/azure/frontdoor.go:433-446 | the relative name stands for the normalised host, iff that host is not "@." in front of the zone |
| Dns.PrefixedRebuilds | provider/defangazure/azure/frontdoor.go:448-455 | a label prefixed to the record name is prefixed to the host |
| Dns.RelativeIffHosted | provider/defangazure/azure/frontdoor.go:429-446 | a name is expressible in a zone exactly when the zone is not empty and hosts it |
| CustomDomain.CreateByodDomain | provider/defangazure/azure/customdomain.go:213-248 | a service with ingress gets exactly the records of the domainname and aliases it asks for that have a zone holding them, in order, wildcards excepted; without a domainname none, whatever its aliases |
| CustomDomain.AskedHostnames | provider/common/dns.go:90-99 | the hostnames are the domainname and all aliases, if there is a domainname |
| CustomDomain.CreateByodRecords | provider/defangazure/azure/customdomain.go:255-345 | one hostname's record is the apex's or a relative one, or none when the zone id is unusable or does not hold it |
| CustomDomain.RecordsPlaced | provider/defangazure/azure/customdomain.go:255-345 | with a canonical zone id the records are in its group and zone, under the hostname itself and under its asuid name, with an address record exactly at the zone's own name |
| CustomDomain.CollectCertJobs | cd/program/azure.go:208-233 | the jobs are, for some two orders of the services, one per delegate name and one per eligible domainname or alias, and no others; only for services with ingress that are no virtual machines |
| CustomDomain.ByodJobsOf | cd/program/azure.go:221-232 | one service's jobs: one for each eligible hostname, normalised, in order |
| CustomDomain.AllRecordsMeaning | provider/defangazure/azure/customdomain.go:226-247 | a record is written iff one of the hostnames leads to it |
| CustomDomain.RecordsIffCertificate | provider/defangazure/azure/customdomain.go:392-414 | for a name that stays a wildcard or not when normalised, records are created iff a job is |
| CustomDomain.WildcardSurvives | provider/common/dns.go:82-88 | normalising changes whether a name is a wildcard for exactly "*" followed by two dots or more |
| CustomDomain.RecordsAndCertificatesAgree | provider/defangazure/azure/customdomain.go:392-414 | with no empty key in the zone map, a hostname with at most one trailing dot gets records iff it gets a job, and a wildcard gets neither |
| CustomDomain.ServiceAgrees | cd/program/azure.go:221-232 | over a whole project: a service on a Container App gets a certificate job for a name iff it gets records for that name |
| CustomDomain.AgreementExactly | provider/defangazure/azure/customdomain.go:392-414 | the hostnames on which the two sides agree for every zone map |
| CustomDomain.FindZones | provider/defangazure/azure/dnszone.go:58-64 | every entry is the best zone of the hostnames with that key; a hostname without entry has none with an id; no key is empty |
| CustomDomain.FoundZoneIsEligible | provider/defangazure/azure/dnszone.go:67-87 | a hostname's own best zone can hold its records: it is eligible there, iff not a wildcard |
| CustomDomain.RecordsFromListing | cd/program/azure.go:155-233 | from the listing of zones to the outcome: a hostname that was looked up, with at most one trailing dot, gets records and a certificate iff some zone of the listing hosts it and it is no wildcard |
| S3.ParseS3Host | provider/defangaws/aws/codebuild.go:50-70 | the moving label index computes the specified host parser |
| S3.AcceptedExactly | provider/defangaws/aws/codebuild.go:50-70 | a host is accepted iff it is one of the four endpoint shapes with an optional bucket in front |
| S3.BucketRecovered | provider/defangaws/aws/codebuild.go:55-69 | the bucket comes back exactly, iff it does not end in "s3" or "s3.dualstack" before a legacy endpoint |
| S3.WhatIsParsed | provider/defangaws/aws/codebuild.go:58-69 | how many labels of the bucket are lost in every case |
| S3.ThreeWaysOneLocation | provider/defangaws/aws/codebuild.go:72-104 | the s3, virtual-hosted and path-style URLs of one object normalise to the same location |
| S3.LocationExactly | provider/defangaws/aws/codebuild.go:72-104 | a URL has a location iff it names an object in a bucket, by scheme, host or first path segment, and then that is the location |
| S3.OnlyS3Endpoints | provider/defangaws/aws/codebuild.go:83-98 | nothing else gets through over HTTP |
| Image.ParsePrint | provider/common/image.go:27-47 | printing what was parsed gives back the original, for every string |
| Image.PrintParse | provider/common/image.go:27-47 | parsing a printed well-formed reference gives back its four parts, however lazy the repository group |
| Image.DomainBecomesRegistry | provider/common/image.go:18-33 | a reference without a registry comes back as it was, iff its first segment is not taken for a registry: that needs a domain, and something after the slash or a suffix that can pass for a repository |
| Image.ParseIsPreferred | provider/common/image.go:18-33 | among all ways to match the expression, the one with a registry is found, then the one with the shortest repository |
| Image.ShortestRepoMeaning | provider/common/image.go:18 | the lazy search stops at the first length that lets the rest match, and fails only if none does |
| Image.ImageInfo.FullImage | provider/common/image.go:35-47 | registry and slash, repository, colon and tag, at-sign and digest, each only if set; the reference the round trips are about |
| Image.SuffixForms | provider/common/image.go:18 | a digest has 64 hexadecimal digits, a tag a word character and at most 127 more |
| Naming.TargetGroupName | provider/defangaws/aws/naming.go:21-45 | never longer than 27 characters; whole when it fits, and otherwise a proper prefix with the hash of the whole name |
| Naming.SuffixTable | provider/defangaws/aws/naming.go:24-32 | the suffix of every protocol and listener |
| Naming.NamesNeverCollide | provider/defangaws/aws/naming.go:24-44 | two untruncated names are equal only for the same service, port, effective protocol and effective listener |
| Naming.ProtocolFromTheRight | provider/defangaws/aws/naming.go:24-27 | the protocol can be told from the end of a name |
| Naming.ListenerFromTheRight | provider/defangaws/aws/naming.go:28-32 | and so can the listener |
| EnvVars.BuildEnvVars | provider/defangazure/azure/containerapp.go:199-318 | the presets that are known, then one entry for each user key in sorted order, each from the source its case calls for, with no text that embeds a secret shown; exactly the secrets these need, with distinct names; the vault flag iff one is vault-backed |
| EnvVars.BuildUserVars | provider/defangazure/azure/containerapp.go:248-317 | the same for the loop over the user's keys |
| EnvVars.EntriesFit | provider/defangazure/azure/containerapp.go:253-316 | case by case: the model key, a vault reference under the name made from its config variable, a composite secret under the name made from its key, plain text, or a value passed through |
| EnvVars.ReferencesResolve | provider/defangazure/azure/containerapp.go:276-301 | every secret reference finds one declared secret, the one its key needs |
| EnvVars.SecretsAreReferenced | provider/defangazure/azure/containerapp.go:269-301 | no secret is declared that nothing refers to |
| EnvVars.SharedExactly | provider/defangazure/azure/containerapp.go:250-262 | two keys share a secret iff both refer to one config variable, or they are one key |
| EnvVars.SecretNamesDiffer | provider/defangazure/azure/containerapp.go:155-162 | given an injective hash, names of different namespaces or keys differ |
| EnvVars.NamesDistinctExactly | provider/defangazure/azure/containerapp.go:213-246 | no variable is set twice, iff the user sets none of the DEFANG_ variables put in front |
| Fargate.FixupFargateCPU | provider/defangaws/aws/ecs.go:221-237 | the least tier that holds the request, or the largest tier |
| Fargate.FixupFollowsTable | provider/defangaws/aws/ecs.go:241-259 | the switch follows the published table, and panics exactly off it |
| Fargate.MemoryIsLeast | provider/defangaws/aws/ecs.go:211-260 | the memory chosen is legal for the tier and the least one at or above the request, or the tier's largest |
| Fargate.FargateResources | provider/defangaws/aws/ecs.go:264-273 | up to 122880 MiB, and only then, the search ends without the panic, at the smallest tier from the requested one on that holds the memory with the least legal size |
| Probe.LeastThreshold | provider/defangazure/azure/containerapp.go:761-763 | the raised threshold is the least one that keeps the requested budget, and overshoots by less than a period |
| Probe.CapLoses | provider/defangazure/azure/containerapp.go:764-768 | cutting a least threshold to the maximum loses budget |
| Probe.BuildProbe | provider/defangazure/azure/containerapp.go:731-787 | the delay never exceeds a minute; above it the failures allowed are the fewest that keep the budget in seconds, or ten; the shortfall is reported iff budget is lost |
| Autonaming.AddedElsewhere | cd/config.go:372-385 | adding one entry in place changes what that path leads to and no other |
| Autonaming.AddedMeaning | cd/config.go:381-383 | an entry added below a known object leaves a tree, and one new path |
| Autonaming.Walk | cd/config.go:372-385 | the walk succeeds iff nothing but objects stands in its way, and leaves the tree untouched otherwise |
| Autonaming.Repair | cd/config.go:372-388 | every existing path is kept, only what lies on the way to the leaf is added, the leaf is there afterwards; with the leaf in place already nothing changes, so a second repair does nothing |
| Autonaming.Config.EnsureScalewayRegistryAutonaming | cd/config.go:356-392 | on any error the setting is untouched; otherwise it is the repaired tree; an empty setting becomes the way to the leaf, its pattern, and nothing else |

## Left out

- Resource creation, outputs and options, and all cloud SDK clients: I/O. What is left of a call is whether it
  succeeded and what it may have changed.
- AwsBuild.NewService: any failure other than a missing image, from a lost cloud call to a policy that does not
  parse, is one nondeterministic outcome. The handle is always present after a success; the endpoint,
  steady-state and apex selection around the loop are not modelled.
- Teardown: volumes of types other than sbs_volume and l_ssd are neither listed nor deleted by the code and are
  not part of the model. A server gains volumes and IPs until it has been described, and none afterwards. One
  whose terminate action was accepted counts as removed, since the code does not wait for it either. The
  retry pauses matter only for the polling bound.
- Teardown.WaitForInstanceBuild: the log source is one stream whose lines arrive in the order of their times.
- Teardown.OutcomeReportedExactly: docker's output ends in a newline, every push arrives, and the build context
  was fetched; the script's other exit, when it was not, writes the failure marker only.
- Shell.RenderBuildLine: the docker line only, and of docker's options those that occur in it. The rest of the boot script (curl, the log relay, docker login),
  NUL bytes in arguments, and `$`, backquote and globbing outside quotes beyond reporting them are not modelled.
- Extract: json.loads and Python's Unicode white space; numbers and literals are any text free of quotes and
  braces, which is more than JSON has. The later matching of extracted names is left out.
- Cron: the scheduler is taken to fire at each matching minute; parsing the ttl, the environment handed to the
  job and the job's arguments are left out.
- LineWriter: the lock, and recovery after a sink error beyond the failing line staying buffered.
- Dns, CustomDomain: ASCII lower-casing only, so case folding of other alphabets is not covered; Front Door
  wildcards and listing errors are left out. Whether a service is a virtual machine is a given boolean.
- S3.ThreeWaysOneLocation: starts from a parsed URL; url.Parse is not modelled.
- Image: the regular expression engine is replaced by its grammar with Perl's preferences; repositories are
  counted in characters.
- Naming.NamesNeverCollide: says nothing of truncated names, whose hash is cut to six digits.
- EnvVars: interpolation, endpoint substitution and reading a config reference are parameters; SHA-256 is an
  injective function. That reading the secret's URL failed is not tracked.
- Fargate.FixupFargateCPU: exact real arithmetic with powers of two in place of the floating-point logarithm, so
  rounding of log2 near a power of two is not covered.
- Probe.BuildProbe: the time-out and the message texts; values are non-negative, as the compose format has them.
- Autonaming: encoding the setting to JSON and back; the decoded tree is a parameter.
- Node catalogues, tagging, recipe accessors and service-argument copying: they would only add easy members.
