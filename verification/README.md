# Verification of the buffetcar server

buffetcar serves a directory tree over Nex: one selector line in, one file, index or
listing out. This project models the parts of it that carry its promises and proves those
promises for all inputs, all filesystems and all interleavings.

**Selectors and paths.** `Selector.dfy` parses a selector into components. `Kernel.dfy` is
the filesystem as system calls see it: a snapshot maps inodes to their metadata, a *world*
gives the snapshot the t-th system call meets, so anything at all may change between two
calls; `Frozen` is the world that does not change. What the world bits say and what the
kernel lets the server process do are separate (`daemonRead`, `daemonSearch`), and no
theorem but one corollary (`Diagnosis.ReasonIsFirstFault`) takes the first to grant the
second. The three ways the server opens a directory for traversal (Linux `O_PATH`, BSD and Darwin `O_SEARCH`, OpenBSD
read-only) are a parameter; a symlink opens by none of them. `Root.dfy` is the resolver and
its diagnostic twin, call by call. `Policy.dfy` states what is published without any system
call; `Descriptors.dfy` and `Disclosure.dfy` say what holds in a changing world,
`Diagnosis.dfy` what decides a reported reason, `PhysicalWalk.dfy` how lexical `..` relates
to real parent directories.

**Answers.** `Listing.dfy` and `ListingFacts.dfy` cover generated listings, `Conn.dfy` one
connection and the buffered library path, `Check.dfy` the `check` command, `Fetch.dfy`
following a listing. UTF-8 validity is the grammar of section 4 of RFC 3629 (`Utf8.dfy`).

**The server.** `Server.dfy` is the accept loop, the workers and the signal handlers as one
transition system; `Permits.dfy`, `Shutdown.dfy` and `Connections.dfy` prove what every run
keeps. `Limiter.dfy` is the per-address limiter as an object updated in place.
`Loop.dfy` says what the accept loop makes of the state, given what the outside does, and
what becomes of a client; `ServeLoop.dfy` is the loop as sequential code over the limiter
object, equal to it step by step, and each of its executions is a run of the transition
system. `Config.dfy` bounds workers and cap.

Findings where the code and its promises part, each with its exact condition:

- A shutdown signal can be lost exactly when the self-pipe could not be created
  (`Shutdown.NoLostShutdown`).
- A loop that has handed a connection to a pool whose every worker has unwound stays parked
  for ever, whatever is signalled; every configuration has such a run
  (`Shutdown.StrandedArises`, `Shutdown.StrandedForever`).
- A limiter cap of zero would leave an entry behind for ever; the configuration excludes it
  (`Limiter.RefusalLeavesNoTrace`, `Permits.ZeroCapLeaks`).
- Lexical normalisation serves more than a physical walk reaches: `x/../a` without an `x`
  (`PhysicalWalk.LexicalReachesMore`), `a/.` for a file `a`, or `x/../a` and `x/.` for a
  published directory `x` that the server process may not search
  (`PhysicalWalk.LexicalLeavesMore`, `PhysicalWalk.LexicalStaysMore`). The exact condition
  is `PhysicalWalk.PhysicalExactly`.
- The reason reported for a root that cannot be opened is "not found", whatever its
  metadata says (`Diagnosis.ReasonIsFirstFault`, `Diagnosis.ClosedRootIsMissing`).
- A directory may be listed whose link gets the not-found body: one the process cannot
  walk into (`Fetch.ListedButNotFetchable`), or one with neither an index nor a listing,
  be it that the process cannot read or search it or that the listing exceeds a bound
  (`Fetch.ListedButNotAnswered`). The exact condition is in `Fetch.ListedIsFetchable`.
- A listing reads back as the entries it was made of exactly when no name holds a newline;
  one file can otherwise show as two (`ListingFacts.ListingReadBack`,
  `ListingFacts.NewlineForgesEntry`).
- An overlong line is answered without waiting for its end, so a read error after the
  1026th byte is not seen (`Conn.BoundedReaderRefines`, `Conn.OverlongHidesError`).

## Model

| member | source | states |
|---|---|---|
| `Selector.ParseDiagnostic` | src/selector.rs:46-79 | the single pass that pushes names and pops on `..` returns what the recursive reading of the parts returns, error for error |
| `Selector.FoldExact` | src/selector.rs:58-73 | the stack succeeds exactly when no part is hidden and no prefix climbs above the start, and leaves the names that survive cancellation counted from the right |
| `Selector.FirstError` | src/selector.rs:58-73 | an error is reported exactly when some part, after a clean prefix, is hidden or is a `..` at depth zero |
| `Selector.ParseExact` | src/selector.rs:46-79 | for every selector: accepted or not, the meaning, and which fault is reported first (length, NUL or CR, hidden part, escape) |
| `Selector.CrAtEnd` | src/selector.rs:47-49 | one CR at the end of a selector changes nothing, and any other CR makes it unacceptable |
| `Selector.ParsePrint` | src/selector.rs:14-18 | a request made of safe components is what its printed form parses to |
| `Selector.ParseCanonical` | src/selector.rs:3-6 | components are never empty, hidden, or holding a slash, NUL or CR; the printed request is no longer than the input and parses back to the same request |
| `Root.Resolve` | src/root.rs:169-186 | the loop over components performs the recursive resolution, system call by system call |
| `Root.ResolveDiagnostic` | src/root.rs:239-261 | the same for the diagnostic loop |
| `Policy.ResolveIsPublished` | src/root.rs:169-186 | on an unchanging filesystem a request resolves to exactly what the publishing policy says, for every platform |
| `Policy.LeafDiagnosticAccepts` | src/root.rs:398-443 | the diagnostic leaf accepts what the policy accepts, and besides only a directory that can be probed but not walked |
| `Policy.DiagnoseIsPublished` | src/root.rs:239-261 | the diagnostic resolver accepts the same targets, but for such a leaf |
| `Policy.ClassifiersAgree` | src/root.rs:263-302 | the diagnostic classification of an entry accepts the same entries as the same kind |
| `Policy.ClassifyIsPublished` | src/root.rs:198-217 | an entry is classified as a public file or a listable directory by policy, whichever open succeeds |
| `Policy.ListableDiagnosticAgrees` | src/root.rs:304-329 | a directory is opened for enumeration by the diagnostic path exactly when policy and process permissions allow it |
| `Descriptors.ResolveJustified` | src/root.rs:169-186 | with arbitrary changes between any two system calls, a result was reached by one non-symlink link per component from checked directories, and was itself checked after it was opened |
| `Descriptors.LeafLink` | src/root.rs:371-396 | an opened leaf file was linked by its name at its open, and regular, world-readable, unshared and on the root device at its check |
| `Descriptors.ClassifyJustified` | src/root.rs:198-217 | the same for index files and listed entries, a listed directory being listable when checked |
| `Descriptors.DiagnoseJustified` | src/root.rs:239-261 | in any changing world, what the diagnostic resolver accepts was reached and checked by the same links as what the serving one resolves |
| `Descriptors.ClassifyDiagnosticJustified` | src/root.rs:263-302 | the same for the entries it accepts, a directory being listable when checked |
| `Disclosure.StreamedFileJustified` | src/conn.rs:75-91 | whatever file is streamed, in any changing world, is the parsed leaf or the index of the parsed directory, reached as above through visible components |
| `Descriptors.ListableJustified` | src/root.rs:222-237 | a directory is enumerated only if it was listable before it was reopened and again after |
| `Disclosure.ListingJustified` | src/listing.rs:66-74 | in any changing world a listing shows only names that were entries of the kind shown, each checked after it was opened and a shown directory listable then, in a directory that was listable before and after it was reopened |
| `Disclosure.SentListingJustified` | src/conn.rs:75-91 | a listing that is sent is of the directory the parsed selector leads to through visible, checked components, and each of its lines is justified as above |
| `Diagnosis.ChildReason` | src/root.rs:464-484 | the reason for an intermediate component, and whether it is accepted, is decided by its node: metadata, then what the process may open |
| `Diagnosis.LeafReason` | src/root.rs:398-443 | the reason for a leaf is the same by the probe, the traversal and the stat route: device, kind, mode, link count, then what the process may open |
| `Diagnosis.EntryReason` | src/root.rs:263-302 | the reason for which an entry is not counted is decided by its node |
| `Diagnosis.ReasonIsFirstObstacle` | src/root.rs:239-261 | on every static filesystem and platform the reported reason is that of the first component with an obstacle, and without one the request is accepted |
| `Diagnosis.ReasonIsFirstFault` | src/root.rs:239-261 | where the world bits along the path grant what they say, the reason is the first fault of the metadata, exactly if the root could be opened; on OpenBSD a directory the process cannot read counts as unreadable |
| `Diagnosis.ClosedRootIsMissing` | src/root.rs:343-353 | a concrete root whose mode is at fault and which is reported missing |
| `PhysicalWalk.NormalisationPreservesMeaning` | src/selector.rs:5-6 | where the directories below the root form a tree, wherever the root itself hangs, whatever a walk with real parent steps reaches, parsing and resolving reaches |
| `PhysicalWalk.PhysicalExactly` | src/selector.rs:58-73 | a served selector is also reached physically exactly when each proper prefix, and a last part that must be one, names a published directory, and each directory a `.` or `..` is taken from may be searched by the process |
| `PhysicalWalk.LexicalReachesMore` | src/selector.rs:63-65 | a concrete tree, its root an entry of an outside directory, and a selector for which only the lexical reading reaches a node |
| `PhysicalWalk.LexicalLeavesMore` | src/selector.rs:63-65 | the same though every prefix names a published directory, one of which the process may not search |
| `PhysicalWalk.LexicalStaysMore` | src/selector.rs:62 | `x/.` is served for a concrete directory whose `.` may not be looked up |
| `Listing.CollectEntries` | src/listing.rs:37-62 | the loop with its early exit returns the sorted kept entries, or nothing exactly when they exceed 4096 |
| `Listing.AppendLines` | src/listing.rs:76-89 | appending with the running bound yields all lines, or the not-found body exactly when their total exceeds 262144 bytes |
| `Listing.CountBytes` | src/listing.rs:115-121 | the running total accepts exactly the entry lists whose size is within the bound |
| `Listing.Generate` | src/listing.rs:66-90 | the listing is the body its kept entries determine |
| `Listing.Diagnose` | src/listing.rs:92-124 | the verdict is index, listing, or the first reason that applies |
| `Listing.SortSorts` | src/listing.rs:60 | sorting orders by name and then kind and keeps every entry |
| `Listing.SortAscends` | src/listing.rs:60 | any two entries of a sorted listing ascend byte by byte, and of one name the file is first |
| `Listing.SortedIsUnique` | src/listing.rs:60 | a collection of entries has only one sorted order |
| `Bytes.LexExact` | src/listing.rs:60 | the order of names is the ascending one: a prefix first, else the smaller byte where they first differ |
| `Listing.TotalIsLength` | src/listing.rs:30-32 | the sizes that `diagnose` adds up are the length that `generate` has reached |
| `Listing.Texts` | src/listing.rs:82-87 | the arrow of a line, the index name and the not-found body, spelled out |
| `ListingFacts.ListingIgnoresOrder` | src/listing.rs:66-90 | enumerating any directory in any other order leaves the listing's bytes unchanged |
| `ListingFacts.ListingRefusedExactly` | src/listing.rs:64-81 | a listing is refused exactly when it is not permitted, or has more than 4096 admitted entries or more than 262144 bytes |
| `ListingFacts.ListingShows` | src/listing.rs:76-90 | a listing has one line per admitted entry, sorted by name, within both bounds |
| `ListingFacts.ListingIsNotNotFound` | src/listing.rs:80-89 | no listing equals the not-found body |
| `ListingFacts.VerdictIs` | src/listing.rs:92-124 | which verdict and which reason: index, then device, kind, modes, entries beyond 4096, bytes beyond 262144, else a listing |
| `ListingFacts.DiagnosisAgrees` | src/listing.rs:92-124 | an index is reported exactly when one is served; without one, each reason is given exactly when it is the obstacle there is, and some reason exactly when the response is the not-found body |
| `ListingFacts.RenderReadBack` | src/listing.rs:82-87 | splitting rendered lines recovers the names and kinds exactly when no name has a newline and no file name ends in a slash |
| `ListingFacts.ListingReadBack` | src/listing.rs:60-89 | a client reads back from a listing the sorted entries that policy admits exactly when none of their names holds a newline |
| `ListingFacts.NewlineForgesEntry` | src/listing.rs:82-87 | a concrete name with a newline whose one line reads back as two entries |
| `Conn.ReadSelector` | src/conn.rs:56-73 | reading byte by byte with at most 1025 bytes kept yields the bounded line |
| `Conn.LineRead` | src/conn.rs:56-73 | a line is read as itself if it has at most 1025 bytes of UTF-8 and as nothing if not; unended, it is ended by the stream, or lost with a failing read |
| `Conn.CrLfIsLf` | src/conn.rs:52-54 | a client that ends its lines with CR and LF gets the same answer as one that ends them with LF |
| `Utf8.ValidExactly` | src/conn.rs:72 | a line is UTF-8 exactly if it encodes some sequence of Unicode scalar values |
| `Conn.BoundedReaderRefines` | src/conn.rs:49-55 | the bound changes no request, except that an overlong line hides a later read error |
| `Conn.OverlongHidesError` | src/conn.rs:66-69 | a concrete line of 1026 bytes, then a read error, that is answered |
| `Conn.LaterBytesIgnored` | src/conn.rs:64-66 | bytes after the first newline have no effect |
| `Conn.StreamFile` | src/conn.rs:100-111 | the chunks written are the file's contents, for every schedule of short reads, up to the read or the write that fails, which is reported |
| `Conn.WriteResponse` | src/conn.rs:93-98 | a response is written out whole, or up to the read or write that fails |
| `Conn.DeliveredExactly` | src/conn.rs:93-111 | what is sent is a prefix as long as both limits allow, the error is that of the limit met first, and only a whole body is sent without one |
| `Conn.Handle` | src/conn.rs:32-47 | one connection writes the answer its line determines, whole and without error if neither reads nor writes fail, else up to the read or write that fails, which is the error reported; nothing is written if the line cannot be read |
| `Conn.OpenedRoot` | src/root.rs:159-167 | a root that opens is the inode asked for on its own device, and nothing is walked from one that does not open |
| `Conn.NoRootNothingServed` | src/lib.rs:37-39 | without a root every selector gets the not-found body |
| `Conn.BufferedIsResponse` | src/lib.rs:33-46 | the buffered path returns the contents of the response the connection path would stream, whether or not the root opens |
| `Conn.StreamingRefinesBuffering` | src/conn.rs:32-47 | for every selector a line can carry, ended by a newline or by the end of the stream, the bytes written equal those of the buffered path on the same root |
| `Check.Run` | src/check.rs:7-59 | one line per selector in order, with its verdict and the reason as above, and true exactly when every verdict is ok, which is exactly when every selector would be served |
| `Check.CheckAgrees` | src/check.rs:12-55 | a selector is reported as a file, an index or a listing exactly when it is served as that |
| `Check.ReasonsReported` | src/check.rs:12-55 | a selector that does not parse is refused for its parse error, a target for the first obstacle on the way, a directory without an index for what stands in the way of its listing |
| `Check.AllOkMeansAllServed` | src/check.rs:7-59 | `check` succeeds exactly when no selector would get the not-found fallback, on every static filesystem and platform |
| `Fetch.ListedIsFetchable` | src/listing.rs:34-62 | the link of a listed entry, a directory's with its slash, arrives and parses exactly if its name has no CR or LF and it fits the bound; a file is then answered with its contents, and a directory with its index or listing exactly if the process may walk into it and it has an index or nothing stands in the way of its listing |
| `Fetch.DirAnswered` | src/conn.rs:86-91 | a directory is answered with its index, else its listing, and with the fallback exactly if it has no index and its device, kind, modes, process permissions or bounds forbid the listing |
| `Fetch.ListedButNotFetchable` | src/root.rs:198-217 | a concrete directory that is listed and does not resolve |
| `Fetch.ListedButNotAnswered` | src/conn.rs:86-91 | a concrete directory that is listed and, on Linux, resolves, whose link is answered with the fallback |
| `Fetch.UnlistedButFetchable` | src/root.rs:198-217 | what resolves but is not listed is exactly a directory one may walk through but not read |
| `Limiter.PerIpLimiter.constructor` | src/limiter.rs:16-21 | a new limiter counts nothing |
| `Limiter.PerIpLimiter.TryAcquire` | src/limiter.rs:23-36 | a permit is granted exactly while the address holds fewer than the cap, and the counts stay those of the live permits |
| `Limiter.PerIpLimiter.Drop` | src/limiter.rs:39-55 | dropping a granted permit finds its entry, never wraps, and prunes the last one |
| `Limiter.AcquireReleaseIdentity` | src/limiter.rs:23-55 | taking a permit and dropping it again restores the map |
| `Limiter.RefusalLeavesNoTrace` | src/limiter.rs:24-28 | a refusal leaves the map as it was, exactly unless the cap is zero |
| `Config.CapInRange` | src/config.rs:149-157 | a validated cap lies in 1..=workers+1, the derived one included, and that whole range can be asked for |
| `Config.FlagsAsGiven` | src/config.rs:149-191 | a number within a flag's range is what is set, anything else is refused, and absent flags set 128 workers and an eighth of them, at least one, as the cap |
| `Permits.PermitAccounting` | src/server.rs:240-249 | in every reachable state counts are live permits, entries are exactly the addresses with one, none exceeds the cap, and every drop, by return, unwinding or error, finds its entry |
| `Permits.ZeroCapLeaks` | src/limiter.rs:25-28 | with a cap of zero a reachable state keeps an entry without a permit |
| `Permits.NeutralisingCap` | src/config.rs:153-157 | some run refuses a connection exactly when the cap is at most the number of workers |
| `Permits.ConfiguredCap` | src/config.rs:149-157 | of the configurations that validate, exactly the greatest cap never refuses, and the derived one can |
| `Permits.PermitCeiling` | src/server.rs:158-160 | at most workers+1 permits are ever live, and one address can hold all of them exactly when the cap exceeds the workers |
| `Shutdown.NoLostShutdown` | src/server.rs:183-222 | no run has a finished handler, the loop blocked in poll and an empty pipe, exactly when the pipe is polled |
| `Shutdown.SignalSeen` | src/signal.rs:44-62 | a byte in the pipe means the flag is set, draining leads out of the loop, and at most one connection is accepted after the flag is set |
| `Shutdown.PipeCounts` | src/signal.rs:44-62 | until the pipe is read it holds a byte for each finished handler, as far as it has room |
| `Shutdown.ReadsToEmpty` | src/server.rs:297-305 | emptying the pipe takes one read for every 64 bytes begun |
| `Shutdown.RunsAreShort` | src/server.rs:178-290 | once the flag is set every run is bounded by a rank, with four more steps per further signal |
| `Shutdown.LooksOnce` | src/server.rs:178-182 | once the flag is set, every run looks at it at most once more, and never after the loop was left |
| `Shutdown.AcceptsOnce` | src/server.rs:178-240 | once the flag is set at most one connection is accepted in any run, and only if the loop was past its last look |
| `Shutdown.QuietExactly` | src/server.rs:240-290 | a signalled server stands still exactly when it has returned with its workers gone, or no live worker is left for a parked connection |
| `Shutdown.StrandedArises` | src/server.rs:307-326 | every configuration with a positive cap has a run that strands the loop with a signal handled |
| `Shutdown.StrandedForever` | src/server.rs:240-249 | a stranded loop accepts nothing more and never returns, in any run |
| `Shutdown.ReturnedOkIsDrained` | src/server.rs:284-290 | on `Ok` every worker is gone and the limiter map is empty |
| `Shutdown.ShutdownCompletes` | src/server.rs:178-290 | from a finished handler on, every run is bounded, and where a run without a fault, in which fewer handlers unwind than workers were alive, stands still, the server has returned `Ok`, drained |
| `Shutdown.ShutdownReached` | src/server.rs:178-290 | from every such state with a live worker, steps that happen of themselves lead to that `Ok` return, within the rank |
| `Connections.ConnectionConservation` | src/server.rs:240-256 | every accepted connection is in exactly one place: refused, dropped, finished, with the loop, or with one worker |
| `Connections.HandlingInAdmissionOrder` | src/server.rs:314-325 | connections are taken in admission order, each by the worker that then handles it; only the last admitted may be untaken |
| `ServeLoop.Process.Step` | src/server.rs:240-249 | one atomic step of the process takes and drops permits on the limiter object as the transition system says |
| `Loop.JudgementEnds` | src/server.rs:240-249 | an accepted connection is refused exactly if its address is at the cap when asked, leaving no trace but its end; else it is admitted, and an error return means its socket could not be set up |
| `Loop.HandOverEnds` | src/server.rs:244-248 | an admitted connection is dropped if its socket cannot be set up, taken by the worker that comes, or waits because that worker cannot take it |
| `Loop.IncomingAccepted` | src/server.rs:236-256 | an incoming connection is accepted if `accept` yields one; nothing to accept begins the loop anew, an error returns |
| `Loop.BusyLoop` | src/server.rs:178-256 | with a client at every turn and nothing else, each iteration accepts one connection |
| `ServeLoop.Process.DrainPipe` | src/server.rs:297-305 | draining reads chunks until the pipe is empty, whatever handlers and workers do between the reads |
| `ServeLoop.Process.Attend` | src/server.rs:212-256 | a readable pipe is drained and a broken one ends the loop before the listener is looked at; a fatal or idle listener leads to the error return or the next check, and an incoming connection is accepted |
| `ServeLoop.Process.Admit` | src/server.rs:240-256 | each outcome of `accept` leads where the loop sends it, an accepted connection through the limiter to the hand-over |
| `ServeLoop.Process.Round` | src/server.rs:178-256 | one iteration: begun with the flag set it leaves the loop, only the flag or a broken pipe makes it do so, and each outcome of `poll` leads where the source sends it |
| `ServeLoop.Process.Serve` | src/server.rs:178-290 | the loop makes as many iterations as asked unless one leaves it, each as `Loop` says, and then joins the workers; whatever the outside does this is a run that continues the one before; on `Ok` everything is drained, at most one connection came after the flag, and with a pipe no state passed through is a lost one; begun with the flag set it leaves in its first round and then waits only for a worker |

## Left out

- Sockets and time: poll bits other than ready, fatal, pipe-readable and pipe-broken; time-outs as clock time; binding; the non-Unix accept loop; the sandbox.
- Memory ordering: the shutdown flag is sequentially consistent.
- Threads: the server is interleaved atomic steps; two steps of different threads never overlap, and receiving a connection is one step with the send it completes.
- The mutex around the channel's receiver: any waiting worker may take the connection.
- A failing `send`: `serve` keeps its own receiver, so the channel never loses its last one.
- The failure of `set_nonblocking(true)` before the loop starts; `fstat` and enumeration do not fail either.
- Enumeration: the names of a directory are read at one instant, though each is classified at its own.
- Whole-connection theorems (`Conn.Handle`, `Conn.StreamingRefinesBuffering`, `Check.Run`) are about unchanging filesystems; what holds in changing ones is in `Descriptors` and `Disclosure`.
- `Vec::sort` is a library call and is modelled by an insertion sort, which its uniqueness makes the same.
- Conn.Handle: has no clock; a time-out is a read that fails or a write that does.
- ServeLoop.Process.Serve: follows the loop for a given number of iterations.
- Shutdown.ShutdownCompletes: says of a run that meets a fatal poll, listener, accept or socket-mode error only that it is bounded, since those returns skip the joining of workers.
- Permits.PermitAccounting: is for a cap of at least one, which the configuration ensures.
- Opening the root by its absolute path, flag parsing, banner, help and version text, and `display_selector`.
