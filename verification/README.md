# Verified model of the connection pool, the saved connections and their import and export

A Dafny 4.11 model of the parts of this server in which something can go wrong that no single function shows:

- `PoolTable`, `PoolRun`, `PoolInv`, `PoolFacts`, `PoolDeath`, `PoolDrain`, `PoolTransport`: the shared SSH connection pool
  and the routes through jump hosts, as a class and as a step system over interleaved callers. Each critical section under the pool's mutex is one step; the
  closes and the hop releases done outside it are steps of their own.
- `FileSessions`, `FileRun`, `FileUse`: the manager of file sessions, a second layer of lease holders, in the same way, and
  what its reaper makes of when they were used; `Layers` puts it on top of the pool.
- `Throttle`, `ThrottleRace`: the login throttle, with its cache in front of the table, one attempt at a time and with
  attempts that overlap.
- `JumpGraph`, `JumpErrors`, `JumpStore`, `JumpUpdate`, `FolderForest`: the graph of jump chains and the forest of folders
  of one owner, over every run of edits.
- `ParentOrder`, `FolderPaths`, `Import`, `ImportFacts`, `ImportMeant`, `ImportRenamed`, `ImportAgain`, `ImportChains`,
  `ImportCopy`, `ImportRoundTrip`: importing a bundle, what its records come to stand for, and exporting an account and
  importing it elsewhere.
- `SshAlias`, `SshConfig`, `SshBlocks`, `SshForms`, `SshRoundTrip`, `SshImport`: reading any ssh_config, writing one and
  reading it back, character by character.
- `CopyPaths`, `CopyTree`, `CopyRun`: copying a file or a directory from one host to another, with the paths as text.
- `Text`: joining, splitting, trimming and numbers as text.

`dafny verify dfyconfig.toml` checks everything.

## What turned out not to hold

Each of these is proved with the exact condition under which the property does hold, and with an input, a run or a whole
family of them that shows it failing.

- The throttle can let more failures through than its limit. With one attempt at a time no window holds more than the
  limit in any run **if and only if** the lockout is at least as long as the window (`Throttle.RateBoundedIff`,
  `Throttle.BoundBroken`). With up to `c` attempts between their check and their failure at once, the bound is the limit
  plus `c - 1` (`ThrottleRace.RaceBound`), and that is reached (`ThrottleRace.RaceBoundReached`). Across a restart it is the
  limit plus what was in the window before (`Throttle.RestartBound`), and that is reached too (`Throttle.RestartReached`).
- After a restart the first failure recorded hides the earlier ones from the cache: cache and table then agree **if and
  only if** no earlier failure was within the window (`Throttle.StaleStart`, `Throttle.StaleRestart`).
- A purge keeps cache and table in agreement **if and only if** it keeps the whole window or no failure happened at its
  very cut-off, which the cache drops and the table keeps (`Throttle.PurgeAgreesIff`, `Throttle.ShortPurge`).
- A recursive folder deletion can leave routes that name a deleted connection: where every route was good, those that stay
  are good **if and only if** no connection that stays names one that went (`JumpStore.DeleteManyKeepsRoutesIff`,
  `JumpUpdate.TwoSpoilt`).
- An accepted update of one connection can spoil the routes of others. Routes that do not pass through it stay
  (`JumpUpdate.ElsewhereUnchanged`). A change away from SSH spoils exactly those that do
  (`JumpUpdate.ProtocolSpoilsExactly`, `JumpUpdate.TwoSpoilt`). A new chain leaves a route through it good **if and only if** that route with the
  old hops replaced by the new repeats nothing, avoids its own target and has at most eight hops
  (`JumpUpdate.ChainSpoilsExactly`, `JumpUpdate.AcceptedYetSpoils`, `JumpUpdate.FullChainSpoils`).
- The nesting limit is not kept by moves: the check looks at the new parent only. What lies `k` below a folder moved under
  a parent at depth `d` can still be walked **if and only if** `d + 1 + k` is within the limit of the walk
  (`FolderForest.MoveIgnoresHeight`), and there is a run of creates and one move after which it cannot
  (`FolderForest.MoveTooDeep`).
- A connection holds a lease on every hop of its route **if and only if** it was dialled as a target or has no hops
  (`PoolFacts.HoldsHopsExactly`); one dialled as a hop can outlive its transport (`PoolFacts.TransportLost`). Even a target
  holds everything it rides on **if and only if** each hop it leased had been dialled through the hop leased just before it
  (`PoolTransport.HoldsItsWayExactly`); a target that joins an old connection to an inner hop may ride on an outer one that
  is closed while it holds a newer one (`PoolTransport.RidesOnClosed`).
- `inParentOrder` does not end when two folders of a bundle have the same ID (`ParentOrder.DuplicatesNeverEnd`), and does
  when they differ (`ParentOrder.InParentOrder`).
- "Replace" replaces nothing: for every bundle and account it does what "skip" does (`ImportAgain.ReplaceIsSkip`).
- A name made unique on import is free **if and only if** one of the candidates is (`ImportAgain.UniqueExactly`,
  `ImportAgain.TakenAnyway`).
- Folder names are compared across the whole tree: where conflicts are not renamed, an import into an account without
  folders that comes to its end has skipped none **if and only if** no two have the same name ignoring case
  (`ImportCopy.AllMadeExactly`, `ImportCopy.InnerSkipped`).
- Two different folder paths can be given one folder (`FolderPaths.NulSharesFolder`): any two are **if and only if** their
  names, each split at the NULs in it, are the same one after the other (`FolderPaths.SharesExactly`). Without NULs that
  means the same path (`FolderPaths.FlatPlain`).
- A ProxyJump names a hop by its base name, whatever alias the hop was given, and a hop called "none" is skipped on
  reading. A hop that is in the file is read as itself **if and only if** its alias is its base name and that is not
  "none"; one that is not in the file is dropped **if and only if** its base name is nobody's alias or "none"
  (`SshImport.HopRightExactly`, `SshImport.SavedHopExactly`, `SshImport.ChainRightExactly`). Of two connections with one
  base name the later one is always misread (`SshImport.LaterMisread`, `SshImport.Misread`).
- Shutting the file manager down leaves nothing open **if and only if** nobody is inside Open at that moment
  (`FileRun.ReopensExactly`, `FileRun.ShutdownLeaks`); the session that such an Open installs is closed by nothing but its own Close
  (`FileRun.LeftOpen`), and keeps its SSH connection up (`Layers.LeakKeepsConnection`).
- A file session handed to somebody is not always kept for fifteen minutes. Being handed one marks it used **if and only
  if** it is not as the loser of a race to open it (`FileUse.MarkedExactly`), and there is a run in which the loser has its
  session taken from it two seconds later (`FileUse.LoserReaped`). Otherwise it is kept (`FileUse.UsedIsKept`).
- A ProxyJump hop is looked up by its host alone, whatever user and port are written with it, **if and only if** no bracket
  is in it: an address in brackets keeps its port (`SshForms.HopForms`).
- What is copied does not always keep its name: the length of the path asked for is cut off the cleaned path of each entry.
  Every entry goes where it should **if and only if** the path asked for is no longer than what stands before the names in
  an entry's path (`CopyPaths.NamesKeptExactly`): not the current directory, and nothing after the clean path but one slash,
  or for the root nothing (`CopyPaths.KeptMeans`). From "." every name loses its first letter
  (`CopyPaths.FirstLetterLost`), from "/etc//" as well, and from "///" a name of one letter is sliced out of range
  (`CopyPaths.ShortNameLost`).
- A directory is created at the destination **if and only if** something other than links is in it
  (`CopyRun.RootMadeExactly`, `CopyRun.NothingMade`), and the guard against copying a directory into itself sees exactly the paths beneath the
  source unless that is the root or the current directory (`CopyPaths.WithinExactly`, `CopyPaths.RootNotGuarded`).

Where a comment and the code disagree, the model follows the code: the throttle's lockout also applies to addresses
(internal/auth/ratelimit.go:43-46 against 127-156, `Throttle.VerdictExactly`), and the conflict policy "replace" overwrites nothing
(internal/portability/service.go:213-215 against 394-532).

## Model

| member | source | states |
|---|---|---|
| `ConnKeys.PathKeyInjective` | internal/remote/pool.go:58-60 | Two routes share a connection exactly when user, hops and target are the same. |
| `ConnKeys.DepthIsRouteLength` | internal/remote/pool.go:65-70 | The depth read off a key is the number of hops of its route. |
| `PoolTable.Pool.Acquire` | internal/remote/pool.go:151-166 | The first critical section: refused when closed, joined with one more reference, or a new entry that is the map's entry for its key; nothing else changes. |
| `PoolTable.Pool.DialDone` | internal/remote/pool.go:170-179 | The dial's outcome is recorded; a failed entry leaves the map, a live one stays in it, and no other entry changes. |
| `PoolTable.Pool.Release` | internal/remote/pool.go:229-251 | One reference less; the last one evicts and starts the tear-down, any other changes nothing else. |
| `PoolTable.Pool.ConnectionEnded` | internal/remote/pool.go:215-226 | A connection that ended is out of the map, once; its successor, if it has one, stays. |
| `PoolTable.Pool.EvictEntry` | internal/remote/pool.go:257-262 | Removes the map's entry only if it is this one. |
| `PoolTable.Pool.EvictAll` | internal/remote/pool.go:268-292 | Close empties the map, evicts exactly the entries that were in it and dooms those that are live. |
| `PoolTable.Pool.Shutdown` | internal/remote/pool.go:268-310 | They are closed in an order of falling depth. |
| `PoolTable.SortDeepestFirst` | internal/remote/pool.go:297-299 | The order has the same entries, each once, deepest route first. |
| `PoolInv.StepKeeps` | internal/remote/pool.go:151-310 | Every step of every caller, waiter, hop, watcher, tear-down and Close keeps the invariant. |
| `PoolInv.Always` | internal/remote/pool.go:151-310 | So it holds in every state of every run. |
| `PoolFacts.Accounting` | internal/remote/pool.go:82-111 | References are exactly the dial in flight, the waiters and the unreleased leases, and an entry not evicted is exactly the map's entry for its key. |
| `PoolFacts.OneDialPerKey` | internal/remote/pool.go:151-166 | At most one dial per key is in flight in any run. |
| `PoolFacts.ClosedOnceAtZero` | internal/remote/pool.go:229-251 | Without Close a client is closed at most once, only with nobody holding it, and it is never handed out again. |
| `PoolDeath.DeathFreesKey` | internal/remote/pool.go:215-226 | A connection's death takes it out of the map, leaves the map alone when another has its place, and changes nothing else: no reference, no lease, no caller. |
| `PoolDeath.OutForGood` | internal/remote/pool.go:257-262 | Whatever is out of the map never gets back into it, and its references only fall. |
| `PoolDeath.DeadForGood` | internal/remote/pool.go:191-226 | In every state after its death a connection is not the map's entry for any key, and nobody is given a reference to it. |
| `PoolDeath.NeverJoined` | internal/remote/pool.go:157-166 | A caller that asks for its key later is given another entry that is in the map, or dials a new one; a closed pool turns it away. |
| `PoolDeath.NeverAHop` | internal/remote/chain.go:126-139 | Nor does the dial of a route wait for a dead connection or dial through it. |
| `PoolDeath.DialsAfresh` | internal/remote/pool.go:191-226 | A run in which a connection dies while somebody holds it, and the next caller dials a new one. |
| `PoolDeath.WaiterLeaves` | internal/remote/pool.go:197-212 | A waiter gets a lease of its own when the dial succeeded and none when it failed; when it goes away first its reference goes with it. |
| `PoolDeath.CallerGivesBack` | internal/remote/pool.go:125-140 | A caller's release gives its lease back, and takes one reference along the first time only. |
| `PoolDeath.TroubleEndsDial` | internal/remote/chain.go:93-160 | A hop that is refused, given up or fails, or an own dial that fails, makes the caller give up the whole route. |
| `PoolDeath.GivenUpForGood` | internal/remote/chain.go:93-99 | After that no further hop is taken and the target never comes up; what was borrowed only goes back. |
| `PoolDeath.ClosedRefuses` | internal/remote/pool.go:151-156 | After Close the pool stays closed and empty, and turns every caller and every dial of a hop away without an entry or a reference. |
| `PoolDeath.ClosedOnlyFalls` | internal/remote/pool.go:268-292 | And no count of references rises again. |
| `PoolDeath.ClosePullsDown` | internal/remote/pool.go:268-310 | Once Close has come to its end every connection that was up and in the map has been closed, and every lease it had borrowed is back. |
| `PoolFacts.HoldsEveryHop` | internal/remote/chain.go:78-161 | A connection dialled as a target holds an unreleased lease on every hop of its route until its own client is closed. |
| `PoolFacts.HoldsHopsExactly` | internal/remote/chain.go:132-139 | A live connection holds its hops if and only if it was dialled as a target or has none. |
| `PoolTransport.CarrierIs` | internal/remote/chain.go:126-139 | What carries a live connection is a connection, live at the time, to the last hop of its route. |
| `PoolTransport.HoldsItsWayExactly` | internal/remote/chain.go:126-155 | A target that is up holds everything it rides on if and only if each hop it leased had been dialled through the hop leased just before it; then nothing of that is closed while the pool is open. |
| `PoolTransport.RidesOnClosed` | internal/remote/chain.go:126-160 | A run in which a target that holds a lease on every hop rides on a connection that is closed. |
| `PoolFacts.ReturnedInnermostFirst` | internal/remote/chain.go:45-54 | The leases go back innermost first, and only after the client that rode on them is closed. |
| `PoolFacts.GivenBackForGood` | internal/remote/pool.go:125-140 | A lease never changes hands, and once given back stays so, even when Close and the last Release both run. |
| `PoolFacts.NobodyHolds` | internal/remote/chain.go:93-99 | At quiescence no live entry has a reference left, by induction on when connections went live. |
| `PoolFacts.NothingLeft` | internal/remote/chain.go:146-160 | At quiescence the map is empty and every lease ever taken was returned, over part-way failures, cancelled waiters and dead connections. |
| `PoolDrain.TearDownGoesOn` | internal/remote/pool.go:241-251 | A tear-down under way can always take its next step. |
| `PoolDrain.SweepGoesOn` | internal/remote/pool.go:301-310 | So can Close. |
| `PoolDrain.TearDownWork` | internal/remote/pool.go:241-251 | Each such step leaves less to do, though giving a lease back may start another tear-down. |
| `PoolDrain.SweepWork` | internal/remote/pool.go:301-310 | The same of the steps of Close. |
| `PoolDrain.Drains` | internal/remote/pool.go:229-310 | Once the callers are done, tear-downs alone bring the pool to rest from any reachable state. |
| `PoolDrain.DrainsEmpty` | internal/remote/pool.go:229-310 | And then the map is empty and every lease is back. |
| `PoolFacts.DeepestFirst` | internal/remote/pool.go:294-299 | Close disconnects a connection before any hop it was reached through. |
| `PoolFacts.TransportLost` | internal/remote/chain.go:132-139 | A run in which a connection that was dialled as a hop is held while its own transport is already closed. |
| `FileTable.Manager.OpenBegin` | internal/files/manager.go:162-180 | Open's first critical section: refused, an existing open session, now marked used, or a dial; nothing else changes. |
| `FileTable.Manager.OpenInstall` | internal/files/manager.go:229-242 | The second one: the loser of a race keeps out of the map; whether the manager is shut is not asked. |
| `FileTable.Manager.Get` | internal/files/manager.go:247-267 | Finds exactly the open session of that key and sets when it was last used to now. |
| `FileTable.Manager.Remove` | internal/files/manager.go:271-282 | Close takes exactly that session out of the map. |
| `FileTable.Manager.ReapStale` | internal/files/manager.go:334-349 | Keeps exactly the sessions last used at most 900 seconds ago, and returns the others. |
| `FileTable.Manager.ShutAll` | internal/files/manager.go:359-372 | Empties the map once; a second call does nothing. |
| `FileTable.Manager.MarkClosed` | internal/files/manager.go:304-311 | Only the first caller goes on to release. |
| `FileRun.StepKeeps` | internal/files/manager.go:159-380 | Every step of Open, Get, Close, the reaper, Shutdown and Session.close keeps the invariant. |
| `FileRun.InMapHolds` | internal/files/manager.go:103-119 | In every run a session in the map is open and holds one lease that nobody has given back. |
| `FileRun.AtMostOnce` | internal/files/manager.go:304-315 | No lease is given back twice, and none while its session is in the map or being opened. |
| `FileRun.NothingKept` | internal/files/manager.go:159-244 | With nobody inside Open or close, every lease was given back exactly once except those of sessions in the map. |
| `FileRun.ReopensExactly` | internal/files/manager.go:229-242 | After Shutdown a session can enter the map if and only if somebody is inside Open. |
| `FileRun.ShutdownLeaks` | internal/files/manager.go:229-242 | A run that ends shut down, with nobody inside and a session still open. |
| `FileRun.LeftOpen` | internal/files/manager.go:359-380 | Such a session stays in the map under every step but its own Close. |
| `FileUse.OnRecord` | internal/files/manager.go:162-261 | In every run what a session has on record is the clock at the last step that made it, opened it or got it. |
| `FileUse.ReapsExactly` | internal/files/manager.go:334-357 | The reaper takes a session out of the map and has it closed if and only if its last use is more than 900 seconds ago. |
| `FileUse.UsedIsKept` | internal/files/manager.go:247-261 | With a clock that does not run back, a session made, opened or got within the last fifteen minutes is left alone. |
| `FileUse.GotInTime` | internal/files/manager.go:334-349 | A session got at 14 minutes is there at 16 and gone after 29. |
| `FileUse.OpensOnce` | internal/files/manager.go:162-180 | Opening a host that is open gives the session there is and dials nothing; otherwise it dials, or is refused after Shutdown. |
| `FileUse.OpenFails` | internal/files/manager.go:182-202 | An Open that fails is over and has given back the connection it had, once. |
| `FileUse.ClosesIt` | internal/files/manager.go:271-287 | Close takes exactly that session out of the map and has it closed. |
| `FileUse.MarkedExactly` | internal/files/manager.go:229-242 | Being handed a session marks it used if and only if that is not as the loser of a race. |
| `FileUse.LoserReaped` | internal/files/manager.go:229-242 | A run in which the loser of a race is handed a session that the reaper takes two seconds later. |
| `Layers.MoveKeeps` | internal/files/manager.go:182-242 | With the file manager on top of the pool, each of its leases is a caller's lease of the pool, its own, given back in both or in neither. |
| `Layers.SessionKeepsConnection` | internal/files/manager.go:44-70 | A file session in the map keeps its connection live and referred to, and not closed while the pool is open. |
| `Layers.AllDoneDrains` | internal/files/manager.go:304-315 | With nobody inside either layer and no file session open, nothing keeps the pool from draining. |
| `Layers.LeakKeepsConnection` | internal/files/manager.go:229-242 | A run in which the session that outlives Shutdown keeps a connection up. |
| `Throttle.CacheAgrees` | internal/auth/ratelimit.go:160-293 | From a start without failures in the window, cache and table give the same count and oldest time after every run. |
| `Throttle.StaleStart` | internal/auth/ratelimit.go:160-205 | After a restart and one more failure they agree if and only if no failure in the window was on record. |
| `Throttle.StaleRestart` | internal/auth/ratelimit.go:160-205 | One failure before a restart and one after: the cache counts one and the table two. |
| `Throttle.PurgeAgreesIff` | internal/auth/ratelimit.go:265-293 | A purge keeps them in agreement if and only if it keeps the window or no failure is at its cut-off. |
| `Throttle.ShortPurge` | internal/auth/ratelimit.go:265-293 | For every shorter retention, a run in which a purge parts them. |
| `Throttle.PassingMeansFew` | internal/auth/ratelimit.go:127-156 | With a lockout at least as long as the window, a passing check means fewer failures than the limit within it. |
| `Throttle.CheckSeesLog` | internal/auth/ratelimit.go:127-156 | What a check counts is exactly the failures in the window since the last success. |
| `Throttle.VerdictExactly` | internal/auth/ratelimit.go:127-156 | After any run from a clean start an account is refused if and only if at least MaxPerAccount failures since its last success are in the window and the oldest plus the lockout is still to come, an address by MaxPerAddress in the same way; the wait is that difference. |
| `Throttle.WaitOnlyShortens` | internal/auth/ratelimit.go:144-150 | With a lockout at least as long as the window, a later check passes or asks for exactly what is left of the same wait. |
| `Throttle.RefusedInVain` | internal/auth/ratelimit.go:144-150 | Attempts made while refused change nothing. |
| `Throttle.DefaultLocks` | internal/auth/ratelimit.go:51-58 | With the default limits the fifth failure locks an account and the thirtieth an address, for what is left of a quarter of an hour, and none before. |
| `Throttle.AfterExactly` | internal/auth/ratelimit.go:160-185 | What counts is exactly what happened strictly after the cut-off, each as often as it did. |
| `Throttle.EarliestExactly` | internal/auth/ratelimit.go:173-182 | The oldest is one of them and none is earlier. |
| `Throttle.ClearedExactly` | internal/auth/ratelimit.go:247-252 | A success deletes the failures of its own key, and no other row. |
| `Throttle.NotBeforeExactly` | internal/auth/ratelimit.go:284-287 | A purge deletes the rows before its cut-off, of either outcome, and no other. |
| `Throttle.NewLimiter` | internal/auth/ratelimit.go:61-116 | A limiter is made exactly when the limits, the window and the lockout are in order. |
| `Throttle.RateBound` | internal/auth/ratelimit.go:127-260 | With a lockout at least as long as the window no window holds more failures than the limit since the process started, one attempt at a time, whatever was on record. |
| `Throttle.CacheTellsLog` | internal/auth/ratelimit.go:160-293 | Whatever was on record at the start, the cache holds what has been recorded since, as far back as the window. |
| `Throttle.RestartBound` | internal/auth/ratelimit.go:160-205 | With the failures in the window before a restart, no window holds more than their number and the limit together. |
| `Throttle.RestartReached` | internal/auth/ratelimit.go:160-205 | For every number of them below the limit there is a run that reaches that. |
| `Throttle.BoundBroken` | internal/auth/ratelimit.go:38-47 | With a shorter one there is a run that breaks the bound. |
| `Throttle.RateBoundedIff` | internal/auth/ratelimit.go:127-260 | The bound holds of every run of one attempt at a time if and only if the lockout is at least the window. |
| `ThrottleRace.RaceBound` | internal/auth/ratelimit.go:127-232 | With at most c attempts between check and failure at once, no window holds more than the limit plus c - 1 failures. |
| `ThrottleRace.RaceBoundReached` | internal/auth/ratelimit.go:127-232 | For every c there is a run that reaches that number. |
| `Throttle.Limiter.CountFailures` | internal/auth/ratelimit.go:160-205 | Count and oldest time come from the cache when it has the identifier, else from the table. |
| `Throttle.Limiter.CheckAttempt` | internal/auth/ratelimit.go:127-156 | Refused exactly when the identifier is not blank, at least as many failures as the limit of its kind are counted and the oldest plus the lockout is still to come; the wait is that difference. |
| `Throttle.Limiter.Failed` | internal/auth/ratelimit.go:209-232 | Table and cache get the failure, and nothing else changes; a blank identifier changes nothing. |
| `Throttle.Limiter.Succeeded` | internal/auth/ratelimit.go:236-260 | The identifier's failures are cleared from both, a success is put down, and every other row stays. |
| `Throttle.Limiter.PurgeOld` | internal/auth/ratelimit.go:265-293 | Exactly the rows before the cut-off go and are counted, and the cache keeps exactly the times after it. |
| `JumpGraph.WalkChain` | internal/sessions/jump.go:163-213 | The recursion with its shared visited set computes the walk of the model. |
| `JumpGraph.WalkExactly` | internal/sessions/jump.go:163-213 | It returns r if and only if r is the full post-order expansion, repeats nothing, avoids what was visited, is SSH throughout and has at most eight hops. |
| `JumpGraph.DepthGuardRedundant` | internal/sessions/jump.go:170-173 | The check on the depth never changes the answer. |
| `JumpGraph.OwnChainFirst` | internal/sessions/jump.go:194-204 | In an expansion every hop of a hop's own chain comes before it. |
| `JumpErrors.WalkVerdict` | internal/sessions/jump.go:163-213 | With a full expansion that could be dialled the answer is it, or that it is too long beyond eight hops; an error about one connection is about one that is met and is as it says; too long is said only when more than eight are met. |
| `JumpErrors.VerdictIs` | internal/sessions/jump.go:97-138 | More than eight hops are too long; else the first hop that is blank, the connection itself, a repetition, missing or not SSH gives the error; else the walk decides. |
| `JumpStore.ValidateJumpChain` | internal/sessions/jump.go:97-138 | The loop and the walk give the verdict of the model. |
| `JumpStore.ValidateExactly` | internal/sessions/jump.go:97-138 | A chain is accepted if and only if its route exists and can be dialled without the connection itself. |
| `JumpStore.EditKeeps` | internal/sessions/connections.go:38-350 | Create, update and delete keep the chains acyclic and the identifiers known. |
| `JumpStore.NeverCyclic` | internal/sessions/jump.go:97-138 | In no run is a connection ever reached through itself. |
| `JumpStore.DeleteKeepsRoutes` | internal/sessions/connections.go:329-350 | A deletion that succeeds leaves the route of every other connection as it was. |
| `JumpStore.DeleteManyKeepsRoutesIff` | internal/sessions/sessions.go:645-678 | Deleting many at once leaves good routes good if and only if no connection that stays names one that went; then no route changes. |
| `JumpUpdate.ElsewhereUnchanged` | internal/sessions/connections.go:246-326 | An update leaves every route that does not pass through the connection as it was. |
| `JumpUpdate.ProtocolSpoilsExactly` | internal/sessions/connections.go:266-271 | A connection that stops being SSH spoils exactly the routes through it. |
| `JumpUpdate.ChainSpoilsExactly` | internal/sessions/connections.go:289-297 | A new chain leaves a route through the connection good if and only if the route with the hops replaced repeats nothing, avoids its target and has at most eight hops. |
| `JumpUpdate.FullChainSpoils` | internal/sessions/connections.go:289-297 | A chain that gives a connection eight hops is accepted and spoils every route through it. |
| `JumpUpdate.AcceptedExactly` | internal/sessions/jump.go:97-138 | A chain is accepted for a connection if and only if it gives that connection a route. |
| `JumpUpdate.AcceptedYetSpoils` | internal/sessions/connections.go:289-297 | Three connections in which an accepted chain takes another one's route. |
| `JumpUpdate.TwoSpoilt` | internal/sessions/sessions.go:645-678 | Two connections of which one loses its route by a change of protocol, or by deleting the other's folder. |
| `JumpStore.Sessions.ExpandJumpChain` | internal/sessions/jump.go:146-157 | The route of a connection is the walk of its chain. |
| `JumpStore.Sessions.CreateSession` | internal/sessions/connections.go:76-80 | Stored exactly when its chain is accepted; nothing else changes, and else nothing. |
| `JumpStore.Sessions.UpdateSession` | internal/sessions/connections.go:246-326 | Of a row that is there exactly the fields given change, and a chain is checked only when it is being set; a missing row or a refused chain changes nothing and gives that error. |
| `JumpStore.Sessions.DeleteSession` | internal/sessions/connections.go:329-350 | Refused exactly while another connection is reached through it. |
| `JumpStore.Sessions.RefileSession` | internal/sessions/connections.go:258-265 | Moving a connection changes where resolving it leads and nothing else of it. |
| `JumpStore.Sessions.DeleteSessions` | internal/sessions/sessions.go:656-670 | Deleting a folder's connections deletes exactly those and asks about no dependents. |
| `FolderForest.DepthOf` | internal/sessions/sessions.go:394-420 | The number of folders up to the top level, if there is one within 33; a folder that is not there is not found. |
| `FolderForest.CheckMove` | internal/sessions/sessions.go:553-590 | Accepted if and only if the new parent reaches the top level and does not lie under the folder. |
| `FolderForest.EditKeeps` | internal/sessions/sessions.go:345-722 | Every edit keeps the folders a forest and the connections in folders that exist. |
| `FolderForest.AlwaysForest` | internal/sessions/sessions.go:345-722 | So they are in every run. |
| `FolderForest.MoveIgnoresHeight` | internal/sessions/sessions.go:553-590 | How deep a folder is after a move above it, and when that exceeds the limit. |
| `FolderForest.MoveTooDeep` | internal/sessions/sessions.go:553-590 | A run of creates within the limit and one accepted move after which a folder's way up cannot be walked. |
| `FolderForest.DescendantFolderIds` | internal/sessions/sessions.go:695-722 | The breadth-first walk lists exactly the subtree, each folder once, if and only if it has at most 10000. |
| `FolderForest.DeleteContents` | internal/sessions/sessions.go:656-670 | Exactly the connections in the listed folders go, and their number is returned. |
| `FolderForest.FolderStore.CreateFolder` | internal/sessions/sessions.go:345-390 | Made exactly when the parent reaches the top level within 30; not found exactly when the parent is not there. |
| `FolderForest.FolderStore.MoveFolder` | internal/sessions/sessions.go:511-549 | Moved exactly when it is there and the parent stays, or reaches the top level within 33 and is not below it. |
| `FolderForest.FolderStore.DeleteFolder` | internal/sessions/sessions.go:621-641 | Deleted exactly when no folder and no connection is in it. |
| `FolderForest.FolderStore.SaveSession` | internal/sessions/connections.go:258-265 | A connection is put into a folder exactly when that is there or is the top level. |
| `FolderForest.FolderStore.DeleteFolderRecursive` | internal/sessions/sessions.go:645-678 | If and only if the subtree has at most 10000 folders it goes, with precisely the connections in it, and their number is returned. |
| `ParentOrder.InParentOrder` | internal/portability/service.go:610-650 | Each folder comes out once, after its parent; a parent is cleared exactly for folders whose way up never leaves the bundle; a list already in order stays as it is. |
| `ParentOrder.Pass` | internal/portability/service.go:623-636 | One pass places whatever can be placed; without progress everything left waits for something left. |
| `ParentOrder.Flush` | internal/portability/service.go:637-646 | What is left is trapped, and goes to the top level. |
| `ParentOrder.DuplicatesNeverEnd` | internal/portability/service.go:622-625 | With two folders of one ID the output never gets as long as the bundle. |
| `FolderPaths.FolderTree.Ensure` | internal/portability/importers.go:279-298 | The folder for a path, made with its missing ancestors and nothing else; earlier folders keep their paths. |
| `FolderPaths.PathOf` | internal/portability/exporters.go:134-148 | The names on the way up, ending on looping bundles too. |
| `FolderPaths.PathBack` | internal/portability/exporters.go:134-148 | Reading the path off a folder gives back the path it was made for. |
| `FolderPaths.PathsDiffer` | internal/portability/importers.go:279-298 | Two folders are the same exactly when their paths are. |
| `FolderPaths.BuiltInOrder` | internal/portability/importers.go:279-305 | Parents come before children. |
| `FolderPaths.FoldersFor` | internal/portability/importers.go:150-165 | After any sequence of calls every path reads back, equal folders mean equal paths, and the folders are already in import order. |
| `FolderPaths.NulSharesFolder` | internal/portability/importers.go:282-285 | Whatever was asked for before, a name holding a NUL is given the folder of a longer path. |
| `FolderPaths.SharesExactly` | internal/portability/importers.go:279-298 | Any two paths are given one folder if and only if their names, split at NULs, are the same one after the other. |
| `FolderPaths.FlatPlain` | internal/portability/importers.go:282-285 | Without NULs that is the path itself. |
| `Import.Service.Import` | internal/portability/service.go:355-585 | The three loops and the second pass compute the import of the model, and what was made before a failure stays. |
| `Import.Service.ImportCreds` | internal/portability/service.go:394-434 | The loop over credentials, one step each, stopping at a failure. |
| `Import.Service.ImportFolders` | internal/portability/service.go:437-485 | The loop over folders. |
| `Import.Service.ImportConns` | internal/portability/service.go:487-532 | The loop over connections, still without chains. |
| `Import.Service.ImportChains` | internal/portability/service.go:534-585 | The second pass. |
| `Import.LevelIsDepth` | internal/sessions/sessions.go:353-361 | The nesting check of the model is the depth that walking up finds. |
| `Import.FindUniqueName` | internal/portability/service.go:653-661 | The loop finds the first free candidate, or gives up on the last. |
| `ImportFacts.Conserves` | internal/portability/service.go:394-532 | Created plus skipped is the number of records, and the account grew by what was created. |
| `ImportFacts.Untouched` | internal/portability/service.go:349-355 | Failed or not, under every policy, no record that was there changes. |
| `ImportMeant.CredsStandFor` | internal/portability/service.go:394-434 | When names in use are skipped, each identifier stands for the credential that had its name, or else for the one made for the first of that name; nothing else is made; and it fails if and only if one to be made has a blank name or an unknown kind. |
| `ImportMeant.FoldersStandFor` | internal/portability/service.go:437-485 | The same of folders, each under what its parent stands for or else where the import goes; it fails if and only if one to be made is unreadable, nameless, too deep or has no parent there. |
| `ImportMeant.ConnsStandFor` | internal/portability/service.go:487-532 | A connection is made for the first of each name in each folder that was free there, as it is in the bundle but for what it refers to, and for no other; it fails if and only if one of those cannot be made. |
| `ImportMeant.OrderedDownward` | internal/portability/service.go:610-650 | In the order of the import no folder comes after one that names it as its parent. |
| `ImportMeant.ImportMeans` | internal/portability/service.go:355-585 | All of that after any import that succeeds: every connection made is in the folder and has the credential that its own ones stand for. |
| `ImportMeant.CredStandsFor` | internal/portability/service.go:394-403 | A credential of the bundle stands for one of the account called the same ignoring case: one that was there if and only if there was one. |
| `ImportMeant.CredentialKept` | internal/portability/service.go:513-523 | So every connection made has the credential its bundle had for it, old or new, and none if the bundle had none. |
| `ImportMeant.TakenListed` | internal/portability/service.go:373-387 | Of several records of one name the last listed counts. |
| `ImportMeant.MapChainExactly` | internal/portability/service.go:550-558 | Mapping a chain keeps the order and drops exactly the hops that were not imported. |
| `ImportMeant.ChainsAreFrom` | internal/portability/service.go:534-585 | A connection made has no chain or its own under the new identifiers. |
| `ImportMeant.ChainVerdict` | internal/portability/service.go:565-584 | The second pass sets a chain if and only if it validates by then, and stops only at a folder that cannot be resolved. |
| `ImportRenamed.RenameMakesAll` | internal/portability/service.go:355-585 | Under "rename" every record of the bundle is made, under the names given out one after the other, and every identifier stands for what was made for it. |
| `ImportRenamed.UniqueIs` | internal/portability/service.go:653-661 | The name settled on has the least number from 2 to 999 that is free, or is the last resort when none is. |
| `ImportRenamed.SettledExactly` | internal/portability/service.go:404-410 | A name given out is in use if and only if the name itself, all 998 candidates and the last resort are. |
| `ImportRenamed.ChosenApart` | internal/portability/service.go:404-410 | While there are at most 998 names in all, those given out are free and differ, each the name asked for or that with a number. |
| `ImportRenamed.CredsApart` | internal/portability/service.go:394-434 | Then no two credentials made are called the same ignoring case, nor as one that was there. |
| `ImportRenamed.FoldersApart` | internal/portability/service.go:437-485 | Nor two folders. |
| `ImportRenamed.ConnsApart` | internal/portability/service.go:487-532 | Nor two connections in one folder. |
| `ImportAgain.SecondTime` | internal/portability/service.go:372-532 | Importing the same bundle again, skipping conflicts, creates nothing and changes nothing. |
| `ImportAgain.ReplaceIsSkip` | internal/portability/service.go:396-403 | Under "replace" every import is the same as under "skip". |
| `ImportAgain.UniqueExactly` | internal/portability/service.go:653-661 | The new name is free if and only if one of the candidates is. |
| `ImportAgain.TakenAnyway` | internal/portability/service.go:653-661 | For every name, names in use under which the one settled on is taken too. |
| `ImportChains.PassKeepsAll` | internal/portability/service.go:534-585 | When every connection of the bundle has a sound route, every chain is kept, whatever the order. |
| `ImportChains.PartExpands` | internal/portability/service.go:534-541 | With chains still missing, an expansion is the full one with some hops left out, in the same order. |
| `ImportChains.PartAccepts` | internal/portability/service.go:567-568 | So a chain that will be sound in the end is accepted before the others are set. |
| `ImportChains.ImportKeepsAcyclic` | internal/portability/service.go:355-585 | No import, whatever the bundle holds, brings a loop into the jump graph. |
| `ImportCopy.AllMadeExactly` | internal/portability/service.go:437-448 | Names that differ ignoring case are never skipped, failure or not; and if the loop ends, none was skipped if and only if they differ. |
| `ImportCopy.InnerSkipped` | internal/portability/service.go:437-448 | A folder inside one of the same name is skipped. |
| `ImportCopy.FoldersCopied` | internal/portability/service.go:437-485 | Every folder is created under its parent's new identifier, as deep as it was. |
| `ImportRoundTrip.GatherIs` | internal/portability/service.go:56-150 | A bundle holds every record as it is, and no secret unless secrets were asked for; there is one if and only if every connection can be resolved. |
| `ImportRoundTrip.RoundTrip` | internal/portability/service.go:56-169 | A tidy account, gathered and imported into an empty one, comes out the same under new identifiers: credentials, tree, connections, settings, chains, and secrets if asked for. |
| `SshAlias.MakeSlug` | internal/portability/exporters.go:321-336 | The loop computes the slug of the model. |
| `SshAlias.SlugTwice` | internal/portability/exporters.go:321-336 | A slug is its own slug. |
| `SshAlias.SlugIsWords` | internal/portability/exporters.go:321-336 | A slug is the runs of letters, digits, dots and underscores in the name, in small letters, with one dash between. |
| `SshAlias.BaseIs` | internal/portability/exporters.go:293-300 | The base name is that of the name, else of the address, else "host". |
| `SshAlias.MakeAlias` | internal/portability/exporters.go:293-318 | The base name, else with its folder, else the first free number; never one in use, and the loop ends. |
| `SshAlias.AliasIs` | internal/portability/exporters.go:293-318 | An alias is the base name, that after the innermost folder's, or that with the least free number from two on, in this order. |
| `SshAlias.AliasTame` | internal/portability/exporters.go:288-292 | An alias holds no blank, no wildcard and no separator. |
| `SshAlias.AliasesDiffer` | internal/portability/exporters.go:211-221 | No two hosts of one file have the same alias. |
| `SshConfig.ExportSshConfig` | internal/portability/exporters.go:192-263 | The file is a comment and one block for each SSH connection. |
| `SshConfig.SshOnlyExactly` | internal/portability/exporters.go:215-219 | Connections of another protocol are left out of the file, and no others. |
| `SshRoundTrip.KeyNamed` | internal/portability/exporters.go:339-345 | A key file is called by the slug of its name, or "id_key". |
| `SshConfig.ParseSshConfig` | internal/portability/sshconfig.go:218-305 | The loop with its current block computes the reading of the model, which `SshBlocks.ReadsBlocks` describes. |
| `SshBlocks.ReadsBlocks` | internal/portability/sshconfig.go:218-337 | Any text: one host for each Host line with a plain name, one wildcard for each other with a pattern, in order, each with the settings of the lines up to the next Host or Match and of no others: the last address, user and jump, the last port from 1 to 65535, all key files. |
| `SshBlocks.OutsideIgnored` | internal/portability/sshconfig.go:273-295 | Lines before the first Host, and after a Match up to the next Host, change nothing. |
| `SshBlocks.IdleIgnored` | internal/portability/sshconfig.go:239-242 | Blank lines, comments and Include lines change nothing, wherever they are. |
| `SshForms.LineForms` | internal/portability/sshconfig.go:308-313 | A keyword is read in small letters and its value without the blanks, tabs and equals signs before it. |
| `SshForms.CommentForm` | internal/portability/sshconfig.go:239-242 | A line that begins with a number sign is a comment. |
| `SshForms.BlankForm` | internal/portability/sshconfig.go:239-242 | A line of blanks is blank. |
| `SshForms.QuotesDropped` | internal/portability/sshconfig.go:316-317 | Quotes around a value are not part of it. |
| `SshForms.FieldsAre` | internal/portability/sshconfig.go:248-251 | The patterns of a Host line are its words. |
| `SshForms.CalledBy` | internal/portability/sshconfig.go:253-271 | A host is called by the first pattern without a wildcard or negation; without one it is a wildcard. |
| `SshForms.HopForms` | internal/portability/sshconfig.go:537-542 | A hop is looked up by its host whatever user and port are written with it, except that an address in brackets keeps its port. |
| `SshConfig.ResolveJumpChain` | internal/portability/sshconfig.go:531-551 | Exactly the known hops, in order, and exactly the others reported missing, apart from blank ones and "none". |
| `SshRoundTrip.LineRead` | internal/portability/sshconfig.go:308-313 | A written line is read as its keyword and its value. |
| `SshRoundTrip.BlockRead` | internal/portability/sshconfig.go:316-337 | A block is read as the host it was written for. |
| `SshRoundTrip.FileRead` | internal/portability/sshconfig.go:218-305 | Reading an exported file gives one host for each connection, in order, and nothing else. |
| `SshImport.SaveHosts` | internal/portability/sshconfig.go:135-188 | The two passes that turn hosts into connections and names into chains. |
| `SshImport.HopRightExactly` | internal/portability/exporters.go:243-256 | A hop is read as it was meant if and only if, being in the file, its alias is its base name and not "none", or, not being in it, its base name is nobody's alias or "none". |
| `SshImport.SavedHopExactly` | internal/portability/sshconfig.go:531-551 | The same of what is saved for a connection with one hop. |
| `SshImport.ChainRightExactly` | internal/portability/sshconfig.go:531-551 | A chain of any length through exported connections is read as it was if and only if every hop is kept. |
| `SshImport.PlainExactly` | internal/portability/exporters.go:293-305 | An alias is the base name if and only if nobody earlier in the file has it. |
| `SshImport.LaterMisread` | internal/portability/exporters.go:243-250 | Of two connections with one base name the later is read as another one. |
| `SshImport.Misread` | internal/portability/exporters.go:243-250 | Three connections of which one is saved with the wrong hop. |
| `SshImport.ReadBack` | internal/portability/exporters.go:192-263 | Every SSH connection is read back with its alias, address, user and port, and with its jump chain if its hops are kept. |
| `SshImport.PlainNamesKept` | internal/portability/exporters.go:293-305 | With base names that differ among the SSH connections aliases are base names, and hops are kept unless called "none" or, not being SSH, like an SSH one. |
| `CopyTree.Descend` | internal/files/transfer.go:493-531 | The recursion with its growing list computes the walk of the model. |
| `CopyTree.WalkComplete` | internal/files/transfer.go:493-531 | Everything reached through directories that is not a link is listed. |
| `CopyTree.WalkSound` | internal/files/transfer.go:487-531 | And nothing else is. |
| `CopyTree.SortedStably` | internal/files/transfer.go:507-509 | Directories are listed before everything else, and entries of one kind in the order they came. |
| `CopyTree.ParentsListed` | internal/files/transfer.go:487-492 | A directory is listed before anything in it. |
| `CopyRun.Stream` | internal/files/transfer.go:449-478 | On every exit the progress is what the writer took, the beginning of what was read; the first turn that is cancelled, not wholly taken, broken or at the end decides the outcome; it succeeds if and only if the end is reached uncancelled with everything taken. |
| `CopyRun.CopyFile` | internal/files/transfer.go:392-443 | It writes if and only if it may overwrite or nothing is there, and both sides open; the destination holds what was counted; it succeeds if and only if streaming and closing do, and then with the whole file. |
| `CopyPaths.NamesKeptExactly` | internal/files/transfer.go:365-371 | An entry goes to its own names under the destination if and only if the path asked for is no longer than what stands before the names in the entry's path. |
| `CopyPaths.KeptMeans` | internal/files/transfer.go:365-371 | That is: not the current directory, and at most one slash more than the clean path, or for the root the slash alone. |
| `CopyPaths.EntryIs` | internal/proto/sftpx/client.go:158-214 | The path a listing gives for an entry is the clean directory and the names. |
| `CopyPaths.CleanAgain` | internal/proto/sftpx/client.go:508-516 | Cleaning a clean path gives it back. |
| `CopyPaths.CleaningRules` | internal/proto/sftpx/client.go:508-516 | Nothing and "." add nothing, ".." takes back the name before it or at the root nothing, and what is normal stays. |
| `CopyPaths.CleanShortens` | internal/proto/sftpx/client.go:508-516 | Cleaning never makes a path longer. |
| `CopyPaths.FirstLetterLost` | internal/files/transfer.go:370-371 | From "." every name of two letters or more loses its first. |
| `CopyPaths.ShortNameLost` | internal/files/transfer.go:370-371 | A misnamed file from "/etc//", and a slice out of range from "///". |
| `CopyRun.RunCopy` | internal/files/transfer.go:364-389 | On every exit the bytes counted are those written, and on success the total; where names are kept nothing panics, the destination holds what was counted, and success means the walk has been replayed; to an empty destination it succeeds if and only if it is not cancelled and every file goes well. |
| `CopyRun.Copy` | internal/files/transfer.go:324-389 | The whole of runCopy, refusals, single files and errors of the walk included: a file is copied, and where names are kept a directory is copied to an empty destination as the tree without its links; and exactly when that succeeds. |
| `CopyRun.SumSizes` | internal/files/transfer.go:356-359 | The total is the sum of the sizes listed. |
| `CopyRun.Rebuilds` | internal/files/transfer.go:345-389 | Replaying the walk, names kept, on an empty destination gives the tree without its links; `CopyRun.Copy` says when it is replayed so. |
| `CopyRun.RootMadeExactly` | internal/files/transfer.go:345-389 | Replaying the walk makes the copied directory itself if and only if there was something to copy. |
| `CopyRun.NothingMade` | internal/files/transfer.go:345-389 | An empty directory, or one with a single link, is not made. |
| `CopyPaths.WithinExactly` | internal/files/transfer.go:534-540 | On any two paths the guard finds exactly those at or beneath the source once both are cleaned, except beneath the root or the current directory. |
| `CopyPaths.RootNotGuarded` | internal/files/transfer.go:534-540 | A directory of the root is not seen as beneath the root. |

## Left out

- Teams and visibility: one personal owner throughout.
- Time as formatted text: times are integers, as if the stored strings compared like them.
- The cache key of the throttle: a pair of kind and identifier rather than the joined text.
- Inherited defaults and effective values: settings documents are carried along, and may be unreadable; of resolving, only
  whether the walk up the folders meets the nesting limit is modelled, as what makes it fail.
- Which of the pool's callers the file manager is: any grant to a caller may be the one it gets.
- The throttle's calls are single steps, although each touches table and cache one after the other.
- Unicode case folding and blanks: ASCII only.
- Known hosts, warnings, notes, audit records and message texts.
- Goroutine scheduling of tear-downs: each is a task that may be interleaved at any point, which allows more orders than
  the program has.
- Dial functions that return a release together with an error: the pool's own dials return none.
- `Import.Service.Import`: does not cover known hosts and warnings, asks for folders with distinct IDs, because ordering them does not end otherwise
  (`ParentOrder.DuplicatesNeverEnd`), and takes the identifiers to be minted and the listing order of the account as
  arguments.
- `ParentOrder.InParentOrder`: asks for distinct IDs for the same reason.
- `FolderPaths.FolderTree.Ensure`: what it says about paths is said while no path has held a NUL;
  `FolderPaths.NulSharesFolder` shows why.
- `ImportRoundTrip.RoundTrip`: does not cover the sort order of records.
- `SshImport.ChainRightExactly`: is about chains through exported connections; hops that are not in the file are covered
  one by one, because a hop dropped and one wrongly found can cancel out in a longer chain.
- `SshImport.ReadBack`: is about addresses and users without line breaks, without blanks or quotes at their ends and
  without an equals sign in front; the limits on the size of a file and of a line are not modelled, and key files are
  written but not read.
- `SshConfig.ExportSshConfig`: takes the connections in the order they are to be written, and the opening comment, as
  arguments.
- `CopyRun.Copy`: takes what reading, writing, closing and listing do as arguments, supposes that a file that can be read to
  its end is as it was when it was listed, and does not cover the count of files or a source that is itself a link.
- `CopyRun.RunCopy`: has the same arguments; where names are not kept it says what is counted and nothing of the destination.
- `CopyRun.CopyFile`: does not cover file modes, which are copied afterwards and whose failure is ignored.
- `JumpStore.Sessions.UpdateSession`: covers name, protocol and chain, not that a blank name is refused and a name trimmed;
  the other fields do not bear on routes, except the folder, which is an edit of its own (`JumpStore.Sessions.RefileSession`).
- The preview of an import, the other export and import formats, deletion jobs and the quota on jobs.
- Logon scripts and the expansion of their templates, one-time passwords, sign-in sessions, tunnels and consoles, which
  would add mostly single-function facts.
- Cryptography, SQL, HTTP and the web interface.
