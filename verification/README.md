# A verified model of the NetworkManager daemon's core

This Dafny project models the parts of the NetworkManager daemon (`src/core`) whose correctness is
hardest to see from the code, and proves what they are there for:

- **The balance-slb bond manager**, an asynchronous state machine that keeps nftables rules in step with
  the links of a bond: `BondMachine` (the transitions), `BondSystem` (whole runs, with a changing platform
  and failing and cancelled nft calls), `NftScript` (what the scripts do to the kernel), `BondChains` (the
  chains left in the kernel), `BondRename` (the tables left when the bond is renamed), `BondLate` (scripts
  applied after their cancellation was reported), `BondCalls` (which calls a run issues, and what is
  reported), `BondMembers` (the order of the active members) and
  `BondManager` (the C structure as a class, each handler proved to take the machine's step).
- **Authorization**, in two layers: `AuthContract` is the promise of the authorization manager,
  `AuthMachine` and `AuthManager` keep it, `AuthChainMachine` and `AuthChain` rely on it, and `AuthStack`
  joins the two: every step of the manager is one the chain is prepared for, every step of the chain is
  a run of the manager.
- **Matching profiles**: `Routes` (sort and merge against a multiset statement), `ConnectionMatch` (pruning
  a table of differences), `FreshName` (searches that end by a pigeonhole argument).
- **Configuration**: `KeyfileMerge`, `MatchSections`, `GlobalDns` and `GlobalDnsMeaning` (what any value
  contains).
- **Connectivity checks**: `ConnectivityVerdict` (judging a response piece by piece), `ConnectivityHandles`
  (every check is called back exactly once and with the right state, with re-entrant callbacks).
- **Checkpoints and activations**: `Checkpoints`, `RollbackTimer`, `ActiveConnections`.

`Common` and `Order` hold sets of elements, pigeonhole facts, string and list orders and sorting.

Code that updates an object step by step is a class whose methods are proved against specification
functions; the properties are lemmas about those functions and about runs of them. Run
`dafny verify dfyconfig.toml` to check everything.

## Assumptions

- An nft call never completes synchronously. It reports "cancelled" exactly when it was cancelled. A
  successful call was applied, a failed or cancelled one may or may not have been, and in `BondLate` may
  still be later.
- A D-Bus call to polkit reports "cancelled" exactly when its cancellable was cancelled.
- Between the begin and the return of a user callback the main loop does not run.
- The code behind a connectivity callback is a finite script: it starts finitely many checks, whose
  callbacks again do. A callback that always starts another check would keep `dispose` busy for ever.
- A match-device specification is decided by the device: equal specifications match alike. Different ones
  are taken to be told apart by some device; in fact an empty list and `*` are not told apart from others
  by every device, nor are two spellings of the same match.
- The interfaces named in an nft script exist when it is applied.
- Version ids and request numbers are 64-bit counters in the source and unbounded here.
- Sorting is glib's: only that the result is ordered and a permutation is used.

## Where the code is not what one would expect

- The first active member of a bond has no drop chain: the script adds it and deletes it again, so after
  a good up-call the chains are those of the other members (`NftScript.PrimaryReceivesBroadcast`).
- A rename of the bond can leave a table behind in a state reported as good (`BondRename.RenameMayLeak`):
  exactly if the call that should have replaced it completed unapplied
  (`BondRename.TableIsLeftExactlyWhen`).
- A script applied after its cancellation was reported can make a chain that nobody tracks
  (`BondLate.LateScriptMayEscape`): exactly if a member it makes a chain for is not tracked then and its
  chain was not there at the start (`BondLate.EscapesExactlyWhen`). It can also bring back the table of a
  manager that is gone (`BondLate.LateScriptMayRevive`), or remove the chain of an active member: what the
  kernel looks like at rest survives exactly if the script only takes down while the bond is off, and
  spares the members while it is up (`BondLate.DisturbsExactlyWhen`). The next completion restores it
  unless a chain escaped (`BondLate.CompletionRestoresOrder`).
- Chains found in the table at the start are never cleaned up before the bond goes down
  (`BondChains.ChainsAreTracked`).
- A chain that adds a call while the authorization manager is shutting down counts a call that has no
  call-id and waits for it for ever (`AuthChainMachine.LateCallIsCounted`; exactly then:
  `AuthChainMachine.PendingCountsLiveCalls`, `AuthChainMachine.AnsweredMeansDone`). Nothing in the daemon
  calls `nm_auth_manager_force_shutdown` yet.
- Merging an internal keyfile a second time is not always the identity: a section all of whose keys are
  tombstoned stays without keys at first and is dropped then (`KeyfileMerge.MergeIsIdempotent`: exactly
  then; `KeyfileMerge.SecondMergeDropsGroup`).
- `is_intern_atomic_group` says yes for a section with the internal prefix that has a marker key, although
  such a section is overlaid key by key (`KeyfileMerge.AtomicGroupTest`) and keys of the user show through
  (`KeyfileMerge.UserShowsThroughExactlyWhen`, `KeyfileMerge.UserShowsThrough`).
- The section found for `allowed-connections` is asserted to have that key, but a `stop-match` section
  without it can be found (`MatchSections.AllowedConnectionsExpectation`: exactly when).
- A global DNS configuration with searches or options but no domain is loaded from a file and published,
  but refused when it comes back; domains without a default one are ignored in a file, but accepted over
  D-Bus when nothing else is set (`GlobalDns.RoundTrip`, `GlobalDns.DomainsAloneAreAccepted`).
- A rollback timeout above 4294967 seconds is reported in full but fires after 2^32 - 1 milliseconds
  (`RollbackTimer.Timer.Adjust`).

## Model

| member | source | states |
|---|---|---|
| `BondMachine.RequestSetsTarget` | src/core/nm-bond-manager.c:527-655 | in every registration state, a request makes its argument the configuration the manager heads for |
| `BondMachine.CompletionKeepsTarget` | src/core/nm-bond-manager.c:299-427 | a completion, successful, failed or cancelled, keeps the target, is one step closer to rest, and the last one rests exactly at it |
| `BondMachine.CheckKeepsInv` | src/core/nm-bond-manager.c:658-782 | a check keeps the strengthened self-assertion: one call in flight exactly in the transient states and it is that state's call, no check is lost, the members of a running call are tracked; the target becomes what was asked for |
| `BondMachine.NftDoneKeepsInv` | src/core/nm-bond-manager.c:263-430 | the completion handler keeps the self-assertion, and the target unless a postponed check changed it |
| `BondMachine.LinkChangedKeepsInv` | src/core/nm-bond-manager.c:797-832 | a link event only schedules a check, and schedules it so that it cannot be lost |
| `BondMachine.DestroyKeepsInv` | src/core/nm-bond-manager.c:910-949 | destroying keeps the self-assertion and makes "nothing" the target |
| `BondMachine.RecheckIsNoop` | src/core/nm-bond-manager.c:572-616 | a check that finds the bond and the set of running ports that are configured, or being configured, changes no configuration, cancels nothing and issues no call |
| `BondSystem.RunsKeepSystemInv` | src/core/nm-bond-manager.c:179-228 | over every run of link events, checks, reapplies, completions and destroy, the self-assertion holds, and with no check pending the manager heads for what the platform demands at that moment |
| `BondSystem.QuiescentMeansRegistered` | src/core/nm-bond-manager.c:658-832 | in every reachable state with no call and no idle source, the registered configuration is exactly the bond with its running ports, or off; a destroyed manager is freed |
| `BondSystem.TwoCompletionsSettle` | src/core/nm-bond-manager.c:262-430 | two completions bring any reachable manager without a postponed check to rest at the target it had |
| `BondSystem.SettlesWithinThree` | src/core/nm-bond-manager.c:262-430 | from any reachable state, with or without a postponed check, at most three completions and idle handlers are due, and where none is due any more the registered configuration is what the platform demands |
| `BondSystem.HandlerLowersWork` | src/core/nm-bond-manager.c:262-430 | every handler that is due brings the manager closer to rest |
| `BondSystem.EffectIsScript` | src/core/nm-bond-manager.c:443-482 | the script of a call, run command by command, never fails half way and has the effect the tracking assumes |
| `BondSystem.LinkMatters` | src/core/nm-bond-manager.c:797-832 | a link event schedules a check exactly if it is about the bond itself, a link whose controller it is (or was when it vanished), or a port of the last scan; any other changes nothing |
| `BondCalls.ReapplyLeadsToCall` | src/core/nm-bond-manager.c:527-655 | over every run after a reapply at which the platform shows a bond, whatever the state it found: the manager comes to rest only after it completed a call issued at or after that moment, and the last one made the configuration it rests in; the exception is a bond that was being taken down and is down |
| `BondCalls.ReapplyWhileUpping` | src/core/nm-bond-manager.c:556-600 | a reapply while a configuration is being made, also the wanted one: nothing until its completion takes the cancellation back, it completes as cancelled, and the next call makes what is wanted by then, in place of the cancelled configuration |
| `BondCalls.QueuedFollows` | src/core/nm-bond-manager.c:347-415 | a configuration that waits for a cancelled call or a down-call is made as soon as that one is over, and takes over from the configuration before |
| `BondCalls.CheckOfTargetIsNoop` | src/core/nm-bond-manager.c:527-655 | in every state a check without a reapply that finds what the manager heads for already cancels nothing and issues nothing |
| `BondCalls.CallsAreConserved` | src/core/nm-bond-manager.c:433-522 | over every run the calls running or issued are, in order, those completed and the one still running |
| `BondCalls.ReportedState` | src/core/nm-bond-manager.c:244-258 | over every run of a manager that is not destroyed: pending exactly while a call is in flight, else good exactly if no call ended by itself or the last that did succeeded |
| `BondChains.ChainsAreTracked` | src/core/nm-bond-manager.c:279-297 | for a bond that keeps its name, after any mix of successful, failed and cancelled-maybe-applied calls and whatever was in the kernel: the chains are within the tracked members and those found at the start, other tables are untouched, after a good up-call the tracked are exactly the members and all but the first have their chain, after a good down-call there is no table; chains found at the start stay exactly until a down-call is applied |
| `BondChains.CleanStart` | src/core/nm-bond-manager.c:443-482 | without such a table at the start, the chains after a good up-call are exactly those of the members but the first |
| `BondChains.RecallMeans` | src/core/nm-bond-manager.c:279-297 | what the completed calls leave of the chains found at the start: all until a down-call is applied, then none |
| `BondChains.EffectOnBond` | src/core/nm-bond-manager.c:443-482 | what an applied call does to the bond's table, and to no other |
| `BondRename.TableIsLeftExactlyWhen` | src/core/nm-bond-manager.c:347-360 | over every run with whatever renames, at rest: a table other than the current one that the calls had to do with is there exactly if it was there before the last such call, which took it down or replaced it, and that call completed unapplied |
| `BondRename.OtherTablesStay` | src/core/nm-bond-manager.c:449-482 | tables that no call had to do with stay as they are |
| `BondRename.RenameMayLeak` | src/core/nm-bond-manager.c:347-360 | a run from a new manager, for any two names, that ends at rest and good with the old table left |
| `BondRename.RunsFit` | src/core/nm-bond-manager.c:299-427 | over every run each configuration is taken over by the very next call |
| `BondLate.EscapesExactlyWhen` | src/core/nm-firewall-utils.c:458-484 | over every run in which scripts of failed or cancelled calls may be applied at any later time: no chain escapes the tracking throughout exactly if each late script only makes chains accounted for at that moment |
| `BondLate.DisturbsExactlyWhen` | src/core/nm-firewall-utils.c:458-484 | over every such run the kernel is as it should be throughout, tracked and at rest exactly the members' chains or no table, exactly if each late script besides only takes down while the bond is off, and while it is up removes no member's chain without making it again and makes none for others |
| `BondLate.LateStaysTightExactlyWhen` | src/core/nm-firewall-utils.c:458-484 | the same for one late script |
| `BondLate.CompletionRestoresOrder` | src/core/nm-bond-manager.c:279-297 | a completion puts the kernel in order again, as long as no chain escaped |
| `BondLate.LateScriptsFromStart` | src/core/nm-firewall-utils.c:458-484 | both conditions from the creation of a manager, with whatever is in the kernel |
| `BondLate.LateScriptMayEscape` | src/core/nm-firewall-utils.c:458-484 | a run from a new manager in which a cancelled script makes an untracked chain |
| `BondLate.LateScriptMayRevive` | src/core/nm-firewall-utils.c:458-484 | a run after which the manager is gone and its cancelled script has brought the table back for good |
| `NftScript.UpScript` | src/core/nm-firewall-utils.c:762-947 | an up-script applies to any kernel state; its effect depends on the set of forgotten members only |
| `NftScript.DownScript` | src/core/nm-firewall-utils.c:762-796 | a down-script applies to any kernel state and removes exactly the bond's table |
| `NftScript.PrimaryReceivesBroadcast` | src/core/nm-firewall-utils.c:847-885 | the first active member has no drop chain, every other one has, exactly if nft can parse its name |
| `NftScript.ChainNameOf` | src/core/nm-firewall-utils.c:856-863 | chain names tell members apart and from the base chains |
| `NftScript.SanitizeInjective` | src/core/nm-firewall-utils.c:83-103 | different names never share a table or chain name |
| `NftScript.SanitizeRoundTrip` | src/core/nm-firewall-utils.c:83-103 | a sanitized name read back, an underscore being followed by the two hex digits of a byte, is the name |
| `NftScript.NftIfnameValid` | src/core/nm-firewall-utils.c:43-81 | the loop over the characters accepts exactly the names of the grammar that are shorter than 16 characters |
| `BondMembers.BuildActiveList` | src/core/nm-bond-manager.c:698-776 | in place on the array: the result has each running port once, ports of the previous list first in their old order, the others in name order |
| `BondMembers.ActiveListUnique` | src/core/nm-bond-manager.c:698-776 | that description determines the list |
| `BondMembers.UnchangedPortsKeepList` | src/core/nm-bond-manager.c:746-772 | with an unchanged set of ports the list is the previous one |
| `BondMembers.DropRepeated` | src/core/nm-bond-manager.c:721-744 | of a sorted array exactly its names are left at the front, strictly ascending |
| `BondMembers.MoveDistinct` | src/core/nm-bond-manager.c:735-744 | in place: the distinct names of the array move to its front, in order |
| `BondMembers.UniqIsIncreasing` | src/core/nm-bond-manager.c:735-744 | for a sorted array they are strictly ascending |
| `BondMembers.StealKept` | src/core/nm-bond-manager.c:749-766 | the previous members still available are moved out of the array in their previous order |
| `BondMembers.CollectRest` | src/core/nm-bond-manager.c:768-772 | what is left of the array follows in order |
| `BondManager.BondManager.constructor` | src/core/nm-bond-manager.c:871-907 | a new manager is valid and has made its first check |
| `BondManager.BondManager.NotifyStateChange` | src/core/nm-bond-manager.c:244-258 | the reported state is that of the call in flight or of the last result |
| `BondManager.BondManager.NftCall` | src/core/nm-bond-manager.c:433-522 | new members are tracked before the call, those it removes are remembered with it; the fields afterwards |
| `BondManager.BondManager.ReconfigureDo` | src/core/nm-bond-manager.c:527-655 | the switch takes exactly the machine's request step |
| `BondManager.BondManager.ReconfigureCheck` | src/core/nm-bond-manager.c:658-782 | keeps validity; the new state is the machine's check of what the platform shows |
| `BondManager.BondManager.OnIdle` | src/core/nm-bond-manager.c:785-792 | the idle handler finds no call in flight and makes the check |
| `BondManager.BondManager.Reapply` | src/core/nm-bond-manager.c:837-840 | a reapply is a check that always leads to a call (`BondCalls.ReapplyLeadsToCall`) |
| `BondManager.BondManager.LinkChangedCb` | src/core/nm-bond-manager.c:797-832 | schedules a check exactly for links that matter |
| `BondManager.BondManager.NftCallCb` | src/core/nm-bond-manager.c:263-430 | keeps validity and takes the machine's completion step; the branches marked as not reached are not |
| `BondManager.BondManager.DestroyManager` | src/core/nm-bond-manager.c:910-949 | keeps validity and takes the machine's destroy step |
| `AuthContract.MovesKeepExactlyOnce` | src/core/nm-auth-manager.c:288-300 | whatever obeys the contract answers every request exactly once, and as cancelled only when its owner withdraws it |
| `AuthMachine.StepKeepsInv` | src/core/nm-auth-manager.c:156-286 | every step of the call-id life cycle keeps its invariant and is the step of the contract that it means; only a cancellation by the caller comes back as cancelled |
| `AuthMachine.EveryRequestOnce` | src/core/nm-auth-manager.c:156-425 | over every run: each request is called back exactly once unless it is still waiting, each call-id freed at most once and exactly when it no longer exists, and the references held equal the live call-ids |
| `AuthMachine.StepLowersPotential` | src/core/nm-auth-manager.c:186-286 | every completion and every cancellation that has an effect brings the end closer |
| `AuthMachine.SomethingIsDue` | src/core/nm-auth-manager.c:186-286 | while a call-id exists some completion is due |
| `AuthMachine.EverythingEnds` | src/core/nm-auth-manager.c:534-569 | left alone, a bounded number of completions frees every call-id and drops every reference, also with retractions and a forced shutdown |
| `AuthMachine.WhoIsGranted` | src/core/nm-auth-manager.c:302-401 | over every run, a request that was not cancelled by its caller: the daemon and root are granted it, so is everybody with mode "allow-all", others are denied it with mode "root-only", and with polkit they get exactly what polkit replied to that request |
| `AuthMachine.CancelledIsRetracted` | src/core/nm-auth-manager.c:186-258 | over every run, a request that went to polkit: cancelled by its caller, polkit was asked to cancel it and replied before the call-id is gone, short of a shutdown; not cancelled, it is never retracted |
| `AuthManager.AuthManager.CheckAuthorization` | src/core/nm-auth-manager.c:302-401 | a new call-id and no callback; nothing when shutting down; the answer is the one of `AuthMachine.WhoIsGranted` |
| `AuthManager.AuthManager.CancelCall` | src/core/nm-auth-manager.c:407-425 | the callback is invoked with a cancellation, at most once |
| `AuthManager.AuthManager.InvokeCallback` | src/core/nm-auth-manager.c:173-183 | the call-id is unlinked before its callback runs |
| `AuthManager.AuthManager.CallIdFree` | src/core/nm-auth-manager.c:156-170 | freed at once, unless a D-Bus call is still in flight, which is cancelled instead |
| `AuthManager.AuthManager.CheckAuthorizeCb` | src/core/nm-auth-manager.c:204-267 | a reply invokes the callback with its answer |
| `AuthManager.AuthManager.CheckAuthorizeCancelledCb` | src/core/nm-auth-manager.c:226-258 | a cancelled reply starts the retraction, or frees the call-id after a forced shutdown |
| `AuthManager.AuthManager.CancelCheckAuthorizationCb` | src/core/nm-auth-manager.c:186-201 | the end of the retraction frees the call-id |
| `AuthManager.AuthManager.OnIdle` | src/core/nm-auth-manager.c:270-286 | an answer known without polkit is delivered from the idle handler |
| `AuthManager.AuthManager.CallbackDone` | src/core/nm-auth-manager.c:173-183 | when the callback returns the call-id is freed or left to its D-Bus call |
| `AuthManager.AuthManager.ForceShutdownNow` | src/core/nm-auth-manager.c:534-569 | takes the machine's shutdown step |
| `AuthStack.MoveIsAnEvent` | src/core/nm-auth-utils.c:354-394 | every move the contract allows, other than the chain's own withdrawals, is an event the chain is prepared for |
| `AuthStack.ManagerStepIsForeign` | src/core/nm-auth-manager.c:156-286 | every step of the manager, except a cancellation by this chain, is a step of the chain's surroundings, and both invariants survive it |
| `AuthStack.ChainStepIsRealised` | src/core/nm-auth-utils.c:414-476 | every step of the chain is a run of the manager: asked for, granted; withdrawn, back as cancelled |
| `AuthStack.RunsStayJoined` | src/core/nm-auth-utils.c:354-597 | over every interleaving of the two layers the chain sees what the manager promises |
| `AuthStack.ReportsWhatTheManagerAnswered` | src/core/nm-auth-utils.c:306-333 | over every such run the chain reports at most once, and then each request was answered exactly once, not as cancelled, and its result is yes exactly if the answer authorizes, auth exactly if it only challenges, no exactly if it does neither, unknown exactly if it is an error |
| `AuthChainMachine.RunKeepsInv` | src/core/nm-auth-utils.c:72-130 | over every interleaving with other clients the chain's invariant holds |
| `AuthChainMachine.PendingCountsLiveCalls` | src/core/nm-auth-utils.c:84-90 | over every run the pending counter is the number of calls with a live call-id plus the number of calls added while the manager was shutting down and the chain neither cancelled nor over |
| `AuthChainMachine.LateCallIsCounted` | src/core/nm-auth-utils.c:462-476 | the shortest run in which the counter is off |
| `AuthChainMachine.DoneAtMostOnce` | src/core/nm-auth-utils.c:96-130 | the done-callback runs at most once, with no call pending, not after a destroy from outside of it, and exactly once if the chain is not destroyed before it is gone |
| `AuthChainMachine.GoneStaysSilent` | src/core/nm-auth-utils.c:551-597 | a destroyed chain never reports again |
| `AuthChainMachine.AnsweredMeansDone` | src/core/nm-auth-utils.c:354-394 | over every run, once everything asked for is answered, a started chain has reported, exactly if no call was added late |
| `AuthChainMachine.ResultsAreAnswers` | src/core/nm-auth-utils.c:306-333 | in the done-callback each listed permission has the result that tells the one answer to its last request, spelled out as above; unknown after a cancellation, and for permissions not listed |
| `AuthChainMachine.Eval` | src/core/nm-auth-manager.h:28-38 | yes, auth, no and unknown each exactly for which answers |
| `AuthChainMachine.ListIsWhatWasAskedFor` | src/core/nm-auth-utils.c:414-476 | over every run the list holds exactly the permissions asked for, the last one first; cancellations and answers change none |
| `AuthChainMachine.CancelledMeansDone` | src/core/nm-auth-utils.c:106-142 | a cancelled chain has reported, or its idle handler is due, which reports with no call left pending |
| `AuthChainMachine.OnlyCancelledIsIdle` | src/core/nm-auth-utils.c:106-142 | over every run without a cancellation the chain never drops its calls |
| `AuthChain.AuthChain.constructor` | src/core/nm-auth-utils.c:509-537 | a new chain is valid and has asked nothing |
| `AuthChain.AuthChain.AddPermission` | src/core/nm-auth-utils.c:414-476 | starts the chain at the first call, asks, counts; after a cancellation or while finishing it asks nothing |
| `AuthChain.AuthChain.Answer` | src/core/nm-auth-utils.c:354-394 | the answer is filed with its call, and the last one begins the done-callback |
| `AuthChain.AuthChain.CancelPending` | src/core/nm-auth-utils.c:165-175 | every live call-id is cancelled once and the counter lowered by their number |
| `AuthChain.AuthChain.OnCancelled` | src/core/nm-auth-utils.c:106-130 | a cancelled chain drops what is pending and reports |
| `AuthChain.AuthChain.CancellableSignal` | src/core/nm-auth-utils.c:126-142 | a cancellation is only noted for an idle handler |
| `AuthChain.AuthChain.DestroyChain` | src/core/nm-auth-utils.c:551-597 | from inside the callback it is only noted, from outside everything is dropped |
| `AuthChain.AuthChain.DoneReturned` | src/core/nm-auth-utils.c:97-103 | after the callback the chain is gone |
| `Routes.RouteCompareIsKeyCmp` | src/core/NetworkManagerUtils.c:396-429 | the comparison is the order on family, prefix, effective metric, next hop and masked destination, which ties only on equal keys |
| `Routes.TieExactlyWhen` | src/core/NetworkManagerUtils.c:396-429 | valid routes compare equal exactly if family, prefix and next hop are equal, the metrics are, an unset one standing for the default, and the leading bits of the destinations agree bit by bit, as many as the prefix says |
| `Routes.NetworkBits` | src/core/NetworkManagerUtils.c:424-425 | masking keeps exactly the leading bits and clears all others |
| `Routes.CompareRoutes` | src/core/NetworkManagerUtils.c:476-513 | sorting and merging accepts exactly when the candidate's routes are a sub-multiset of the original's and every surplus route is a host route |
| `Routes.MergeDecidesMatch` | src/core/NetworkManagerUtils.c:483-509 | merging two ascending lists decides that multiset statement |
| `Routes.OrderOfRoutesIsIrrelevant` | src/core/NetworkManagerUtils.c:465-513 | the answer does not depend on the order in which either profile lists its routes |
| `ConnectionMatch.AcceptableMeans` | src/core/NetworkManagerUtils.c:787-845 | the verdict spelled out for every setting: which properties may differ, and which excuse each of them needs; the old name of the controller only goes together with the new one |
| `ConnectionMatch.AnyOrderSameVerdict` | src/core/NetworkManagerUtils.c:787-845 | the ten checks in any order, however often, accept exactly when every differing property outside the match setting is excused by one of them |
| `ConnectionMatch.SeriesDecidedUpFront` | src/core/NetworkManagerUtils.c:787-845 | any series of checks is decided by the difference it starts from |
| `ConnectionMatch.PrunedExactly` | src/core/NetworkManagerUtils.c:335-344 | pruning removes exactly the given properties and leaves no setting empty that was not |
| `ConnectionMatch.DiffTable.Remove` | src/core/NetworkManagerUtils.c:335-344 | a property is removed from a table that is still owned |
| `ConnectionMatch.DiffTable.CheckIp6Method` | src/core/NetworkManagerUtils.c:346-394 | passes exactly if the difference is excusable, and prunes then |
| `ConnectionMatch.DiffTable.CheckIp4Method` | src/core/NetworkManagerUtils.c:515-551 | likewise, which needs a device without carrier |
| `ConnectionMatch.DiffTable.CheckRoutes` | src/core/NetworkManagerUtils.c:437-513 | likewise for routes of either family, with the candidate's metric as default |
| `ConnectionMatch.DiffTable.CheckInterfaceName` | src/core/NetworkManagerUtils.c:553-580 | likewise: one of the names is unset |
| `ConnectionMatch.DiffTable.CheckMac` | src/core/NetworkManagerUtils.c:582-612 | likewise: one of the addresses is unset |
| `ConnectionMatch.DiffTable.CheckInfinibandMac` | src/core/NetworkManagerUtils.c:614-646 | likewise for infiniband |
| `ConnectionMatch.DiffTable.CheckClonedMac` | src/core/NetworkManagerUtils.c:648-686 | likewise: one of the addresses is unset or special |
| `ConnectionMatch.DiffTable.CheckController` | src/core/NetworkManagerUtils.c:688-738 | likewise: the candidate names the interface of the profile the UUID stands for; both names of the property go, without touching a freed table |
| `ConnectionMatch.DiffTable.CheckS390` | src/core/NetworkManagerUtils.c:740-785 | likewise for up to three properties |
| `ConnectionMatch.DiffTable.CheckPossibleMatch` | src/core/NetworkManagerUtils.c:787-845 | pruning in place and counting what is left gives the verdict stated without pruning |
| `ConnectionMatch.MatchConnection` | src/core/NetworkManagerUtils.c:872-966 | the first exact match, else the first possible one, else nothing |
| `FreshName.NewConnectionName` | src/core/NetworkManagerUtils.c:74-128 | ends; the preferred name if unused, else the first numbered name not in use, at most the (n+1)-th for n profiles, also where the 32-bit counter wraps |
| `FreshName.NewInterfaceName` | src/core/NetworkManagerUtils.c:130-157 | ends whenever a name is free, with the first name that neither a link nor a profile has, its number at most the number of names in use |
| `FreshName.FewNamesLeaveOneFree` | src/core/NetworkManagerUtils.c:130-157 | fewer than 2^32 names in use leave one free |
| `FreshName.InterfaceNameInjective` | src/core/NetworkManagerUtils.c:137-140 | different counters print as different names, also where they print as negative numbers |
| `FreshName.SignedRoundTrip` | src/core/NetworkManagerUtils.c:137-140 | the number in an interface name, read back, is the counter as a signed 32-bit number |
| `KeyfileMerge.MergeKeyfiles` | src/core/nm-config-data.c:612-677 | for every order of groups and keys the result is the pointwise merge: atomic groups replaced, values overlaid, tombstoned values gone, internal groups raw; and which groups exist: a user's group without keys does not |
| `KeyfileMerge.CopyKeyfile` | src/libnm-core-impl/nm-keyfile-utils.c:359-384 | the copy has exactly the groups with keys |
| `KeyfileMerge.MergeGroups` | src/core/nm-config-data.c:633-675 | every group is merged, in any order of visits |
| `KeyfileMerge.MergeGroup` | src/core/nm-config-data.c:634-674 | the same for one group, others untouched |
| `KeyfileMerge.MergeKey` | src/core/nm-config-data.c:653-673 | what one internal key does |
| `KeyfileMerge.MergeIsUnique` | src/core/nm-config-data.c:612-677 | the pointwise description determines the keyfile |
| `KeyfileMerge.KeyMeans` | src/core/nm-config-data.c:633-673 | what becomes of each key for every kind of group, with the group and key names written out: which keys are skipped, which win, which bury the user's |
| `KeyfileMerge.MergeIsIdempotent` | src/core/nm-config-data.c:612-677 | merging the same internal keyfile again changes no value and drops the groups without keys; nothing changes exactly if no group of the user was emptied |
| `KeyfileMerge.EmptiedExactlyWhen` | src/core/nm-config-data.c:660-668 | a merged group has no keys exactly if tombstones bury every key of the user and nothing replaces them |
| `KeyfileMerge.SecondMergeDropsGroup` | src/core/nm-config-data.c:660-668 | a keyfile where the second merge drops a group |
| `KeyfileMerge.AtomicGroupReplacesUsers` | src/core/nm-config-data.c:642-658 | an atomic group is the internal one without its marker, and missing if that is empty |
| `KeyfileMerge.AtomicGroupTest` | src/core/nm-config-data.c:586-608 | the test means "replaced as a whole" exactly for groups without the internal prefix |
| `KeyfileMerge.UserShowsThroughExactlyWhen` | src/core/nm-config-data.c:586-608 | with the internal prefix the internal keys win and all other keys of the user show through, so the group is not the internal one exactly if the user has a key it lacks |
| `KeyfileMerge.UserShowsThrough` | src/core/nm-config-data.c:586-608 | a keyfile where the test says yes and a key of the user is in the group |
| `MatchSections.BuildIndex` | src/core/nm-config-data.c:1853-1893 | the index is strictly sorted and holds exactly the decodable values except stop-match and match-device |
| `MatchSections.BinarySearch` | src/libnm-glib-aux/nm-shared-utils.h:2262-2301 | finds the entry, or the place where it belongs |
| `MatchSections.GetStr` | src/core/nm-config-data.c:1802-1820 | the index agrees with the plain lookup exactly unless the property is one of the two reserved ones and present |
| `MatchSections.KeepNamed` | src/core/nm-config-data.c:1941-1954 | in place: the sections with the prefix in file order, the bare one set aside |
| `MatchSections.Init` | src/core/nm-config-data.c:1822-1894 | the section with its index |
| `MatchSections.Construct` | src/core/nm-config-data.c:1920-1977 | every section with the prefix once, in reverse file order, the bare one last |
| `MatchSections.Lookup` | src/core/nm-config-data.c:1545-1602 | the first matching section that has the property or stop-match, and its value; nothing exactly if there is none |
| `MatchSections.AllowedConnectionsExpectation` | src/core/nm-config-data.c:1722-1750 | the section found has the key for every device exactly when no stop-match section without it is exposed, that is, every higher section with the key or stop-match has another specification |
| `MatchSections.IndexSorted` | src/core/nm-config-data.c:1858-1877 | the loop over the sorted keys indexes each decodable value once |
| `MatchSections.AllowedConnectionsSurprise` | src/core/nm-config-data.c:1742-1743 | a configuration where the assertion fails |
| `GlobalDns.Load` | src/core/nm-config-data.c:1173-1302 | what the loader returns is normalised and is the cleaned lists and domains of the file; ignored exactly when there are domains but no default |
| `GlobalDns.Seal` | src/core/nm-config-data.c:1160-1171 | the list of domains is the sorted list of keys |
| `GlobalDns.FromDbus` | src/core/nm-config-data.c:1420-1500 | refused exactly if not a dictionary, or with searches or options but no default domain; what it contains otherwise is said by `GlobalDnsMeaning.AcceptedMeans` |
| `GlobalDns.RoundTrip` | src/core/nm-config-data.c:1304-1500 | a normalised configuration, published and read back, is accepted exactly if it has a default domain or neither searches nor options, and then equals the original but for the internal mark |
| `GlobalDns.SearchesAloneAreRefused` | src/core/nm-config-data.c:1487-1495 | a configuration the loader makes that does not come back |
| `GlobalDns.DomainsAloneAreAccepted` | src/core/nm-config-data.c:1487-1498 | domains without a default one pass the test made before they are sealed |
| `GlobalDns.CmpDecidesEquality` | src/core/nm-config-data.c:1020-1071 | only equal configurations compare equal, and swapping them flips the sign |
| `GlobalDns.CmpTransitive` | src/core/nm-config-data.c:1020-1071 | the comparison is transitive |
| `GlobalDns.EqualAgreesWithCmp` | src/core/nm-config-data.c:1502-1541 | comparing the tables entry by entry agrees with the ordered comparison |
| `GlobalDns.CleanupCleans` | src/libnm-glib-aux/nm-shared-utils.c:2243-2271 | cleaning gives distinct, stripped, non-empty strings |
| `GlobalDns.CleanupOfClean` | src/libnm-glib-aux/nm-shared-utils.c:2243-2271 | and leaves such lists alone |
| `GlobalDns.CleanupMeans` | src/libnm-glib-aux/nm-shared-utils.c:2243-2271 | of an unclean list exactly the non-empty stripped strings stay, each where it occurs first |
| `GlobalDns.StripMeans` | src/libnm-glib-aux/nm-shared-utils.c:2243-2271 | stripping takes white space off both ends, all of it, and nothing else |
| `GlobalDnsMeaning.AcceptedMeans` | src/core/nm-config-data.c:1368-1500 | what a D-Bus value with any repeated or malformed entries contains: the last list of searches, the last list of options with something valid in it, and of each domain the last entry with a valid server |
| `GlobalDnsMeaning.LoadDomainsMeans` | src/core/nm-config-data.c:1233-1284 | of the sections for a domain the last one with a valid server counts, and without one there is no such domain |
| `GlobalDnsMeaning.LoadListMeans` | src/core/nm-config-data.c:1196-1231 | a loaded list holds exactly the valid strings that are not blank, stripped, and is absent if there are none |
| `Order.ListCmpMeans` | src/libnm-glib-aux/nm-shared-utils.c:4254-4284 | shorter lists come first, lists of the same length in the dictionary order of their first difference |
| `ConnectivityVerdict.Transfer` | src/core/nm-connectivity.c:312-395 | however the body is cut into pieces, the verdict is the one on the whole body, unless the status header came before the body decided |
| `ConnectivityVerdict.EarlyIsFinal` | src/core/nm-connectivity.c:542-613 | a verdict reached early is not changed by what follows |
| `ConnectivityVerdict.WantedResponse` | src/core/nm-connectivity.c:593-612 | in a finished transfer with a wanted response: full exactly if the body starts with it, else portal |
| `ConnectivityVerdict.NoResponseWanted` | src/core/nm-connectivity.c:362-395 | when no response is wanted: more than 102400 bytes mean a portal, else the status code decides, and without a content 200 will do |
| `ConnectivityVerdict.FailedTransfer` | src/core/nm-connectivity.c:346-360 | a transfer that fails half way is judged by what has arrived: limited only if that could still become the wanted response |
| `ConnectivityVerdict.Reader.WriteCb` | src/core/nm-connectivity.c:542-613 | one piece: decided exactly when the body so far decides |
| `ConnectivityVerdict.Reader.HeaderCb` | src/core/nm-connectivity.c:522-540 | the status header decides if nothing did before |
| `ConnectivityVerdict.Reader.DoneCb` | src/core/nm-connectivity.c:329-395 | the end of the transfer decides what is still open; 204 means no content (section 15.3.5 of RFC 9110) |
| `ConnectivityHandles.Session` | src/core/nm-connectivity.c:1360-1373 | after any sequence of events and the shutdown, every check started, also by callbacks, was called back exactly once, and every one asked for was started; up to the shutdown each reported state is the one an event called for, given how the check was started, or a cancellation made by an earlier callback; after it "disposing" or such a cancellation |
| `ConnectivityHandles.Connectivity.Complete` | src/core/nm-connectivity.c:200-265 | the handle is called back with the given state, every further call made meanwhile is a cancellation performed by one of these callbacks, each handle stays in exactly one place, and the work left shrinks |
| `ConnectivityHandles.Connectivity.QueueCompleted` | src/core/nm-connectivity.c:271-293 | the handle moves from the waiting to the queued ones |
| `ConnectivityHandles.Connectivity.CompleteQueued` | src/core/nm-connectivity.c:295-310 | ends with an empty queue; each handle in it reports its result, unless one of these callbacks cancelled it |
| `ConnectivityHandles.Connectivity.CheckStart` | src/core/nm-connectivity.c:1014-1141 | the handle waits and nothing is called back |
| `ConnectivityHandles.Connectivity.Dispatch` | src/core/nm-connectivity.c:615-711 | per event the state reported first: idle the result the check was started with, a resolver or curl failure, a timeout, a cancellation theirs, and for what curl finds the first result of each handle still transferring, unless a callback cancelled it; otherwise nothing is called back |
| `ConnectivityHandles.Connectivity.OnTimeout` | src/core/nm-connectivity.c:615-626 | a check that is transferring reports "limited", others nothing |
| `ConnectivityHandles.Connectivity.OnIdle` | src/core/nm-connectivity.c:698-711 | a check with a known result reports it, others nothing |
| `ConnectivityHandles.Connectivity.OnCurl` | src/core/nm-connectivity.c:313-394 | each handle still transferring reports the first result found for it, unless a callback cancelled it |
| `ConnectivityHandles.Connectivity.Dispose` | src/core/nm-connectivity.c:1360-1373 | ends with no handle left, for callbacks that are finite scripts; each is told "disposing", unless a callback cancels it first |
| `ConnectivityHandles.CalledBack` | src/core/nm-connectivity.c:200-265 | moving a handle from its list to the calls keeps every handle in exactly one place |
| `Checkpoints.RunsKeepInv` | src/core/nm-checkpoint-manager.c:70-232 | over every run of create, destroy, rollback and device removal, two listed checkpoints share a device only if the younger was allowed to |
| `Checkpoints.RollbackPicks` | src/core/nm-checkpoint-manager.c:70-93 | a rollback keeps exactly the older checkpoints and the younger ones that do not overlap it, in order |
| `Checkpoints.RecordsAreConserved` | src/core/nm-checkpoint.c:513-535 | over every run a listed checkpoint holds exactly one record for each device the request asked for, with the version its active connection had then, each in one of the two places |
| `Checkpoints.MoveKeepsRecords` | src/core/nm-checkpoint.c:513-535 | moving a device loses no record and duplicates none |
| `Checkpoints.StepKeepsInv` | src/core/nm-checkpoint-manager.c:50-232 | every step keeps the overlap rule and the records of what stays |
| `Checkpoints.CommonDevice` | src/core/nm-checkpoint.c:134-148 | the search finds a device exactly if the checkpoints overlap |
| `Checkpoints.CheckpointManager.DestroyCheckpoint` | src/core/nm-checkpoint-manager.c:50-68 | exactly that entry goes |
| `Checkpoints.CheckpointManager.DestroyEverything` | src/core/nm-checkpoint-manager.c:200-210 | the list ends up empty |
| `Checkpoints.CheckpointManager.RollbackCheckpoint` | src/core/nm-checkpoint-manager.c:70-93 | the list walked while entries are unlinked ends up as specified |
| `Checkpoints.CheckpointManager.CreateCheckpoint` | src/core/nm-checkpoint-manager.c:104-198 | every error case and the new list; nothing changes on error |
| `Checkpoints.RefusedExactlyWhen` | src/core/nm-checkpoint-manager.c:172-187 | a request for existing devices that does not replace all checkpoints is refused exactly if the new checkpoint would break the overlap rule; one that replaces them never |
| `Checkpoints.ChosenMeans` | src/core/nm-checkpoint-manager.c:120-170 | without paths every realized device, with paths those behind them; the first path that leads nowhere decides the error |
| `Checkpoints.CreatedMeans` | src/core/nm-checkpoint-manager.c:172-198 | the new checkpoint is as asked for and comes after all others, or in their place |
| `Checkpoints.CheckpointManager.FindDevices` | src/core/nm-checkpoint-manager.c:120-168 | the devices a request is about, or the first error |
| `Checkpoints.CheckpointManager.OnDeviceRemoved` | src/core/nm-checkpoint.c:513-541 | every checkpoint moves the record |
| `RollbackTimer.Timer.constructor` | src/core/nm-checkpoint.c:694-722 | when the first timer fires, on time exactly up to 4294967 seconds |
| `RollbackTimer.Timer.Adjust` | src/core/nm-checkpoint.c:611-644 | the reported deadline is positive and within half a second of the requested one unless it saturates, and the timer fires on time exactly up to 4294967 seconds |
| `RollbackTimer.EarlyRollback` | src/core/nm-checkpoint.c:718-722 | a timeout that is due 705 milliseconds early |
| `ActiveConnections.SameVersionMeansUntouched` | src/core/nm-active-connection.c:1218-1245 | in every run, an equal version id means the same active connection not bumped in between, and conversely |
| `ActiveConnections.RollbackSeesReactivation` | src/core/nm-checkpoint.c:150-203 | a rollback leaves a profile alone exactly when it is unchanged and the connection active for it is the recorded one, never bumped since |
| `ActiveConnections.FindSettingsConnection` | src/core/nm-checkpoint.c:150-203 | what the search returns, in all cases |
| `ActiveConnections.PendingIdsDistinct` | src/core/nm-active-connection.c:703-728 | in every run outstanding pending activations are pairwise distinct, devices have exactly those of their connections, and no device ever sees one added twice or removed without being there |
| `ActiveConnections.StepKeepsInv` | src/core/nm-active-connection.c:242-315 | every step keeps that, and new version ids exceed all used before |
| `ActiveConnections.AddsMinusRemoves` | src/core/nm-active-connection.c:1249-1268 | over every life of a connection, actions added minus removed is one exactly while the id is set |
| `ActiveConnections.DeactivatedIsFinal` | src/core/nm-active-connection.c:242-255 | no event takes a connection out of the deactivated state |
| `ActiveConnections.ActivationEndsAction` | src/core/nm-active-connection.c:287-293 | once a connection with a device gets activated its pending action is gone, and over every further life stays gone until another device is set |
| `ActiveConnections.StateMeans` | src/core/nm-active-connection.c:242-315 | every field and every call to the device after a change of state: when the pending action ends, when the device goes, when an assumed connection becomes managed |
| `ActiveConnections.DeviceMeans` | src/core/nm-active-connection.c:678-747 | every field and every call to the devices: the old one is rid of the action, the controller's own is refused, a new one is busy unless the connection is external |
| `ActiveConnections.ActiveConnection.constructor` | src/core/nm-active-connection.c:1455-1476 | a new connection gets a new version id |
| `ActiveConnections.ActiveConnection.Bump` | src/core/nm-active-connection.c:1234-1245 | a new version id and nothing else |
| `ActiveConnections.ActiveConnection.DeviceCleanup` | src/core/nm-active-connection.c:1249-1268 | the device goes and its pending action with it |
| `ActiveConnections.ActiveConnection.SetState` | src/core/nm-active-connection.c:242-315 | the new fields and the calls made to the device |
| `ActiveConnections.ActiveConnection.SetManaged` | src/core/nm-active-connection.c:907-926 | an external connection is managed from now on, without a pending action |
| `ActiveConnections.ActiveConnection.SetDevice` | src/core/nm-active-connection.c:678-747 | the new fields and the calls made to the devices, also when the device is refused |

## Left out

- D-Bus export, property tables, GObject boilerplate, logging, audit messages, signals to clients and memory
  freeing, except for the auth call-ids.
- What nft rules, sets and counters match; only tables and chains are modelled.
- Chains inside tables of former names, and late scripts together with renames.
- Wrap-around of 64-bit counters.
- The order of groups and keys inside a merged keyfile, and GKeyFile's parsing and escaping.
- The address sort in `_nm_config_data_log_sort` and `_sort_groups_cmp`, and the DNS checksum.
- Match specifications, UUID syntax, validity of addresses and of resolver options: predicates given as
  parameters.
- `nm_connection_diff`: the difference of two profiles is an input.
- Translations of the connection name template.
- Overflow of byte counters and of `size * nmemb` in the curl callbacks; libcurl and the resolvers are events.
- `host_and_port_from_uri` and `update_config`: each is settled by reading it.
- What a rollback does to devices and profiles; here it may make any devices vanish.
- ConnectivityHandles.Connectivity.Dispose: does not cover callbacks that start checks without end, for which
  the loop of the source does not end either.
- Checkpoint objects are values in the list, so aliasing between the list and D-Bus is not captured.
- Re-entrant signal handlers of active connections, master-ready tracking and keep-alive.
- User data attached to authorization chains, and the polkit name-owner tracking.
