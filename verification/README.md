# A verified model of the gateway and AppRun mocks

This project models the stateful core of three service mocks and proves what
they keep: the API gateway (`apigw`), AppRun Dedicated (`apprundedicated`) and
AppRun shared (`apprun`). Code that changes things in place is modelled by
classes and methods with loops; each is proved against a function of the old
state, and the promises are proved about that function for all inputs, all runs
or all interleavings.

`dafny verify dfyconfig.toml` checks the whole project.

| part | modules |
|---|---|
| JSON body transformer: an in-place tree rewriter with shared subtrees | `JsonTree` (values and laws), `TransformSpec` (the six phases), `JsonHeap` and `Document` (the mutable tree), `HeaderPhases`; `TransformLaws`, `HeaderLaws` (what a reader finds) |
| Gateway control plane: eight maps, refusals, cascades, copied names | `GatewayState`, `GatewayServices`, `GatewayRoutes`, `GatewayAccess`, `GatewayDomains`, `GatewayRuns` (all runs), `GatewayLaws` (what each call leaves behind), `GatewayStore` (the class), `KeyedMaps` |
| Gateway data plane | `RouteMatch`, `GatewayAcl` (the allow-list check refines a membership relation), `Authorize`, `Transports` |
| Login by authorization code: interleaved atomic steps | `LoginProtocol`, `LoginLaws` (logins that succeed) |
| Records, lists and credentials written in place, and the copies handed out | `Slices`, `Records`, `RecordStore` |
| AppRun Dedicated: order slices, cascades, cursor paging | `OrderLists`, `CursorPaging`, `DedicatedStore`, `DedicatedLaws` (what each call leaves behind), `VersionPaging`, `VersionRuns` |
| AppRun: versions, patches, inherited secrets, multi-step deletes | `AppRunConfig`, `AppRunStore`, `AppRunDeletes`, `AppRunLaws` (what each request records) |
| Shared | `Prelude`, `Sorting`, `Strings`, `Decimal` |

How the model is cut:

- Fresh identifiers and tokens, the clock, and the answers of the identity
  provider and the network are parameters. Identifiers are assumed not to be in
  use; a service's has the twelve digits its hostname takes.
- A map is walked by picking any remaining key, so results do not depend on the
  order. The library's sorts are given by their contracts, with an insertion
  sort for a body.
- Regular expressions, case folding of hostnames and canonical header names are
  uninterpreted functions.
- A struct behind a pointer in one of the stores' maps is a value in the map,
  and updating it in place is updating the map. Where sharing matters it is
  modelled on the heap: JSON subtrees by `Document`, and consumers and routes
  with their lists, arrays and credentials by `RecordStore`, whose writes cover
  every run of the value model (`RecordStore.RunIsWrites`).
- The control plane's calls are atomic, as the lock makes them. The login and
  the deletion of AppRun versions are not, and are modelled as interleaved steps.

Where the code does not keep what it says, the model follows the code:

- The add phase of a body transformation is documented to touch only missing
  keys; adding a key below a present scalar replaces the scalar
  (`TransformSpec.AddTouchesOnlyMissing` says exactly for which lists nothing
  present changes).
- A refused update of a domain leaves it pointing at a certificate that is not
  there (`GatewayDomains.RefusedNamesChange`, `GatewayDomains.StepKeepsCertified`).
- A service can be given storage although its routes have other methods
  (`GatewayRuns.StorageRuleBreaksExactly`, `GatewayRuns.StorageRuleBreaksExample`);
  without such an update the rule holds (`GatewayRuns.RunsReadFromStorage`).
- A delete handler that lists the versions before its target exists can delete
  the newest one (`AppRunDeletes.LateTargetLosesNewest`,
  `AppRunDeletes.DeleteLosesNewestExactly`).
- A query parameter's rename overwrites the target's values, while a header's
  rename keeps them (`HeaderPhases.RenamesAgreeExactly`,
  `HeaderPhases.QueryRenameLosesExample`).
- A client whose cursor is deleted starts over and gets items twice
  (`CursorPaging.RestartsExactlyWhenCursorIsGone`,
  `CursorPaging.RemovedCursorExample`).
- Joining paths can double the slash (`RouteMatch.SeamDoubledExactly`,
  `RouteMatch.SeamDoubledExample`), and the
  32-bit version counter of AppRun Dedicated repeats numbers after 2^32 versions
  (`DedicatedStore.NumberIssuedAgainExactly`, `DedicatedStore.NumberComesBack`).

## Model

| member | source | states |
|---|---|---|
| JsonTree.GetAfterSet | apigw/transform.go:363-375 | After a set the path holds the value, and every incomparable path reads as before, also when the set turned a scalar ancestor into an object |
| JsonTree.GetBelow | apigw/transform.go:363-370 | Reading a longer path is reading the rest of it in what the shorter one holds, and nothing lies below a value that is not an object |
| JsonTree.AncestorsAreObjects | apigw/transform.go:346-361 | Where a path is present every proper prefix of it holds an object |
| JsonTree.Extensionality | apigw/transform.go:346-375 | Two documents in which every path looks the same are the same document |
| JsonTree.SetGetIdentity | apigw/transform.go:363-375 | Setting a path to what it already holds changes nothing |
| JsonTree.SetTwice | apigw/transform.go:372-375 | The second of two sets at one path is the only one that shows |
| JsonTree.SetsCommute | apigw/transform.go:346-375 | Sets at incomparable paths commute, whatever the tree |
| JsonTree.GetAfterDelete | apigw/transform.go:377-381 | After a delete the path and all below it is absent, an incomparable path reads as before, and an ancestor holds what is left of it |
| JsonTree.DeleteIsIdentity | apigw/transform.go:377-381 | Deleting an absent path changes nothing |
| JsonTree.SetUndoesDelete | apigw/transform.go:372-381 | Setting back what a delete removed restores the document |
| JsonTree.DeleteUndoesSet | apigw/transform.go:372-381 | Deleting what a set created restores the document exactly when the parent object was there before |
| JsonTree.RetainIsRestriction | apigw/transform.go:398-410 | What is retained is exactly the restriction to the listed present paths, what is below them and their ancestors, for overlapping and repeated lists too |
| JsonTree.RetainKeepsListed | apigw/transform.go:398-410 | A listed path that is present, and everything below it, keeps its value |
| JsonTree.RetainOrderIrrelevant | apigw/transform.go:398-410 | Two lists of the same paths, in any order and number, retain the same |
| JsonTree.RetainIdempotent | apigw/transform.go:398-410 | Retaining twice is retaining once |
| TransformSpec.KeysNamePaths | apigw/transform.go:346-347 | Dotted keys and paths of dot-free segments correspond one to one |
| TransformSpec.RemovePhase | apigw/transform.go:122-126 | After the remove phase exactly the paths at or below a listed one are absent; every other looks as before, objects staying objects |
| TransformSpec.ReplaceOnlyExisting | apigw/transform.go:135-141 | A path that is present after the replace phase was present before it |
| TransformSpec.ReplaceLosesOnlyBelow | apigw/transform.go:135-141 | A present path that lies below no replaced key stays present, and keeps its value if it is neither a key nor above one |
| TransformSpec.AddKeepsPresent | apigw/transform.go:142-148 | The add phase leaves every present path that is not a proper prefix of an added key as it was |
| TransformSpec.AddMakesPresent | apigw/transform.go:142-148 | After the add phase every added key is present |
| TransformSpec.AddTouchesOnlyMissing | apigw/transform.go:142-148 | The add phase keeps every present leaf exactly when each added key is present already or has no leaf above it; the comment "add only missing ones" fails otherwise |
| TransformSpec.AddOverwritesScalarExample | apigw/transform.go:142-148 | A present scalar that an added key below it overwrites |
| TransformSpec.AppendPhase | apigw/transform.go:149-153 | However appends to unrelated paths are mixed in, a path ends with its old value (or its items, if an array) followed by the values listed for it; a single value if it was missing and there is one |
| TransformSpec.RenameMoves | apigw/transform.go:127-134 | A rename moves the value: it is at the new path, the old path holds only what moving it there can leave, for nested paths too, and unrelated paths are untouched |
| TransformSpec.UntouchedKeepsValue | apigw/transform.go:118-154 | A path that is allowed and that no phase names, names an ancestor of or names something below keeps its value through all six phases |
| TransformLaws.PipelineReads | apigw/transform.go:118-154 | For lists whose paths lie level with the one read: its value after all six phases is what the allow list and the removals leave there, or at the path it was renamed from, then replaced by the last value listed, added if missing by the first, and appended to by all |
| TransformLaws.ReplaceWritesLast | apigw/transform.go:135-141 | A replaced key that is present reads the last value listed for it; a missing one stays missing |
| TransformLaws.AddWritesFirst | apigw/transform.go:142-148 | An added key that is missing reads the first value listed for it; a present one keeps its value |
| TransformLaws.RenamesRead | apigw/transform.go:127-134 | A list of renames, chains included, reads as a table of paths whose entries move one by one |
| TransformLaws.RemovedIsGone | apigw/transform.go:122-126 | Whatever else is configured, a path at or below a removed one that no later phase comes near is absent |
| TransformLaws.RenamedIsMoved | apigw/transform.go:127-134 | A renamed value is at its new path in the end and nothing is at the old one, if no later phase comes near |
| TransformLaws.RenamedThenReplaced | apigw/transform.go:127-141 | A path renamed and then replaced under its new name ends with the replaced value |
| TransformLaws.ReplacedReadsLast | apigw/transform.go:135-141 | A key that is there, allowed and neither removed nor renamed ends with the last value its replacements list |
| TransformLaws.AddedReadsFirst | apigw/transform.go:142-148 | A key that is missing, kept out or removed ends with the first value its additions list |
| TransformLaws.RemovedThenAdded | apigw/transform.go:122-148 | A key both removed and added ends with the added value |
| TransformLaws.AppendsAccumulate | apigw/transform.go:149-153 | Appends accumulate onto what the pipeline leaves without them |
| JsonHeap.OnePathPerNode | apigw/transform.go:346-410 | The node graph of a document is a tree: through members and array elements alike, no object is reached by two places |
| JsonHeap.RepFrame | apigw/transform.go:346-410 | A value reads the same in every heap in which the nodes under it are unchanged |
| JsonHeap.RepMove | apigw/transform.go:127-134 | A subtree moved to another place represents the same value there |
| JsonHeap.RepUpdate | apigw/transform.go:346-375 | Changing the members of one node changes the represented document at that node's path alone |
| Document.SharedWriteIsIdle | apigw/transform.go:398-410 | A set that collects into the kept tree writes, where it meets a shared node, only what the node already holds |
| Document.Document.WalkPath | apigw/transform.go:346-361 | Finds the parent object of a path, creating objects on the way if asked, without changing what a set at the path would give; at most one old node changes |
| Document.Document.GetPath | apigw/transform.go:363-370 | Reads what the path holds in the represented document, and says whether it is there |
| Document.Document.SetPath | apigw/transform.go:372-375 | In place, the represented document becomes the set of the old one; at most one old node is written, and it keeps what other paths see |
| Document.Document.DeletePath | apigw/transform.go:377-381 | In place, the represented document becomes the old one without the path |
| Document.Document.AppendPath | apigw/transform.go:383-396 | In place, the path accumulates the value: set if missing, appended to an array, paired with a scalar |
| Document.Document.RenamePath | apigw/transform.go:127-134 | The subtree is unhooked and hooked in elsewhere without copying, and the node graph stays a tree |
| Document.Document.RetainPaths | apigw/transform.go:398-410 | Built through subtrees shared with the original, the kept tree is the retained document; the shared writes change nothing |
| Document.Document.Collect | apigw/transform.go:401-405 | One listed path is stored into the kept tree while the document it is shared with keeps its value |
| Document.Document.ApplyBodyOps | apigw/transform.go:118-154 | The six loops over the mutable tree compute the six-phase specification |
| HeaderPhases.Header.Rename | apigw/transform.go:329-342 | Copies the values, deletes the old name and adds them one by one: equal to moving the whole list |
| HeaderPhases.Header.ApplyHeaderOps | apigw/transform.go:33-62 | The header loops compute the phases in order remove, rename, replace, add, append |
| HeaderPhases.Header.ApplyResponseOps | apigw/transform.go:170-199 | The header loops of a response compute the phases that its status lets through, in the same order |
| HeaderPhases.RenameLosesNothing | apigw/transform.go:329-342 | What every header has after one rename, read off its definition |
| HeaderPhases.Query.ApplyQueryOps | apigw/transform.go:63-110 | The query loops compute their phases in order, and the query is written back whenever one of them changed it |
| HeaderPhases.QueryRenameMoves | apigw/transform.go:72-80 | What every parameter has after one rename, read off its definition |
| HeaderPhases.RenamesAgreeExactly | apigw/transform.go:72-80 | A query rename gives what a header's rename would exactly when the target is not there, the name stays or there is nothing to move; otherwise it loses the target's values |
| HeaderPhases.QueryRenameLosesExample | apigw/transform.go:72-80 | A query whose rename loses the target's value, which a header's rename keeps |
| HeaderPhases.UnmentionedParamKeepsValues | apigw/transform.go:63-110 | A query parameter that no list names keeps its values through all phases |
| HeaderPhases.UnmentionedKeepsValues | apigw/transform.go:33-62 | A header that no list names keeps its values through all phases |
| HeaderPhases.AllowIgnoresStatus | apigw/transform.go:214-217 | A response that no phase matches still shows, path by path, exactly the restriction to its allow list |
| HeaderPhases.UnmatchedPhasesAreIdle | apigw/transform.go:164-254 | A path that none of the phases the status lets through comes near keeps its value, also beside a whole-body replacement for other statuses |
| HeaderLaws.HeadersRead | apigw/transform.go:33-62 | What any header has after all phases, for all lists: what the removals leave there and whatever is renamed to it behind that, then the last replacement if it is there, the first addition if it is not, and all appends behind |
| HeaderLaws.QueryReads | apigw/transform.go:63-110 | The same for any query parameter, whose renames take the place of what the new name has |
| HeaderLaws.HeaderEndsAs | apigw/transform.go:33-62 | A header no rename has: gone if removed and nothing adds to it; removed and added gives the first added value; replaced gives the last; appends come behind |
| HeaderLaws.QueryEndsAs | apigw/transform.go:63-110 | The same for a query parameter |
| HeaderLaws.RenamedHeaderMoves | apigw/transform.go:38-62 | A renamed header's values end behind those of the new name, or are replaced there; the old name is gone unless added to again |
| HeaderLaws.RenamedParamMoves | apigw/transform.go:72-110 | A renamed parameter's values end in place of those of the new name, or are replaced there; the old name is gone unless added to again |
| HeaderLaws.ResponseHeadersRead | apigw/transform.go:170-199 | What any header of a response has: as for a request, from the lists of the phases whose statuses match |
| HeaderLaws.WholeBodyExactly | apigw/transform.go:201-205 | The whole body is replaced exactly when a replacement is given and its statuses match |
| HeaderLaws.ResponseRemoves | apigw/transform.go:218-222 | A removal from a response takes effect exactly when its status matches |
| HeaderLaws.ResponseRenames | apigw/transform.go:223-230 | A rename in a response moves the value when its status matches, and otherwise leaves it where it is |
| HeaderLaws.ResponseReplaces | apigw/transform.go:231-237 | A present key of a response reads the last replacement when its status matches, and otherwise what it had |
| HeaderLaws.ResponseAdds | apigw/transform.go:238-244 | A missing key of a response reads the first addition when its status matches, and otherwise stays missing |
| HeaderLaws.ResponseAppends | apigw/transform.go:245-249 | Appends to a response accumulate onto what it has without them when their status matches, and otherwise are left out |
| KeyedMaps.IsTaken | apigw/store_memory.go:236-240 | The scan for a clashing name finds one exactly when there is one, in any order of the map |
| KeyedMaps.Find | apigw/store_memory.go:844-853 | The lookup by a credential finds an entry exactly when there is one, and over unique credentials always the same one |
| GatewayServices.DefaultsAreEffective | apigw/store_memory.go:277-308 | Defaults fill what is missing and change nothing that is given |
| GatewayServices.RouteHostsCoincide | apigw/store_memory.go:87-93 | Two services get the same hostname exactly when their identifiers share the first twelve digits |
| GatewayServices.CreateServiceKeepsInv | apigw/store_memory.go:225-259 | The services' invariant (mutual bindings with current summaries, unique names, live and current OIDC references, effective values, at most ten subscriptions) holds again after creating a service |
| GatewayServices.UpdateServiceKeepsInv | apigw/store_memory.go:334-361 | The same invariant holds again after updating a service, so its new name is in its subscription's summary |
| GatewayServices.DeleteServiceKeepsInv | apigw/store_memory.go:363-384 | The same invariant holds again after deleting a service, so its subscription is free and has no summary |
| GatewayServices.CreateSubscriptionKeepsInv | apigw/store_memory.go:1182-1219 | The same invariant holds again after creating a subscription, the limit of ten included |
| GatewayServices.UpdateSubscriptionKeepsInv | apigw/store_memory.go:1252-1268 | The same invariant holds again after renaming a subscription |
| GatewayServices.DeleteSubscriptionKeepsInv | apigw/store_memory.go:1270-1284 | The same invariant holds again after deleting a subscription, so none that a service is bound to goes |
| GatewayServices.CreateOidcKeepsInv | apigw/store_memory.go:1287-1301 | The same invariant holds again after creating a configuration |
| GatewayServices.UpdateOidcKeepsInv | apigw/store_memory.go:1336-1360 | The same invariant holds again after updating a configuration, so its new name is in every service that refers to it |
| GatewayServices.DeleteOidcKeepsInv | apigw/store_memory.go:1362-1377 | The same invariant holds again after deleting a configuration, so none that a service refers to goes |
| GatewayServices.OthersUntouched | apigw/store_memory.go:225-384 | No call touches another service, but for a configuration's new name, nor a subscription it does not concern |
| GatewayServices.StepKeepsInv | apigw/store_memory.go:225-384 | Every call on services, subscriptions and OIDC configurations keeps what holds of them |
| GatewayRoutes.CheckedIsRight | apigw/store_memory.go:402-474 | A route that passed its checks has a free name, allowed hosts and effective values; on a storage-backed service only reading methods |
| GatewayRoutes.CreateRouteKeepsInv | apigw/store_memory.go:402-432 | The routes' invariant (unique names per service, a live service and its hostname, known hosts, allow-lists of live groups under current names, effective values) holds again after creating a route |
| GatewayRoutes.UpdateRouteKeepsInv | apigw/store_memory.go:560-590 | The same invariant holds again after updating a route |
| GatewayRoutes.DeleteRouteKeepsInv | apigw/store_memory.go:593-601 | The same invariant holds again after deleting a route |
| GatewayRoutes.SetAuthorizationKeepsInv | apigw/store_memory.go:604-623 | The same invariant holds again after setting an allow-list, so every listed group is live and under its current name |
| GatewayRoutes.UpdateKeepsOrigin | apigw/store_memory.go:560-590 | A successful update keeps the route's service, hostname, creation time and authorization, and stores the name, path, hosts, priority and methods given |
| GatewayRoutes.OthersUntouched | apigw/store_memory.go:402-623 | No call on a route touches another one |
| GatewayRoutes.StepKeepsInv | apigw/store_memory.go:402-623 | Every call on routes keeps what holds of them |
| GatewayAccess.AssignUserGroupKeepsInv | apigw/store_memory.go:767-803 | After assigning, memberships are still distinct and of live groups, and credentials unique |
| GatewayAccess.AddressIsUnique | apigw/store_memory.go:774-788 | An identifier or name addresses at most one group |
| GatewayAccess.MergeReplacesGivenKinds | apigw/store_memory.go:880-909 | Which kinds of credentials a merge takes from where, read off its definition |
| GatewayAccess.UpsertKeepsInv | apigw/store_memory.go:855-912 | After an update of credentials the identifiers of each kind are still unique across consumers |
| GatewayAccess.RenameReachesEveryEntry | apigw/store_memory.go:970-983 | A renamed group shows its new name in every entry of every allow-list, and nothing else in the lists changes |
| GatewayAccess.UpdateGroupKeepsInv | apigw/store_memory.go:955-983 | After renaming a group every name in an allow-list is current |
| GatewayAccess.DeleteGroupKeepsInv | apigw/store_memory.go:985-1015 | After deleting a group memberships are distinct and of live groups, and allow-lists hold live groups only |
| GatewayAccess.DirectoryStepKeepsInv | apigw/store_memory.go:652-1015 | Every call on consumers and groups keeps memberships distinct and live, credentials unique and listed names current, and changes nothing of a route but its allow-list |
| GatewayDomains.StepKeepsNames | apigw/store_memory.go:1018-1168 | Domain and certificate names stay unique |
| GatewayDomains.StepKeepsHosts | apigw/store_memory.go:1018-1094 | Hosts that routes answer on stay registered |
| GatewayDomains.StepKeepsCertified | apigw/store_memory.go:1037-1154 | If every domain is on a live certificate under its current name, it is so after a call exactly when the call is not an update to a missing certificate |
| GatewayDomains.RefusedNamesChange | apigw/store_memory.go:1062-1077 | Of all refused calls on domains and certificates exactly the update of a domain to a missing certificate it did not name before changes the store |
| GatewayDomains.RefusedUpdateExample | apigw/store_memory.go:1062-1077 | What a refused update leaves behind |
| GatewayRuns.StepKeepsInv | apigw/store_memory.go:225-1377 | Every call keeps the whole control plane consistent |
| GatewayRuns.RunKeepsInv | apigw/store_memory.go:225-1377 | Every sequence of calls keeps it |
| GatewayRuns.RefusedCallsChangeNothing | apigw/store_memory.go:225-1377 | A refused call leaves the store as it was, but for pointing a domain at a missing certificate |
| GatewayRuns.EveryRouteIsSound | apigw/store_memory.go:402-623 | In every reachable state a route has a live service and its hostname, registered hosts, and live groups under current names |
| GatewayRuns.BindingIsOneToOne | apigw/store_memory.go:225-384 | In every reachable state services and bound subscriptions are mutual inverses, summaries are present exactly when bound and current, and at most ten subscriptions exist |
| GatewayRuns.OidcIsLive | apigw/store_memory.go:261-275 | In every reachable state authentication by OIDC has a live configuration, under its current name |
| GatewayRuns.ConsumersAreSound | apigw/store_memory.go:767-912 | In every reachable state memberships are distinct and live, and credential identifiers are unique |
| GatewayRuns.StepKeepsCertified | apigw/store_memory.go:1037-1154 | Over all calls, certificates of domains stay live and current exactly until an update to a missing one |
| GatewayRuns.CertifiedWithoutDanglingUpdates | apigw/store_memory.go:1037-1154 | In every run without such an update domains carry the names of live certificates |
| GatewayRuns.StorageRuleBreaksExactly | apigw/store_memory.go:334-361 | A call, refused ones included, breaks the method rule of storage-backed services exactly when it is an acceptable update that gives storage to a service that has a route with another method |
| GatewayRuns.RunsReadFromStorage | apigw/store_memory.go:458-474 | In every run from the empty store without such an update, routes of storage-backed services only read |
| GatewayRuns.StorageRuleBreaksExample | apigw/store_memory.go:334-361 | Four calls from the empty store that all pass and leave a storage-backed service with a route that posts |
| GatewayLaws.ServiceCreated | apigw/store_memory.go:225-259 | Done exactly for a free subscription, a free name and a live reference; the service then has the fields given, defaults for those not, its subscription is bound to it with its name, and nothing else changes |
| GatewayLaws.ServiceUpdated | apigw/store_memory.go:334-361 | Done exactly for a stored service, a free name and a live reference; it then has the fields given under its old subscription and hostname, the summary has its new name, and nothing else changes |
| GatewayLaws.ServiceDeleted | apigw/store_memory.go:363-384 | Done exactly for a stored service no route refers to; it is then gone, its subscription is unbound without a summary, and nothing else changes |
| GatewayLaws.SubscriptionCreated | apigw/store_memory.go:1182-1219 | When it is done, and that the unbound subscription has the name and plan given and nothing else changes |
| GatewayLaws.SubscriptionUpdated | apigw/store_memory.go:1252-1268 | When it is done, and that only the name changes |
| GatewayLaws.SubscriptionDeleted | apigw/store_memory.go:1270-1284 | Done exactly for a stored, unbound subscription; it is then gone and nothing else |
| GatewayLaws.OidcCreated | apigw/store_memory.go:1287-1301 | Done exactly for a free name; the configuration is then stored as given and nothing else changes |
| GatewayLaws.OidcUpdated | apigw/store_memory.go:1336-1360 | Done exactly for a stored configuration and a free name; it is then as given, and every service that refers to it, and no other, has the new name |
| GatewayLaws.OidcDeleted | apigw/store_memory.go:1362-1377 | Done exactly for a stored configuration no service refers to; it is then gone and nothing else |
| GatewayLaws.RouteCreated | apigw/store_memory.go:402-432 | Done exactly for a stored service, a free name, allowed hosts and methods; the route has the fields given, its service's hostname and no allow-list |
| GatewayLaws.RouteUpdated | apigw/store_memory.go:560-590 | Done exactly under the same conditions for a route of the service; it has the fields given and keeps its hostname, creation time and allow-list |
| GatewayLaws.RouteDeleted | apigw/store_memory.go:593-601 | Done exactly for a route of the service; it is then gone and nothing else |
| GatewayLaws.RouteAuthorized | apigw/store_memory.go:604-623 | Done exactly for a route of the service and live groups; the list is then as given, under the groups' names, and nothing else changes |
| GatewayLaws.UserCreated | apigw/store_memory.go:652-669 | Done exactly for a free name; the consumer has the profile given, no groups and no credentials |
| GatewayLaws.UserUpdated | apigw/store_memory.go:706-730 | Done exactly for a stored consumer and a free name; the profile is as given, groups and credentials stay |
| GatewayLaws.UserDeleted | apigw/store_memory.go:732-741 | Done exactly for a stored consumer; it is then gone and nothing else |
| GatewayLaws.GroupAssigned | apigw/store_memory.go:767-803 | For a group that the key addresses: the consumer's groups gain it last if it was not there, or lose it, keep all others in order, and nothing else changes |
| GatewayLaws.NoGroupNoAssignment | apigw/store_memory.go:767-803 | For a key that addresses no group the call is refused and changes nothing |
| GatewayLaws.CredentialsUpserted | apigw/store_memory.go:855-912 | Done exactly for a stored consumer and identifiers no other has; each kind given is stored, the others stay, and nothing else changes |
| GatewayLaws.GroupCreated | apigw/store_memory.go:915-929 | Done exactly for a free name; the group is then stored as given and nothing else changes |
| GatewayLaws.GroupUpdated | apigw/store_memory.go:955-983 | Done exactly for a stored group and a free name; every entry of the group in every allow-list then has the new name and nothing else changes |
| GatewayLaws.GroupDeleted | apigw/store_memory.go:985-1015 | Done exactly for a stored group; it is then gone from the groups, from every consumer's and from every allow-list, whose other entries stay in order |
| GatewayLaws.DomainCreated | apigw/store_memory.go:1018-1035 | When it is done, and that the domain is stored as given under its certificate's name and nothing else changes |
| GatewayLaws.DomainUpdated | apigw/store_memory.go:1062-1077 | Done exactly for a stored domain and a live certificate or none; done or refused, the domain takes the identifier, and its name with it only when done; nothing else changes |
| GatewayLaws.DomainDeleted | apigw/store_memory.go:1079-1094 | Done exactly for a stored domain no route answers on; it is then gone and nothing else |
| GatewayLaws.CertificateCreated | apigw/store_memory.go:1097-1111 | When it is done, and that the certificate is stored as given and nothing else changes |
| GatewayLaws.CertificateUpdated | apigw/store_memory.go:1126-1154 | When it is done: the key pairs given are stored, the others stay, and every domain on it, and no other, has the new name |
| GatewayLaws.CertificateDeleted | apigw/store_memory.go:1156-1170 | Done exactly for a stored certificate no domain refers to; it is then gone and nothing else |
| GatewayLaws.RefusalsAreTold | apigw/store_memory.go:225-1377 | Which of its conditions a refused call answers for: not found, a bad request or a conflict |
| GatewayAcl.CheckAcl | apigw/auth.go:233-255 | The check's loop decides by the stored lists: passed, unauthorized or forbidden |
| GatewayAcl.AssigningRefines | apigw/store_memory.go:767-803 | Assigning and removing mean adding and taking away one pair of the membership relation |
| GatewayAcl.DeleteGroupMeans | apigw/store_memory.go:985-1015 | Deleting a group removes it from the relation and from every route's enabled set, and nothing else |
| GatewayAcl.StepRefines | apigw/store_memory.go:225-1377 | Every call acts on memberships and enabled sets as its meaning says |
| GatewayAcl.RunRefines | apigw/store_memory.go:225-1377 | After every run memberships and enabled sets are what the meanings of its calls add up to |
| GatewayAcl.CheckAgreesWithHistory | apigw/auth.go:233-255 | After every run a stored consumer passes a route's check exactly when the history of calls lets it, anyone else exactly when the route is unrestricted, and everyone behind OIDC |
| GatewayStore.MemoryStore.ResolveOidc | apigw/store_memory.go:261-275 | The reference is dropped, refused or brought up to date as specified |
| GatewayStore.MemoryStore.CreateService | apigw/store_memory.go:225-259 | The method is the specified step, refusals in the order of its checks, and keeps consistency |
| GatewayStore.MemoryStore.UpdateService | apigw/store_memory.go:334-361 | The specified step, with the summary renamed in place |
| GatewayStore.MemoryStore.DeleteService | apigw/store_memory.go:363-384 | The specified step, refused while a route refers to the service |
| GatewayStore.MemoryStore.CreateSubscription | apigw/store_memory.go:1182-1219 | The specified step, including the scan of the plans and the limit |
| GatewayStore.MemoryStore.UpdateSubscription | apigw/store_memory.go:1252-1268 | The specified step; an unknown identifier is a bad request |
| GatewayStore.MemoryStore.DeleteSubscription | apigw/store_memory.go:1270-1284 | The specified step, refused while bound |
| GatewayStore.MemoryStore.CreateOidc | apigw/store_memory.go:1287-1301 | The specified step |
| GatewayStore.MemoryStore.UpdateOidc | apigw/store_memory.go:1336-1360 | The specified step; the loop over services renames every reference |
| GatewayStore.MemoryStore.DeleteOidc | apigw/store_memory.go:1362-1377 | The specified step, refused while a service refers to it |
| GatewayStore.MemoryStore.CheckRoute | apigw/store_memory.go:436-474 | The checks on name, hosts and methods, in order, and the defaults |
| GatewayStore.MemoryStore.CreateRoute | apigw/store_memory.go:402-432 | The specified step |
| GatewayStore.MemoryStore.UpdateRoute | apigw/store_memory.go:560-590 | The specified step |
| GatewayStore.MemoryStore.DeleteRoute | apigw/store_memory.go:593-601 | The specified step |
| GatewayStore.MemoryStore.SetRouteAuthorization | apigw/store_memory.go:604-623 | The specified step; a missing group refuses the whole list |
| GatewayStore.MemoryStore.CreateUser | apigw/store_memory.go:652-669 | The specified step |
| GatewayStore.MemoryStore.UpdateUser | apigw/store_memory.go:706-730 | The specified step: name, custom identifier, tags and address list are replaced, groups and credentials stay |
| GatewayStore.MemoryStore.DeleteUser | apigw/store_memory.go:732-741 | The specified step |
| GatewayStore.MemoryStore.AssignUserGroup | apigw/store_memory.go:767-803 | The specified step, whichever group the scan by name meets |
| GatewayStore.MemoryStore.UpsertUserAuthentication | apigw/store_memory.go:855-912 | The specified step; a clash refuses in whatever order consumers are met |
| GatewayStore.MemoryStore.CreateGroup | apigw/store_memory.go:915-929 | The specified step |
| GatewayStore.MemoryStore.UpdateGroup | apigw/store_memory.go:955-983 | The specified step; the loops over routes rename every entry |
| GatewayStore.MemoryStore.DeleteGroup | apigw/store_memory.go:985-1015 | The specified step: removing the first match and stopping removes the group, because memberships are distinct |
| GatewayStore.MemoryStore.UserByBasicUserName | apigw/store_memory.go:820-827 | The one consumer with the user name, or none |
| GatewayStore.MemoryStore.UserByHmacUserName | apigw/store_memory.go:829-834 | The one consumer with the user name, or none |
| GatewayStore.MemoryStore.UserByJwtKey | apigw/store_memory.go:836-842 | The one consumer with the key, or none |
| GatewayStore.MemoryStore.UserGroups | apigw/store_memory.go:671-680 | All of a consumer's groups: none is skipped for want of an entry |
| GatewayStore.MemoryStore.CreateDomain | apigw/store_memory.go:1018-1035 | The specified step |
| GatewayStore.MemoryStore.UpdateDomain | apigw/store_memory.go:1062-1077 | The specified step, which writes before it checks |
| GatewayStore.MemoryStore.DeleteDomain | apigw/store_memory.go:1079-1094 | The specified step, refused while a route uses the host |
| GatewayStore.MemoryStore.CreateCertificate | apigw/store_memory.go:1097-1111 | The specified step |
| GatewayStore.MemoryStore.UpdateCertificate | apigw/store_memory.go:1126-1154 | The specified step; key pairs not given stay, and the new name reaches every domain |
| GatewayStore.MemoryStore.DeleteCertificate | apigw/store_memory.go:1156-1170 | The specified step, refused while a domain refers to it |
| GatewayStore.HostsKnown | apigw/store_memory.go:434-453 | The nested scan accepts exactly lists of the service's own and registered hosts |
| GatewayStore.CredentialClash | apigw/store_memory.go:865-879 | The scan finds a clash exactly when another consumer has one of the given identifiers |
| GatewayStore.DropEntries | apigw/store_memory.go:1003-1013 | The filter keeps exactly the entries of other groups, in order |
| RouteMatch.StringLessIsTotal | apigw/store_memory.go:97-105 | Comparing identifiers is total and one-sided |
| RouteMatch.StringLessMeans | apigw/store_memory.go:97-105 | Identifiers compare at the first place where they differ, and an end comes first |
| RouteMatch.EligibleMeans | apigw/dataplane.go:152-158 | A route is a candidate exactly when its host, method and path take the request, and its hit says how much of the path it matched and what it leaves |
| RouteMatch.MatchMeans | apigw/dataplane.go:195-219 | An expression matches exactly when it compiles and is found at the start, a prefix exactly when the path begins with it; the matched part and what is left of the path for both |
| RouteMatch.PrecedingWins | apigw/dataplane.go:166-180 | What the two sorts put first wins by kind, priority or length, and age, told on the routes themselves |
| RouteMatch.CreationIsOrder | apigw/store_memory.go:97-105 | Creation time with the identifier as a tie-break orders distinct routes strictly |
| RouteMatch.RoutesByHost | apigw/store_memory.go:499-517 | Exactly the routes on the host, oldest first, whatever the order of the map |
| RouteMatch.Candidates | apigw/dataplane.go:152-158 | Exactly the routes matching host, path and method, oldest first |
| RouteMatch.Choose | apigw/dataplane.go:142-182 | None exactly when no route is eligible; otherwise an expression of the lowest priority if there is one, else the longest prefix, and of equal ones the oldest, by identifier at last |
| RouteMatch.FirstPrecedes | apigw/dataplane.go:166-180 | The stable sort over the creation order puts first what precedes everything |
| RouteMatch.BestIsUnique | apigw/dataplane.go:166-182 | There is at most one such route, so the choice is a function of the set of routes |
| RouteMatch.SelectRoute | apigw/dataplane.go:142-193 | No route exactly when none has the host, the method and the path. Otherwise an expression with the lowest priority if one takes the request, else the longest prefix, the oldest of equal ones; what goes upstream is what that route leaves of the path, or all of it; over a consistent store its service is always found |
| RouteMatch.StrippedPrefix | apigw/dataplane.go:195-219 | What a literal prefix strips and what it leaves make up the path again, and what is left begins with a slash |
| RouteMatch.SeamDoubledExactly | apigw/dataplane.go:309-317 | The join is the base less a final slash, then the path; the slash between them is doubled exactly when the base ends in two |
| RouteMatch.SeamDoubledExample | apigw/dataplane.go:309-317 | A base path that the schema admits and whose join has the slash doubled |
| RouteMatch.RoundTrip | apigw/dataplane.go:362-382 | At most one attempt more than the retries, one only for requests with a body; the first answer, or the first failure if there is none |
| Sorting.SortStable | apigw/dataplane.go:171-180 | The contract of the stable sort: a sorted rearrangement that keeps ties in input order |
| Sorting.Sort | apigw/store_memory.go:515 | The contract of the unstable sort: a sorted rearrangement |
| LoginProtocol.SweepExpired | apigw/oidc_session.go:190-203 | Below a thousand entries nothing goes; from there on exactly what is past its time |
| LoginProtocol.LoginStore.BeginLogin | apigw/oidc_session.go:78-85 | Sweeps and records the pending login in one step |
| LoginProtocol.LoginStore.TakeLogin | apigw/oidc_session.go:99-102 | Reads and removes a pending login in one step |
| LoginProtocol.LoginStore.AddSession | apigw/oidc_session.go:134-137 | Sweeps and records the session in one step |
| LoginProtocol.LoginStore.ValidSession | apigw/oidc_session.go:151-163 | Accepts exactly live sessions and drops an expired one |
| LoginProtocol.FinishLogin | apigw/oidc_session.go:93-149 | An uninterrupted callback grants a session exactly for a known, unexpired state and a matching nonce; its expiry is the one claimed if that is ahead, and otherwise an hour from then |
| LoginProtocol.StepKeepsInv | apigw/oidc_session.go:66-163 | Every atomic step keeps consumed states apart, logins genuine and sessions granted |
| LoginProtocol.RunKeepsInv | apigw/oidc_session.go:66-163 | Every interleaving keeps it |
| LoginLaws.LoginSucceeds | apigw/oidc_session.go:66-163 | Whatever runs in between: a state that comes back within ten minutes, to a callback then shown a token with its nonce, gives a session with the token's expiry, or an hour's if that is not ahead, and the session is accepted exactly until then |
| LoginLaws.StateIsAccepted | apigw/oidc_session.go:99-106 | Whatever runs in between, a callback's state is accepted exactly when it was found and has not expired |
| LoginLaws.TokenIsAccepted | apigw/oidc_session.go:108-131 | A token is accepted exactly when there is one and it has the login's nonce |
| LoginLaws.RejectedForGood | apigw/oidc_session.go:103-131 | A callback that was turned away stays so, and no session is ever its own |
| LoginLaws.PendingLasts | apigw/oidc_session.go:78-102 | A pending login waits unchanged until it is taken or expires, sweeps included |
| LoginLaws.HandlerWaits | apigw/oidc_session.go:93-149 | A callback stays where it is while others move |
| LoginLaws.SessionsLast | apigw/oidc_session.go:134-163 | A session stays until it expires, under an expiry that never changes |
| LoginProtocol.StatesAreSingleUse | apigw/oidc_session.go:66-149 | In every interleaving a state is consumed by at most one callback and yields at most one session, and every session stands for an issued login that its finished handler consumed and a token carrying that login's nonce, with an expiry that was ahead when computed |
| LoginProtocol.RunKeepsHistory | apigw/oidc_session.go:66-149 | In every interleaving whatever the store holds about logins, callbacks and sessions did happen, in the order it must |
| LoginProtocol.EverySessionWasEarned | apigw/oidc_session.go:66-149 | Behind every session there are, among the events and in this order, a redirect that issued a state and a nonce, a callback that took the state, a token with that nonce shown to that callback, and the grant to it |
| LoginProtocol.AlikeStep | apigw/oidc_session.go:96-203 | One step of the sweeping and the non-sweeping system answers alike and leaves them alike |
| LoginProtocol.SweepingIsInvisible | apigw/oidc_session.go:190-203 | In every interleaving every callback and session check is answered as if nothing were ever swept |
| LoginProtocol.NeverRevived | apigw/oidc_session.go:151-163 | A session refused once is refused for ever unless it is granted later |
| LoginProtocol.ExpiredStaysDead | apigw/oidc_session.go:151-163 | A granted session that expired is never accepted again |
| Authorize.AllowIP | apigw/auth.go:257-272 | A deny list admits who is not on it, any other who is, and no list everyone |
| Authorize.Decide | apigw/auth.go:26-46 | A request proceeds exactly when authenticated, admitted by the address list that counts and passed by the allow-list; each refusal is given exactly when its check is the first to fail in the order address, identity, consumer address, list |
| Authorize.ParseHmacParams | apigw/auth.go:163-175 | The loop over the comma-separated parts computes the parameters |
| Authorize.EntryExactly | apigw/auth.go:163-173 | A part gives a parameter exactly when it has an equals sign |
| Authorize.ParamsRoundTrip | apigw/auth.go:163-175 | Parameters written without stray separators, quoted or bare and with white space around them, are read back as meant |
| Strings.SplitJoins | apigw/transform.go:347 | Splitting loses nothing: every text is the join of its parts |
| Strings.JoinSplits | apigw/transform.go:347 | Parts without the separator come back from their join |
| Slices.Slice.Clone | apigw/store_memory.go:165-169 | The copy has the same elements in an array of its own |
| Slices.Slice.Append | apigw/store_memory.go:798 | In place when there is room, otherwise in a new array with the old one untouched |
| Slices.Slice.RemoveAt | apigw/store_memory.go:800 | The removal moves the rest up in place and leaves the last cell behind the end |
| Slices.Slice.RemoveFirst | apigw/store_memory.go:995-1000 | Removes the first match in place, or nothing |
| Slices.Slice.Drop | apigw/store_memory.go:1006-1012 | The filter overwrites the front of its own array with what is kept |
| Slices.Slice.Rewrite | apigw/store_memory.go:976-980 | Entries are rewritten in place |
| Slices.SharedArrayChanges | apigw/store_memory.go:797-800 | A reader sharing any list's array sees a removal as the rest moved up and the last element twice: unchanged exactly when all elements from there on are equal |
| Slices.RemovedReads | apigw/store_memory.go:795-800 | Removing the first match in place reads as the list without it |
| Slices.CompactedReads | apigw/store_memory.go:1003-1012 | The filter in place reads as what the test leaves, in order |
| Records.UserRecord.Assign | apigw/store_memory.go:787-801 | In place, the record reads as before but for the membership appended or the first match removed |
| Records.Authentication.Merge | apigw/store_memory.go:881-910 | In place, the stored credentials read as merged with the given kinds; a kind not stored yet gets a record of its own |
| Records.UserRecord.Merge | apigw/store_memory.go:878-910 | In place, the record reads as before but for the merged credentials |
| Records.UserRecord.Copy | apigw/store_memory.go:165-189 | The copy reads the same over new objects only: list, array and credentials included |
| Records.RouteRecord.RenameGroup | apigw/store_memory.go:971-981 | In place, every entry of the group shows the new name |
| Records.RouteRecord.DropGroup | apigw/store_memory.go:1002-1013 | In place, the list reads without the group's entries |
| Records.RouteRecord.Copy | apigw/store_memory.go:129-163 | The copy reads the same over new objects only: allow-list and array included |
| RecordStore.Store.AddUser | apigw/store_memory.go:652-669 | The new consumer has a record of its own; every other reads as before |
| RecordStore.Store.SetProfile | apigw/store_memory.go:706-730 | In place, one consumer reads as updated, every other as before |
| RecordStore.Store.Assign | apigw/store_memory.go:767-803 | In place, one consumer's memberships change, and no other record |
| RecordStore.Store.MergeCredentials | apigw/store_memory.go:855-912 | In place, one consumer's credentials change, and no other record |
| RecordStore.Store.DropFromUsers | apigw/store_memory.go:994-1001 | The cascade over all records, in any order, leaves each reading as cut |
| RecordStore.Store.ReplaceRoute | apigw/store_memory.go:574-589 | The new record keeps a copy of the old allow-list |
| RecordStore.Store.SetAllowList | apigw/store_memory.go:604-623 | The request's own list becomes the route's, and no other record changes |
| RecordStore.Store.RenameInRoutes | apigw/store_memory.go:970-981 | The cascade over all routes, in any order, leaves each reading as renamed |
| RecordStore.Store.DropFromRoutes | apigw/store_memory.go:1002-1013 | The cascade over all routes, in any order, leaves each reading without the group |
| RecordStore.Store.GetUser | apigw/store_memory.go:694-703 | What is handed out reads as stored and consists of new objects only |
| RecordStore.Store.GetRoute | apigw/store_memory.go:547-556 | What is handed out reads as stored and consists of new objects only |
| RecordStore.SnapshotsSurvive | apigw/store_memory.go:107-189 | However many writes follow, in place and to whatever records, a consumer and a route handed out before read as when they were taken, and none of their objects becomes the store's |
| RecordStore.CallerWritesStayOutside | apigw/store_memory.go:107-189 | Writes into a copy, to its list and its credentials, touch no object of the store |
| RecordStore.StepIsWrite | apigw/store_memory.go:225-1377 | What any call of the control plane does to consumers and routes is one such write, or nothing |
| RecordStore.RunIsWrites | apigw/store_memory.go:225-1377 | So every run of the control plane is a sequence of them |
| Decimal.IntegerInjective | apigw/dataplane.go:328 | Different numbers are written differently |
| Decimal.IntegerReads | apigw/dataplane.go:328 | A number is written in the digits that are worth it, behind a sign if it is negative |
| Transports.FingerprintInjective | apigw/dataplane.go:328 | A fingerprint can be read back only one way, so equal ones mean equal settings |
| Transports.TransportCache.TransportFor | apigw/dataplane.go:319-360 | A service always gets a transport of its current settings, and the one it had if they have not changed |
| CursorPaging.CursorPage | apprundedicated/store_memory.go:57-79 | The page after the cursor and the next cursor, over any items with identifiers |
| CursorPaging.AfterCursor | apprundedicated/store_memory.go:61-69 | The scan for the cursor: past it, or the start if it is empty or unknown |
| CursorPaging.PageIsCut | apprundedicated/store_memory.go:57-79 | A page begins behind the cursor, or at the front for an unknown one, holds as many items as asked for, twenty by default, if there are so many, and names its last item as the next cursor exactly when more follow |
| CursorPaging.NextPageIsNotEmpty | apprundedicated/store_memory.go:70-79 | A page that announces a next one is full, and the next one is not empty if nothing changes |
| CursorPaging.StepKeepsInv | apprundedicated/store_memory.go:57-79 | Page requests, inserts and removals other than of the cursor keep what a client has in step with the list |
| CursorPaging.FollowingCursorsReturnsEachItemOnce | apprundedicated/store_memory.go:57-79 | In every such interleaving, following cursors to the end returns every item present throughout exactly once, in list order, and no item twice |
| CursorPaging.FollowingCursorsTerminates | apprundedicated/store_memory.go:57-79 | It ends after at most as many requests as there are items and inserts, and one |
| CursorPaging.RestartsExactlyWhenCursorIsGone | apprundedicated/store_memory.go:61-69 | A non-empty cursor starts over exactly when its item is no longer there |
| CursorPaging.RemovedCursorExample | apprundedicated/store_memory.go:57-79 | A client whose cursor is removed between two requests gets an item twice |
| VersionPaging.ListVersions | apprundedicated/store_memory.go:253-290 | The page after the cursor of the versions newest first, with the number in decimal as the cursor; no number on it is above an earlier one |
| VersionPaging.OrderIsUnique | apprundedicated/store_memory.go:262-266 | Distinct numbers have one newest-first order only, so the page is determined by the versions alone |
| VersionPaging.CursorsAreDistinct | apprundedicated/store_memory.go:253-290 | Before the counter wraps, versions have distinct cursors |
| VersionPaging.FollowingCursorsReturnsEachVersionOnce | apprundedicated/store_memory.go:253-290 | Before the counter wraps, following the cursors gives every version present throughout, none twice, whatever is created or deleted meanwhile; and exactly the versions newest first if nothing is |
| VersionRuns.StepIsPaging | apprundedicated/store_memory.go:237-318 | Any call of the store, or a page request, is to a client reading an application's versions an insert, a removal, a fetch or nothing |
| VersionRuns.EveryVersionIsReadOnce | apprundedicated/store_memory.go:253-318 | Whatever calls come between a client's page requests, it ends with every version that was there at its start and was not deleted, none twice, and those still there newest first, unless the version under its cursor is deleted or the counter wraps |
| CursorPaging.QuietPagesAreTheList | apprundedicated/store_memory.go:57-79 | While nothing is inserted or removed, the pages put together are the list |
| OrderLists.RemoveFromOrder | apprundedicated/store_memory.go:679-686 | Removes the first occurrence, which over a duplicate-free order is all of it |
| OrderLists.KeptIsWithout | apprundedicated/store_memory.go:679-686 | Removing the first occurrence and filtering agree on duplicate-free lists |
| DedicatedStore.IncrementWraps | apprundedicated/store_memory.go:245 | The 32-bit counter after n increments, wrap-around included |
| DedicatedStore.NumbersRepeatAfterWrap | apprundedicated/store_memory.go:245 | Two numbers coincide exactly when a multiple of 2^32 lies between them |
| DedicatedStore.DeletedVersionIsGone | apprundedicated/store_memory.go:306-318 | A deleted number is no longer listed, and every other version is |
| DedicatedStore.AddVersionKeepsInv | apprundedicated/store_memory.go:238-251 | After creating a version, numbers are still issued by the counter and, before it wraps, distinct |
| DedicatedStore.AddGroupKeepsInv | apprundedicated/store_memory.go:321-347 | Orders, references and counts agree again after creating a group with its nodes |
| DedicatedStore.DropGroupKeepsInv | apprundedicated/store_memory.go:391-428 | Orders, references and counts agree again after deleting a group with its nodes and balancers |
| DedicatedStore.AddBalancerKeepsInv | apprundedicated/store_memory.go:431-452 | They agree again after creating a balancer, which is stored only under a live group |
| DedicatedStore.DrainKeepsInv | apprundedicated/store_memory.go:576-586 | They agree again after draining a node |
| DedicatedStore.StepKeepsInv | apprundedicated/store_memory.go:81-586 | Every call keeps orders, references and counts in agreement |
| DedicatedStore.EveryRunIsConsistent | apprundedicated/store_memory.go:81-674 | In every reachable state each of the six orders lists its map's keys once, the nodes of balancers are kept for exactly the live ones, workers and balancers have live groups, counts are right, certificates are complete and numbers distinct |
| DedicatedStore.NumberIssuedAgainExactly | apprundedicated/store_memory.go:237-251 | Over every run, a version created later has the number of an earlier one of its application exactly when a multiple of 2^32 versions have been created by then |
| DedicatedStore.NumberNeverIssuedAgain | apprundedicated/store_memory.go:237-251 | So within an application's first 2^32 versions no number is issued twice, whatever is deleted between |
| DedicatedStore.NumberComesBack | apprundedicated/store_memory.go:237-251 | An input that shows it, after any run: the version created after one and 2^32 - 1 more has the number of the first |
| DedicatedStore.NumberComesBackExample | apprundedicated/store_memory.go:237-251 | The same from the empty store: an application and 2^32 + 1 versions |
| DedicatedLaws.ClusterCreated | apprundedicated/store_memory.go:82-91 | The cluster is stored under the name given, last in order, and nothing else changes |
| DedicatedLaws.ClusterDeleted | apprundedicated/store_memory.go:134-144 | The cluster is gone, the others keep their order, and nothing else changes |
| DedicatedLaws.CertificateCreated | apprundedicated/store_memory.go:589-616 | Under a live cluster the certificate is stored as given; without a common name it is "mock.example.com", without subjects the common name, and without dates from now for 365 days |
| DedicatedLaws.CertificateUpdated | apprundedicated/store_memory.go:645-659 | A certificate of the cluster takes the name and keys given and keeps everything else |
| DedicatedLaws.CertificateDeleted | apprundedicated/store_memory.go:662-673 | A certificate of the cluster is gone, the others keep their order, and nothing else changes |
| DedicatedLaws.ApplicationCreated | apprundedicated/store_memory.go:154-164 | The application is stored as given, last in order, with its counter at zero |
| DedicatedLaws.ApplicationUpdated | apprundedicated/store_memory.go:195-220 | Activating copies the fixed scale of the first version with the number in manual mode and its lower scale in cpu mode, and otherwise leaves the count; deactivating clears both |
| DedicatedLaws.ApplicationDeleted | apprundedicated/store_memory.go:223-235 | The application, its versions and its counter are gone, the others keep their order |
| DedicatedLaws.VersionCreated | apprundedicated/store_memory.go:238-251 | The version goes last under the counter's next number, whatever number it carried |
| DedicatedLaws.VersionDeleted | apprundedicated/store_memory.go:306-318 | Exactly the first version with the number goes; the counter stays |
| DedicatedLaws.GroupCreated | apprundedicated/store_memory.go:321-347 | Under a live cluster the group counts its minimum, and a node that takes work is there for each identifier given, in their order |
| DedicatedLaws.GroupDeleted | apprundedicated/store_memory.go:391-428 | A group of the cluster is gone with exactly its worker nodes and load balancers and the nodes kept for those; every other group, node and balancer is as before, in the order it had |
| DedicatedLaws.BalancerCreated | apprundedicated/store_memory.go:431-452 | Under a live group the balancer is stored as given, last in order, with one node |
| DedicatedLaws.BalancerDeleted | apprundedicated/store_memory.go:499-511 | A balancer of the group is gone with its nodes, and the others keep their order |
| DedicatedLaws.DrainingSet | apprundedicated/store_memory.go:576-586 | A node of the group carries the flag given, and nothing else changes |
| DedicatedLaws.DeletionUndoesCreation | apprundedicated/store_memory.go:81-673 | Deleting what was just created gives the whole store back, order slices and cascaded nodes included |
| DedicatedStore.Store.CreateCluster | apprundedicated/store_memory.go:82-91 | The specified step |
| DedicatedStore.Store.DeleteCluster | apprundedicated/store_memory.go:134-144 | The specified step, without a cascade |
| DedicatedStore.Store.CreateCertificate | apprundedicated/store_memory.go:589-616 | The specified step; what the certificate does not say is filled in |
| DedicatedStore.Store.UpdateCertificate | apprundedicated/store_memory.go:645-659 | The specified step: the name and the keys, of a certificate of the cluster |
| DedicatedStore.Store.DeleteCertificate | apprundedicated/store_memory.go:662-673 | The specified step |
| DedicatedStore.Store.CreateApplication | apprundedicated/store_memory.go:154-164 | The specified step |
| DedicatedStore.Store.UpdateApplication | apprundedicated/store_memory.go:195-220 | The specified step: the scan copies the scale of the first version with the number |
| DedicatedStore.Store.DeleteApplication | apprundedicated/store_memory.go:223-235 | The specified step |
| DedicatedStore.Store.CreateVersion | apprundedicated/store_memory.go:238-251 | The specified step with the counter's next number |
| DedicatedStore.Store.DeleteVersion | apprundedicated/store_memory.go:306-318 | The specified step: the first version with the number goes |
| DedicatedStore.Store.CreateAutoScalingGroup | apprundedicated/store_memory.go:321-347 | The specified step; the loop creates the minimum of nodes |
| DedicatedStore.Store.DeleteAutoScalingGroup | apprundedicated/store_memory.go:391-428 | The specified step |
| DedicatedStore.Store.RemoveWorkersOf | apprundedicated/store_memory.go:399-409 | The scan rebuilds the order while it empties the map, and never meets a missing entry |
| DedicatedStore.Store.RemoveBalancersOf | apprundedicated/store_memory.go:411-423 | The same for balancers and their nodes |
| DedicatedStore.Store.CreateLoadBalancer | apprundedicated/store_memory.go:431-452 | The specified step |
| DedicatedStore.Store.DeleteLoadBalancer | apprundedicated/store_memory.go:499-511 | The specified step |
| DedicatedStore.Store.UpdateWorkerNodeDraining | apprundedicated/store_memory.go:576-586 | The specified step |
| DedicatedStore.Store.ListWorkerNodes | apprundedicated/store_memory.go:544-560 | A page of exactly the group's nodes in creation order |
| AppRunConfig.ValidateComponent | apprun/handler.go:308-344 | The loops over keys seen so far accept exactly components of a valid size with at most fifty well-formed keys, none twice across both kinds |
| AppRunConfig.ValidateComponents | apprun/handler.go:308-344 | Accepts exactly lists of valid components |
| AppRunConfig.ValidateApplication | apprun/handler.go:263-274 | Accepts exactly an unreserved port, a minimum within the maximum and one valid component |
| AppRunConfig.ValidatePatch | apprun/handler.go:276-306 | Checks the values as they would be after the patch |
| AppRunConfig.SecretIsStored | apprun/handler.go:380-392 | A secret is found exactly when a component of the name has the key, and what is found is stored there |
| AppRunConfig.FindSecret | apprun/handler.go:380-392 | The nested loops find the first such value |
| AppRunConfig.ResolveSecrets | apprun/handler.go:360-378 | Fills the request in place with what is stored under component and key; fails exactly when something has nothing to inherit |
| AppRunConfig.MergesAgreeExactly | apprun/handler.go:537-560 | The sentinel merge equals the merge of what was given exactly when no given value is a sentinel that differs from the current one; the schema's ranges rule that out |
| AppRunConfig.CreatedIsSound | apprun/handler.go:454-490 | An accepted application is sound |
| AppRunConfig.PatchedIsSound | apprun/handler.go:512-560 | An accepted patch turns a sound application into a sound one |
| AppRunLaws.PatchRecorded | apprun/handler.go:512-560 | A patch within the schema's ranges is accepted exactly under its checks, omitted secrets having something to inherit; it then records a version in which every field is the one given or that of the version before, components as asked for with omitted secrets filled with the first value stored under their component and key, or the old ones; nothing else changes |
| AppRunLaws.PatchMeansGivenExactly | apprun/store_memory.go:157-184 | For any values, the version recorded is the merge of what was given exactly when none is mistaken for an absent one |
| AppRunLaws.CreateRecorded | apprun/handler.go:454-490 | A creation is accepted exactly under its checks and below five applications; it then records one version with the fields given, a zero scale target being 100 |
| AppRunLaws.VersionRemoved | apprun/store_memory.go:267-282 | Exactly the first version with the identifier goes |
| AppRunLaws.AppRemoved | apprun/store_memory.go:198-209 | The application goes with its versions, and nothing else |
| AppRunLaws.StoredIsFirst | apprun/handler.go:380-392 | An omitted secret gets the first value stored for its key under a component of its name |
| AppRunLaws.ComponentAdmittedExactly | apprun/handler.go:308-344 | A component is valid exactly when its size is listed, it has at most fifty keys, none twice across both kinds, each of 1 to 128 bytes and not reserved, with values of 1 to 512 bytes |
| AppRunStore.SortedIsReversed | apprun/store_memory.go:60-73 | Newest first is the reverse of the order of creation, also among equal timestamps |
| AppRunStore.ListingIsUnique | apprun/store_memory.go:60-73 | There is one listing of the versions in either order, whatever their timestamps |
| AppRunStore.SortedIsSame | apprun/store_memory.go:60-73 | Oldest first is the order of creation, also among equal timestamps |
| AppRunStore.PagesAreConsecutive | apprun/store_memory.go:234-246 | Reading pages in turn gives the list from its start, without gap or repeat |
| AppRunStore.StepKeepsSound | apprun/store_memory.go:121-195 | Every accepted request keeps stored versions sound and their secrets traceable |
| AppRunStore.EveryVersionIsSound | apprun/handler.go:276-392 | However requests follow one another, every stored version keeps minimum within maximum, an unreserved port, one component of a valid size with at most fifty distinct keys, and secrets that are non-empty and were given for that component and key |
| AppRunStore.MemoryStore.CreateApplication | apprun/store_memory.go:121-146 | One first version, with the default scale target |
| AppRunStore.MemoryStore.UpdateApplication | apprun/store_memory.go:157-195 | The merged application as a new version, and the window of five |
| AppRunStore.MemoryStore.Merge | apprun/store_memory.go:167-184 | The assignments compute the sentinel merge |
| AppRunStore.MemoryStore.DeleteVersion | apprun/store_memory.go:267-282 | The first version with the identifier goes |
| AppRunStore.MemoryStore.DeleteApplication | apprun/store_memory.go:198-209 | The application and its versions go |
| AppRunStore.MemoryStore.ListVersions | apprun/store_memory.go:212-247 | The page of the versions in the order asked for, newest first by default, whatever their timestamps, and how many there are; where the clock did not go back it is the order of creation or its reverse |
| AppRunStore.MemoryStore.PostApplication | apprun/handler.go:454-490 | The handler is the specified step |
| AppRunStore.MemoryStore.PatchApplication | apprun/handler.go:512-560 | The handler is the specified step: checks, inheritance and merge together |
| AppRunDeletes.RecordKeepsWindow | apprun/store_memory.go:157-195 | A new version is the last and the newest, and the window holds at most five in order |
| AppRunDeletes.NewestIsListedFirst | apprun/handler.go:666-684 | The handler's listing shows every version of the window, and the newest first |
| AppRunDeletes.CutKeeps | apprun/store_memory.go:267-282 | Cutting out a version other than the last keeps the order, the last and every other version |
| AppRunDeletes.StepKeepsInv | apprun/handler.go:662-696 | Every step of a request or a delete handler keeps the window and keeps handlers aimed below the newest version |
| AppRunDeletes.NewestVersionStays | apprun/handler.go:662-696 | In every interleaving with handlers that list while their target exists, an application has one to five unchanged versions in order, the last the newest it was ever given |
| AppRunDeletes.DeleteLosesNewestExactly | apprun/store_memory.go:267-282 | A deletion loses the newest version exactly when that is its target at that moment |
| AppRunDeletes.LateTargetLosesNewest | apprun/handler.go:662-696 | A handler that lists before its target exists can delete the newest version |
| AppRunLaws.EventCreates | apprun/store_memory.go:121-146 | Between other handlers' steps: a creation leaves one version, the newest, with all traffic |
| AppRunLaws.EventPatches | apprun/store_memory.go:157-195 | A patch adds the newest version last, drops the oldest of five and moves no traffic |
| AppRunLaws.EventDeletesApp | apprun/store_memory.go:198-209 | The application goes with its versions and traffic, and nothing else |
| AppRunLaws.DeletionAlone | apprun/handler.go:662-696 | A deletion that nothing interrupts takes its target out exactly when there is another version and the target is there, is not the newest and gets no traffic; otherwise no version goes |

## Left out

- HTTP serving, proxying, sockets, TLS, containers, object-storage calls, OIDC discovery and token exchange, logging and tracing.
- JSON, query-string, base64, PEM, JWT and HMAC encodings and their cryptography; a JSON document is a tree, a verified token an arbitrary outcome.
- Byte strings that are not valid UTF-8: a text is a sequence of Unicode characters.
- Request schemas, except the numeric ranges and required secret values taken as preconditions of the AppRun requests.
- Fields that nothing else depends on: tags (other than a consumer's), descriptions, timestamps other than creation times, CORS settings, the address list and the transformations stored on routes, network interfaces, packet filters.
- Listings that only copy and sort (services, users, groups, domains, certificates, subscriptions, configurations, AppRun applications); the one the route choice rests on, `RoutesByHost`, is modelled.
- The cache of compiled expressions, which is keyed by the pattern itself.
- Several lock sections in one request: a data-plane request reads its route, its service and its consumer at three moments, and the model takes them from one state.
- The dispatch between session check, callback and redirect by the request's cookie and query, and the copying of the session into a cookie.
- Document.Document.AppendPath: a new array node takes the items over; that the program's append may write the new item into spare room of the old array is not modelled, as nothing else holds the old one.
- GatewayStore.MemoryStore.SetRouteAuthorization: the caller's list is stored as a value; that the program keeps the caller's own record is modelled by `RecordStore.Store.SetAllowList`.
- RecordStore.SnapshotsSurvive: a consumer's tags and address list and a route's other fields are values, since the program only replaces them as a whole; the checks that precede a write are those of `GatewayStore`, and the two classes are related by `RecordStore.RunIsWrites`.
- HeaderPhases.Query.ApplyQueryOps: reading the parameters from the query text and writing them back are left out.
- RouteMatch.RoutesByHost: the hosts of a route are compared by an arbitrary relation in place of case folding.
- LoginProtocol.SweepingIsInvisible: assumes that the clock does not go back; with a clock that does, an entry swept early could have been live again.
- AppRunStore.EveryVersionIsSound: holds for requests handled one at a time; the handler's check of the number of applications and of the scale limits is check-then-act and does not hold under interleaving.
- AppRun traffic targets may name versions trimmed out of the window; traffic is modelled only as far as it blocks a deletion, by version identifier in place of the printed name.
- AppRun Dedicated: that the active version is a live one is not checked by the program and not stated; deleting a cluster does not cascade.
- The `addon` and `cloudhsm` mocks: tables and plain records that would only add easy members.
