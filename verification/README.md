# A verified model of the BunkerWeb control plane

BunkerWeb turns what an orchestrator says (ingresses, labels, services) into one flat map of
settings, hands it to a scheduler exactly when needed, and renders it for every server.  This
project models that path in Dafny and proves what it promises: the merge of services that share a
host, the two concurrent protocols between watchers, autoconf and the scheduler, the flat map of
settings on its whole way from a service to its server, the batches of scheduler jobs, the
clean-up of the job cache, and some smaller components with a claim of their own.

Each module is one component; the modules build on each other in this order:

- `Text`, `Wrappers`, `Ordering`: decimals, words, white space; optional values; orders and the stable sort.
- `SlotKeys`, `SlotTables`, `SlotSort`, `ServiceMerge`, `MergeLaws`, `MergeOrder`: the merge engine
  of the Kubernetes controllers. `MergeServices` works in place on service objects, as the
  original does; `MergeLaws` and `MergeOrder` hold the laws.
- `ServerKeys`, `Flatten`, `FlatKeys`, `RoundTrip`, `AutoconfConfig`, `ConfigLaws`, `Expansion`, `Pipeline`: the
  flat settings map. How a key is attributed to a server, how services are flattened, the
  configuration object that caches the map, the expansion of defaults, and the whole way put
  together.
- `WatchProtocol`, `WatchTraces`, `BackendRetry`, `Handshake`, `JobBatch`: the concurrent parts, as transition
  systems over arbitrary interleavings.
- `CachePrune`, `PrefixTest`, `RateLimit`, `Indentation`, `Multiples`, `AccessHandler`: stand-alone components.

`dafny verify dfyconfig.toml` checks everything.

Code that works by changing things step by step is imperative here as well: loops with
invariants, and classes for the objects whose fields change (`SlotTables.Service`,
`AutoconfConfig.Config`, `BackendRetry.Controller`, `CachePrune.JobCache`,
`AccessHandler.Context`). Each such method is proved equal to a specification function, or
related to its inputs by a predicate, and the laws are lemmas about those.

## What the proofs say about the code

Where the code and a promise about it disagree, the model follows the code and states exactly
when the promise holds:

- Numbered settings read back after being written if and only if no setting name is empty, is a
  numbered form of another one, or has the server prefix in front of its own underscore
  (`SlotKeys.SlotsReadBackIff`). A host that is named like a setting already breaks it.
- Flattening services and splitting the map again returns each service its settings, whatever
  they are, if and only if no host name followed by `_` is the start of another one, no host is
  called `SERVER` (for such a host the list of servers reads as its setting `NAME`), and the
  validity check lets no service switch multisite mode off or set another host's key globally
  (`RoundTrip.RoundTripIff`). On Kubernetes it does let them: the annotation `MULTISITE: "no"` of
  one ingress is stored globally, and then no server gets settings of its own
  (`RoundTrip.MultisiteNoIsLost`, `Pipeline.OtherModeServesNobody`). For given services the mode
  survives if and only if no named one asks for another mode last (`Flatten.ModeIsKeptIff`).
- The configurator and the templator attribute every key to the same server if and only if no
  name is listed before all the shorter names whose keys it shares (`ServerKeys.ReadingsAgreeIff`).
  The template helper `has_variable` answers what the split map holds, for every map in multisite
  mode and every setting that is no server's key, if and only if the names are prefix-free
  (`ServerKeys.HasVariableAgreesIff`).
- Expanding the defaults lets every server see what it should, for every map, if and only if no
  two servers with two known settings make one key (`Expansion.ExpansionIsRightIff`).
- The keys of a merged service are the same for every order of the services if and only if, for
  every content, the prefix flags of any two of them commute (`MergeOrder.KeysForgetOrderIff`).
- The hand-over from autoconf to the scheduler loses nothing, in every interleaving, if and only
  if autoconf cannot save between the scheduler's first read and its first clear. The first pass
  clears with an empty list of changes, and the database takes an empty list to mean every flag
  (`Handshake.LosesNothingIffFirstPassBlocked`).
- Without exceptions every accepted event is deployed if and only if the backend worker has not put
  the pending flag back, with nobody left to answer for it (`WatchTraces.EveryDemandIsDeployedIff`,
  `WatchProtocol.DeferralLeavesAnEventBehind`). From every reachable state the threads can come
  to rest without a new event, all settled but for what was put back (`WatchProtocol.EveryRunCanRest`).
- A call that reports success leaves the database in step with the controller if and only if it
  was so before or the call changed the map (`ConfigLaws.ReportedSuccessIsInStepIff`). So after a
  failed save, applying the same services again, forced or not, saves nothing and reports success
  (`ConfigLaws.FailedSaveIsNotRetried`). The failed call announces nothing to the scheduler, not
  even the data it did save; the first repetition announces everything
  (`ConfigLaws.FailedSaveAnnouncesNothing`, `ConfigLaws.RepetitionAnnouncesAll`).
- Services that need no update leave the flat map as it is if and only if the named ones come in
  the same order, where they have different hosts and the extra settings do not replace the list
  of names (`ConfigLaws.UnnoticedKeepsMapIff`). The same named services in the same order always
  do (`ConfigLaws.SameNamedSameMap`); two services of one host can change places and with them
  the map while the names stay (`ConfigLaws.SharedHostTellsOrder`).
- The list of failed jobs is complete in every interleaving if and only if each job that fails by
  its exit code fails alone, but for jobs behind it in its own task that raise
  (`JobBatch.ListIsCompleteIff`).
- The clean-up of the job cache compares paths as text. It spares just what was restored or cached
  if and only if every sibling whose name extends a restored one is to be kept anyway
  (`PrefixTest.SparesJustTheRestoredIff`); restores under the root switch it off if and only if
  one of them is directly under the root (`PrefixTest.RootIsIgnoredIff`).
- A rate reads back after being printed if and only if its period is not negative, and the parser
  does accept negative ones (`RateLimit.PrintedRateReadsBackIff`).
- The indentation tool promises margins up to the next tab header or heading. It forgets a tab
  section for exactly those lines whose last opener is an admonition closed by a blank line
  (`Indentation.TabSectionForgottenIff`).
- The first bank of a group of repeated settings holds just the settings if and only if no key
  repeats one of them with the number 0 by name (`Multiples.BaseIsSettingsIff`). The value of such
  a key survives if and only if no later setting has its name (`Multiples.ZeroValueIsKeptIff`).
- The firewall is given exactly the request body if and only if no earlier entry of the handler
  was cut short by an intervention before the last buffer; otherwise it is given part of it twice
  (`AccessHandler.ProcessesExactBodyIff`).

## Model

| member | source | states |
|---|---|---|
| `Text.ValueOfDecimal` | src/autoconf/controllers/KubernetesController.py:144-151 | reading the digits of a printed number gives the number back |
| `Text.WordsOfJoined` | src/autoconf/Config.py:65-70 | the list of server names, joined with spaces and stripped, splits into the same names |
| `Text.FirstWordIs` | src/autoconf/controllers/KubernetesController.py:229-230 | the primary name is what stands before the first space |
| `Text.LowerLetters` | src/autoconf/controllers/KubernetesController.py:278 | letters from A to Z are compared in lower case, and nothing else changes |
| `Ordering.StringOrderIff` | src/autoconf/controllers/KubernetesController.py:312 | strings are compared by the first character in which they differ |
| `Ordering.ItemsOrderIff` | src/autoconf/controllers/KubernetesController.py:312 | lists of pairs are compared by the first pair in which they differ |
| `SlotKeys.UnambiguousReadsBack` | src/autoconf/controllers/KubernetesController.py:129-153 | a printed slot key is parsed back to its setting, number and prefix flag |
| `SlotKeys.AnyNumberIsRead` | src/autoconf/controllers/KubernetesController.py:129-153 | a setting is read with any number behind it, in whatever digits, and the host in front of it or not |
| `SlotKeys.SlotsReadBackIff` | src/autoconf/controllers/KubernetesController.py:113-181 | all slots of all repeatable settings read back if and only if the names are unambiguous next to the host |
| `SlotKeys.HostNamedLikeASetting` | src/autoconf/controllers/KubernetesController.py:129-132 | a host named like a setting loses the numbered forms of that setting |
| `SlotTables.ExtractSlots` | src/autoconf/controllers/KubernetesController.py:113-158 | the loop returns the table of slots and leaves exactly the other keys in the service |
| `SlotTables.DeleteKeys` | src/autoconf/controllers/KubernetesController.py:155-156 | removes the listed keys and nothing else |
| `SlotTables.WriteSlots` | src/autoconf/controllers/KubernetesController.py:160-181 | every slot of every list is written under its renumbered key; what is not a target is unchanged |
| `SlotTables.WriteSlot` | src/autoconf/controllers/KubernetesController.py:172-181 | the inner loop writes just the settings of one slot |
| `SlotTables.WrittenIsDetermined` | src/autoconf/controllers/KubernetesController.py:170-181 | for unambiguous settings the outcome does not depend on the order of groups and settings |
| `SlotTables.SlotsOfHolds` | src/autoconf/controllers/KubernetesController.py:124-153 | the table has a cell exactly for the settings and numbers some key stands for, with that key's value |
| `SlotTables.ExtractionKeepsAllIff` | src/autoconf/controllers/KubernetesController.py:134-153 | extraction loses no setting if and only if no two keys stand for the same setting and number |
| `SlotTables.WrittenSlotsReadBack` | src/autoconf/controllers/KubernetesController.py:113-181 | extracting from a service that was just written to gives the written lists, numbered consecutively from the start, with their prefix flags, and leaves every other key as it was |
| `SlotSort.ItemsAscend` | src/autoconf/controllers/KubernetesController.py:312 | the sort key lists the settings of a slot in strictly ascending order |
| `SlotSort.ItemsOfContent` | src/autoconf/controllers/KubernetesController.py:312 | the sort key lists exactly the settings of the slot and their values |
| `SlotSort.SortIsStable` | src/autoconf/controllers/KubernetesController.py:310-312 | the sorted list is in order, and slots with the same content keep their order |
| `SlotSort.SortForgetsOrder` | src/autoconf/controllers/KubernetesController.py:310-312 | lists that hold every content equally often are sorted to the same contents |
| `ServiceMerge.Pool` | src/autoconf/controllers/KubernetesController.py:269-273 | the loops append the slots of one service, in ascending number, to the lists of their groups |
| `ServiceMerge.NoteSwitches` | src/autoconf/controllers/KubernetesController.py:275-279 | a switch is noted exactly if the service says yes under the plain or the prefixed key, in any case |
| `ServiceMerge.CopyScalars` | src/autoconf/controllers/KubernetesController.py:290-308 | all settings but the switches are copied, overwriting earlier ones |
| `ServiceMerge.MergeOne` | src/autoconf/controllers/KubernetesController.py:266-308 | one accepted service: its slots are pooled, its switches noted, its scalars copied |
| `ServiceMerge.MergeGroup` | src/autoconf/controllers/KubernetesController.py:248-322 | the loop over the services of a host yields a merge of exactly the accepted ones |
| `ServiceMerge.ApplySwitches` | src/autoconf/controllers/KubernetesController.py:317-320 | sets the noted switches to yes and nothing else |
| `ServiceMerge.GroupByPrimary` | src/autoconf/controllers/KubernetesController.py:227-235 | the services by the first word of their name list, hosts in first-seen order |
| `ServiceMerge.MergeServices` | src/autoconf/controllers/KubernetesController.py:218-324 | one result for each host in first-seen order: the service itself if it is alone, else a merge of the host's services as they were before |
| `ServiceMerge.FirstSeenExactly` | src/autoconf/controllers/KubernetesController.py:229-234 | every host is listed, once |
| `ServiceMerge.FirstSeenInOrder` | src/autoconf/controllers/KubernetesController.py:229-234 | a host that is listed before another one was seen before it |
| `ServiceMerge.PositionsExactly` | src/autoconf/controllers/KubernetesController.py:229-235 | the group of a host holds exactly its services, in their order |
| `ServiceMerge.InOrderAscends` | src/autoconf/controllers/KubernetesController.py:272-273 | the slots of a service are listed by ascending number, all of them |
| `MergeLaws.MergedIs` | src/autoconf/controllers/KubernetesController.py:248-322 | taken apart again, the merged service holds the sorted pool, the last scalars and the switches |
| `MergeLaws.MergeConservesSlots` | src/autoconf/controllers/KubernetesController.py:266-315 | every combination of settings and values occurs in the merged service exactly as often as in the accepted services together |
| `MergeLaws.MergedNumbersAreConsecutive` | src/autoconf/controllers/KubernetesController.py:170-176 | the merged slots of a group are numbered without gaps from the configured start |
| `MergeLaws.MergedSlotsAscend` | src/autoconf/controllers/KubernetesController.py:310-312 | and by ascending content: at the first pair in which two of them differ the lower number has the smaller one |
| `MergeLaws.MergeForgetsOrder` | src/autoconf/controllers/KubernetesController.py:310-320 | any order of the accepted services gives the same slot contents under the same numbers, and the same switches |
| `MergeOrder.KeysForgetOrderIff` | src/autoconf/controllers/KubernetesController.py:310-315 | over all orders of the accepted services even the keys of the merged slots are the same, if and only if for every content the prefix flags of any two services commute |
| `MergeOrder.UniformMergeForgetsOrder` | src/autoconf/controllers/KubernetesController.py:310-315 | so they are with one prefix flag for all slots |
| `MergeLaws.GroupForgetsOrder` | src/autoconf/controllers/KubernetesController.py:248-320 | the same for a whole group of services of one namespace |
| `MergeLaws.SwitchesAreOred` | src/autoconf/controllers/KubernetesController.py:275-279 | a switch is in the merged service, as yes, exactly if some accepted service turns it on |
| `MergeLaws.SwitchIsYesIff` | src/autoconf/controllers/KubernetesController.py:275-320 | `USE_REVERSE_PROXY`, `USE_GRPC` and `USE_CUSTOM_SSL` are yes in the merged service if and only if some accepted service says yes under that name or behind the host, in any case; behind the host nothing is left |
| `MergeLaws.YesInAnyCase` | src/autoconf/controllers/KubernetesController.py:278 | the comparison accepts yes in upper or lower case and nothing else |
| `MergeLaws.MergeKeepsLastScalar` | src/autoconf/controllers/KubernetesController.py:290-308 | every scalar of an accepted service is in the merged one, with the value of the last service that has it |
| `MergeLaws.AcceptedExactly` | src/autoconf/controllers/KubernetesController.py:258-264 | a service takes part, as often as it is given, exactly if it has the first one's namespace or neither has one |
| `MergeLaws.TakesPartIff` | src/autoconf/controllers/KubernetesController.py:248-264 | it does exactly if both have the same namespace that is not empty, or neither has one, told from the services |
| `MergeLaws.MergeKeepsNamespacesApart` | src/autoconf/controllers/KubernetesController.py:248-264 | every value was given to the same setting by a service whose namespace agrees with the first one's |
| `MergeLaws.HostsKeepTheirSlots` | src/autoconf/controllers/KubernetesController.py:218-324 | over the whole list of services, each host's result holds the slots of its accepted services, each as often as they do |
| `MergeLaws.MergeIsCanonical` | src/autoconf/controllers/KubernetesController.py:227-235 | the result has one service for each host in first-seen order, and no host twice |
| `MergeLaws.DistinctHostsPassThrough` | src/autoconf/controllers/KubernetesController.py:243-246 | services with different hosts come out unchanged |
| `MergeLaws.MergeIsIdempotent` | src/autoconf/controllers/KubernetesController.py:218-328 | merging what was merged changes nothing |
| `ServerKeys.IsGlobalKey` | src/common/gen/Templator.py:372-382 | the scan answers yes exactly if the key has no server's prefix |
| `ServerKeys.ExtractServerAndKey` | src/common/gen/Templator.py:392-402 | the scan returns the split of the key |
| `ServerKeys.SplitFindsShortest` | src/common/gen/Templator.py:372-402 | a key is split at the shortest server name whose prefix it has, and the parts make up the key |
| `ServerKeys.SplitSettings` | src/common/gen/Templator.py:384-417 | in multisite mode the loops sort every setting into the global part or the part of one server |
| `ServerKeys.SplitByMode` | src/common/gen/Templator.py:367-425 | in multisite mode the map is split by the servers it lists; in any other mode all of it is global |
| `ServerKeys.ServersOfSplit` | src/common/gen/Templator.py:367-391 | the servers with a part of their own are those the map lists, or `www.example.com` without a list |
| `ServerKeys.SplitIsLossless` | src/common/gen/Templator.py:384-417 | the parts determine every key and value of the map, and hold nothing else |
| `ServerKeys.VarIsPrefixedIsFirst` | src/common/gen/Configurator.py:393-397 | the configurator takes the first listed server whose prefix the variable has |
| `ServerKeys.ReadingsAgreeIff` | src/common/gen/Configurator.py:393-397 | it agrees with the templator's scan on every key if and only if shadowed names are listed behind a shadowing one |
| `ServerKeys.PrefixFreeReadingsAgree` | src/common/gen/Configurator.py:393-397 | with prefix-free names they agree however the servers are listed |
| `ServerKeys.HasVariableAgreesIff` | src/common/gen/Templator.py:779-797 | for every map in multisite mode and every variable that is no server's key, the lookup in the flat map answers what the parts hold, if and only if the names are prefix-free |
| `Flatten.StepViews` | src/autoconf/Config.py:83-110 | one setting changes what its own server sees of it, and nothing another server sees |
| `Flatten.FlattenSplitsBackIff` | src/autoconf/Config.py:64-112 | for services with different separable hosts the flat map lists them, is in multisite mode and splits into exactly their accepted settings, if and only if none of them asks globally for another mode last |
| `Flatten.ModeIsKeptIff` | src/autoconf/Config.py:65-110 | the flat map is in multisite mode if and only if the last mode that a named service asks for and that is accepted globally is yes, or there is none |
| `Flatten.ListIsKept` | src/autoconf/Config.py:65-111 | the list of names survives whatever the services set |
| `Flatten.SplitGivesOwn` | src/common/gen/Templator.py:404-407 | the templator's part for a server is the map of the service's accepted settings |
| `FlatKeys.OwnKeyIff` | src/autoconf/Config.py:79-110 | for different separable hosts, a server has a setting in the flat map if and only if its service gives it one that the check accepts for servers, or one behind the prefix that it accepts at all; the last one counts |
| `FlatKeys.GlobalKeyIff` | src/autoconf/Config.py:87-108 | a key that is no server's is there if and only if a service gives it a value that the check accepts for no server but, on Kubernetes, for all; the last service counts |
| `RoundTrip.RoundTripIff` | src/autoconf/Config.py:64-112 | for given host names, and any validity oracle that accepts some setting, the round trip works for all services if and only if the names are prefix-free, none is `SERVER`, and the oracle lets no service switch the mode off or set another server's key globally |
| `RoundTrip.MultisiteNoIsLost` | src/autoconf/Config.py:94-107 | an input that fails: one host whose only annotation is `MULTISITE: "no"` |
| `RoundTrip.StraySettingIsMistaken` | src/autoconf/Config.py:94-107 | a global setting whose name starts with another host's, as `NGINX_PREFIX` does with `NGINX`, reads as that host's |
| `AutoconfConfig.Config.constructor` | src/autoconf/Config.py:15-45 | nothing is applied yet, and there is a place for every supported type of custom configuration |
| `AutoconfConfig.Config.GetFullEnv` | src/autoconf/Config.py:64-112 | the loops compute the flat map of the cached services |
| `AutoconfConfig.Config.AddService` | src/autoconf/Config.py:79-110 | the inner loop stores each accepted setting of one service under its key |
| `AutoconfConfig.Config.ListNames` | src/autoconf/Config.py:65-70 | the string of all names |
| `AutoconfConfig.Config.TakeOver` | src/autoconf/Config.py:196-207 | notes what differs from the last call and takes it over |
| `AutoconfConfig.Config.Recompute` | src/autoconf/Config.py:211-218 | recomputes the map if anything it depends on changed, and notes whether it differs |
| `AutoconfConfig.Config.Store` | src/autoconf/Config.py:236-271 | each kind of data is in the database exactly if saving it worked; the flags of what changed are raised, but none if saving the settings failed; the valid settings are remembered only if nothing failed but the instances |
| `AutoconfConfig.Config.Apply` | src/autoconf/Config.py:176-273 | the whole new state of the object and of the database after a call |
| `ConfigLaws.CacheIsCoherent` | src/autoconf/Config.py:196-218 | after a first call that reached the database, and any further calls, the cached map is what recomputing it would give |
| `ConfigLaws.AppliedNeedsNoUpdateIff` | src/autoconf/Config.py:114-141 | the arguments just applied need an update exactly if equal services came with their keys in another order |
| `ConfigLaws.NoUpdateNeededIff` | src/autoconf/Config.py:114-141 | no update is needed exactly if the same instances and services are given, in whatever order, and the same custom configurations and extra settings |
| `ConfigLaws.CallDoes` | src/autoconf/Config.py:176-273 | everything a call that reaches the database leaves in the object and the database, and its answer, told from the request and the cached values |
| `ConfigLaws.FlagsRaisedIff` | src/common/db/Database.py:764-806 | the flag of the instances is raised if and only if they differ, it is the first call, or nothing differs; likewise that of the custom configurations; the others only if nothing differs, or saving the map changed plugins |
| `ConfigLaws.SameNamedSameMap` | src/autoconf/Config.py:64-141 | arguments that need no update and list the same named services in the same order leave the map as it is, whatever they hold |
| `ConfigLaws.UnnoticedKeepsMapIff` | src/autoconf/Config.py:114-141 | for services with different hosts, and extra settings without a list of names, arguments that need no update leave the map as it is if and only if they list the named services in the same order |
| `ConfigLaws.SharedHostTellsOrder` | src/autoconf/Config.py:76-110 | two services of one host that end with different values for a setting need no update when they change places, keep the names, and change the map |
| `ConfigLaws.SwappedServicesGoUnnoticed` | src/autoconf/Config.py:124-127 | any two named services of different hosts that change places, in any list, need no update, but change the map |
| `ConfigLaws.InStepIff` | src/autoconf/Config.py:211-251 | the exact condition, for any state and call, under which the database holds the cached map afterwards |
| `ConfigLaws.ReportedSuccessIsInStepIff` | src/autoconf/Config.py:211-273 | a call that reports success leaves the two in step if and only if they were, or the call changed the map |
| `ConfigLaws.UnchangedMapKeepsStep` | src/autoconf/Config.py:211-251 | calls that do not change the map neither bring them into step nor out of it |
| `ConfigLaws.LastMapChangeDecides` | src/autoconf/Config.py:211-251 | over any sequence of calls they are in step if and only if the last call that changed the map saved it, or the database held that map already |
| `ConfigLaws.NoBaselineBeforeSuccess` | src/autoconf/Config.py:56-62 | until a call has succeeded there is no baseline, so the settings never count as changed |
| `ConfigLaws.BaselineIsLastSuccess` | src/autoconf/Config.py:268-271 | afterwards the baseline is what was valid at the last call that succeeded |
| `ConfigLaws.FailedSaveIsNotRetried` | src/autoconf/Config.py:211-273 | after a failed save any number of repeated calls leave the old configuration in the database, and each that reaches it reports success |
| `ConfigLaws.SettledStays` | src/autoconf/Config.py:196-273 | such a repeated call changes nothing but flags and reports success |
| `ConfigLaws.FailedSaveAnnouncesNothing` | src/autoconf/Config.py:245-262 | a call that changed the map and failed to save it raises no flag, whatever else it saved |
| `ConfigLaws.RepetitionAnnouncesAll` | src/common/db/Database.py:764-806 | the first repetition raises every flag but that of the plugins' settings, and still does not save the map |
| `Expansion.ExpandByMode` | src/common/gen/Configurator.py:319-343 | in multisite mode the map is expanded for the servers it lists, in any other mode it stays as it is |
| `Expansion.Expand` | src/common/gen/Configurator.py:322-343 | the nested loops compute the expansion |
| `Expansion.ExpansionGivesIntended` | src/common/gen/Configurator.py:319-341 | unless another server's filled key gets in the way, a server sees its explicit value, else its own template's, else the global one; its list of names is its own; whatever is no known setting, numbered ones included, stays as it was, present or absent |
| `Expansion.TemplateDecides` | src/common/gen/Configurator.py:326-341 | a known setting without a value has the value of the template the server chooses, if that is not the global choice and has the setting, and else the global value |
| `Expansion.NamesAndGlobals` | src/common/gen/Configurator.py:331-339 | a server without a list of names gets its own name, and no setting that is only global |
| `Expansion.ExpansionKeepsViews` | src/common/gen/Configurator.py:319-341 | with the global template, and no other server's filled key in the way, nothing that a server sees changes, numbered settings included |
| `Expansion.ExpansionIsRightIff` | src/common/gen/Configurator.py:319-341 | for given servers and known settings, USE_TEMPLATE among them, every server sees what it should after the expansion of any map, if and only if no two servers with two known settings make one key |
| `Expansion.ExpandingIsIdempotent` | src/common/gen/Configurator.py:319-341 | expanding twice changes nothing, for any names and templates |
| `Expansion.ExpansionExtends` | src/common/gen/Configurator.py:337-341 | no existing key is changed |
| `Expansion.RenderedIsView` | src/common/gen/Templator.py:632-652 | a server is rendered with exactly what it sees in the map, and with nothing where it sees nothing |
| `Pipeline.ConfiguredListIff` | src/autoconf/Config.py:213 | the map lists the named services, unless the extra settings bring a list of other names |
| `Pipeline.ConfiguredModeIff` | src/autoconf/Config.py:213 | the map is in multisite mode if and only if the extra settings say so, or say nothing and no service asks for another mode last |
| `Pipeline.ServiceSettingsReachTheirServer` | src/common/gen/Templator.py:367-416 | from service to rendering, in multisite mode and for every key: what the extra settings or else the service set, numbered or not, has the value it was given; what was not set is its template's or global; another server's settings do not appear |
| `Pipeline.OtherModeServesNobody` | src/common/gen/Templator.py:367-425 | in any other mode no server has settings of its own |
| `WatchProtocol.StepKeepsInvariant` | src/autoconf/controllers/KubernetesController.py:585-679 | every step of every thread keeps lock discipline, ownership of pending work, the balance of events and fresh snapshots |
| `WatchProtocol.RunKeepsInvariant` | src/autoconf/controllers/SwarmController.py:230-318 | so does every run |
| `WatchProtocol.NoEventLost` | src/autoconf/controllers/KubernetesController.py:585-679 | with all threads idle an event is outstanding exactly while the flag is up, and the flag is up exactly if the backend worker put it back |
| `WatchProtocol.LastRefreshSawEveryEventIff` | src/autoconf/controllers/KubernetesController.py:585-804 | in runs without exceptions, all workers included: with all threads idle the last complete refresh began after every accepted event if and only if the backend worker has not put the flag back |
| `WatchProtocol.LastRefreshSawEveryEvent` | src/autoconf/controllers/SwarmController.py:230-318 | in runs in which it never does, every accepted event has been seen and nothing is pending |
| `WatchTraces.EveryDemandIsDeployedIff` | src/autoconf/controllers/KubernetesController.py:585-804 | told from the steps alone: in runs without exceptions, with all threads idle, every accepted event and recovered backend was followed by a re-reading that found nothing to apply or met no busy scheduler, if and only if the flag is down |
| `WatchTraces.ClaimIsSeenThrough` | src/autoconf/controllers/KubernetesController.py:618-661 | a watcher that claims the pending work waits for events again only after such a re-reading of its own, unless it fails |
| `WatchTraces.BusySchedulerIsRetried` | src/autoconf/controllers/KubernetesController.py:640-643 | a change that meets a busy scheduler is read again by the same watcher |
| `WatchTraces.ClaimsAfterQuietPeriodIff` | src/autoconf/controllers/KubernetesController.py:606-621 | the pending work is claimed if and only if two seconds have passed since the last accepted event or deferral, or a recovered backend was reported last |
| `WatchProtocol.RefreshIsExclusive` | src/autoconf/controllers/KubernetesController.py:610-661 | at most one thread is inside a critical section, and it owns the lock |
| `WatchProtocol.LockedMirrorsOwnership` | src/autoconf/controllers/KubernetesController.py:587-675 | the local variable of a watcher always equals ownership of the lock |
| `WatchProtocol.PendingWorkCanFinish` | src/autoconf/controllers/KubernetesController.py:607-661 | pending work that was not put back can be settled by one watcher alone |
| `WatchProtocol.EveryRunCanRest` | src/autoconf/controllers/KubernetesController.py:585-804 | from every reachable state the threads can end what they are at, without a new event, a failure or a deferral, and then the lock is free and every recorded event is settled, or was dropped or deferred before |
| `WatchProtocol.DeferralLeavesAnEventBehind` | src/autoconf/controllers/KubernetesController.py:766-804 | there is a run in which the worker's deferral leaves an accepted event with nobody responsible |
| `BackendRetry.Controller.NoteMissingBackend` | src/autoconf/controllers/KubernetesController.py:692-702 | queues a named backend that is not queued yet |
| `BackendRetry.Controller.Work` | src/autoconf/controllers/KubernetesController.py:704-760 | one pass removes the backends found and those exhausted, and postpones the others that were due |
| `BackendRetry.LeavesWhenFoundOrExhausted` | src/autoconf/controllers/KubernetesController.py:704-760 | a queued backend leaves only when found, or after exactly the allowed polls and not before all doubling delays have passed |
| `BackendRetry.LastPollRemoves` | src/autoconf/controllers/KubernetesController.py:728-740 | a poll keeps the backend queued exactly if it is not found and polls are left |
| `BackendRetry.NextPollIff` | src/autoconf/controllers/KubernetesController.py:719-745 | a backend that was not found is polled again by the first pass after the next, doubled delay |
| `BackendRetry.MissQueuesIff` | src/autoconf/controllers/KubernetesController.py:692-702 | a miss queues a named backend that is not queued, due after one delay, and changes no other |
| `BackendRetry.DefaultPatience` | src/autoconf/controllers/KubernetesController.py:36-37 | with the defaults this takes 31 seconds |
| `Handshake.RunKeepsInvariant` | src/autoconf/Config.py:155-273 | a save that was not read is announced by a flag, about to be, or about to be read, in every interleaving after a blocked start |
| `Handshake.LosesNothingIffFirstPassBlocked` | src/scheduler/main.py:1248-1458 | no interleaving loses an update if and only if autoconf cannot save before the first clear |
| `Handshake.UnblockedFirstPassCanLose` | src/common/db/Database.py:757-805 | otherwise there is a run whose first clear lowers flags that were never read |
| `Handshake.QuietMeansGenerated` | src/scheduler/main.py:1248-1458 | with no flag up and both sides idle the last generation is as new as the last save |
| `Handshake.WritesAndReadsExclude` | src/autoconf/Config.py:155-174 | autoconf saves nothing while the scheduler reads |
| `Handshake.ApplySavesAndRaises` | src/autoconf/Config.py:155-264 | an apply waits for all flags to be down, saves every kind that changed, and raises just their flags, or all but one if nothing changed |
| `Handshake.PassReadsWhatIsAskedFor` | src/scheduler/main.py:1329-1440 | a pass reads anew just the kinds whose flag is up, all of them for changed instances, and the settings of plugins always, none older than when it began, and lowers just the flags of those |
| `JobBatch.Submit` | src/scheduler/JobScheduler.py:439-460 | the loops submit one task for each asynchronous job and one for the others of a plugin, in definition order |
| `JobBatch.SubmissionConservesJobs` | src/scheduler/JobScheduler.py:439-460 | every job of a plugin that is not ignored, and asked for where any are, is submitted exactly once, and no other |
| `JobBatch.TasksOfPlugin` | src/scheduler/JobScheduler.py:446-458 | a plugin has one task for each asynchronous job, then one for all the others, in the order of definition |
| `JobBatch.VerdictIsRight` | src/scheduler/JobScheduler.py:276-308 | in every interleaving the verdict is good exactly if all jobs ended with 0 or 1, bad exactly if a failure is listed, and a reload is requested exactly if some job ended with 1 |
| `JobBatch.VerdictOfOutcomes` | src/scheduler/JobScheduler.py:276-308 | the same told from how the jobs ended: by raising, by leaving with a code or without, or by running to the end |
| `JobBatch.FailureListIsSound` | src/scheduler/JobScheduler.py:286-303 | listed jobs failed, none is listed twice, and jobs that raised are listed |
| `JobBatch.ListIsCompleteIff` | src/scheduler/JobScheduler.py:298-303 | all failed jobs are listed in every interleaving if and only if each that fails by exit code fails alone, but for later jobs of its own task that raise |
| `JobBatch.RunKeepsInvariant` | src/scheduler/JobScheduler.py:276-308 | what holds between the shared verdict, the list and the threads at every step |
| `CachePrune.Restore` | src/common/utils/jobs.py:134-183 | the loop over the rows collects the cached paths and the prefixes that are left alone |
| `CachePrune.ShieldedIff` | src/common/utils/jobs.py:144-172 | left alone are the directories of files this job restored, those its archives were unpacked to, and those of other jobs' archives |
| `CachePrune.JobCache.Prune` | src/common/utils/jobs.py:185-199 | the loop removes what visiting the paths deepest first removes |
| `CachePrune.SortedByDepth` | src/common/utils/jobs.py:189 | the visiting order is a permutation of the listing with deeper paths first |
| `CachePrune.PruneKeepsExactlySurvivors` | src/common/utils/jobs.py:185-199 | what is left is the root, the cached files, the ignored paths and the directories leading to them, unchanged |
| `CachePrune.PruneIsCompleteAndSafe` | src/common/utils/jobs.py:185-199 | no file is left uncached and no directory empty, and nothing cached, ignored or at the root is removed |
| `CachePrune.PruneIsIdempotent` | src/common/utils/jobs.py:185-199 | running it again removes nothing |
| `CachePrune.ShallowFirstLeavesEmptyDirectory` | src/common/utils/jobs.py:187-189 | visiting a directory before its contents would leave it behind empty |
| `CachePrune.IgnoredGoesDown` | src/common/utils/jobs.py:190 | what lies below an ignored path is ignored |
| `PrefixTest.PrefixTestIff` | src/common/utils/jobs.py:190 | the text of one path is the start of another's exactly for what lies at or below it and for longer siblings |
| `PrefixTest.IgnoredIff` | src/common/utils/jobs.py:144-190 | a path is ignored exactly if it lies in a restored directory or is a longer sibling of one |
| `PrefixTest.SparesJustTheRestoredIff` | src/common/utils/jobs.py:185-199 | the clean-up leaves just cached files, restored directories and the way to them if and only if every longer sibling of a restored directory is to be left anyway |
| `PrefixTest.RemovesNothingIff` | src/common/utils/jobs.py:185-199 | nothing is removed if and only if every uncached file and every empty directory is ignored |
| `PrefixTest.RootIsIgnoredIff` | src/common/utils/jobs.py:172-190 | restores under the root make it, and everything, ignored if and only if something was restored directly under it |
| `PrefixTest.TopLevelRestoreDisablesPrune` | src/common/utils/jobs.py:171-172 | restoring one file directly under the root therefore switches the clean-up off |
| `RateLimit.PrintedRateReadsBackIff` | src/api/app/rate_limit.py:62-137 | a printed limit parses to the same count and period exactly if the period is not negative, and is refused otherwise |
| `RateLimit.PrintingIsStable` | src/api/app/rate_limit.py:288-301 | printing an accepted text and parsing it again changes nothing |
| `RateLimit.NegativePeriodIsAccepted` | src/api/app/rate_limit.py:87-90 | the parser accepts a negative period |
| `RateLimit.ShortFormInAnyDress` | src/api/app/rate_limit.py:72-78 | the short form means its count in seconds, minutes, hours or days, in either case and with white space in between |
| `RateLimit.LongFormIsRead` | src/api/app/rate_limit.py:80-137 | a count and any spelling of a unit, with a slash or the word per |
| `RateLimit.CountedFormIsRead` | src/api/app/rate_limit.py:92-137 | the same with a count of units |
| `RateLimit.UnderscoreIsSkipped` | src/api/app/rate_limit.py:84-90 | numbers may have single underscores between digits |
| `RateLimit.PlusSignIsSkipped` | src/api/app/rate_limit.py:84-90 | and a plus sign, with white space around it |
| `Indentation.NormalizeIndentation` | misc/fix_readme_indentation.py:29-82 | the nested loops compute what the one-pass automaton computes |
| `Indentation.CopyAdmonition` | misc/fix_readme_indentation.py:44-57 | the loop over an admonition stops where the automaton leaves that state |
| `Indentation.CopyTab` | misc/fix_readme_indentation.py:64-76 | the loop over a tab section stops where the automaton leaves that state |
| `Indentation.NormalizingIsIdempotent` | misc/fix_readme_indentation.py:11 | normalizing twice is normalizing once |
| `Indentation.NormalizingKeepsText` | misc/fix_readme_indentation.py:29-82 | the number of lines and the text of each line never change |
| `Indentation.LeftAloneIffIndented` | misc/fix_readme_indentation.py:29-82 | a document is unchanged exactly if its section content already has its four spaces |
| `Indentation.LineBecomes` | misc/fix_readme_indentation.py:29-82 | what becomes of each line, told from the last opener before it and the blank lines after that |
| `Indentation.TabSectionForgottenIff` | misc/fix_readme_indentation.py:7-9 | a line of text of a tab section gets its margin unless the last opener before it is an admonition that a blank line has closed, and then it gets none |
| `Indentation.ModeSinceOpener` | misc/fix_readme_indentation.py:37-80 | the last opener before a line, and a blank line after it, tell the state of the loops |
| `Indentation.AdmonitionEndsTab` | misc/fix_readme_indentation.py:64-68 | content after a closed admonition inside a tab section is left without margin |
| `Multiples.BuildGroup` | src/ui/app/utils.py:185-226 | the loop over the settings of a group computes its banks |
| `Multiples.MatchConfig` | src/ui/app/utils.py:199-209 | the loop over the configuration puts every match into its bank |
| `Multiples.CompleteBanks` | src/ui/app/utils.py:211-226 | the loop over the banks completes and reorders all but the first |
| `Multiples.CompleteBank` | src/ui/app/utils.py:216-226 | one bank, in the order of the first |
| `Multiples.BanksAreUniform` | src/ui/app/utils.py:211-226 | every bank but the first ends with exactly the settings of the first, in the same order |
| `Multiples.ValuesAreKept` | src/ui/app/utils.py:199-226 | every configured value with another suffix than 0 stays under its key although the banks are rebuilt for each later setting |
| `Multiples.ZeroValueIsKeptIff` | src/ui/app/utils.py:195-209 | with the suffix 0 it stays, in the first bank, if and only if no later setting has that very name |
| `Multiples.RepeatedIsShown` | src/ui/app/utils.py:199-209 | a setting that is repeated with a number is shown in the bank of that number, under its own key, with its value |
| `Multiples.MissingIsShownEmpty` | src/ui/app/utils.py:211-226 | a setting that is not repeated with a number that is used is shown in its bank without a value |
| `Multiples.BanksIff` | src/ui/app/utils.py:199-205 | there is a bank for every number that is used, besides the first, and no other |
| `Multiples.BaseIsSettingsIff` | src/ui/app/utils.py:196-209 | the first bank holds just the settings if and only if none is repeated with the number 0 by name |
| `Multiples.ZeroKeyAddsASetting` | src/ui/app/utils.py:211-226 | such a key shows up, numbered again, in every other bank |
| `Multiples.BanksAscend` | src/ui/app/utils.py:228-230 | the banks are shown by ascending number, exactly those that are used, each once |
| `AccessHandler.Context.RequestRead` | src/deps/misc/ngx_http_modsecurity_access.c:25-42 | the callback ends the waiting, and runs the phases exactly if there was some |
| `AccessHandler.Context.InspectChain` | src/deps/misc/ngx_http_modsecurity_access.c:184-207 | the loop appends buffers until the last one or an intervention |
| `AccessHandler.Context.AccessHandler` | src/deps/misc/ngx_http_modsecurity_access.c:45-234 | the new flags, the bytes appended and the answer of one entry |
| `AccessHandler.AnswerIff` | src/deps/misc/ngx_http_modsecurity_access.c:45-234 | when the handler declines, waits, fails or answers with a code, and when it processes a body, told from the verdicts and buffers |
| `AccessHandler.LateBodyIsProcessed` | src/deps/misc/ngx_http_modsecurity_access.c:25-144 | a body that comes late is processed once the callback has run, and not before |
| `AccessHandler.InterventionIsFinal` | src/deps/misc/ngx_http_modsecurity_access.c:88-90 | after an intervention of another phase the handler leaves the request alone |
| `AccessHandler.RequestIsSound` | src/deps/misc/ngx_http_modsecurity_access.c:83-230 | over any entries and callbacks the body is requested and processed at most once, and never processed while awaited |
| `AccessHandler.ProcessingNeverWaits` | src/deps/misc/ngx_http_modsecurity_access.c:92-98 | processing happens on an entry, with the body no longer awaited |
| `AccessHandler.ProcessedBodyIsAppended` | src/deps/misc/ngx_http_modsecurity_access.c:184-220 | an entry that processes a body in memory has appended the chain up to its last buffer |
| `AccessHandler.CutShortIff` | src/deps/misc/ngx_http_modsecurity_access.c:184-207 | an entry leaves part of a body behind exactly if it inspects one in memory and the firewall intervenes before the last buffer, having been given something |
| `AccessHandler.ProcessesExactBodyIff` | src/deps/misc/ngx_http_modsecurity_access.c:184-220 | the firewall processes exactly the body if and only if no earlier entry was cut short so |
| `AccessHandler.ReentryAppendsAgain` | src/deps/misc/ngx_http_modsecurity_access.c:203-206 | there is a request whose first buffer is appended twice |

## Left out

- The database, the orchestrator APIs, files, archives, logging and signals: their answers are parameters or nondeterministic steps.
- Setting validity: a fixed oracle, one for servers among named ones and one for global values.
- Characters beyond ASCII that count as digits or white space, and their case folding.
- The order of keys in merged services: dictionaries are compared by what they hold. The order of keys within a service does matter to `Flatten` and is kept.
- Conflicting scalars of merged services: the last one wins, which depends on the order by design. Conflict logging is not modelled.
- The services that a merge has emptied of their slots: the controller builds them anew for every refresh, and nothing is claimed about them afterwards.
- GetFullEnv: requires that every service has a name list, because the original raises an error without one.
- Exceptions inside an apply: in `WatchProtocol` they are a step that drops the pending work, and the claims that need their absence say so; in `AutoconfConfig` only the waiting timeout is one.
- Other writers of the change flags than autoconf, and the flag for the web interface's plugins, are not part of `Handshake`.
- Rate limit rules, storage and exemptions around the rate parser and printer.
- The database between autoconf and the configurator: `Pipeline` hands the flat map over as it is, where the program saves it and loads it again (src/common/gen/main.py:114-128).
- StepViews: for services none of which sets another server's key globally; the database accepts such a key only where a global setting is named like a host and `_` (src/common/db/Database.py:572-629). `RoundTrip.StraySettingIsMistaken` is what happens otherwise.
- FlattenSplitsBackIff: for the same services as StepViews; `RoundTrip.RoundTripIff` has no such condition.
- RoundTripIff: does not speak of services that set the list of names of another host globally, which only the setting `API_SERVER_NAME` does, next to a host called `API`.
- UnnoticedKeepsMapIff: with a list of names in the extra settings the names say nothing about the order of the services, and with shared hosts too little; `SameNamedSameMap` holds for those as well.
- WriteSlot: as WriteSlots, for the settings of one slot.
- WriteSlots: where two slots print to one key it allows the value of either, because groups and settings have no order here; for unambiguous settings this cannot happen.
- Store: leaves out the splitting of custom configuration names and the types that are not supported; whether raising the flags works, and whether plugins changed, are answers of the database. That it fails after a failed save rests on the database library refusing a text where it expects a list (src/common/db/Database.py:800).
- LockedMirrorsOwnership: speaks of states between steps; taking or releasing the lock and setting the local variable are one step.
- Checking of names and regular expressions in the configurator before the expansion, and the variables it excludes: `Pipeline` starts from the settings that were accepted.
- Templates whose own settings name further templates: the original does not follow them either.
- Symbolic links, permissions and the contents of archives in the job cache: a tree of files and directories.
- The two locks of the job scheduler are one; the thread pool runs any task at any time.
- Whole plugins, the failover copies and the sending of files to instances.
- BuildGroup: handles the settings of one group, because groups do not influence each other; a key with a trailing newline is not considered.
- AccessHandler: leaves out the reference count of the request and the memory pools; a request without a module context answers with an error before anything modelled here.
