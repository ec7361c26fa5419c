# kops, verified core

A Dafny model of the parts of kops that carry real invariants, and proofs about them. `dafny verify dfyconfig.toml`
checks everything. Nothing was executed: the Go program is modelled, not run.

| file | models |
|---|---|
| `JsonStreamWriter.dfy`, `JsonReader.dfy`, `JsonRoundTrip.dfy` | the token-by-token JSON printer, a reader for the grammar of RFC 8259, and exactly when one undoes the other |
| `Validation.dfy` | when a cluster passes validation |
| `RollingUpdateGroup.dfy`, `RollingUpdateRuns.dfy`, `RollingUpdateCluster.dfy` | the rolling update of one instance group as a loop and as a machine, all runs of that machine, and the cluster update with its interleaved goroutines |
| `Diff.dfy`, `DiffLaws.dfy`, `DiffRecords.dfy`, `DiffReport.dfy` | line records built from a character-level diff, what each edit adds and when nothing is changed, their rendering with context, and the report read back |
| `Systemd.dfy`, `SystemdMeaning.dfy` | command-line escaping, against a reader for systemd's quoting rules and against its specifiers, variables and command separators |
| `SemVer.dfy`, `Channels.dfy`, `ChannelsApply.dfy` | which addon version replaces which, the menus built from that, and apply runs against a cluster |
| `Manifest.dfy` | the in-place rewriting of container images in a manifest |
| `MasterLayout.dfy` | names and zones of the masters of a new cluster, and its etcd members |
| `EditComments.dfy`, `EditScan.dfy`, `EditLoop.dfy` | comment stripping, the header with its messages, the scanner for visible lines, and the edit loop |
| `AuthFile.dfy`, `Federation.dfy` | the credentials file, and the secret that keeps its admin password and token over any number of runs |
| `Firewall.dfy` | compression of open ports into ranges |
| `Prelude.dfy`, `Text.dfy` | shared definitions: options, splitting, trimming and decimal numbers as in Go's strings and strconv |

Code that updates things in place is modelled by classes and loops that are proved against specification functions;
the lemmas are about those functions. Go strings are sequences of characters except in `Systemd.dfy`, which works on
bytes. An interleaving of goroutines is a sequence of atomic actions (`RollingUpdateCluster.Behaviour`); a map
iteration order, the cloud's reaction to a deletion and the firing of a timer are arbitrary choices; the answers of
the API server to an apply run and of the io.Writer to the JSON printer are parameters, and so are the editor and the
verdict on an edited text.

Places where the code does something else than its comments or an easy reading suggest; each is proved with an input
that shows it and with the exact condition under which the expected law holds:

- The JSON writer prints strings without escaping them (`BareQuoteDoesNotReadBack`, `ReadsBackIffClean`).
- `MergeAddons` keeps the lowest version on offer, not the latest one as the comment on `AddonMenu` says
  (`MergeCanDropTheLatest`, `MergeIsLatestIff`).
- The diff drops some blank lines (`BlankLineIsDropped`, `RecordsAreExactIffNothingDropped`), and shared text that meets
  inside a line is reported as a change (`SplitSharedLineIsReported`, `UnchangedIff`).
- An empty argument vanishes from a systemd command line, a lone semicolon splits it, and percent and dollar signs are
  printed bare although systemd expands them (`EmptyArgumentIsLost`, `DollarsAreHalved`, `MeansItsArgumentsIff`).
- `trimCommonPrefix` can leave a member without a name (`NamelessMember`, `TrimmedToNothingIff`).
- An error message of several lines leaks into the edited text, so that an untouched buffer is not recognised
  (`LoudMessageGoesOn`, `UntouchedEndsIff`).
- A credential with a leading space does not survive the file (`LeadingSpaceIsLost`, `ReadsBackIffClean` in `AuthFile`).

The port compression loop on its own would start with an empty range 1-0 if port 1 were blocked (`CompressPorts`); its
only caller never blocks port 1, and there the ranges are exact (`NodeToMasterPorts`).

## Model

| member | source | states |
|---|---|---|
| JsonStreamWriter.JSONStreamWriter.constructor | pkg/jsonutils/streamwriter.go:45-49 | A new writer has written nothing, is at no depth and has an empty path |
| JsonStreamWriter.JSONStreamWriter.Path | pkg/jsonutils/streamwriter.go:52-54 | After any number of tokens of any object or array: the names of the fields that enclose this point of the tree, joined by dots |
| JsonStreamWriter.JSONStreamWriter.WriteRaw | pkg/jsonutils/streamwriter.go:175-184 | Deferred text comes out first, and only once; an error exactly when a write fails, and then what came out is a prefix of what should have |
| JsonStreamWriter.JSONStreamWriter.WriteToken | pkg/jsonutils/streamwriter.go:57-173 | The step of the specification for every token while writes succeed; when one fails an error, with the place in the tree still that of the step and the output a prefix of it |
| JsonStreamWriter.FeedValue | pkg/jsonutils/streamwriter.go:57-184 | Wherever a value may stand, feeding its tokens prints its layout at the current indent and restores state, indent and path |
| JsonStreamWriter.WriterPrintsTheLayout | pkg/jsonutils/streamwriter.go:57-184 | For every object or array, the token stream prints exactly the recursive layout (two spaces per level, commas only between elements) and the writer ends at rest |
| JsonStreamWriter.TopLevelScalarIsRefused | pkg/jsonutils/streamwriter.go:151-172 | A scalar outside any object or array is an error |
| JsonStreamWriter.RefusedIff | pkg/jsonutils/streamwriter.go:57-173 | Exactly which tokens are accepted in which state; a refused token writes nothing |
| JsonStreamWriter.EveryPrefixKeepsPlace | pkg/jsonutils/streamwriter.go:52-170 | After every prefix of a stream: state and path are those the tree dictates, indent is two spaces per open bracket, one name per F, every F directly on a brace |
| JsonRoundTrip.LexValue | pkg/jsonutils/streamwriter.go:128-172 | The layout of a clean tree lexes to the lexemes of the tree |
| JsonRoundTrip.UncleanValue | pkg/jsonutils/streamwriter.go:128-172 | The layout of a tree that is not clean never lexes to its lexemes |
| JsonRoundTrip.ReadsBackIffClean | pkg/jsonutils/streamwriter.go:128-172 | For every object or array, the output reads back by RFC 8259 as the same tree if and only if no string needs an escape and every number is a JSON number |
| JsonRoundTrip.WriterIsInjective | pkg/jsonutils/streamwriter.go:57-184 | Different clean trees give different texts |
| JsonRoundTrip.BareQuoteDoesNotReadBack | pkg/jsonutils/streamwriter.go:132-133 | A string holding a quotation mark is a concrete failure of the round trip |
| Validation.FindNodeCondition | pkg/validation/node_api_adapter.go:176-184 | The first condition of the kind asked for, none exactly when there is none |
| Validation.ReadyIff | pkg/validation/node_api_adapter.go:239-249 | A node is ready if and only if its first Ready condition exists and is True, and its first NetworkUnavailable condition, if any, is False or Unknown |
| Validation.DescribedAsReported | pkg/validation/validate_cluster.go:186-196 | The entry on a node: its labels, its role, a node without one being a plain node, and its first Ready status or Unknown |
| Validation.CollectComponentFailures | pkg/validation/validate_cluster.go:143-155 | One failure per component condition whose status is not True, in order |
| Validation.ComponentFailuresAre | pkg/validation/validate_cluster.go:143-155 | The list, one condition at a time: the component's name for each that is not True |
| Validation.CollectPodFailures | pkg/validation/validate_cluster.go:157-172 | One failure per container that is not ready of a pod that has not succeeded, in order |
| Validation.PodFailuresAre | pkg/validation/validate_cluster.go:157-172 | The list, one container at a time: the pod's name for each that is not ready, nothing for a pod that has succeeded |
| Validation.ValidationCluster.File | pkg/validation/validate_cluster.go:183-221 | A node goes to the list of its role and readiness, and is counted where a count was asked for |
| Validation.ValidationCluster.FileNodes | pkg/validation/validate_cluster.go:183-221 | The loop files every node |
| Validation.ValidationCluster.Verdict | pkg/validation/validate_cluster.go:223-257 | Success exactly when the node checks pass and no failures were collected; the status is set otherwise |
| Validation.ValidationCluster.ValidateTheNodes | pkg/validation/validate_cluster.go:174-258 | The complete outcome, counts that are set beforehand included |
| Validation.FiledInOrder | pkg/validation/validate_cluster.go:183-221 | Filing appends the ready and the unready nodes of each role, in order, and counts them |
| Validation.MembersAreReported | pkg/validation/validate_cluster.go:183-221 | Every member of a role is in exactly one of its two lists |
| Validation.NodesPassIff | pkg/validation/validate_cluster.go:174-243 | From empty lists, the node checks pass if and only if every master and plain node reports that it is ready |
| Validation.PresetCountsIff | pkg/validation/validate_cluster.go:180-243 | With counts set beforehand: if and only if, besides, there are exactly as many masters as set and at least as many plain nodes |
| Validation.NoComponentFailuresIff | pkg/validation/validate_cluster.go:143-155 | No component failure if and only if every condition of every component is True |
| Validation.NoPodFailuresIff | pkg/validation/validate_cluster.go:157-172 | No pod failure if and only if every pod that has not succeeded has all containers ready |
| Validation.HealthyIff | pkg/validation/validate_cluster.go:174-258 | The checks of the source together say exactly that the cluster is healthy |
| Validation.ValidateCluster | pkg/validation/validate_cluster.go:96-141 | Success if and only if there are instance groups and a client, the API answers, the node list is not empty, every master and plain node reports Ready, and no component or pod fails |
| RollingUpdateGroup.ValidateClusterWithDuration | pkg/instancegroups/instancegroups.go:179-215 | At least one attempt; success exactly when the last attempt passed; every execution is a stretch of a run of the machine |
| RollingUpdateGroup.CheckFirst | pkg/instancegroups/instancegroups.go:98-111 | The validation before the loop, as a step of the machine |
| RollingUpdateGroup.DrainMember | pkg/instancegroups/instancegroups.go:121-142 | The drain of a member, as a step of the machine |
| RollingUpdateGroup.DeleteMember | pkg/instancegroups/instancegroups.go:144-172 | Deletion and the wait for the cluster to settle, as steps of the machine |
| RollingUpdateGroup.RollingUpdate | pkg/instancegroups/instancegroups.go:73-176 | Every execution for one group is a complete run of the machine that ends with the result returned |
| RollingUpdateRuns.RunEventsAreOwn | pkg/instancegroups/instancegroups.go:73-176 | A run emits only events of its own group, and a validation event passes exactly when what the API answered passes validation |
| RollingUpdateRuns.AttemptsFollowTheWorkList | pkg/instancegroups/instancegroups.go:89-176 | In every run the deletion attempts are a prefix of the work list, and none was refused unless the run failed |
| RollingUpdateRuns.WholeWorkListOnSuccess | pkg/instancegroups/instancegroups.go:89-176 | A run that succeeds attempted the members that need an update, and with force the ready ones after them, each once, in order, without refusal |
| RollingUpdateRuns.RunIsPaced | pkg/instancegroups/instancegroups.go:98-173 | With fail-on-validate, every deletion attempt of a run finds a passed validation since the attempt before |
| RollingUpdateRuns.RunDrainsFirst | pkg/instancegroups/instancegroups.go:127-147 | With fail-on-drain-error, a registered member is deleted only right after its successful drain |
| RollingUpdateRuns.UnguardedRunOnlyDeletes | pkg/instancegroups/instancegroups.go:98-173 | For bastions and in cloud-only mode a run consists of deletions alone |
| RollingUpdateRuns.RunIsCareful | pkg/instancegroups/instancegroups.go:98-173 | Also where failures are ignored, a validation comes before each deletion, and a drain right before that of a registered member |
| RollingUpdateRuns.RunIsAccounted | pkg/instancegroups/instancegroups.go:73-176 | A run that has ended failed if and only if it was misconfigured or its last event is a refused deletion, or a failed drain or validation that is not to be ignored |
| RollingUpdateRuns.NothingToDo | pkg/instancegroups/instancegroups.go:75-96 | Misconfigured or without work, nothing happens at all |
| RollingUpdateRuns.UpdateGroup | pkg/instancegroups/instancegroups.go:73-176 | Said of the loop's own result and events: attempts a prefix of the members that need an update and, with force, the ready ones, all of them on success; the exact reason of a failure; drains and validations before each deletion, or none at all for bastions, cloud-only and without the feature |
| RollingUpdateCluster.Invariant | pkg/instancegroups/rollingupdate.go:60-193 | In every reachable state of every interleaving: each group's log is a run of its machine, recorded results are own results, phases are in order, the walk over masters or nodes has begun exactly the groups it is past, the trace restricted to a group is that group's run, serial groups are in one block |
| RollingUpdateCluster.WalkIsSerial | pkg/instancegroups/rollingupdate.go:121-142 | From the control state of the goroutine that walks over the groups: at most one master or node group is under way |
| RollingUpdateCluster.NeverStuck | pkg/instancegroups/rollingupdate.go:85-193 | In every reachable state that has not returned some action is possible |
| RollingUpdateCluster.PhasesDoNotMix | pkg/instancegroups/rollingupdate.go:85-183 | Everything done to bastions precedes everything done to masters, which precedes everything done to nodes |
| RollingUpdateCluster.SerialGroupsDoNotOverlap | pkg/instancegroups/rollingupdate.go:112-183 | Between two events of one master or node group no other group does anything |
| RollingUpdateCluster.UnknownRoleTouchesNothing | pkg/instancegroups/rollingupdate.go:72-83 | With an unknown role nothing happens to any instance and the update fails |
| RollingUpdateCluster.ReturnedResult | pkg/instancegroups/rollingupdate.go:66-192 | On return the results map holds each group's own result, the update succeeded if and only if every group did; a group that succeeded had exactly its members that need an update, and with force the ready ones, deleted in order; one that failed did a prefix and ended with the event that is the reason |
| RollingUpdateCluster.HealthyBeforeEveryDeletion | pkg/instancegroups/rollingupdate.go:112-183 | With validation on and fail-on-validate, before every deletion of a master or node, across groups and after failures, the cluster passed validation and only drains happened since |
| RollingUpdateCluster.DrainedBeforeEveryDeletion | pkg/instancegroups/rollingupdate.go:112-183 | With fail-on-drain-error, no registered master or node is deleted except right after its successful drain |
| Diff.AppendMiddle | pkg/diff/diff.go:85-172 | The whole lines inside an edit become records of its kind |
| Diff.AppendHead | pkg/diff/diff.go:129-146 | The line that shared text ends first: one Equal record if it begins at a line start of both texts, otherwise the two sides' own lines unless empty |
| Diff.BuildDiffLines | pkg/diff/diff.go:78-173 | The loop over the edits computes the records of the builder's specification |
| DiffRecords.EditRecords | pkg/diff/diff.go:89-158 | The records each kind of edit adds, in terms of the two texts so far |
| DiffRecords.LastRecords | pkg/diff/diff.go:161-170 | The records of the unfinished lines at the end |
| DiffRecords.UnchangedIff | pkg/diff/diff.go:85-172 | No record is a change if and only if every edit that ends a line is shared text that begins at a line start of both texts, and both end in the same unfinished line |
| DiffRecords.EqualTextsAreUnchanged | pkg/diff/diff.go:85-172 | Equal texts given as one edit: every line recorded once, as unchanged |
| DiffRecords.SplitSharedLineIsReported | pkg/diff/diff.go:126-146 | Two shared edits that meet inside a line are reported as a change |
| DiffLaws.RunKeepsLines | pkg/diff/diff.go:85-172 | After every edit sequence, accumulators are the unfinished lines of the two texts, and the records hold their finished lines less the dropped blanks |
| DiffLaws.RecordsProjectToTheTexts | pkg/diff/diff.go:85-172 | The non-blank lines of Equal and Delete records are those of the left text in order, and of Equal and Insert those of the right text |
| DiffLaws.RecordsAreExactIffNothingDropped | pkg/diff/diff.go:85-172 | Blank lines included, the records are the text's lines if and only if no equal edit starts with a newline at a line start of this text inside a line of the other |
| DiffLaws.BlankLineIsDropped | pkg/diff/diff.go:85-172 | An edit sequence that loses a blank line |
| DiffLaws.DifferentTextsShow | pkg/diff/diff.go:85-172 | If the texts differ, some record is an insertion or a deletion |
| DiffLaws.MarkKept | pkg/diff/diff.go:33-44 | A record is marked exactly when a changed record is within the context distance |
| DiffLaws.RenderText | pkg/diff/diff.go:33-71 | Prints every marked record in order, and one line of dots for each maximal run of others |
| DiffLaws.FormatDiff | pkg/diff/diff.go:27-31 | The rendering of the records with two lines of context |
| DiffReport.ReportReadsBack | pkg/diff/diff.go:33-71 | The report on any edits reads back, line by line, as the records near a change with their signs, and one mark for each run in between |
| DiffLaws.DifferentTextsAreReported | pkg/edit/edit.go:52-55 | If the texts differ, the report shows an inserted or deleted line, so it is never empty |
| Systemd.WriteByte | pkg/systemd/escaping.go:41-70 | The escape of one byte, and whether it asks for quotes |
| Systemd.EscapeArg | pkg/systemd/escaping.go:36-77 | The escaped argument, quoted exactly when it holds a space |
| Systemd.PrintedAsItIsIff | pkg/systemd/escaping.go:41-70 | An argument is printed as it is if and only if it has only letters, digits and the 29 listed punctuation marks |
| Systemd.EscapeCommand | pkg/systemd/escaping.go:28-34 | The escaped arguments separated by spaces |
| Systemd.ReadArg | pkg/systemd/escaping.go:36-77 | A printed non-empty argument reads back as one word, itself or a separator if it is a lone semicolon, whatever follows |
| Systemd.CommandReadsBack | pkg/systemd/escaping.go:28-77 | For every argument vector, the command line reads back as the words of its non-empty arguments |
| Systemd.RoundTripIffNoneEmpty | pkg/systemd/escaping.go:28-77 | The line reads back as one word per argument if and only if no argument is empty |
| Systemd.EscapingIsInjective | pkg/systemd/escaping.go:28-77 | Different vectors of non-empty arguments print differently |
| SystemdMeaning.MeansItsArgumentsIff | pkg/systemd/escaping.go:28-77 | Whatever variables are set and specifiers defined, systemd takes the line as the argument vector if and only if no argument is empty, a lone semicolon, a variable, or holds a percent sign before its end, two dollar signs or a name in braces after a dollar sign |
| SystemdMeaning.EmptyArgumentIsLost | pkg/systemd/escaping.go:36-77 | A vector whose empty argument is lost |
| SystemdMeaning.DollarsAreHalved | pkg/systemd/escaping.go:50-52 | A vector of which systemd makes another, since dollar signs are printed bare |
| SemVer.CompareVersions | vendor/github.com/blang/semver/semver.go:113-162 | The comparison with its loop decides the precedence of section 11 of Semantic Versioning 2.0.0, said without it |
| SemVer.PrecedenceIff | vendor/github.com/blang/semver/semver.go:113-162 | Smaller if and only if major, minor, patch, then the prerelease rules say so |
| SemVer.CompareIsOrdered | vendor/github.com/blang/semver/semver.go:113-162 | Precedence is antisymmetric and total, and equal only for equal versions |
| SemVer.CompareIsTransitive | vendor/github.com/blang/semver/semver.go:113-162 | Precedence is transitive |
| SemVer.SpecificationChain | vendor/github.com/blang/semver/semver.go:113-162 | The example chain of section 11 of Semantic Versioning 2.0.0 is in order |
| SemVer.IdentifierIsOrdered | vendor/github.com/blang/semver/semver.go:367-389 | Prerelease identifiers are totally ordered |
| Channels.ReplacesIff | channels/pkg/channels/channel_version.go:100-135 | A version replaces another if and only if it outranks it (no version, unparseable, parsed by precedence) or both parse to the same version with different ids |
| Channels.ReplacesOutright | channels/pkg/channels/channel_version.go:100-135 | The same in terms of what the version texts parse to and of the ids |
| Channels.OutranksIff | channels/pkg/channels/channel_version.go:100-135 | The order of ranks: nothing, no version, unparseable, then by precedence |
| Channels.ReplacesIsIrreflexive | channels/pkg/channels/channel_version.go:100-135 | No version replaces itself |
| Channels.RankIsOrdered | channels/pkg/channels/channel_version.go:100-135 | The ranks behind replacement are totally ordered |
| Channels.RankIsTransitive | channels/pkg/channels/channel_version.go:100-135 | The order of ranks is transitive |
| Channels.WrapInAddons | channels/pkg/channels/addons.go:85-103 | One addon per entry, in order, named by the entry or else by the channel |
| Channels.GetCurrent | channels/pkg/channels/addons.go:63-83 | The loop computes the menu that CurrentIsBest is about |
| Channels.NextEntry | channels/pkg/channels/addons.go:70-80 | One more entry changes the menu only under its own name, only if its version range is empty or holds, and exactly when it outranks the entry there or has its parsed rank and another id |
| Channels.CurrentIsBest | channels/pkg/channels/addons.go:63-83 | The menu offers exactly the names with a matching entry, each at the highest rank, and at a parsed rank with the id that came last |
| Channels.CurrentIsFiled | channels/pkg/channels/addons.go:69-80 | Every entry of the menu stands under its own name |
| Channels.MergeAddons | channels/pkg/channels/addon.go:55-66 | In whatever order the other menu is visited, the merged menu is the same |
| Channels.MergeKeepsTheLower | channels/pkg/channels/addon.go:55-66 | Of two entries the merge keeps one, and no higher one |
| Channels.MergeTies | channels/pkg/channels/addon.go:55-66 | Between two entries of one rank the newcomer is taken if and only if both parse and the ids differ |
| Channels.MergeAllIsLowest | channels/pkg/channels/addon.go:55-66 | Any number of merged menus: the names are the union, each at the lowest rank offered |
| Channels.MergeAllIsFiled | channels/pkg/channels/addon.go:55-66 | Merging keeps every entry under its own name |
| Channels.MergeIsLatestIff | channels/pkg/channels/addon.go:55-66 | The merged menu has the latest version offered if and only if all offers have the same rank |
| Channels.MergeCanDropTheLatest | channels/pkg/channels/addon.go:55-66 | Two channels whose merge drops the newer version |
| ChannelsApply.AnnotationNamesDiffer | channels/pkg/channels/channel_version.go:96-98 | Addons of different names are recorded under different annotations |
| ChannelsApply.InstalledIff | channels/pkg/channels/channel_version.go:137-149 | What is installed is the annotation addons.k8s.io/ and the name in the addon's namespace, or kube-system; it cannot be told if and only if the namespace is missing or the annotation malformed |
| ChannelsApply.NeedsUpdateIff | channels/pkg/channels/addon.go:88-107 | An update is needed if and only if nothing is recorded, or a lower rank, or the same parsed rank with another id |
| ChannelsApply.SettledIff | channels/pkg/channels/addon.go:88-107 | No update is needed if and only if the addon is recorded at its own rank with its own id, or at a higher one |
| ChannelsApply.InstallRecords | channels/pkg/channels/addon.go:68-144 | What an installation records: version, channel and id of the entry |
| ChannelsApply.NeverDowngrades | channels/pkg/channels/addon.go:88-144 | Over any sequence of installations that were needed, no installed version loses rank |
| ChannelsApply.RunsNeverDowngrade | channels/pkg/cmd/apply_channel.go:137-205 | The same over any sequence of runs with any menus |
| ChannelsApply.InstallRaises | channels/pkg/channels/addon.go:109-144 | One needed installation lowers no rank in any namespace |
| ChannelsApply.InstallSettles | channels/pkg/channels/addon.go:88-144 | An addon that was just installed needs no update |
| ChannelsApply.InstallElsewhere | channels/pkg/channels/channel_version.go:158-183 | Installing one addon changes nothing for addons of other names |
| ChannelsApply.Cluster.GetInstalledVersion | channels/pkg/channels/channel_version.go:137-149 | An error exactly when the call fails, the namespace is missing or the annotation is unreadable; otherwise the recorded version, or none without an annotation |
| ChannelsApply.Cluster.SetInstalledVersion | channels/pkg/channels/channel_version.go:158-183 | Succeeds exactly when the namespace exists and both calls succeed; the new state is exact also when the patch took effect and its answer was lost |
| ChannelsApply.Cluster.GetRequiredUpdates | channels/pkg/channels/addon.go:88-107 | Succeeds exactly when the call does and the installed version can be read; asks for an update exactly when nothing is installed or the addon replaces what is |
| ChannelsApply.Cluster.EnsureUpdated | channels/pkg/channels/addon.go:109-144 | Succeeds exactly when no call goes wrong, the installed version can be read, and an addon that needs its update names a manifest; changes the cluster by at most the one needed installation and leaves the addon settled on success |
| ChannelsApply.Cluster.FindUpdates | channels/pkg/cmd/apply_channel.go:137-149 | In any order of the menu: succeeds exactly when no call goes wrong and every version can be read; finds exactly addons that need an update, and the others are settled |
| ChannelsApply.Cluster.RunApply | channels/pkg/cmd/apply_channel.go:137-205 | Succeeds exactly when no call goes wrong, every version can be read and, with --yes, every addon to update names a manifest; only addons of the menu that need it are installed; after a success with --yes every addon is recorded at its own rank or a higher one; a run that finds them so installs nothing |
| ChannelsApply.Cluster.Update | channels/pkg/cmd/apply_channel.go:192-205 | The loop that installs succeeds exactly when no call goes wrong and every addon to update names a manifest, whatever the order |
| ChannelsApply.BuildMenu | channels/pkg/cmd/apply_channel.go:78-135 | The menu has exactly the names that some channel offers, each with the best entry of one channel, and no channel that offers the name has a lower best one |
| ChannelsApply.Cluster.ApplyChannels | channels/pkg/cmd/apply_channel.go:78-205 | The two together: menu entries are the least of the channels' best ones, success is decided as in RunApply, and the run is a history of needed installations from that menu |
| Manifest.AssetBuilder.RemapImage | pkg/assets/builder.go:111-147 | The image to run, after override and mirror, and exactly one asset recorded |
| Manifest.RemappedIs | pkg/assets/builder.go:111-147 | The image to run and the asset, character by character: override only for the DNS controller, and under a mirror without the standard prefix and with dashes for slashes |
| Manifest.MirrorCollidesIff | pkg/assets/builder.go:132-142 | Two images share a place under the mirror if and only if, without the prefix, only slashes and dashes differ |
| Manifest.VisitString | pkg/kubemanifest/images.go:44-66 | A string is mapped, and an asset recorded, exactly when it is a field image three levels below containers |
| Manifest.Visit | pkg/kubemanifest/visitor.go:50-109 | Succeeds exactly when no leaf is of an unknown kind; leaves the rewritten tree at the same addresses, one asset per mapped image, and touches nothing outside the tree |
| Manifest.VisitMap | pkg/kubemanifest/visitor.go:76-88 | The same for a map |
| Manifest.VisitEntries | pkg/kubemanifest/visitor.go:78-88 | The loop over a map, in whatever order its keys come: all children rewritten, one asset per mapped image |
| Manifest.VisitEntry | pkg/kubemanifest/visitor.go:76-88 | Visiting one key rewrites that child and leaves the other children as they were |
| Manifest.VisitSlice | pkg/kubemanifest/visitor.go:90-102 | The same for a slice |
| Manifest.VisitItems | pkg/kubemanifest/visitor.go:92-102 | The loop over a slice, element by element |
| Manifest.VisitItem | pkg/kubemanifest/visitor.go:90-102 | Visiting one element rewrites it and leaves the others as they were |
| Manifest.RemapImages | pkg/kubemanifest/images.go:28-37 | A whole manifest becomes the pure rewriting of its tree, for every iteration order |
| Manifest.RemapTouchesOnlyImages | pkg/kubemanifest/images.go:44-66 | At every route through the tree: the leaf is as it was, or mapped if it is an image string, and there are leaves nowhere else |
| Manifest.IsImageIff | pkg/kubemanifest/images.go:44-54 | An image path is any path that ends with containers, one name, and image |
| Manifest.HandledIff | pkg/kubemanifest/visitor.go:50-109 | The visitor refuses a manifest if and only if some value of it is null |
| Manifest.RemapKeepsFootprint | pkg/kubemanifest/visitor.go:50-109 | The rewritten tree occupies the same addresses |
| Manifest.ChildImagesAny | pkg/kubemanifest/visitor.go:76-88 | The assets of a map do not depend on the order of its keys |
| MasterLayout.BuildMasters | cmd/kops/create_cluster.go:623-648 | Master i stands in zone i mod n and is named after it, with 1 + i div n behind a dash when there are more masters than zones |
| MasterLayout.PlaceIsDivMod | cmd/kops/create_cluster.go:624-627 | Zone and round are remainder and quotient |
| MasterLayout.MasterNamesAreDistinctIff | cmd/kops/create_cluster.go:623-634 | For every count, master names are pairwise distinct if and only if the zones that get a master are, even where zone names look like numbered ones |
| MasterLayout.EveryZoneHoldsItsShare | cmd/kops/create_cluster.go:623-648 | Of the masters built, each of distinct zones holds the floor or the ceiling of its share, the first zones the ceiling |
| MasterLayout.EveryZoneGetsItsShare | cmd/kops/create_cluster.go:623-624 | The same of the indices counted round the zones |
| MasterLayout.TrimCommonPrefix | cmd/kops/create_cluster.go:1213-1235 | Terminates having taken one common prefix off every name in place, and no more can be taken |
| MasterLayout.TrimmedIsDistinctIff | cmd/kops/create_cluster.go:1213-1235 | Names are distinct after the trimming if and only if they were before |
| MasterLayout.TrimmedToNothingIff | cmd/kops/create_cluster.go:1213-1235 | A name is trimmed away if and only if all names start with it and it is shorter than the first |
| MasterLayout.NamelessMember | cmd/kops/create_cluster.go:1213-1235 | Two zones for which a member is left without a name |
| MasterLayout.BuildMembers | cmd/kops/create_cluster.go:672-698 | One member per master, named by the trimmed name, tied to the group of the same index |
| MasterLayout.LayOut | cmd/kops/create_cluster.go:623-698 | From zones to etcd: masters placed and named round-robin, each zone with its share, one member per group, matched one to one; group names and member names are distinct if and only if the zones in use are |
| EditComments.StripComments | cmd/kops/edit_cluster.go:306-319 | The loop drops exactly the comment lines and keeps the others with their line ends |
| EditComments.IsCommentIff | cmd/kops/edit_cluster.go:310-312 | A comment is a line with nothing but white space before a '#' |
| EditComments.StrippedLines | cmd/kops/edit_cluster.go:306-319 | The lines of the stripped text are the other lines, as they are and in order, and the line break before a last comment |
| EditComments.StripIsIdempotent | cmd/kops/edit_cluster.go:306-319 | Stripping twice is stripping once |
| EditComments.StripFront | cmd/kops/edit_cluster.go:306-319 | What stands before a line break and what stands after it are stripped separately |
| EditComments.NothingLeftIff | cmd/kops/edit_cluster.go:306-319 | Nothing of a text is left if and only if all its lines are comments |
| EditComments.HeaderHoldsErrors | cmd/kops/edit_cluster.go:291-294 | Every error is written as a comment with an empty one after it |
| EditComments.HeaderHoldsFields | cmd/kops/edit_cluster.go:295-301 | Every unknown field is written as a comment between a heading and an empty comment |
| EditComments.HeaderIsAbsorbedIff | cmd/kops/edit_cluster.go:285-319 | In front of any text the written header is stripped without a trace if and only if every further line of each message is a comment |
| EditComments.ReportLinesAreQuiet | cmd/kops/edit_cluster.go:197-207 | An extra-fields report split into lines always meets that condition |
| EditScan.HasLines | cmd/kops/edit_cluster.go:324-337 | An error if and only if a line that exceeds the scanner's buffer comes before any line that says something; otherwise true if and only if the stripped text has a character that is not white space |
| EditScan.AsciiTooLongIff | cmd/kops/edit_cluster.go:325-327 | An ASCII line exceeds the scanner's buffer from 64 KB on |
| EditScan.PartsSayIff | cmd/kops/edit_cluster.go:306-337 | Some line is neither blank nor a comment if and only if the stripped text is not blank |
| EditLoop.EditHeader.AddError | cmd/kops/edit_cluster.go:272-274 | Appends the message |
| EditLoop.EditHeader.AddExtraFields | cmd/kops/edit_cluster.go:276-278 | Appends the line |
| EditLoop.EditHeader.Flush | cmd/kops/edit_cluster.go:280-283 | Leaves no message |
| EditLoop.EditHeader.WriteTo | cmd/kops/edit_cluster.go:285-303 | The header text, and for every body whether stripping absorbs it |
| EditLoop.EveryRunChecks | cmd/kops/edit_cluster.go:129-256 | In every run, a text that is written to the cluster or kept for another try differs from the original and is not empty, comments aside |
| EditLoop.SavedOnlyIfAccepted | cmd/kops/edit_cluster.go:163-256 | A run ends with a text saved only in a round that left that text and accepted it |
| EditLoop.GoesOnOnlyIfRefused | cmd/kops/edit_cluster.go:175-235 | A run goes on only after a refusal, and the next header holds exactly its messages |
| EditLoop.EndsForAReason | cmd/kops/edit_cluster.go:140-176 | Why a run ends otherwise: the editor, the scanner or the parser failed, or the text is the rejected one, the original or blank, comments aside |
| EditLoop.BufferHoldsTheText | cmd/kops/edit_cluster.go:129-138 | Behind the header stands the text as it was, or the rejected one without any comment |
| EditLoop.UntouchedFirstRound | cmd/kops/edit_cluster.go:129-161 | An untouched first buffer ends the loop without change |
| EditLoop.UntouchedIsSeenIff | cmd/kops/edit_cluster.go:129-151 | In an error round, the cancel check recognises the untouched buffer if and only if the error messages are quiet |
| EditLoop.ReachedEndsIff | cmd/kops/edit_cluster.go:129-171 | In an error round, the untouched buffer ends the loop before anything is parsed if and only if the messages are quiet, or happen to restore the original, or the buffer has a line the scanner cannot read |
| EditLoop.UntouchedEndsIff | cmd/kops/edit_cluster.go:129-171 | The same wherever any run stands; in the first round it always ends |
| EditLoop.UntouchedReportEnds | cmd/kops/edit_cluster.go:147-207 | After an extra-fields report the untouched buffer always ends the loop |
| EditLoop.LoudMessageGoesOn | cmd/kops/edit_cluster.go:129-235 | A message of two lines with which the loop goes on over an untouched buffer |
| EditLoop.Report | cmd/kops/edit_cluster.go:175-235 | Each verdict leads to the end it stands for, or to a header holding exactly its messages |
| EditLoop.Launch | cmd/kops/edit_cluster.go:129-235 | One round: what the editor is given, and the outcome of the machine |
| EditLoop.Edit | cmd/kops/edit_cluster.go:115-256 | Every execution of the loop is a run of the machine with this editor and these verdicts |
| AuthFile.ReadsBackIffClean | federation/auth_file.go:35-89 | An encoded file parses to the same lines if and only if no field has a comma or newline, no secret starts and no role ends with white space |
| AuthFile.ParsedIsClean | federation/auth_file.go:35-49 | Whatever the file, the parsed lines meet that condition |
| AuthFile.RewriteSettles | federation/auth_file.go:35-76 | Encoding what was parsed parses to the same lines again |
| AuthFile.ParseIs | federation/auth_file.go:35-49 | A file parses if and only if each line that is not blank has three fields; the parsed lines are those, trimmed and in order, as secret, user and role |
| AuthFile.EncodeIs | federation/auth_file.go:69-76 | Every line is printed as secret, user and role between commas, and a newline |
| AuthFile.LeadingSpaceIsLost | federation/auth_file.go:37-41 | A line that does not survive |
| AuthFile.FindIsFirst | federation/auth_file.go:51-58 | The user's first line; none exactly when the user has none |
| AuthFile.FindAppend | federation/auth_file.go:60-67 | Appending lines never hides a user that was there |
| AuthFile.File.FindUser | federation/auth_file.go:51-58 | The search loop finds the line FindIsFirst describes |
| AuthFile.File.Add | federation/auth_file.go:60-67 | Appends the line if and only if the user has none yet |
| AuthFile.File.EncodeFile | federation/auth_file.go:69-76 | The text, and exactly when it reads back |
| AuthFile.ParseAuthFile | federation/auth_file.go:35-49 | Fails exactly on a non-blank line without three fields; otherwise a new file with the clean lines in order |
| Federation.FindFile | federation/federation_configuration.go:119-153 | The parsed file of the secret, empty when there is none |
| Federation.EnsureAdmin | federation/federation_configuration.go:188-207 | An admin that is there keeps its line and its secret is returned; otherwise the drawn secret is returned and stored in a new last line, or nothing happens without one |
| Federation.Secret.Fill | federation/federation_configuration.go:231-259 | Sets the three keys and the two files and nothing else |
| Federation.CompleteFiles | federation/federation_configuration.go:177-229 | Fails exactly when a file does not parse or a secret that is needed cannot be drawn; otherwise the texts of both files and the password of the specification |
| Federation.MutateSecret | federation/federation_configuration.go:177-262 | The secret's data and the password are those of the specification; on failure the secret is unchanged |
| Federation.GeneratedIsClean | upup/pkg/fi/secrets.go:59-74 | Generated secrets survive the file |
| Federation.CompletedReadsBack | federation/federation_configuration.go:188-259 | A completed file reads back, keeps all lines in front, and is unchanged if it had an admin |
| Federation.ConfiguredFiles | federation/federation_configuration.go:177-262 | After a successful run both files hold an admin, and the password handed out is the one on file |
| Federation.ConfiguredFailsIff | federation/federation_configuration.go:177-229 | A run fails if and only if a file does not parse, or one without an admin needs a secret that cannot be drawn |
| Federation.DrawnIsStored | federation/federation_configuration.go:188-229 | Without an admin on file, the drawn password or token is the one stored afterwards, and the password is handed out; with one, it stays and is handed out |
| Federation.ConfiguredKeys | federation/federation_configuration.go:231-259 | The certificates and the key are stored under their names, and unknown entries stay |
| Federation.RunsKeepCredentials | federation/federation_configuration.go:177-262 | Over any number of runs, failed ones included, no line is dropped and an admin password or token that is there never changes |
| Federation.SecondRunChangesNothing | federation/federation_configuration.go:177-262 | A second run with the same keys yields the same bytes and the same password, whatever it might draw |
| Federation.CredentialsAreConstant | federation/federation_configuration.go:177-262 | After a first success, over any number of runs with any keys and any draws, the bytes of both files and the password stay the same, and every run succeeds |
| Firewall.AddPort | pkg/model/firewall.go:273-281 | One open port extends the last range or starts a new one; the ranges stay separated and cover that port more |
| Firewall.CompressPorts | pkg/model/firewall.go:270-282 | For every blocked map and bound: ranges sorted, disjoint, not adjacent, covering exactly the open ports; only the first can be empty, and is exactly when port 1 is not open |
| Firewall.CompressedIsUnique | pkg/model/firewall.go:270-282 | There is only one such list of ranges for a set of ports |
| Firewall.BlockedPorts | pkg/model/firewall.go:226-252 | 2380, 2381 and 4002 always, and 4001 unless Calico or Romana is set |
| Firewall.NodeToMasterPorts | pkg/model/firewall.go:226-282 | Every networking configuration gets 1 to 65535 without the blocked ports, as exactly three ranges |

## Left out

- Cobra commands, flags, tables, completion and help text: user interface.
- AWS, GCE, vSphere, Kubernetes and kubectl clients: their answers are arbitrary choices or parameters of the model.
- RollingUpdateGroup.Validate: the answers of the API server are arbitrary; that the outcome is validation's verdict on them is in RollingUpdateRuns.RunEventsAreOwn.
- RollingUpdateGroup.DrainNode: how kubectl drains a node is left out; the outcome is arbitrary.
- RollingUpdateGroup.DeleteInstance: the cloud call is left out; the outcome is arbitrary.
- RollingUpdateGroup.ValidateClusterWithDuration: real time is left out; the number of ticks before the timer fires is arbitrary but finite, so no bound on the wait is claimed.
- RollingUpdateGroup.RollingUpdate: sleeps are left out, and appending the ready members is by value (no aliasing of the group's list).
- RollingUpdateCluster.Behaviour: goroutines interleave at whole steps of a group's machine; panics in a goroutine are left out.
- Validation.Ready: the role of a node is an input; how labels determine it is left out, and so are the placeholder DNS checks that come before.
- JsonStreamWriter.JSONStreamWriter.WriteToken: float64 and json.Number are one constructor that carries the printed text; what is left in the deferred text after a failed write is not stated.
- Diff.BuildDiffLines: the diffmatchpatch algorithm is left out; the edit sequence is the input and the two texts are its concatenations.
- Systemd.Read: the \u and \U escapes are left out of the reader, and NUL bytes are read like any other.
- SystemdMeaning.Meaning: the special prefixes of the executable (@ - : + !) and the rule that it is an absolute path are left out; a specifier that is not defined stays as it is.
- Channels.GetCurrent: parsing of versions and version ranges are function parameters; the rank proofs hold for every such function.
- ChannelsApply.Cluster.SetInstalledVersion: the JSON codec of annotations is taken as faithful, and runs are sequential: a concurrent writer between check and update is left out.
- ChannelsApply.Cluster.EnsureUpdated: fetching the manifest and running kubectl are one call, and what the manifest does to namespaces and their annotations is left out.
- Manifest.Visit: maps and slices are cells of an explicit store instead of Dafny objects, and a call of the mutator is a returned replacement; trees that share a cell are left out, since a YAML decoder builds none.
- MasterLayout.BuildMasters: subnets, machine types and the GCE zone field are left out; master counts are at least zero instead of 32-bit.
- EditLoop.Edit: temporary files are left out; parsing, defaulting, validation and the final write are one verdict per saved text, and the number of rounds is bounded by a parameter.
- AuthFile.ParseAuthFile: text is a sequence of characters; bytes that are not UTF-8 are left out.
- Federation.MutateSecret: certificate encoding errors and the API calls around the closure are left out.
- Firewall.NodeToMasterPorts: UDP, IPIP protocols and the security group rules made from the ranges are left out.
- Flag building by reflection, PKI, SSH fingerprints, the DNS controller, the network model builder, the cloud mocks and the resource lister: easier properties, or libraries.
