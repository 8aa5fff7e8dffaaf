# prek, modelled and proved in Dafny

prek installs and runs Git hooks. This project models the parts of it where the behaviour is hardest to see from
the code, and proves what those parts promise. `dafny verify dfyconfig.toml` checks everything.

| files | what they model |
|---|---|
| `Sgr`, `Transcript`, `Layout`, `Fidelity`, `Terminal`, `Reader` | the output sanitizer: a transcript built in place from print, newline, return, tab, EL and SGR events, with a roll-back point, a pending return and a lazily restored style; and a terminal that reads the result |
| `Partitions` | the byte budget of a command line and the greedy cutting of filenames into batches |
| `Buffered`, `HookOutputs` | a bounded window of concurrent items whose results are folded in input order |
| `HookSpecs` | how a hook's specification is merged and refined by its metadata files, and its environment requirement at run time and for the collector |
| `Sweeping`, `CacheGc`, `GcSafety`, `GcSurvival`, `GcRepeat`, `GcRun`, `GcExamples` | the mark-and-sweep cache collector: its specification, what it never removes, exactly what it leaves, running it twice, dry runs, the loops themselves, and stores on which it removes too much |
| `CloneProtocol`, `CloneOutcomes` | parallel cloning without prompts, then one at a time with prompts, a marker written last; when a run fails and what is retried |
| `PathOrder`, `Workspace`, `HookAssembly` | discovery by a parallel walk, deterministic order, repository deduplication, hook numbering |
| `Schema`, `SchemaMeaning`, `SchemaNull` | removing `null` from a JSON schema, what the rewritten schema accepts, and whether it rejects `null` |
| `Paths` | lexical path cleaning and relative paths |
| `PushBase`, `PushInput` | reading a pre-push hook's input and choosing the commit to diff against |
| `CiMatrix` | spreading language tests over CI jobs |
| `Bits`, `TagSet`, `Stages` | tag and stage sets packed into words, and their iterators |
| `CmdArgs` | hidden and file arguments of a command, kept as index ranges and a boundary |

Where the program changes things step by step, the model is a method with a loop or a class updated in place, proved
equal to a function, and the promises are lemmas about that function. Where many orders are possible (completion of
tasks, directory listings, visits of a walk) the lemmas quantify over every order.

## Where the code and its promise differ

- A style can be lost (`Fidelity.StaleStyleExample`). If an SGR arrives while a return and a style restoration are
  both pending and a newline follows, the line-start style goes stale. `GuardIsExact` gives the exact condition on a
  newline, `NoBlindSgrIsFaithful` the plain condition on SGR events.
- A style counts as reset by every parameter equal to `[0]`, so also by the `0` of `38;5;0`; the model follows the
  code.
- The budget computation subtracts unsigned numbers. `PlatformMaxCliLength` and `SplitBudget` state exactly when
  that underflows; the fallback limit of 4096 always does (`Partitions.FallbackUnderflows`).
- A used tool bucket loses every visible version directory in which no environment in use has its toolchain
  (`GcSafety.VersionSurvivesIff`), though the comment at `crates/prek/src/cli/cache_gc.rs:428-430` says that all are
  kept when none is recognised. `GcExamples.UsedBucketLosesVersions` is such a store.
- The collector computes a hook's requirement without its metadata files. A PEP 723 script gives the hook its
  dependencies only at run time, so the environment a run would reuse is removed (`GcExamples.ScriptEnvIsSwept`);
  `HookSpecs.SweepRequirementIsRunRequirement` and `HookSpecs.ReusableMeetsPlainIff` say exactly when the two agree.
- The collector marks an environment under the name its marker records, not the name it was found under. So a needed
  environment is kept, and a second collection removes nothing, exactly under the conditions of `EnvSurvivesIff` and
  `SecondRunRemovesNothingIffAnchored`; markers written by installation meet both, the store of
  `GcExamples.MovedEnvIsSwept` neither.
- Removing `null` from a schema does not always keep its meaning: a collapsed wrapper loses its other keywords, and
  an `allOf` that also has other branches stops rejecting everything when its null-only branch goes. There is an
  example of each; `SchemaMeaning.StripIsExact` is the exact condition on one node, `KeptInEveryWorldIff` one that can
  be read off the schema.
- Removing `null` does not always remove it: a branch left by a collapse is not stripped again
  (`SchemaNull.NullAcceptedExample`). `NullRejected` and `NullRejectedIff` say when it is gone.
- A relative path does not always lead back (`Paths.LeadsElsewhereExample`): `Paths.RelativeRoundTripIff` gives the
  exact condition.

## Model

| member | source | states |
|---|---|---|
| `Terminal.SanitizeOutput` | crates/prek/src/terminal.rs:130-138 | The sanitized string is the rendering of the transcript the event machine reaches. |
| `Terminal.TerminalOutput.constructor` | crates/prek/src/terminal.rs:140-149 | A fresh output stands for the machine's initial state. |
| `Terminal.TerminalOutput.ClearCurrentLine` | crates/prek/src/terminal.rs:166-170 | Truncates to the line start and owes a style restoration exactly when the active style is not the line-start style; styles are compared as strings. |
| `Terminal.TerminalOutput.PrepareForText` | crates/prek/src/terminal.rs:153-164 | A pending return clears the line first; then a restoration that is owed writes a reset and the active style. |
| `Terminal.TerminalOutput.PushNewline` | crates/prek/src/terminal.rs:173-180 | Commits the line: the line start is the end of the text, and the line-start style is taken over unless a restoration is owed. |
| `Terminal.TerminalOutput.PushSgrSequence` | crates/prek/src/terminal.rs:183-208 | Appends the canonical sequence and moves the active style by one step of the style semantics; an empty list changes no style. |
| `Terminal.LastReset` | crates/prek/src/terminal.rs:193-198 | The loop finds one past the last parameter equal to `[0]`, with no reset after it. |
| `Terminal.UpdatedStyle` | crates/prek/src/terminal.rs:200-207 | Only what follows the last reset stays in the active style text. |
| `Terminal.TerminalOutput.EraseInLine` | crates/prek/src/terminal.rs:211-223 | EL erases the buffered line after a return or for modes 1 and 2, and is ignored otherwise. |
| `Terminal.TerminalOutput.Write` | crates/prek/src/terminal.rs:228-231 | Text is written after the line has been prepared for it. |
| `Terminal.TerminalOutput.Handle` | crates/prek/src/terminal.rs:226-258 | Every event moves the string state by exactly one step of the machine; other controls and other CSI actions change nothing. |
| `Terminal.CommittedTextForever` | crates/prek/src/terminal.rs:167-180 | The rendered text before the line start is a prefix of every later transcript. |
| `Terminal.RenderInjective` | crates/prek/src/terminal.rs:183-208 | A transcript string stands for one list of characters and sequences only, when no character is an escape and no sequence is empty. |
| `Terminal.SameStringSameView` | crates/prek/src/terminal.rs:130-138 | Two runs whose sanitized strings are equal show the same characters in the same styles: what is proved of tokens holds of the string. |
| `Reader.DigitsReadBack` | crates/prek/src/terminal.rs:273-273 | The digits written for a number denote it, read as a decimal numeral. |
| `Reader.NoLeadingZero` | crates/prek/src/terminal.rs:273-273 | No number but zero is written with a leading zero. |
| `Reader.SequenceReadBack` | crates/prek/src/terminal.rs:261-281 | A terminal that reads an encoded sequence character by character finds exactly its parameters and subparameters. |
| `Reader.TextReadBack` | crates/prek/src/terminal.rs:153-208 | Read from left to right, the transcript string gives exactly the characters and sequences of the transcript, and leaves nothing unfinished. |
| `Reader.TerminalShowsInput` | crates/prek/src/terminal.rs:130-258 | If no newline meets a stale line-start style, a terminal that reads the sanitized string shows exactly the characters the line editor left, each in the style it had in the input. |
| `Terminal.PushedRepresents` | crates/prek/src/terminal.rs:188-207 | Appending an encoded sequence keeps string fields and machine state in agreement. |
| `Sgr.SgrSequence` | crates/prek/src/terminal.rs:261-281 | Nothing for an empty list, otherwise the canonical text with `;` between parameters and `:` between subparameters. |
| `Sgr.EncodeAllInjective` | crates/prek/src/terminal.rs:169-169 | Comparing styles as strings is comparing lists of sequences: equal texts come from equal lists only. |
| `Sgr.BodyInjective` | crates/prek/src/terminal.rs:261-281 | The canonical text of a parameter list determines the list. |
| `Transcript.NextActiveStyle` | crates/prek/src/terminal.rs:193-207 | The list kept as active style, replayed from nothing, is the style the input reached: everything since the last `[0]`. |
| `Transcript.ReplayToks` | crates/prek/src/terminal.rs:159-163 | Replaying the stored sequences adds up to the stored style. |
| `Layout.StepLayout` | crates/prek/src/terminal.rs:226-258 | One event keeps the transcript, its SGR erased, equal to the line editor's text, before and after the line start separately. |
| `Layout.TranscriptIsLineEditor` | crates/prek/src/terminal.rs:153-258 | For every run, the transcript with SGR erased is what a plain line editor shows: return then text overwrites, EL clears, newline commits. |
| `Layout.StepKeepsCommitted` | crates/prek/src/terminal.rs:167-180 | No event lowers the line start or alters the text before it. |
| `Layout.CommittedForever` | crates/prek/src/terminal.rs:167-180 | Text before the line start is never altered again, however the run continues. |
| `Layout.LineStartAfterLastNewline` | crates/prek/src/terminal.rs:173-176 | The line start is just after the last newline of the transcript, or zero. |
| `Fidelity.GuardedRunIsFaithful` | crates/prek/src/terminal.rs:153-208 | If no newline meets a stale line-start style, every character left is shown, when the transcript's own SGR is replayed, in the style it had in the input. |
| `Fidelity.NoBlindSgrIsFaithful` | crates/prek/src/terminal.rs:153-208 | The same for every run that handles no SGR while a return and a restoration are both pending. |
| `Fidelity.NoBlindSgrIsGuarded` | crates/prek/src/terminal.rs:159-180 | Without such an SGR a restoration is only ever owed to an empty line, so every newline meets its guard. |
| `Fidelity.GuardIsExact` | crates/prek/src/terminal.rs:173-180 | After a guarded run, a newline keeps all continuations without newlines faithful if and only if it meets the guard. |
| `Fidelity.StaleNewline` | crates/prek/src/terminal.rs:173-180 | A newline that misses the guard is followed by a continuation whose last character is shown in a wrong style. |
| `Fidelity.StaleStyleExample` | crates/prek/src/terminal.rs:173-208 | Concrete input: SGR 31, `old`, EL 2, CR, SGR 1, LF and a reset, then CR and a character that is left bold. |
| `Fidelity.BlindRunState` | crates/prek/src/terminal.rs:153-208 | The state that input reaches: an SGR buffered behind a pending return, with the restoration still owed. |
| `Partitions.PlatformMaxCliLength` | crates/prek/src/run.rs:109-123 | The Unix limit, clamped to 4096 and one mebibyte; the unsigned subtraction underflows exactly when the system value is below page size plus headroom. |
| `Partitions.FallbackUnderflows` | crates/prek/src/run.rs:85-123 | With the fallback of 4096 the subtraction underflows exactly for page sizes above 2048, so for every page size the program uses. |
| `Partitions.EnvSizeIsChildEnv` | crates/prek/src/run.rs:125-144 | The size computed with overrides is the size of the environment the child gets. |
| `Partitions.ChildEnvHas` | crates/prek/src/run.rs:125-144 | The child sees all overrides, and of what is inherited what no override names. |
| `Partitions.ExecSizeIsLayout` | crates/prek/src/run.rs:66-82 | The size counted for a command line is that of its strings and variables, each ended by a zero byte, and of two pointer arrays ended by a null pointer. |
| `Partitions.MaxPerBatchIs` | crates/prek/src/run.rs:153-156 | A batch holds the hook's own limit of files, or the least number, but at least four, that lets `concurrency` batches take all. |
| `Partitions.SplitBudget` | crates/prek/src/run.rs:147-194 | The budget is what the platform limit leaves after entry, arguments, environment and NULL slots, with that number of files; it underflows exactly when the environment with its NULL slot exceeds the limit and fails exactly when the fixed part fills it. |
| `Partitions.CommandsStayWithinLimit` | crates/prek/src/run.rs:109-194 | Every command line built from a split, with its environment, stays within the platform limit. |
| `Partitions.ScanBatch` | crates/prek/src/run.rs:211-224 | The scan stops at the longest batch that respects both limits. |
| `Partitions.GreedyEndIsLongest` | crates/prek/src/run.rs:214-224 | A batch from a position fits exactly up to where the scan ends. |
| `Partitions.StuckIffTooLong` | crates/prek/src/run.rs:226-235 | The scan takes nothing exactly when the one filename exceeds the budget. |
| `Partitions.FullBatchIffFits` | crates/prek/src/run.rs:214-224 | A batch is as long as the count allows if and only if so many files fit the byte budget. |
| `Partitions.PartitionIter.Next` | crates/prek/src/run.rs:197-239 | Yields the next greedy batch and leaves the rest to come; panics, ends or moves on exactly when the specification does. |
| `Partitions.Drain` | crates/prek/src/run.rs:283-286 | Draining the iterator gives exactly the greedy batches. |
| `Partitions.BatchesCoverFilenames` | crates/prek/src/run.rs:147-239 | The batches concatenate to the filenames in order, one empty batch for none, each within both limits; the iterator panics exactly when some filename alone exceeds the budget. |
| `Partitions.NoCutIsShorter` | crates/prek/src/run.rs:200-238 | No other cut into consecutive batches within both limits has fewer batches. |
| `Partitions.AtMostConcurrencyBatches` | crates/prek/src/run.rs:153-156 | Without `Limited`, there are at most `concurrency` batches if the full batches the iterator forms stay within the byte budget. |
| `Buffered.AnyScheduleIsSequential` | crates/prek/src/run.rs:283-296 | For every completion schedule of the bounded window, a finished stream answers what running the items one by one answers. |
| `Buffered.ScheduleInvariant` | crates/prek/src/hooks/mod.rs:139-145 | At most `window` items are in flight, and what has been folded is the sequential prefix. |
| `Buffered.NeverStuck` | crates/prek/src/hooks/mod.rs:139-145 | Until it is final, the stream can always take a step. |
| `Buffered.SchedulesAreShort` | crates/prek/src/hooks/mod.rs:139-145 | No schedule takes more than three steps per item. |
| `Buffered.LittleWorkPastFailure` | crates/prek/src/hooks/mod.rs:139-145 | When item k fails, nothing past a window after k was ever started. |
| `Buffered.SequentialStops` | crates/prek/src/run.rs:288-296 | The sequential answer is the error of the earliest failing item. |
| `HookOutputs.Combined.MergeKnown` | crates/prek/src/hooks/mod.rs:62-71 | The new result is the merge of the old one with the other, and never becomes unknown. |
| `HookOutputs.FoldInOrder` | crates/prek/src/hooks/mod.rs:141-146 | The loop over the stream is the sequential fold with early exit. |
| `HookOutputs.CombinedSuccess` | crates/prek/src/hooks/mod.rs:125-147 | Outputs are concatenated in input order, the status has a bit exactly when some item's has, and it is modified exactly when some item modified files. |
| `HookOutputs.ZeroStatusIff` | crates/prek/src/hooks/mod.rs:62-71 | So the combined status is zero exactly when every item's is. |
| `HookOutputs.CombinedFailure` | crates/prek/src/hooks/mod.rs:142-144 | The error is that of the earliest failing item. |
| `HookOutputs.AnyOrderSameOutput` | crates/prek/src/run.rs:252-255 | The same combined output and status for every completion order. |
| `HookSpecs.VersionCell.Update` | crates/prek/src/config/hook.rs:371-379 | In-place update equals the functional merge in which the other side's request and preference win. |
| `HookSpecs.VersionCell.ApplyDefaults` | crates/prek/src/config/hook.rs:381-389 | In-place defaulting equals the functional merge in which the own values win. |
| `HookSpecs.MergePrecedence` | crates/prek/src/hook.rs:66-122 | Manifest updated by hook config and then defaulted by the project: hook config first, manifest next, project last, for request (with its download flag) and preference separately. |
| `HookSpecs.RemoteHookPrecedence` | crates/prek/src/hook.rs:66-122 | A remote hook as built: language, dependencies, version request with its download flag, and preference each come from the configuration's entry, else the manifest, else the project or the default. |
| `HookSpecs.LocalHookPrecedence` | crates/prek/src/hook.rs:66-122 | A local hook as built: its own definition, then the project's defaults. |
| `HookSpecs.RefusedIff` | crates/prek/src/hook.rs:124-165 | A definition is refused exactly when it gives dependencies to a language that cannot install any, asks for a version, a preference or no download from a language without versions, or its version does not parse. |
| `HookSpecs.FirstDeclared` | crates/prek/src/cli/cache_gc.rs:386-394 | A hook is looked up as the first of its name in the manifest, and not found exactly when there is none. |
| `HookSpecs.NeedsEnvironmentIff` | crates/prek/src/hook.rs:545-562 | Exactly meta and builtin hooks and the languages that run what is there already need no environment. |
| `HookSpecs.FreshInstallIsReusable` | crates/prek/src/hook.rs:739-771 | What a hook installed for itself meets what it asks for if and only if the version does. |
| `HookSpecs.SharedEnvironment` | crates/prek/src/hook.rs:625-634 | Two hooks that one environment satisfies agree on language, repository and dependencies. |
| `HookSpecs.ExtractedHook` | crates/prek/src/hook.rs:485-509 | Metadata files change nothing of a hook but its dependencies and the text of its version request; a script wins over the repository. |
| `HookSpecs.SweepRequirementIsRunRequirement` | crates/prek/src/hook.rs:407-509 | For every hook a run can build, the requirement the collector computes is the one the run uses if and only if the hook's files add no dependencies and ask for no other version. |
| `HookSpecs.ReusableMeetsPlainIff` | crates/prek/src/languages/python/pep723.rs:260-296 | An installation the run would reuse meets what the collector computes if and only if the script adds no dependencies and overrides no definite version that the installation does not have; `pyproject.toml` and `go.mod` never matter. |
| `Sweeping.SweepDirByName` | crates/prek/src/cli/cache_gc.rs:546-630 | For every listing order: exactly the visible unkept directories are removed, or reported in a dry run, with count and saturating bytes of those that went. |
| `Sweeping.SweepStalePatchFiles` | crates/prek/src/cli/cache_gc.rs:632-706 | The same for regular, visible `.patch` files not younger than the cutoff. |
| `Sweeping.SweepKeeps` | crates/prek/src/cli/cache_gc.rs:568-583 | A sweep never changes what it leaves, and an entry goes exactly when it is a visible, removable directory that is not kept. |
| `Sweeping.DryReportsReal` | crates/prek/src/cli/cache_gc.rs:606-627 | Without failing removals a dry sweep reports what a real one removes. |
| `GcRun.HookEnvRequirementsFromConfig` | crates/prek/src/cli/cache_gc.rs:360-421 | The loops compute the requirements of the configuration in order; a missing repository or manifest hook and an invalid request contribute nothing. |
| `GcRun.MarkConfigs` | crates/prek/src/cli/cache_gc.rs:172-208 | For every order of the tracked set: kept configurations, used repository keys and requirements are those of the specification. |
| `GcRun.MarkBuckets` | crates/prek/src/cli/cache_gc.rs:167-214 | Marks exactly the tool and cache buckets of the required languages, and always the program's own cache. |
| `GcRun.MarkToolVersions` | crates/prek/src/cli/cache_gc.rs:423-440 | Adds exactly the recognised version of the toolchain to each bucket of the language. |
| `GcRun.MarkInstalled` | crates/prek/src/cli/cache_gc.rs:219-236 | For every order of the environments: the marked directories and versions are those of environments satisfying some requirement. |
| `GcRun.Mark` | crates/prek/src/cli/cache_gc.rs:159-236 | The marking phase computes all six mark sets of the specification. |
| `GcRun.SweepToolVersions` | crates/prek/src/cli/cache_gc.rs:451-468 | Bucket by bucket, a missing one skipped, a file in a bucket's place stopping with an error. |
| `GcRun.CacheStore.SweepTools` | crates/prek/src/cli/cache_gc.rs:263-277 | Whole unused buckets first, then the versions of those left. |
| `GcRun.CacheStore.SweepRepos` | crates/prek/src/cli/cache_gc.rs:244-261 | Repositories and environments are swept by their marks. |
| `GcRun.CacheStore.SweepCaches` | crates/prek/src/cli/cache_gc.rs:279-295 | Caches by their marks, scratch dropped unless dry, stale patches by age. |
| `GcRun.CacheStore.Sweep` | crates/prek/src/cli/cache_gc.rs:238-302 | The sweeping phase as one change of the whole store. |
| `GcRun.CacheStore.Collect` | crates/prek/src/cli/cache_gc.rs:145-328 | The in-place collector leaves exactly the store and summary of the specification. |
| `GcRun.CollectedIsSweptByMarks` | crates/prek/src/cli/cache_gc.rs:145-328 | The specification depends on the configurations only through the mark sets. |
| `GcSafety.NeededRepoSurvives` | crates/prek/src/cli/cache_gc.rs:194-207 | A repository directory of a loaded tracked configuration stays as it is. |
| `GcSafety.NeededEnvSurvives` | crates/prek/src/cli/cache_gc.rs:219-232 | Every environment satisfying a requirement survives untouched, when its marker records its own directory. |
| `GcSafety.EnvSurvivesIff` | crates/prek/src/cli/cache_gc.rs:225-261 | A visible environment survives a real collection if and only if the marker of some environment in use records its name. |
| `GcSafety.NeededBucketsSurvive` | crates/prek/src/cli/cache_gc.rs:210-214 | The tool and cache buckets of a required language survive, the caches unchanged. |
| `GcSafety.NeededVersionSurvives` | crates/prek/src/cli/cache_gc.rs:423-540 | The version directory that holds the toolchain of an environment in use survives both tool sweeps with its content. |
| `GcSafety.OpenedBucketsSurvive` | crates/prek/src/languages/mod.rs:398-455 | No tool or cache bucket that installing or running a required language opens is removed. |
| `GcSafety.VersionSurvivesIff` | crates/prek/src/cli/cache_gc.rs:423-540 | A visible version directory of a used bucket survives a real collection if and only if the toolchain of some environment in use lies in it, against the comment at lines 428-430. |
| `GcSafety.BucketSwept` | crates/prek/src/cli/cache_gc.rs:459-465 | Each bucket is swept once, with its own kept versions. |
| `GcSurvival.RepoSurvivesIff` | crates/prek/src/cli/cache_gc.rs:194-207 | A repository directory survives a real collection if and only if a loaded tracked configuration refers to it, or it cannot be removed. |
| `GcSurvival.ToolBucketSurvivesIff` | crates/prek/src/cli/cache_gc.rs:210-214 | A tool bucket survives if and only if a required language opens it, or it cannot be removed. |
| `GcSurvival.CacheSurvivesIff` | crates/prek/src/cli/cache_gc.rs:210-214 | A cache bucket survives if and only if it is the program's own or a required language has it, or it cannot be removed. |
| `GcSurvival.PatchSurvivesIff` | crates/prek/src/cli/cache_gc.rs:632-703 | A recovery patch goes if and only if it is a visible regular `.patch` file last changed at least thirty days ago and its removal succeeds. |
| `GcSurvival.SaturatedTotal` | crates/prek/src/cli/cache_gc.rs:104-112 | Sizes are added exactly up to the largest 64-bit number, and no further. |
| `GcSurvival.BucketShrinks` | crates/prek/src/cli/cache_gc.rs:459-540 | What is removed from a tool bucket is taken off its size. |
| `GcSafety.ReusableEnvSurvives` | crates/prek/src/hook.rs:552-634 | An environment that a run of a tracked project would reuse is never removed, unless the hook's script adds dependencies or overrides a definite version that the environment does not have. |
| `GcRepeat.SameRequirements` | crates/prek/src/cli/cache_gc.rs:172-208 | The swept store has the same used repositories and requirements as the store before. |
| `GcRepeat.SecondRunRemovesNothingIffAnchored` | crates/prek/src/cli/cache_gc.rs:145-328 | Right after a successful collection another one changes nothing, and reports nothing, if and only if every mark was anchored in a marker that itself survives. |
| `GcRepeat.SelfNamedIsAnchored` | crates/prek/src/cli/cache_gc.rs:225-232 | Markers that record the directory they lie in, as installation writes them, anchor every mark. |
| `GcRepeat.DryRunChangesNothing` | crates/prek/src/cli/cache_gc.rs:238-295 | A dry run leaves the whole store as it is. |
| `GcRepeat.VersionTotals` | crates/prek/src/cli/cache_gc.rs:451-468 | The version sweep reports the sum over buckets, bytes saturating once. |
| `GcRepeat.DryToolSweep` | crates/prek/src/cli/cache_gc.rs:263-277 | For tools a dry run exceeds the real figures by exactly the visible version directories inside wholly unused buckets. |
| `GcRepeat.DryRunReportsRealRun` | crates/prek/src/cli/cache_gc.rs:244-302 | For repositories, environments, caches and patches a dry run reports what a fully successful real run removes; for tools it exceeds that by exactly those directories. |
| `GcExamples.ScriptEnvIsSwept` | crates/prek/src/cli/cache_gc.rs:194-232 | Concrete store: a run reuses the environment of a hook whose script declares its dependencies, and the collector removes it. |
| `GcExamples.UsedBucketLosesVersions` | crates/prek/src/cli/cache_gc.rs:508-510 | Concrete store: the environment in use runs a toolchain from outside, and the used bucket loses its version. |
| `GcExamples.MovedEnvIsSwept` | crates/prek/src/cli/cache_gc.rs:225-261 | Concrete store: a marker names another directory; the needed environment is removed, and a second collection removes that other directory. |
| `GcExamples.MovedIsNotAnchored` | crates/prek/src/cli/cache_gc.rs:225-261 | That store fails the condition under which a second collection removes nothing. |
| `CloneProtocol.ReachableValid` | crates/prek/src/store.rs:156-270 | Every state of every interleaving keeps the protocol's invariants: markers sound, results marked, one owner per directory, phases in order, prompts alone. |
| `CloneProtocol.ReachableOwnClones` | crates/prek/src/store.rs:156-270 | In every reachable state a directory that this run marked holds the clone of the repository it belongs to. |
| `CloneProtocol.SuccessHoldsExactlyTheRequest` | crates/prek/src/store.rs:156-270 | A successful return holds exactly the requested keys, each at its own marked directory: a clone of that very key if this run made it, unchanged since the start if it was marked before. |
| `CloneProtocol.MarkerMeansFinishedClone` | crates/prek/src/store.rs:131-149 | Wherever a run stops, crashed or failed, a marker means a finished clone. |
| `CloneProtocol.PromptedCloneRunsAlone` | crates/prek/src/store.rs:230-268 | A prompt-enabled clone never overlaps another clone, then or later, and never happens under CI. |
| `CloneProtocol.OtherDirectoriesUntouched` | crates/prek/src/store.rs:136-146 | Directories not requested, or marked to begin with, are never written. |
| `CloneProtocol.RunsAreFinite` | crates/prek/src/store.rs:156-270 | No run takes more than nine actions per repository, plus three. |
| `CloneProtocol.NeverStuck` | crates/prek/src/store.rs:156-270 | Until it returns, some action is possible. |
| `CloneOutcomes.FailsIff` | crates/prek/src/store.rs:156-270 | A run fails if and only if a marker look-up, a move, a marker or a prompted clone failed, a result other than an authentication error was taken, or under CI the first pass ended with one. |
| `CloneOutcomes.SucceedsIff` | crates/prek/src/store.rs:156-270 | A run succeeds if and only if it reached the end of its last pass without such a failure. |
| `CloneOutcomes.AuthErrorsAreRetried` | crates/prek/src/store.rs:229-268 | A successful run has retried exactly the repositories whose first clone ended in an authentication error; under CI there were none. |
| `CloneOutcomes.FirstTryIsLegal` | crates/prek/src/store.rs:174-224 | The first clone of a repository may end in any way: in a clone to be moved, in a repository kept for a retry, or in a failed run. |
| `CloneOutcomes.FirstPassWithoutCredentials` | crates/prek/src/store.rs:229-243 | After an authentication error the first pass ends under CI in failure, otherwise in the retry pass. |
| `CloneOutcomes.PrivateRepoCanSucceed` | crates/prek/src/store.rs:251-268 | Outside CI, a repository that asks for credentials is cloned with a prompt and the run succeeds. |
| `PathOrder.BeforeIsTotalOrder` | crates/prek/src/workspace.rs:846-851 | Deeper first, then by path, is a total order on relative paths. |
| `PathOrder.NameLeqIff` | crates/prek/src/workspace.rs:846-850 | A name comes before another exactly when it is a prefix of it or smaller at the first character where they differ. |
| `PathOrder.PathLeqIff` | crates/prek/src/workspace.rs:846-850 | Paths of one depth are ordered by the first component where they differ. |
| `Workspace.WalkInvariant` | crates/prek/src/workspace.rs:754-832 | What a walk has found and what still waits add up to the same, at every point of every order. |
| `Workspace.DiscoveryIgnoresOrder` | crates/prek/src/workspace.rs:754-839 | A finished walk finds the same projects for every visiting order, and fails for every order or none. |
| `Workspace.PathIsProject` | crates/prek/src/workspace.rs:754-839 | Two projects found at one path of a file tree are the same. |
| `Workspace.FoundPathsDistinct` | crates/prek/src/workspace.rs:754-839 | A walk over a file tree finds projects at different paths, none numbered yet. |
| `Workspace.SortAndIndex` | crates/prek/src/workspace.rs:842-857 | The result is ordered, numbered by position and holds the same projects. |
| `Workspace.SortedIndexedUnique` | crates/prek/src/workspace.rs:842-857 | Ordered, numbered lists of the same projects with distinct paths are equal. |
| `Workspace.DiscoveryGivesOneList` | crates/prek/src/workspace.rs:744-857 | Discovery in any file tree and sorting give one project list with different paths, whatever the visiting order. |
| `Workspace.NestedComesFirst` | crates/prek/src/workspace.rs:846-856 | A nested project gets a smaller index than every project around it. |
| `HookAssembly.RemoteConfigsToClone` | crates/prek/src/workspace.rs:133-149 | The nested loops list the first occurrences of the plans' repository keys. |
| `HookAssembly.FirstOccurrencesAreTheSet` | crates/prek/src/workspace.rs:137-145 | No key is listed twice and none is missed. |
| `HookAssembly.FirstOccurrencesInOrder` | crates/prek/src/workspace.rs:137-145 | The listing is ordered by first mention. |
| `HookAssembly.LookupNeverMisses` | crates/prek/src/workspace.rs:391-398 | After a successful clone the look-up that must not miss finds every entry of every plan. |
| `HookAssembly.PushHooks` | crates/prek/src/workspace.rs:379-436 | The hooks of an entry are numbered on, in order; it fails exactly when the repository or a declared hook is missing. |
| `HookAssembly.BuildHooks` | crates/prek/src/workspace.rs:373-441 | The hooks of a plan are its declared hooks in order, numbered by position; it succeeds exactly when all are declared. |
| `HookAssembly.SelectedProjectsDistinct` | crates/prek/src/workspace.rs:842-857 | Plans built from a selection of the sorted and numbered projects belong to projects with different indices. |
| `HookAssembly.SelectedOnly` | crates/prek/src/workspace.rs:718-727 | The plans are those of the selected projects, each under its number, and of no others. |
| `HookAssembly.HookKeysUnique` | crates/prek/src/hook.rs:515-520 | No two hooks share a key, whichever projects of the sorted and numbered list are selected. |
| `Schema.RemoveNullName` | crates/prek/src/schema.rs:40-40 | The filter leaves every type name but `null`, in order. |
| `Schema.RemoveNullBranches` | crates/prek/src/schema.rs:64-75 | The filter leaves exactly the branches that are not null-only, in order; a branch with an empty type list counts as null-only. |
| `Schema.StripTypes` | crates/prek/src/schema.rs:26-56 | A null default goes; `null` leaves the types; nothing left rejects the schema. |
| `Schema.StripNullAcceptance` | crates/prek/src/schema.rs:17-121 | The in-place rewrite with its early returns is the rewriting function whose meaning is proved. |
| `SchemaMeaning.StripIsExact` | crates/prek/src/schema.rs:17-121 | One node, any instance but null: the rewritten node gives the same verdict if and only if, following the combinators in order, an empty `allOf` is not what accepted, a collapse loses no assertion that the branch does not imply, and an `allOf` that loses a null-only branch is rejected by something else. |
| `SchemaMeaning.KeptInEveryWorldIff` | crates/prek/src/schema.rs:59-110 | A node that wraps one `$ref` beside keywords without subschemas keeps every verdict, whatever references and unknown keywords mean, if and only if no null-only branch of an `allOf` is dropped and `type` is vacuous and `const`, `enum`, another `$ref` and other keywords are absent. |
| `SchemaMeaning.StripPreserves` | crates/prek/src/schema.rs:17-121 | One node: if each `allOf` has branches, all or none of them null-only, and a collapsed wrapper asserts only what its branch does, it accepts every instance but null exactly as before. |
| `SchemaMeaning.NullOnlyIff` | crates/prek/src/schema.rs:64-75 | The branches removed are exactly those whose `type` no instance but null has. |
| `SchemaMeaning.CollapsedAnnotations` | crates/prek/src/schema.rs:85-110 | The branch that takes over keeps its own annotations and gets the wrapper's others. |
| `SchemaMeaning.FirstCombinatorWins` | crates/prek/src/schema.rs:60-112 | `anyOf` collapses before `oneOf` is looked at, and `oneOf` before `allOf`. |
| `SchemaMeaning.TransformPreserves` | crates/prek/src/schema.rs:10-15 | The whole transform: under the condition at every node, every null-free instance is accepted exactly when it was. |
| `SchemaMeaning.CollapseIsExact` | crates/prek/src/schema.rs:82-110 | Collapsing to the one branch keeps an instance's verdict if and only if, whenever the branch accepts it, the wrapper's other assertions do and no null-only branch of an `allOf` was dropped. |
| `SchemaNull.NullRejected` | crates/prek/src/schema.rs:10-121 | The transformed schema rejects null, whatever references mean, if what is left of the node has a keyword that rejects it or branches that do. |
| `SchemaNull.NestedNullRejected` | crates/prek/src/schema.rs:10-15 | A null at any depth, in a member looked at by `properties` or `additionalProperties`, in an item or under a combinator, makes the transformed schema reject the instance if the schema at that place shuts null out. |
| `SchemaNull.NegatedNullAccepted` | crates/prek/src/schema.rs:10-15 | Under `not` it is the other way round: what the negated schema shuts out is accepted. |
| `SchemaNull.NullablePropertyExample` | crates/prek/src/schema.rs:10-15 | Concrete schema: an object whose nullable property is null is rejected after the transform. |
| `SchemaNull.AdditionalNullExample` | crates/prek/src/schema.rs:10-15 | Concrete schema: `additionalProperties` rejects a null member that `properties` does not name, and looks at no other. |
| `SchemaNull.NullRejectedIff` | crates/prek/src/schema.rs:10-121 | Without `oneOf` and `not` this is exact: null is rejected in every world if and only if the condition holds. |
| `SchemaNull.TypedShutsOut` | crates/prek/src/schema.rs:31-56 | A node with a `type` none of whose combinators collapses rejects null. |
| `SchemaNull.NullAcceptedExample` | crates/prek/src/schema.rs:82-110 | Concrete schema: the branch that a collapse leaves still accepts null. |
| `SchemaMeaning.SiblingLostExample` | crates/prek/src/schema.rs:82-110 | Concrete schema: a `type` beside a nullable `anyOf` is lost. |
| `SchemaMeaning.NullAllOfExample` | crates/prek/src/schema.rs:59-75 | Concrete schema: an `allOf` with a null-only branch starts to accept. |
| `Paths.CleanPath` | crates/prek/src/fs.rs:509-533 | The loop computes the fold that the lemmas are about, `.` when nothing is left. |
| `Paths.CleanIsNormal` | crates/prek/src/fs.rs:509-533 | The result has no dots, a root only in front, and `..` only as a leading run, never after a root. |
| `Paths.CleanIdempotent` | crates/prek/src/fs.rs:509-533 | Cleaning twice is cleaning once. |
| `Paths.CleanJoin` | crates/prek/src/fs.rs:509-533 | clean(p/q) = clean(clean(p)/q) for every relative q. |
| `Paths.CommonPrefixIsLongest` | crates/prek/src/fs.rs:350-360 | The ancestor found is the longest one that is a prefix of the path. |
| `Paths.RelativeFailsIff` | crates/prek/src/fs.rs:350-366 | There is no relative path exactly from an absolute base to a relative path. |
| `Paths.RelativeRoundTripIff` | crates/prek/src/fs.rs:345-373 | Following the relative path from the base leads to the path if and only if the base goes on below the common prefix with ordinary names, or only the path is absolute, or the rest of the path climbs to the root. |
| `Paths.LeadsElsewhereExample` | crates/prek/src/fs.rs:345-373 | Concrete pair: from `a/..`, the path `x` is `../../x`, which leads elsewhere. |
| `Paths.BackOver` | crates/prek/src/fs.rs:368-371 | Climbing back over the rest of the base ends at the prefix, climbed too high by the number of the rest's components less its net depth. |
| `PushBase.PrePushRunOptions` | crates/prek/src/cli/hook_impl.rs:316-365 | Nothing, options or an error, exactly when the push is idle, is to be checked or names an unknown commit; the base is the old value or the first parent of the first commit git lists; the branch for a parentless non-root never matters. |
| `PushBase.HookRunOptions` | crates/prek/src/cli/hook_impl.rs:241-258 | The first push that is not idle decides, as options or as an error; there is nothing to run exactly when all are idle. |
| `PushBase.FirstNotIdle` | crates/prek/src/cli/hook_impl.rs:241-258 | Whatever answers, answers for the first push that is not idle. |
| `PushBase.NewCommitIsChecked` | crates/prek/src/cli/hook_impl.rs:328-343 | A pushed commit that the remote lacks and whose name is not all zeros is checked, with itself as the target, once all pushes before it are idle. |
| `PushBase.OldValueIsBase` | crates/prek/src/cli/hook_impl.rs:334-338 | A remote value that is not all zeros, is present and lies below the pushed commit is the base. |
| `PushBase.ZerosAreNoCommit` | crates/prek/src/cli/hook_impl.rs:328-334 | A local name of zeros is a deletion with nothing to check, and a remote name of zeros is no base. |
| `PushBase.FirstOfRevList` | crates/prek/src/git.rs:1079-1098 | The first commit git lists is unknown to the remote and all its parents are known. |
| `PushBase.BaseIsSafe` | crates/prek/src/cli/hook_impl.rs:334-355 | A base is an ancestor of the pushed commit and the remote's old value or reachable from its refs. |
| `PushBase.WholeTreeIffRoot` | crates/prek/src/cli/hook_impl.rs:347-359 | The whole tree is checked, without a base, if and only if there is no usable old value and the first commit git lists is a root. |
| `PushBase.NothingNewBelowBase` | crates/prek/src/cli/hook_impl.rs:340-356 | No commit the remote lacks lies at or below a base taken from its refs. |
| `PushBase.OutcomesExclusive` | crates/prek/src/cli/hook_impl.rs:316-365 | Idle, checked and failing exclude each other, so the method's cases are exact. |
| `PushBase.RevListExists` | crates/prek/src/git.rs:1079-1098 | In every graph without cycles a listing as git promises it exists, for every commit and refs. |
| `PushInput.ParseLineExact` | crates/prek/src/cli/hook_impl.rs:303-314 | A line is read as a push exactly when it is that push written out, its last three fields free of spaces. |
| `PushInput.FirstLine` | crates/prek/src/cli/hook_impl.rs:303-304 | A line ends at the first newline, without one return before it; without a newline it is the rest of the input. |
| `PushInput.InputRoundTrip` | crates/prek/src/cli/hook_impl.rs:303-314 | Everything git writes is read back, all pushes and in order, spaces in the local ref included. |
| `CiMatrix.LanguageGroups` | scripts/generate-ci-matrix.py:69-98 | Exactly ceil(n / size) groups, none empty, each within the cap and in table order, together the languages; and without any one of its tests no group is heavier than a group with room. |
| `CiMatrix.Place` | scripts/generate-ci-matrix.py:79-92 | The placing loop keeps those properties, each test going to the lightest group with room. |
| `CiMatrix.Lightest` | scripts/generate-ci-matrix.py:83-90 | The minimum by load, then size, then place, among the groups with room. |
| `CiMatrix.SomeRoom` | scripts/generate-ci-matrix.py:83-90 | The minimum always has a candidate. |
| `CiMatrix.PlaceKeepsBalance` | scripts/generate-ci-matrix.py:79-92 | Placing a test no longer than those placed keeps the balance. |
| `CiMatrix.FilledGroups` | scripts/generate-ci-matrix.py:94-98 | No group is empty at the end, also when durations are zero. |
| `CiMatrix.FewestGroups` | scripts/generate-ci-matrix.py:70-70 | No grouping within the cap has fewer groups. |
| `CiMatrix.NearEvenShare` | scripts/generate-ci-matrix.py:75-78 | While no group is full, each load is at most an even share of the whole plus any one test of the group. |
| `CiMatrix.GenerateMatrix` | scripts/generate-ci-matrix.py:117-135 | Platform by platform, each platform's jobs are a grouping of its supported languages in order. |
| `CiMatrix.NumberedFromOne` | scripts/generate-ci-matrix.py:122-134 | The jobs of a platform carry its groups in order, numbered from one. |
| `CiMatrix.EachSupportedOnce` | scripts/generate-ci-matrix.py:53-58 | On each platform each supported language is tested in exactly one place, and no other at all. |
| `Bits.OrBit` | crates/prek-identify/src/lib.rs:128-128 | `|` sets a bit exactly when either word has it. |
| `Bits.OneBit` | crates/prek-identify/src/lib.rs:128-128 | `1 << n` has bit n and no other. |
| `Bits.NotBit` | crates/prek-identify/src/lib.rs:144-144 | Complement within the width flips every bit. |
| `Bits.ClearLowest` | crates/prek-identify/src/lib.rs:68-68 | `w & (w - 1)` clears the lowest set bit and nothing else. |
| `Bits.LowestIsLowest` | crates/prek-identify/src/lib.rs:66-66 | `trailing_zeros` is at most the index of every set bit. |
| `TagSets.TagSet.constructor` | crates/prek-identify/src/lib.rs:91-102 | The words stand for exactly the given ids, duplicates merged. |
| `TagSets.TagSet.Insert` | crates/prek-identify/src/lib.rs:125-129 | The set gains exactly the id. |
| `TagSets.TagSet.UnionWith` | crates/prek-identify/src/lib.rs:166-172 | `|=` is union. |
| `TagSets.TagSet.IsDisjoint` | crates/prek-identify/src/lib.rs:132-139 | True exactly when the sets are disjoint. |
| `TagSets.TagSet.IsSubset` | crates/prek-identify/src/lib.rs:142-149 | True exactly when one set contains the other. |
| `TagSets.TagSet.IsEmpty` | crates/prek-identify/src/lib.rs:161-163 | True exactly when the set is empty. |
| `TagSets.DisjointIff` | crates/prek-identify/src/lib.rs:132-139 | Disjoint sets are word pairs without a common bit. |
| `TagSets.SubsetIff` | crates/prek-identify/src/lib.rs:142-149 | Containment is no word with a bit outside the other. |
| `TagSets.TakeLowest` | crates/prek-identify/src/lib.rs:64-74 | Taking the lowest bit of the current word takes the least id left and leaves the others. |
| `TagSets.TagSetIter.TakeBit` | crates/prek-identify/src/lib.rs:64-74 | Taking a bit yields the least id left and removes exactly it. |
| `TagSets.TagSetIter.Next` | crates/prek-identify/src/lib.rs:59-84 | Yields the least id left and removes it; ends exactly when nothing is left, never at the table's end. |
| `TagSets.Listed` | crates/prek-identify/src/lib.rs:43-47 | Iteration ends and lists the members once each in increasing order. |
| `StageSets.FromMembers` | crates/prek/src/config/hook.rs:211-216 | A set built from a list contains exactly its stages. |
| `StageSets.SameStages` | crates/prek/src/config/hook.rs:163-164 | Equal words and equal sets are the same, so derived equality compares sets. |
| `StageSets.ContainsIsBit` | crates/prek/src/config/hook.rs:187-189 | Membership is the stage's bit. |
| `StageSets.AllAndEmpty` | crates/prek/src/config/hook.rs:167-185 | `ALL` contains every stage; a set is empty exactly when its word is zero. |
| `StageSets.StagesIter.Next` | crates/prek/src/config/hook.rs:171-181 | Yields the first stage left in table order and removes it; the table look-up never fails. |
| `StageSets.Listed` | crates/prek/src/config/hook.rs:171-181 | Iteration ends and lists the stages once each in table order. |
| `CmdArgs.Cmd.AddArg` | crates/prek/src/process.rs:431-434 | Appends one argument; the marks stay. |
| `CmdArgs.Cmd.AddArgs` | crates/prek/src/process.rs:437-444 | Appends arguments; the marks stay. |
| `CmdArgs.Cmd.AddHiddenArgs` | crates/prek/src/process.rs:447-465 | Appends arguments and hides their range, grown from the last one when they touch. |
| `CmdArgs.Cmd.AddFileArgs` | crates/prek/src/process.rs:468-487 | Appends files; the first non-empty call fixes the boundary. |
| `CmdArgs.HideKeepsRanges` | crates/prek/src/process.rs:455-463 | Ranges stay sorted, non-empty and apart, and exactly the new indices become hidden. |
| `CmdArgs.RunIsFaithful` | crates/prek/src/process.rs:651-669 | For every sequence of calls: the process gets every argument in order, the log those added before the first non-empty files, the display the same without the hidden ones, and the ranges stay sorted and apart. |

## Left out

- SchemaMeaning.TransformPreserves: one direction. Whether a rewrite that drops a keyword keeps every verdict
  depends on whether instances with given verdicts exist, which for subschemas is as hard as satisfiability; the exact
  condition on one node and instance is `StripIsExact`.
- SchemaNull.NullRejected: one direction, because a `oneOf` or `not` can reject null by accepting it too often; without
  them `NullRejectedIff` is exact.
- SchemaNull.NestedNullRejected: one direction, for the same reason, and because an instance may be rejected for other
  reasons than its nulls.
- GcSafety.NeededEnvSurvives: asks that the marker records its own directory, as installation writes it; the exact
  condition is `EnvSurvivesIff`.
- Fidelity.NoBlindSgrIsFaithful: a sufficient condition on SGR events; the exact one, on newlines, is `GuardIsExact`.
- CloneProtocol.SuccessHoldsExactlyTheRequest: assumes that directory names are injective on the requested
  repositories, since they are hashes; a directory marked earlier is trusted to hold a repository of that name.
- Bits.OrBit: words are numbers below a power of two, with `|`, `&` and `!` spelled out bit by bit, because that is
  where the proofs about each bit live; stage sets use 11 of their 16 bits.
- Terminal escape parsing: the model begins at the events of the parser, which hands control characters to `execute`.
- Windows: batch-file limits, path prefixes, pseudo-terminals.
- Failing directory reads in the collector, other than a file in a tool bucket's place, which is modelled; failing
  removals are modelled.
- Locks: the collector and the clone protocol each run alone on the store.
- Labels, detail lines and messages of the collector's report; counts and bytes are modelled.
- `load_config`, `repo_key` and `LanguageRequest` are functions whose bodies are not part of this model, and neither is
  the parsing of `pyproject.toml`, `go.mod` and inline scripts, of which only the outcome is modelled; the shell
  check of a hook specification is left out, as are `priority` and the other options that do not reach the environment
  requirement.
- The workspace cache and its validity check; only fresh discovery is modelled, and ignore files, submodules and
  template directories only decide which trees the walk sees.
- Which keywords transform visits: schemas under `anyOf`, `oneOf`, `allOf`, `not`, `properties`,
  `additionalProperties` and `items` are modelled, the other keywords are one opaque assertion. A combinator whose
  value is not an array, or a branch that is not a schema, is not modelled.
- Failure in the middle of writing one marker or moving one directory: each is one step of the protocol.
- Git objects other than commits; a pushed commit that does not exist makes git fail, which is modelled.
- The tables of tags, languages and platforms: the model holds for every table. The tool and cache buckets of the
  languages are written out.
- Environment variables, working directory and status checks of a command, and the text of its log line.
- Path components are opaque strings; a path is modelled as the components the library yields.
