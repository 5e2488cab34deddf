# Lantern: verified models of its protocols and transformations

Lantern runs coding agents in sandboxes. This project models the parts of it
whose correctness is a statement about whole runs, crashes, interleavings or
arbitrary inputs, and proves those statements. `dafny verify dfyconfig.toml`
checks everything.

Where the original changes state step by step the model is a class or a loop;
where it computes a value the model is a function. What the operating system,
the forge, git or another process decides is an argument, or a choice that is
written into a history, so that every contract says what was done about it.

## The models

- **Resident worker** (`Lines`, `ServerLog`, `ServerSpec`, `ResidentServer`). One process
  serves many forked jobs over one pipe. `Server` has the source's child table
  and loop; its ghost `log` records every line read, every child started,
  signalled or reaped, every event line and every answer written. `Life` is an
  automaton that says which entries a job may still produce; `Valid` ties the
  table to it. The promises are lemmas about any log the automaton accepts.
  `ServerSpec` says, as relations between histories, what each kind of line is
  answered by, what a turn adds and what a whole run is; `Conditions` is what the
  system lets happen in a turn, and the methods are proved against those.
- **Run-directory removal** (`GcProtocol`, `RunGc`). `World` is one run: its
  state, recorded workspace, `daemon.gc` markers, directory and staged copy,
  with any number of sweeps and resumes in progress. `Step` is every atomic
  action of each, crashes included. The resume side is the engine's own
  `resume`, step by step. `RunGc.Host` is the sweep's code with every other
  actor free to run between any two of its actions; its own steps, and their
  outcomes on a given `FileSystem`, are pinned one by one.
- **Release pipeline** (`Versions`, `ReleasePlan`, `Staging`, `DeployGate`). The
  waiting job keeps every reading of the clock, sleep and look at main; the
  deployment gate keeps what was started and how it finished beside its file.
- **systemd units** (`SystemdReader`, `UnitEscape`, `UnitReading`,
  `UnitRender`, `UnitTogether`). The reader is written from the section "Quoting" of
  systemd.syntax(7), the section "Command lines" of systemd.service(5) and the
  specifier rule of systemd.unit(5), and knows nothing of the writer: it has its
  own table of directives, comment rule and characters. A quote
  may only open a word at its start and only close it at its end, as the manual
  has it; anything else is refused. A line runs on into the next when its last
  backslash is not itself escaped.
- **Layered configuration** (`ConfigLayers`). Paths are key sequences.
- **Registry download** (`SecretCopy`).
- **Delivery** (`Workspace`, `Delivery`, `BlobUpload`, `Base64`). A checkout is
  its index, the files on disk, its submodule directories and what is ignored;
  `Present` is the tree that adding everything would commit. What `git diff
  --raw` and `git ls-files --others` report is a stated contract.
- **Smaller cores**: `ForgeIds`, `ResourceLatch`, `LaneFold`.

`Text`, `Decimal` and `Wrappers` are shared.

## What turned out not to hold

- **A blind gc claim loses a resume.** A sweep reads the run's record before its
  claim. If the run had no recorded workspace at that moment, its marker says
  no workspace went, so the resume guard passes, the resume provisions the
  directory, and the sweep renames it away (`BlindClaimLoses`). The other
  hazard is a cancel, or another engine finishing the run, while a resume of it
  is open (`PullingOutLoses`). `HazardIsExact` shows that these two are all, and
  neither is a false alarm: in a safe world a step is one of them if and only if
  a loss can follow it without another.
- **Layers do not merge associatively** once tables and scalars replace each
  other (`MergeDoesNotAssociate`); `MergeAssociatesExactly` says for which
  layers grouping matters. A layer that sets a key is not the last word on it
  when a later one replaces a table above it: `LastLayerWins` has the exact
  condition.
- **Dotted key names can collide**, exactly when a key holds a dot
  (`DottedCollidesExactly`). Sources are kept by dotted name, so two keys of one
  name share an entry and the wrong layer is reported (`SharedName`);
  `SourceIsRightExactly` says when.
- **A repository's own layer can reach outside its allowed keys** by turning a
  scalar section of a lower layer into a table; `ProjectLayerIsContained` shows
  that this is the only way.
- **A comment in a unit is filled without a check**, so a path holding a newline
  breaks a comment line in two (`CommentCanBreak`); `CommentsStayExactly` has
  the condition. The packaged units all mention their paths in a directive too,
  where such a path is refused.
- **Placeholders are filled one after another**, so a first path that holds the
  second placeholder's name is changed in a word that mentions both;
  `FillsTogetherExactly` has the condition. No word of the packaged units
  mentions both.
- **A `deploy-finish` before any start jams the gate**: it writes a state file
  that every later command refuses (`LoneFinishJams`), and only that does
  (`JamsExactly`).
- **A version can have two spellings** in digits that are not ASCII
  (`SecondSpelling`); in ASCII it has one (`OneAsciiSpelling`).
- **A reused job id repeats its lines** (`ReusedIdRepeatsItsLines`);
  `ForwardsLifeByLife` says what is forwarded however often an id is used.

## Model

| member | source | states |
|---|---|---|
| Lines.FramingIsUnique | packages/lantern-worker/src/lantern_worker/serve.py:136-138 | cutting at newlines is the only way to read a byte stream as newline-free lines plus a newline-free rest |
| Lines.FramingIsIncremental | packages/lantern-worker/src/lantern_worker/serve.py:333-335 | reading a stream in two pieces with the unfinished line carried over gives the lines of the whole stream |
| ServerLog.StartsAreFinished | packages/lantern-worker/src/lantern_worker/serve.py:345-378 | starts of a job equal its answers plus one while it runs, and it gets at most one SIGTERM per start |
| ServerLog.AnsweredExactlyOnce | packages/lantern-worker/src/lantern_worker/serve.py:157-177 | for every non-empty id, requests handled equal result, lost and refusal lines plus one while the job runs |
| ServerLog.ForwardsLifeByLife | packages/lantern-worker/src/lantern_worker/serve.py:323-343 | however often an id is started, the lines forwarded for it are, life by life and in order, the non-blank complete lines of its events file as that life last read it, and for the life still running the part sent so far |
| ServerLog.ForwardsTheFile | packages/lantern-worker/src/lantern_worker/serve.py:323-343 | for an id started at most once, the lines forwarded are a prefix of the non-blank complete lines of what was read of its events file, in order, and all of them once it is answered |
| ServerLog.NothingFollowsTheAnswer | packages/lantern-worker/src/lantern_worker/serve.py:358-378 | no event line and no signal of a job comes after its answer unless its id is started again in between |
| ServerLog.KillFollowsTheGrace | packages/lantern-worker/src/lantern_worker/serve.py:346-351 | every SIGKILL is preceded by the same job's SIGTERM by more than the grace, with no answer or start between |
| ServerLog.AnswerFollowsALastLook | packages/lantern-worker/src/lantern_worker/serve.py:352-360 | between a child's exit and its answer its events file is looked at again, and it is sent no signal after its exit |
| ServerSpec.RunsAsAsked | packages/lantern-worker/src/lantern_worker/serve.py:157-177 | over every run, each start stands right after the line that asked for it and carries that request's job and tools flag |
| ServerSpec.ToolsAsAsked | packages/lantern-worker/src/lantern_worker/serve.py:279-293 | the tools flag by which a response is judged is the one asked for when the job now running was started |
| ResidentServer.ReusedIdRepeatsItsLines | packages/lantern-worker/src/lantern_worker/serve.py:204-235 | the server, run on one job id twice over the same events file, forwards every line of the file twice |
| ResidentServer.Server.Forward | packages/lantern-worker/src/lantern_worker/serve.py:323-343 | one look at the file, with all that was due sent, or, when it could not be read, nothing moved; the tools flag and the cancel time of the row, and every other row, stay |
| ResidentServer.Server.Pump | packages/lantern-worker/src/lantern_worker/serve.py:316-321 | every child's file is looked at for what it holds by now, nobody is cancelled, started or removed, and no tools flag changes |
| ResidentServer.Server.Start | packages/lantern-worker/src/lantern_worker/serve.py:197-235 | succeeds exactly for a valid request under an id not running when the system forks, and adds that one child with the tools it asked for; otherwise nothing changed |
| ResidentServer.Server.JobLine | packages/lantern-worker/src/lantern_worker/serve.py:157-177 | a job request is started exactly when it is valid, its job is idle by the history and the system forks; otherwise it is refused as lost when it names a job and reported when it does not |
| ResidentServer.Server.ToolLine | packages/lantern-worker/src/lantern_worker/serve.py:279-293 | a response is placed exactly when, by the history, its job is running and was started with tools, it is valid and it can be written |
| ResidentServer.Server.CancelJob | packages/lantern-worker/src/lantern_worker/serve.py:295-301 | succeeds exactly for a running job; sends SIGTERM the first time and nothing later; no other child is affected |
| ResidentServer.Server.CancelAll | packages/lantern-worker/src/lantern_worker/serve.py:303-307 | afterwards every child has had its one SIGTERM and the table has the same jobs |
| ResidentServer.Server.KillIfOverdue | packages/lantern-worker/src/lantern_worker/serve.py:347-351 | SIGKILL exactly when the grace after the SIGTERM is over |
| ResidentServer.Server.Collect | packages/lantern-worker/src/lantern_worker/serve.py:358-378 | only this child leaves, answered with what it left behind, after a last look at its file; with that one more life's worth of the file has been forwarded |
| ResidentServer.Server.Reap | packages/lantern-worker/src/lantern_worker/serve.py:345-378 | exactly the exited children leave, each after a last look answered with what it left; every child whose grace was over has been sent SIGKILL; the others are as they were |
| ResidentServer.Server.Handle | packages/lantern-worker/src/lantern_worker/serve.py:146-185 | the line is noted and answered as its kind of message is owed by the history so far, once, and nothing else is added; the environment is every export read, later ones winning |
| ResidentServer.Server.HandleLines | packages/lantern-worker/src/lantern_worker/serve.py:135-138 | the complete lines of the buffer are handled one after another, nothing else is done, and the rest is kept |
| ResidentServer.Server.Turn | packages/lantern-worker/src/lantern_worker/serve.py:123-144 | input first, then every running child's file, then exits: each child is looked at, each exited one looked at again and answered with what it left, the others run on; at the end of input every child has been signalled, and from then on none is started |
| ResidentServer.Server.Run | packages/lantern-worker/src/lantern_worker/serve.py:117-144 | the history is that of the turns, whatever the chunking; it exits in exactly the first turn after which input has ended and no child is left, and then every named request has been answered |
| ResidentServer.Server.Promises | packages/lantern-worker/src/lantern_worker/serve.py:117-144 | at every moment, for every id: requests equal answers plus one while in the table, at most one SIGTERM per start, and what was forwarded is, life by life, what the file held when last read |
| GcProtocol.DamageIsMarked | packages/lantern/src/lantern/gc.py:198-212 | over every interleaving of sweeps, resumes, cancels and crashes, a directory that is not intact is durably marked |
| GcProtocol.HazardIsExact | packages/lantern/src/lantern/engine/engine.py:656-689 | in a safe world a step is a blind claim or an end declared under an open resume if and only if, after it and with no further such step, some run loses a resume its directory; and every other step, and no such one, keeps the world safe |
| GcProtocol.UntouchedIsSafe | packages/lantern/src/lantern/gc.py:198-212 | a run that nobody sweeps or resumes is safe to start from |
| GcProtocol.ResumesAreNeverLost | packages/lantern/src/lantern/engine/engine.py:671-686 | from a safe world, in every run without a hazard no resume is ever at work in a removed workspace |
| GcProtocol.FirstResumeWins | packages/lantern/src/lantern/gc.py:203-206 | with a resume at work in the directory no sweep has claimed it, and a claim made now changes nothing |
| GcProtocol.BlindClaimLoses | packages/lantern/src/lantern/gc.py:262-273 | after any blind claim in a safe world, steps that are no hazard can take the directory from under a resume |
| GcProtocol.PullingOutLoses | packages/lantern/src/lantern/gc.py:262-273 | after any end declared under an open resume in a safe world, steps that are no hazard can take its directory |
| RunGc.Host.Remove | packages/lantern/src/lantern/gc.py:343-369 | its own steps are exactly a clearing of the way, a rename, and then a deletion of the renamed copy or, when the rename failed, of the directory in place, each with the outcome the file system and the directory of that moment give; the answer is theirs |
| RunGc.Host.MarkAndRemove | packages/lantern/src/lantern/gc.py:247-277 | its own steps are exactly the read, the claim, the removal if the claim stood and the report if that failed; kept only when the run was not terminal at its claim; in each case damage is marked, whoever interferes |
| Versions.VersionKeyInvertsShow | scripts/release_pipeline.py:28-33 | a text parses to a version exactly when, with its digits in ASCII, it is that version's one spelling and each number opens in ASCII |
| Versions.OneAsciiSpelling | scripts/release_pipeline.py:28-33 | among ASCII texts each version has exactly one spelling |
| Versions.SecondSpelling | scripts/release_pipeline.py:28-33 | any digit that is not ASCII gives a version a second spelling |
| ReleasePlan.PlanIsSound | scripts/release_pipeline.py:191-228 | a new version is 0.1.0 or the least above every tag, all of them published and ancestors, with the latest release whole; a resume has the greatest tag's own commit and that tag is the only unpublished one; refused only for a commit off the line of a tag or a latest release with files missing |
| ReleasePlan.ReleasesFormAChain | scripts/release_pipeline.py:212-258 | over all serialised runs cut off anywhere: only the greatest tag is unpublished, commits form a strict chain, no tag moves |
| ReleasePlan.Outside.AwaitQuiet | scripts/release_pipeline.py:244-249 | at most 120 polls however often main moves; by the clock readings taken, it ends on the commit last seen when main has not moved for the quiet time or the longest wait is over, sleeps only while neither is so, and looks at main after every sleep |
| ReleasePlan.Outside.Batch | scripts/release_pipeline.py:231-258 | waits exactly when unattended and the first plan is a new version, and then for a whole wait; the plan is sound for main as last seen in the repository as last read, and carrying it out as far as it goes keeps the repository orderly |
| Staging.Forge.RestoreStaged | scripts/release_pipeline.py:393-406 | returns the staged bytes exactly when the draft carries a manifest that describes them, nothing when it carries none, and refuses otherwise |
| Staging.Forge.Stage | scripts/release_pipeline.py:409-445 | succeeds exactly when the release may be staged with these files and the job lives long enough; cut off anywhere, a published or sealed release is unchanged, and a release newly sealed holds exactly the built files |
| Staging.Forge.Job | scripts/release_pipeline.py:575-592 | publishes exactly when there is no publication yet, the staged bytes are this plan's or every file was built, and the job lives long enough; the release then holds the bytes staged before, or the built files, under their manifest for this plan; a failed or cut-off job is a staging attempt |
| Staging.SealedBytesAreFinal | scripts/release_pipeline.py:375-445 | in every history of jobs with rebuilt files and crashes, a release with a manifest has every file as the manifest says, a published one has a manifest, and neither ever changes again |
| DeployGate.NextIsGuarded | scripts/release_pipeline.py:468-486 | one check, start or finish keeps the floor, the order of deployments and the cooldown |
| DeployGate.GateHolds | scripts/release_pipeline.py:619-638 | over every sequence: the floor never falls; an automatic deployment exceeds every earlier one, avoids what was released at a manual one, starts only when nothing was started before or the last thing that happened was a healthy finish, and not within the cooldown |
| DeployGate.GateOpensExactly | scripts/release_pipeline.py:468-486 | an automatic deployment is let through exactly when the state can be read, nothing was started before or the last start was finished in health, it is newer than the installed version, than all started and than all released at a manual start, and, after a first one, the last finish's cooldown is over |
| DeployGate.ManualOpensExactly | scripts/release_pipeline.py:468-486 | a manual deployment goes ahead exactly when the state can be read and the target is not what is installed or a start has not been finished in health |
| DeployGate.RefusalsNameTheReason | scripts/release_pipeline.py:468-486 | every other answer is given exactly for its own reason, by what was started and how it finished |
| DeployGate.JamsExactly | scripts/release_pipeline.py:633-638 | over every sequence of jobs, the state file becomes one that every command refuses exactly when some finish ran before anything had been started |
| DeployGate.ReadableStays | scripts/release_pipeline.py:448-465 | once there is a file, whether it can be read never changes, and an unreadable one never changes at all |
| DeployGate.LoneFinishJams | scripts/release_pipeline.py:633-638 | one finish on its own: whatever follows, no deployment, manual or not, is ever let through |
| UnitEscape.EscapeWordLayers | packages/lantern/src/lantern/homeinit.py:200-202 | the chain of replacements is backslash escaping over percent and dollar doubling |
| UnitEscape.FilledEscaped | packages/lantern/src/lantern/homeinit.py:222-244 | putting escaped paths into a plain word, one placeholder after another, escapes the filled word, even when a path mentions another placeholder |
| UnitReading.SpellingReads | packages/lantern/src/lantern/homeinit.py:196-246 | a spelled word is read as one word whatever follows it |
| UnitReading.AssignmentsReadBack | packages/lantern/src/lantern/homeinit.py:287-299 | an environment line reads as the words written, exactly when none is empty |
| UnitReading.CommandReadsBack | packages/lantern/src/lantern/homeinit.py:287-299 | a command line reads as the executable and arguments meant, exactly when there is an executable, its path does not open with a prefix character, and no argument is empty or a lone semicolon |
| UnitReading.SpelledSettles | packages/lantern/src/lantern/homeinit.py:287-299 | a line of spelled words never runs on into the next |
| UnitRender.RenderWord | packages/lantern/src/lantern/homeinit.py:205-246 | refuses exactly when some path it mentions cannot be carried; otherwise spells the filled word, on one line, and leaves the rest of the word, or a word without placeholders, alone |
| UnitRender.RulesAgree | packages/lantern/src/lantern/homeinit.py:143-166 | wherever the renderer has a rule for a directive it is the one systemd reads that directive by |
| UnitRender.RenderPathValue | packages/lantern/src/lantern/homeinit.py:249-269 | refuses exactly control characters, surrounding space and a trailing backslash; otherwise doubles the percents of the filled path |
| UnitRender.PathReadsBack | packages/lantern/src/lantern/homeinit.py:249-269 | an accepted verbatim path reads back exactly and does not run on |
| UnitRender.LineReadsBack | packages/lantern/src/lantern/homeinit.py:272-302 | an accepted directive reads, key and value, as the template meant, exactly when a unit line can say that at all |
| UnitRender.RenderUnitLine | packages/lantern/src/lantern/homeinit.py:272-302 | untouched without placeholders, filled as a comment, and otherwise refused or rendered to a line that reads as meant |
| UnitRender.RenderUnit | packages/lantern/src/lantern/homeinit.py:305-320 | refused exactly when some line is; otherwise line for line the template, exactly when no path with a newline gets into a comment |
| UnitRender.CommentsStayExactly | packages/lantern/src/lantern/homeinit.py:179-182 | a filled comment is one line exactly when no value it comes to mention has a newline in its path |
| UnitRender.CommentCanBreak | packages/lantern/src/lantern/homeinit.py:275-276 | a template whose comment alone mentions a path is accepted, and broken by a newline in it |
| UnitTogether.FillsTogetherExactly | packages/lantern/src/lantern/homeinit.py:222-244 | for absolute paths and tidy words, filling one placeholder after another is filling them all at once, exactly when the word does not mention both with the first path holding the second's name |
| UnitTogether.LineSaysItsPaths | packages/lantern/src/lantern/homeinit.py:272-302 | an accepted line of a tidy template reads as the template with the host's own paths put in at once, exactly when a unit line can say that |
| ConfigLayers.MergedLeaf | packages/lantern/src/lantern/config.py:4324-4331 | a merged key has the upper value where the upper tree decides it, the lower one elsewhere |
| ConfigLayers.LastLayerWins | packages/lantern/src/lantern/config.py:4387-4395 | a key is in the result exactly when some layer sets it and no later one replaces or hides it, and then with the last such layer's value |
| ConfigLayers.MergeAssociatesExactly | packages/lantern/src/lantern/config.py:4324-4331 | merging three trees gives the same either way exactly when, wherever all three set a key and the outer two have tables, the middle one has a table that groups or the upper one sets again all the lower one had |
| ConfigLayers.MergeDoesNotAssociate | packages/lantern/src/lantern/config.py:4324-4331 | three layers that do not group, and whose merges differ |
| ConfigLayers.MergeLoop | packages/lantern/src/lantern/config.py:4324-4331 | the copy updated key by key is the merge, in any key order |
| ConfigLayers.Flatten | packages/lantern/src/lantern/config.py:4334-4342 | exactly the scalars of the tree, each under its path |
| ConfigLayers.MergeLayers | packages/lantern/src/lantern/config.py:4387-4395 | the loop computes the merge and names for every dotted name the last layer whose flattening has it |
| ConfigLayers.SourceIsRightExactly | packages/lantern/src/lantern/config.py:4387-4395 | the layer reported for a key is the one its value came from exactly when no later layer sets another key of that dotted name |
| ConfigLayers.SourceIsRight | packages/lantern/src/lantern/config.py:4387-4395 | with no dot in any key, every key is reported under the layer its value came from |
| ConfigLayers.SharedName | packages/lantern/src/lantern/config.py:4387-4395 | two layers whose keys share a dotted name: the value is the first layer's and the second is reported |
| ConfigLayers.ProjectLayer | packages/lantern/src/lantern/config.py:4234-4248 | kept and dropped keys are disjoint and together all keys; kept are exactly the allowed ones, with their values |
| ConfigLayers.AllowedKeys | packages/lantern/src/lantern/config.py:4186-4190 | the table lets through exactly its six keys and what lies below them |
| ConfigLayers.ProjectLayerIsContained | packages/lantern/src/lantern/config.py:4180-4190 | merging the kept part changes nothing outside the allowed keys, exactly when no section it sets was a scalar below |
| ConfigLayers.DottedIsInjective | packages/lantern/src/lantern/config.py:4334-4342 | dotted names tell paths apart when no key holds a dot |
| ConfigLayers.DottedCollidesExactly | packages/lantern/src/lantern/config.py:4334-4342 | a path shares its dotted name with a path of dot-free keys exactly when one of its own keys holds a dot |
| SecretCopy.WindowSuffices | packages/lantern-worker/src/lantern_worker/registryops.py:122-132 | a value occurs in the stream so far plus a chunk exactly when it occurred before or occurs in the overlapping window |
| SecretCopy.CopyData | packages/lantern-worker/src/lantern_worker/registryops.py:116-136 | for every chunking it succeeds exactly when in time, within the limit and free of secrets as a whole stream; then the file is the stream; no secret is ever on disk |
| SecretCopy.Destination.ExecuteFetch | packages/lantern-worker/src/lantern_worker/registryops.py:282-307 | the artifact becomes the whole checked stream or stays as it was, and the partial file is gone either way |
| Workspace.ChangeMeansPresent | packages/lantern/src/lantern/hostgit.py:1301-1341 | a change is reported exactly for a touched path that is not an unpublished submodule, says what the workspace has there, and is an addition exactly when the base has nothing there or git lists it as untracked |
| Workspace.ChangesSince | packages/lantern/src/lantern/hostgit.py:1251-1298 | exactly those changes, an untracked file overriding the diff; exactly the unpublished and the dirty submodules are noted |
| Delivery.WithoutLarge | packages/lantern/src/lantern/deliver.py:853-883 | drops exactly the added or changed large files, notes exactly those, and keeps deletions |
| Delivery.AppliedLast | packages/lantern/src/lantern/deliver.py:523-532 | in a tree made from entries, the last entry for a path decides what is there |
| Delivery.Choose | packages/lantern/src/lantern/deliver.py:784-811 | exactly the deliverable changes are kept, and exactly what there is to say is noted |
| Delivery.NothingSilent | packages/lantern/src/lantern/deliver.py:784-811 | whatever differs and is not delivered is excluded by name or noted |
| Delivery.EntriesFor | packages/lantern/src/lantern/deliver.py:818-835 | one entry per change and one upload for each change with content, holding the work tree's bytes |
| Delivery.Deliver | packages/lantern/src/lantern/deliver.py:523-532 | the resulting tree is the workspace at every delivered path and the base tree everywhere else; nothing to deliver exactly when no path can be; a missing blob only when the forge left it out of one of the batches it was sent |
| Delivery.WholeWorkspace | packages/lantern/src/lantern/deliver.py:784-850 | built on the tree the diff was taken against, the result is the workspace's tree exactly when nothing that differs is ruled out |
| BlobUpload.ManifestChunks | packages/lantern/src/lantern/deliver.py:937-951 | the batches of the greedy packing: the manifest in order, no empty batch, over the cap only single files, and closed batches paid for twice over |
| BlobUpload.BatchCount | packages/lantern/src/lantern/deliver.py:937-951 | at most 2 * total / cap + 1 batches |
| BlobUpload.CreateBlobs | packages/lantern/src/lantern/deliver.py:914-934 | every uploaded path with a sha under which exactly its bytes are stored, exactly when no batch sent came back short; otherwise an error naming a file left out of the batch it was sent in |
| Base64.DecodeInvertsEncode | packages/lantern/src/lantern/deliver.py:943-943 | decoding undoes encoding |
| Base64.EncodedLength | packages/lantern/src/lantern/deliver.py:943-943 | four symbols for every three bytes begun |
| ForgeIds.ParsesByTheGrammar | packages/lantern/src/lantern/ghids.py:201-237 | an id parses, and to what it spells, exactly when it is spelled by the grammar |
| ForgeIds.SlugsAre | packages/lantern/src/lantern/ghids.py:46-48 | a slug is an owner and a name of slug characters, with exactly one slash between |
| ForgeIds.ParseInvertsFormat | packages/lantern/src/lantern/ghids.py:73-93 | formatting succeeds exactly on well-formed ids and parsing returns the same kind, number, repository and forge |
| ForgeIds.FormatIsInjective | packages/lantern/src/lantern/ghids.py:73-93 | no two ids share a form |
| ForgeIds.NormalizeIsCanonical | packages/lantern/src/lantern/ghids.py:245-254 | keeps the id, is idempotent, and gives two spellings one form exactly when they name the same thing |
| ForgeIds.CanonicalSpelling | packages/lantern/src/lantern/ghids.py:245-254 | a spelling is already canonical exactly when its kind is there and its number has no leading zero |
| ForgeIds.LegacyIsAnIssue | packages/lantern/src/lantern/ghids.py:224-236 | the bare form is the issue of that number |
| ForgeIds.LeadingZeroIsDropped | packages/lantern/src/lantern/ghids.py:231-236 | a leading zero names the same issue |
| ForgeIds.ScheduleReadsBack | packages/lantern/src/lantern/ghids.py:137-159 | schedule ids read back though the due part may hold colons |
| ForgeIds.ScheduleParsesExactly | packages/lantern/src/lantern/ghids.py:152-159 | a schedule id parses to exactly the name before its first colon and the due part after it, neither empty |
| ForgeIds.ScheduleIdsAre | packages/lantern/src/lantern/ghids.py:137-144 | the ids that are made are exactly those that parse and hold no white space |
| ForgeIds.LocalIsNotForge | packages/lantern/src/lantern/ghids.py:177-195 | no id is both local and a forge's, and normalising leaves local ids alone |
| ResourceLatch.DiagnosedSnoc | packages/lantern-worker/src/lantern_worker/runner.py:482-496 | the latch keeps the first disk-tripped sample's diagnosis if any, else the first abort's |
| ResourceLatch.DiagnosedMeans | packages/lantern-worker/src/lantern_worker/runner.py:482-496 | there is a diagnosis exactly when some sample aborted, and it blames the disk exactly when some sample's disk tripped |
| ResourceLatch.LevelIsTheWorse | packages/lantern-worker/src/lantern_worker/resources.py:56-82 | a sample is as bad as the worse of its disk and memory readings |
| ResourceLatch.DiagnosedFigures | packages/lantern-worker/src/lantern_worker/runner.py:482-496 | the diagnosis has the figure and the limit of the first sample past the disk limit or, with none, of the first past the memory limit |
| ResourceLatch.Runner.SampleAndEmit | packages/lantern-worker/src/lantern_worker/runner.py:457-480 | after any samples the level is the last one's, the warnings are the strict rises in severity and the latch is the history's diagnosis |
| ResourceLatch.Runner.Finish | packages/lantern-worker/src/lantern_worker/runner.py:180-195 | an ok result is never altered; a failed one is reported under the diagnosis exactly when some sample aborted |
| LaneFold.FoldLanes | packages/lantern/src/lantern/analytics.py:331-354 | each kind's lane is the one-pass lane of its own rows, and all lanes together are the one-pass lane of all rows |
| LaneFold.LaneOf | packages/lantern/src/lantern/analytics.py:416-435 | the one-pass lane |
| LaneFold.LaneCounts | packages/lantern/src/lantern/analytics.py:416-435 | a lane counts the rows that landed, failed and were cancelled by their states, and sums turns, tokens, cache and times, with no negative elapsed time |
| LaneFold.OrderDoesNotMatter | packages/lantern/src/lantern/analytics.py:221-238 | how rows interleave changes no counter |
| LaneFold.IndexIsRange | packages/lantern/src/lantern/analytics.py:364-366 | a row falls in a bucket exactly when it was created in the bucket's time range, the last one open above |
| LaneFold.FoldBuckets | packages/lantern/src/lantern/analytics.py:329-374 | each bucket has exactly the rows created in its time range, and the buckets sum to the rows created at or after the window's start |

## Left out

- ResidentServer.Server.Handle: JSON decoding and validation of a line are one abstract function, required only to name the job a valid request is for; UTF-8 decoding and trimming are another.
- ResidentServer.Server.Run: the endless loop is run over any finite list of wakes, and the order in which children are visited within a turn is free; a broken stdout pipe and the real exit code are not modelled, nor is a stale result file under a reused id.
- ResidentServer.Server.Forward: events files only grow; when the last read of an exited child's file fails, what was never read is never forwarded, as in the source.
- GcProtocol.DamageIsMarked: classification by age, sizes, `dry_run` and the totals over many runs; one run stands for each, since runs do not share a directory.
- GcProtocol.HazardIsExact: the provider, chat and configuration steps of a resume between its guards and its work, which touch neither the state nor the directory.
- RunGc.Host.MarkAndRemove: clearing everything under the staging area at a sweep's start is the step `ReclaimStaged`, available to the others.
- ReleasePlan.PlanIsSound: tags are made only by this pipeline's serialised runs; tag names that are not canonical versions are not modelled.
- Staging.SealedBytesAreFinal: publication is the job's, which follows a staging that succeeded; the `publish` command run by hand on a draft without a manifest would publish it, since it does not look.
- Staging.Forge.Stage: creating one asset is atomic and one upload command uploads its files in any order; SHA-256 is an arbitrary function, so a manifest entry fixes a file's digest.
- DeployGate.GateHolds: clocks are integers as given; `api.latest` and the health check are parameters of the events.
- Versions.VersionKeyInvertsShow: which characters are digits beyond ASCII is a parameter.
- UnitRender.RenderUnit: the reader leaves out numeric escapes (refusing them, so nothing is claimed to read that does not) and systemd's path simplification and length limits; read with the manual's wording alone, a line ending in an escaped backslash would run on.
- UnitTogether.FillsTogetherExactly: is for at most two values, absolute paths, and words in which a placeholder is followed by a slash or the end, as in every packaged unit.
- UnitRender.RenderUnitLine: which of several refusals is reported first.
- UnitRender.LineReadsBack: templates with specifiers, quotes, backslashes, dollars or characters outside printable ASCII of their own; a value with a percent of its own is rendered as it stands.
- ConfigLayers.MergeLayers: lists are scalars; the environment layer, discovery and field validation are not modelled.
- ConfigLayers.ProjectLayer: dropped keys are paths here, where the source reports their dotted names.
- SecretCopy.CopyData: the clock is the number of chunks read before the deadline; the credentials searched for, URLs and redirects are not modelled.
- SecretCopy.Destination.ExecuteFetch: the git bundle branch differs only in where the stream comes from.
- Workspace.ChangesSince: a tree is a flat map of file paths; nested repositories where the index has no submodule are ruled out by `Valid`; sorting by path and the report lines are not modelled.
- Delivery.Deliver: the snapshot plan used without a base commit, workflow permission checks, commits, branches and pull requests.
- Base64.DecodeInvertsEncode: symbols are six-bit groups, before an alphabet is chosen.
- ForgeIds.ParsesByTheGrammar: the interpreter's limit on the length of decimal literals; chat and API keys, which have no grammar.
- ResourceLatch.Runner.SampleAndEmit: samples are atomic; the baseline sample and the heartbeat thread do not interleave inside one.
- ResourceLatch.Runner.Finish: a message is its cause and figures, not its text; the detail is the whole underlying failure, not its tail.
- LaneFold.FoldLanes: times are real numbers; the top lists, failure reasons and rework totals are not modelled.
- LaneFold.FoldBuckets: the run, turn and outcome counters of a day are one record.
- The forge's HTTP transports, the store's SQL, git's object storage, LFS transfer and submodule population are not part of this model.
- Home migration, installers, probes, chat, backends, recipes, redaction and credential routing are not part of this model.
