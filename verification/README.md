# A verified model of the force-analysis platform's core

This project models the parts of the repository where a mistake would be silent, and proves what those
parts promise. One module stands for one source component; where a component keeps state, a class or a
method with loops mirrors its code and is proved against a specification, and the lemmas are about that
specification.

* **Recipe engine** (`Recipe`, `Registry`, `Runner`, `Ops`, `Angular`, `CheckerSoundness`,
  `StepValues`, `ColumnSources`, `RecipeLengths`, `PublicColumns`, `UnequalColumns`, `PrefixCache`, `SmallRecording`). A recipe is a list of typed steps; `ValidateRecipe` checks it,
  `RunRecipe` executes it over named columns, from and up to any step. The statistics inside a step are
  an arbitrary `Library`, so nothing depends on their numerics; what each step reads and where it raises is
  that of the code. The central results are that a cached prefix may stand in for the steps that made it,
  with the exact condition, that the checker is sound for missing columns and exactly how far it is
  complete, and exactly when all public columns of a one-grid recipe have one length, a whole number of
  revolutions. What the columns hold is said without naming a step's code: the grid follows each recorded
  column along its own chords, the residual is the signal less the mean of its phase, and a returned column is
  the beginning of what the last step to produce it handed back. `SmallRecording` is the concrete recording of one revolution on which the counterexamples run.
* **Live backup** (`BackupServer`, `BackupProtocol`, `SessionLife`). Handlers are atomic steps on the stored sessions; a
  run interleaves them with a streamer that cuts messages from a file that only grows, over a channel
  that loses, repeats, delays and reorders. Whatever is stored is always a prefix of the recording,
  and a session is complete exactly when it was finished, whatever arrives late.
* **Statistics** (`Knn`, `KnnDistances`, `BenjaminiHochberg`, `Medians`, `Detrend`, `RobustScore`,
  `DetrendInvariance`, `Layers`, `PolygonFill`). Neighbours independent of how a search tree breaks ties, and
  nearest by their true distances; step-up selection; medians by counting, a two-pass robust score, what it
  measures and its invariances; and even-odd fill as plane geometry.
* **Codecs and calendar** (`Int32`, `Bytes`, `Rfc1321`, `Md5`, `D1an`, `D1anLayout`, `PlainObject`, `Csv`, `Calendar`, `Activity`,
  `Compare`, `CutDifference`). MD5 in JavaScript's operators against RFC 1321, one writer and two readers of the D1AN
  file, a CSV writer against a strict reader of section 2 of RFC 4180, ISO 8601 weeks on ECMAScript's
  calendar, and the forward-pointer interpolation behind the difference of two cuts.
* **Rules, genealogies and queues** (`AccessRules`, `RuleMeaning`, `OwnerGuards`, `AccessGuard`,
  `Trace`, `ArchiveSweep`, `OctreeQueue`, `DiagQueue`). A rule compiler that preserves meaning, the hook
  that enforces its output, reachability over partly hidden genealogies, the re-pointing of moved files,
  and two build queues with any number of workers and pages.

`Wrappers`, `Numpy`, `Arith` and `Indices` hold what several modules share.

Numbers are unbounded reals and integers except where the width is the point (`Int32`, `Md5`, `D1an`).
Sort orders that NumPy leaves open (`argsort` among ties) and the neighbours a k-d tree returns are
parameters, constrained only by what the library documents.

## Where the code does not keep a promise

* **The recipe check** asks `grow_segmentation` for `resid_z`, and the step reads only `x` and `y`: a feature
  that is not among the columns is left out (`ops.py:264`, `ops.py:275-276`). `MissingColumnRaisesExactly`
  says which steps really raise: an enabled step that a run reaches without a declared column raises if and
  only if it is not a `grow_segmentation` with its points there, or raises for a reason of its own.
  `GrowRunsWithoutItsScore` is a recipe the check refuses and the step loop would run.
* **Column lengths.** `run_recipe` is documented to return all public columns at one length
  (`runner.py:167-168`). An `invert` may name a recorded column, which is not on the angular grid: with
  `source` fx, `ForceInversionBreaks` is a recipe that returns 2 entries of `inverted` beside 256 of every
  other column. For recipes with one grid `PublicColumnsAgreeExactly` says when the lengths agree, from the
  list, the recorded lengths and the angles alone; with a second `angular_resample` they need not
  (`SecondGridBreaks`). For every work dict of whatever recipe, `AssembledAgreeExactly` is the condition.
* **Prefix reuse.** `runner.py:137-142` and `runner.py:202-207` read the first `angular_resample` and
  `frame_transform` of the list even when they are switched off, and `prefix_hash` drops switched-off
  steps. Two accepted recipes with equal prefixes can thus need different work. `ReuseIsExact` states when
  reuse is right (if and only if both lists thread the same parameters into the prefix),
  `CachedPrefixIsSound` gives a condition on each list alone, and `SwitchedOffStepBreaksReuse` gives two
  lists with one payload that the registered steps turn into 256 and 1 samples a revolution.
* **Radial detrending** is unchanged by a positive rescaling only where the fit has spread. `ScoreScales` is
  the exact condition of one pass; for the whole function, `UnitsMatterExactly` says that, where the flags of
  the first fit stay (`FlagsKeptExactly`), a score reads the units exactly when the last fit has no spread
  there and the point is off its trend; `UnitsMatterWithoutSpread` is an input where it doubles, and
  `FlagsMatter` one where a changed flag alone changes a score.
* **Benjamini-Hochberg** depends on the sort's treatment of ties exactly when a tie straddles the last
  marked rank (`OrderMattersOnlyAcrossTies`). Where the rate or all the values are at least 0 it never does
  (`SoundIgnoresOrder`); `NegativeRateReadsTies` shows that the condition is needed.
* **Build queue.** The octree of a build is published in the directory of its operation
  (`force_orchestrator.py:960-961`), and an operation can have several rows (`force_orchestrator.py:257-272`).
  With one worker and no edit at all, the second file replaces the first one's octree while the first row
  goes on saying `done` (`SharedDirectoryBreaks`). Two more ways to go wrong are a page that saves a crop
  while it shows an outdated status (`StalePageBreaks`), and a second claim of a row under way
  (`SecondClaimBreaks`). The exact condition of a step is `StepKeepsCurrentExactly`, that of a run of any
  number of workers `RunIsCurrentExactly`, and that of a single worker `OneWorkerRun`; `AttentiveRun` gives
  a discipline under which all is well.
* **Access guard.** An update is to leave a row only with parents the caller may use. For a row that gets a
  new parent this holds, whatever the caller may use and delete, if and only if the update does not send the
  owner column and the hook sees some row repointed (`NewLinksArePermittedExactly`). An update that sends the
  owner column is judged by that column alone (`index.js:201-205`, `OwnerColumnSkipsGuards`); no collection
  of the shipped `access_rules.json` has both kinds of guard. And the hook compares `String()` texts
  (`index.js:223`): a row without a parent takes the key `null` for what it has (`NullTextSkipsGuards`), the
  only new parent it does not see (`GainIsSeen`).
* **D1AN in the browser.** The columns are collected in a plain object. Assigning to `__proto__` adds no entry
  and makes that column's array the prototype; a name first listed after it then throws if it is one of
  `length`, `byteLength`, `byteOffset` and `buffer`, and is dropped if it is a number and no index of the
  array (`LaterNamesSuffer`). `HeldExactly` says which columns are held; all of them are if and only if none
  is called `__proto__` (`BrowserKeepsAllExactly`).
* **Interpolation.** The comment at `compare.ts:18-22` says it mirrors `np.interp`; at a repeated knot the code takes the
  first of the repeated values and NumPy the last. `AgreesWithNumpy` is the exact condition.
* **Weekly counts.** The comment at `activity.ts:85` says dates in the future are ignored; the code counts
  those that fall in the current week (`FutureDateCounted`, and so `CountsSum`): dates in the future are ignored
  if and only if none lies in the rest of the current week (`FutureIgnoredExactly`). `weekStart` builds its date with the
  `Date` constructor, which reads the years 0 to 99 as 1900 to 1999: `WeekStartIsMonday` says it is right in
  all other years and only there.
* **MD5** allocates its buffer with 32-bit shifts, which give the padded length exactly below
  2^31 - 72 bytes (`PaddedLengthExact`).
* **Diagnostics queue.** The comment at `force_orchestrator.py:1338-1340` says a finished row whose recipe
  hash no longer matches is claimed again; `claim_diag` only tests whether the hash is NULL. The model
  follows the query.
* **D1AN names.** The two readers agree on a name field exactly when nothing follows its first NUL
  (`NameReadersAgree`); fields the writer makes from NUL-free names are such.

## Model

| member | source | states |
|---|---|---|
| `Registry.ValidateRecipe` | scripts/diag/registry.py:161-183 | accepts exactly the lists with distinct ids, known ops and, for every enabled step, all required columns among the seeds and what earlier enabled steps produce; an error is the complaint about the first offending step |
| `Registry.ProducerOf` | scripts/diag/registry.py:161-183 | a column that counts as available and is no seed has an enabled step that produces it |
| `Registry.ResolvedMasksFit` | scripts/diag/registry.py:98-158 | every mask resolved from a painted layer, single or listed, has the shape of x: one entry per grid point, or none of them before there is a grid; an absent mask means the layer is missing; listed names are distinct; base-tier steps never get one |
| `Registry.MaskIsUnion` | scripts/diag/layers.py:56-65 | a mask over the grid is true exactly where some ring contains the point; refused exactly for a ring of fewer than three vertices or y that does not broadcast to x |
| `Registry.ResolvedMasksHold` | scripts/diag/registry.py:116-157 | a single binding is the mask of its layer, or none where the layer is missing and not required; a list is the masks of the layers there are, each once and in the order of the recipe, and not empty where required |
| `Runner.RunRecipe` | scripts/diag/runner.py:145-282 | for any start, stop and emit list, the imperative executor returns the specified columns or error: validation first, then the steps from `from_step` to `stop_after`, then the assembly (of the pair it returns, the columns) |
| `Runner.RunSteps` | scripts/diag/runner.py:178-218 | the step loop, with its skips, its early break and its threading, is the fold of single steps over the index range |
| `Runner.Resume` | scripts/diag/runner.py:185-218 | stopping after k and resuming from the work dict left there is the uninterrupted run |
| `Runner.FailurePersists` | scripts/diag/runner.py:185-218 | a step that raises decides the outcome of every longer run |
| `Runner.StopThenStart` | scripts/diag/runner.py:178-190 | `stop_after` includes its step: a run from the next one completes it |
| `Runner.IntTruncates` | scripts/diag/runner.py:199-200 | `int()` of a number truncates towards zero |
| `Ops.StepKeepsContract` | scripts/diag/ops.py:42-403 | a registered step that returns, returns exactly the columns it declares, and asks for a truncation if and only if it is tsa |
| `Ops.StepHasDemands` | scripts/diag/ops.py:42-403 | a registered step that returns had the columns it reads whatever its parameters, which can be fewer than it declares |
| `StepValues.ResampledColumns` | scripts/diag/ops.py:74-88 | of a registered angular_resample that returns: rev is spaced by 1 / rate from the first angle on, as far as the span reaches; t, x, y and sig follow t_raw, x_raw, y_raw and the chosen channel, at every angle on the chord between the two samples around it |
| `StepValues.LinearColumnStays` | scripts/diag/ops.py:80-84 | whatever is linear in the angle stays so, each column with its own coefficients |
| `StepValues.ResidualColumn` | scripts/diag/ops.py:96-113 | of a registered tsa that returns: the rate is the one given, or read off the grid where that is absent or zero; the residual is sig less the mean of its phase over the whole revolutions, and cuts to them |
| `StepValues.EnvelopeRefused` | scripts/diag/ops.py:221-243 | without a positive frequency, or with one whose band reaches half the mean sample rate, the column is zeros at the length of the residual |
| `StepValues.EnvelopeComputed` | scripts/diag/ops.py:247-250 | otherwise it is the envelope of the chosen channel, resampled to the grid and cut to that length |
| `StepValues.DeclaredSuffices` | scripts/diag/ops.py:74-107 | angular_resample and tsa read no column they do not declare |
| `StepValues.ReadsAreDeclared` | scripts/diag/ops.py:42-403 | what a step must have, and what a statistic reads, is declared |
| `ColumnSources.StepCalls` | scripts/diag/runner.py:190-217 | an enabled step is called with its own parameters threaded and its own layers resolved against x and y as they stand; a disabled one changes nothing |
| `ColumnSources.WorkColumn` | scripts/diag/runner.py:185-218 | after any prefix a column is what the last enabled step to produce it handed back, but for entries cut off the end of an angular column |
| `ColumnSources.ReturnedColumn` | scripts/diag/runner.py:263-282 | so is every public column a whole run returns, no longer than the residual |
| `ColumnSources.AssembledColumn` | scripts/diag/runner.py:268-282 | a column of the result is as many first entries of the work column as the residual has, or the fill value at its length |
| `ColumnSources.FilledColumn` | scripts/diag/runner.py:268-282 | a public column that no enabled step produces is the fill value throughout |
| `ColumnSources.FillValues` | scripts/diag/runner.py:276 | the fill value is -1 for `segment_id` and `gmm_id` and 0 for every other column |
| `ColumnSources.PublicIsAngularExactly` | scripts/diag/runner.py:44-98 | the public columns, and the ones a truncation cuts, are exactly those the registered steps produce, but for the forces and the signal |
| `ColumnSources.EmittedColumns` | scripts/diag/runner.py:248-261 | an emit list returns exactly the named columns as they are, or names the first one missing |
| `ColumnSources.OwnParams` | scripts/diag/runner.py:192-209 | a step keeps its own parameters and inherits at most the rate and the channel |
| `ColumnSources.InheritedChannel` | scripts/diag/runner.py:203-209 | the channel comes from the first frame_transform listed, `fp` where that names none |
| `ColumnSources.InheritedRate` | scripts/diag/runner.py:199-200 | the rate comes from the first angular_resample listed, if that gives one |
| `CheckerSoundness.WorkHoldsHave` | scripts/diag/runner.py:185-218 | after any prefix the executor holds exactly the columns the checker believes available |
| `CheckerSoundness.CheckerIsSound` | scripts/diag/registry.py:161-183 | in an accepted recipe every enabled step that is reached finds all its required columns |
| `CheckerSoundness.CheckerIsComplete` | scripts/diag/registry.py:161-183 | an enabled step without a declared column makes the run raise, unless it is a grow_segmentation with its points: for any other op nothing runnable is refused for a missing column |
| `CheckerSoundness.MissingColumnRaisesExactly` | scripts/diag/ops.py:42-403 | of the enabled steps a run reaches without a declared column, exactly those raise that are not a grow_segmentation with its points, and of those the ones with a reason of their own |
| `CheckerSoundness.RunIsClosed` | scripts/diag/ops.py:42-403 | whatever recipe is run, what a step brings is there as a whole and its sources with it, so that reading one declared column implies having the others |
| `CheckerSoundness.GrowNeedsOnlyPoints` | scripts/diag/ops.py:264-276 | with x and y there, grow_segmentation raises exactly for a parameter, a layer or a value, whether or not resid_z is there |
| `CheckerSoundness.GrowRunsWithoutItsScore` | scripts/diag/ops.py:275-276 | a list of frame_transform, angular_resample and grow_segmentation that the check refuses for resid_z and the step loop runs to its end |
| `RecipeLengths.TsaSeesRate` | scripts/diag/ops.py:96-121 | tsa works with the rate of the grid, whether the rate is threaded to it or read off the spacing of `rev` |
| `RecipeLengths.TsaLengths` | scripts/diag/ops.py:96-121 | the residual is a positive whole number of revolutions, no longer than the signal, and is the length everything else is cut to |
| `RecipeLengths.EnvelopeLength` | scripts/diag/ops.py:218-265 | the full-rate envelope comes back at the truncated angular length |
| `RecipeLengths.StatisticLength` | scripts/diag/ops.py:124-215 | once averaged, a statistic scores every angular point and nothing else |
| `RecipeLengths.StepKeepsStage` | scripts/diag/ops.py:42-403 | every step of a one-grid recipe keeps the invariant on the lengths of all columns: before the grid, on the grid, averaged |
| `PublicColumns.PublicColumnsAgreeExactly` | scripts/diag/runner.py:145-282 | with one angular_resample, one tsa and the rate set only on the former, a run that returns has exactly the public columns, all but `inverted` of one length, the whole revolutions of the grid; `inverted` has it if and only if nothing was inverted, or the last inversion goes back to an angular column or to a recorded one with at least as many entries |
| `PublicColumns.PublicColumnsAgree` | scripts/diag/runner.py:145-282 | so all public columns have that length if every invert reads an angular column |
| `PublicColumns.DefaultColumnsAgree` | scripts/diag/recipe.py:25-68 | the default recipe is accepted and is such a list |
| `RecipeLengths.AssembledAgreeExactly` | scripts/diag/runner.py:268-282 | for every work dict, of whatever recipe: the assembled columns have one length if and only if no public column is shorter than the residual |
| `UnequalColumns.ForceInversionBreaks` | scripts/diag/ops.py:295-325 | over one recorded revolution, averaging at 256 samples and inverting fx returns 256 and 2 entries |
| `UnequalColumns.SecondGridBreaks` | scripts/diag/ops.py:62-90 | averaging at 256 samples and then resampling at 1 returns 256 residuals and one time |
| `RecipeLengths.DefaultHasOneGrid` | scripts/diag/recipe.py:25-68 | the default recipe is accepted and is such a list |
| `PrefixCache.PrefixRunsPayload` | scripts/diag/recipe.py:86-98 | running a prefix depends on nothing but the payload that `prefix_hash` digests and the parameters threaded from the list |
| `PrefixCache.ReuseIsSound` | scripts/diag/recipe.py:75-98 | if two lists have one payload up to k and thread the same parameters into it, resuming the second from the work of the first gives the result of the second's full run, for any stop and emit |
| `PrefixCache.ReuseIsExact` | scripts/diag/runner.py:137-142 | that condition is exact: it holds if and only if step functions that record what they are given leave the same work on both lists |
| `PrefixCache.SteadyThreadsAgree` | scripts/diag/runner.py:197-207 | accepted lists whose first angular_resample and frame_transform are enabled thread the same parameters into every shared payload |
| `PrefixCache.CachedPrefixIsSound` | scripts/diag/recipe.py:75-98 | for such lists and the registered steps, over any library and layers, resuming from a cached prefix with an equal payload is the full run |
| `PrefixCache.SwitchedOffStepBreaksReuse` | scripts/diag/runner.py:137-142 | without it reuse fails for the registered steps over a recording of one revolution: two accepted lists with equal payloads, of which resuming the one from the work of the other gives another signal than its own run |
| `PrefixCache.EqualHashesMayReuse` | scripts/diag/recipe.py:86-98 | for accepted lists with enabled first producers and a digest without collisions, equal prefix hashes at any two positions mean that resuming after the second prefix from the work of the first is the full run |
| `PrefixCache.DefaultIsSteady` | scripts/diag/recipe.py:25-68 | the default recipe is such a list |
| `PrefixCache.ProducerBefore` | scripts/diag/registry.py:161-183 | in an accepted list an enabled consumer of a non-seed column has an enabled producer before it |
| `Angular.GridInsideSpan` | scripts/diag/angular.py:43-48 | every grid point is at or past the first angle and strictly before the last one, and at most two steps of the span are left after the grid |
| `Angular.TsaSplit` | scripts/diag/angular.py:51-65 | refuses exactly signals shorter than one revolution; otherwise the signature has one revolution, the residual all whole revolutions, and residual is signal minus signature phase by phase |
| `Angular.SignatureIsMean` | scripts/diag/angular.py:63-64 | the signature times the number of revolutions is the sum of the signal at that phase |
| `Angular.SampleCountsOnce` | scripts/diag/angular.py:63 | raising one sample raises the sum of its own phase by as much, if its revolution is complete, and no other |
| `Angular.LineStays` | scripts/diag/angular.py:47-48 | a signal that is linear in the angle keeps its values on the grid |
| `Angular.ResidualZeroMean` | scripts/diag/angular.py:63-65 | every phase of the residual sums to zero |
| `Angular.TsaReconstructs` | scripts/diag/angular.py:51-65 | signature plus residual is the signal, and less than one revolution is cut |
| `BackupServer.Server.IngestStart` | apps/force-app/backup-server/server.py:250-295 | a start never shortens a raw file that has bytes nor clears its meta; otherwise it writes the header and fresh meta; the state is that of a function that follows the handler branch by branch, and its meaning is what BackupProtocol proves of it (StartRaw) |
| `BackupServer.Server.IngestChunk` | apps/force-app/backup-server/server.py:298-352 | the handler leaves the storage and the answer of the offset-addressed append, with every refusal; the state is that of a function that follows the handler branch by branch, and its meaning is what BackupProtocol proves of it (ChunkRaw) |
| `BackupServer.Server.IngestFinish` | apps/force-app/backup-server/server.py:355-376 | complete unless tombstoned, unreadable meta untouched; the state is that of a function that follows the handler branch by branch, and its meaning is what `SessionLife.FinishCompletes` and `SessionLife.CompleteExactly` prove of that function |
| `BackupServer.Server.MarkDeleted` | apps/force-app/backup-server/server.py:414-440 | the handler leaves the tombstone and promises the expiry; the state is that of a function that follows the handler branch by branch, and its meaning is what BackupProtocol proves of it (MarksAreIdempotent, ExpiryIsHonest) |
| `BackupServer.Server.UnmarkDeleted` | apps/force-app/backup-server/server.py:443-461 | the handler restores the state kept under the tombstone and nothing else; the state is that of a function that follows the handler branch by branch, and its meaning is what BackupProtocol proves of it (UnmarkUndoesMark) |
| `BackupServer.Server.Delete` | apps/force-app/backup-server/server.py:464-470 | the handler removes the session, or answers that there is none; the state is that of a function that follows the handler branch by branch, and its meaning is what BackupProtocol proves of it (MetaOnly) |
| `BackupServer.Server.PurgeExpired` | apps/force-app/backup-server/server.py:188-213 | one sweep removes the expired sessions and no other; the state is that of a function that follows the handler branch by branch, and its meaning is what BackupProtocol proves of it (PurgeIsExact) |
| `BackupProtocol.ChunkRaw` | apps/force-app/backup-server/server.py:320-341 | an addressed chunk is accepted if and only if it leaves no gap; then the file is the old file and the chunk's bytes past its end, and it holds everything up to the chunk's end; a refusal changes nothing |
| `BackupProtocol.StartRaw` | apps/force-app/backup-server/server.py:264-284 | a start sets the raw file to its header only where there were no bytes |
| `BackupProtocol.MetaOnly` | apps/force-app/backup-server/server.py:355-461 | finish, mark and unmark never touch a raw file; delete and purge remove it whole or not at all |
| `BackupProtocol.InitInv` | apps/force-app/backend/app/backup.py:315-362 | a streamer that starts satisfies the run invariant, by which its session exists on the server only with the header |
| `BackupProtocol.StepInv` | apps/force-app/backup-server/server.py:250-376 | every event keeps the invariant, and only a delete or purge shortens the stored file |
| `BackupProtocol.StoredIsAlwaysPrefix` | apps/force-app/backup-server/server.py:311-341 | after any run, under loss, repetition, delay and reordering, the stored file is a prefix of the recording, and without a delete or purge it has only grown |
| `BackupProtocol.ResendCompletes` | apps/force-app/backend/app/backup.py:352-395 | one resend of everything past the last acknowledged offset is accepted and completes the stored file |
| `BackupProtocol.DeliveriesAccumulate` | apps/force-app/backend/app/backup.py:380-417 | bounded messages among any other traffic leave the server holding all that their deliveries cover in turn |
| `BackupProtocol.RecoveryCompletes` | apps/force-app/backend/app/backup.py:380-417 | a run whose deliveries cover the recording from the acknowledged offset ends with the whole file stored |
| `BackupProtocol.TombstoneSticks` | apps/force-app/backup-server/server.py:366-373 | no late finish, replayed start or chunk, or repeated mark turns a tombstone back, nor loses the state it keeps |
| `BackupProtocol.TombstoneSurvivesRun` | apps/force-app/backup-server/server.py:264-283 | the same over any run of such events |
| `BackupProtocol.UnmarkUndoesMark` | apps/force-app/backup-server/server.py:443-461 | a restore after a mark and any such events in between gives back the state, the configuration and every stored byte |
| `BackupProtocol.ExpiryIsHonest` | apps/force-app/backup-server/server.py:428-440 | a marked session is removed by a sweep exactly when the sweep's clock is past the promised expiry |
| `BackupProtocol.MarksAreIdempotent` | apps/force-app/backup-server/server.py:428-432 | repeating the mark any number of times changes nothing, so it cannot extend a session's life |
| `BackupProtocol.RestoreKeepsClock` | apps/force-app/backup-server/server.py:443-461 | a restore leaves the retention clock alone exactly when the tombstone carries one (or was last written now) |
| `BackupProtocol.PurgeIsExact` | apps/force-app/backup-server/server.py:191-213 | a sweep keeps a session if and only if its own stamp is within the retention period, and keeps it unaltered |
| `BackupProtocol.OthersUntouched` | apps/force-app/backup-server/server.py:250-352 | messages about one session change no other |
| `SessionLife.SafeIdExactly` | apps/force-app/backup-server/server.py:56-71 | an id is safe if and only if it is its own last part on POSIX and on Windows, holds no NUL, and names neither the storage nor a parent |
| `SessionLife.RefusedChangesNothing` | apps/force-app/backup-server/server.py:250-470 | a refused request changes nothing, and each handler says exactly which it refuses; 409 to a chunk is exactly a gap |
| `SessionLife.StartOpens` | apps/force-app/backup-server/server.py:264-295 | a start of a session without bytes opens it as streaming with the configuration and the time given; one with bytes keeps the meta there is |
| `SessionLife.ChunkRestartsClock` | apps/force-app/backup-server/server.py:336-352 | a chunk that brings bytes is counted and lets the session live one retention period from now; one that brings none changes nothing |
| `SessionLife.UnaddressedAppends` | apps/force-app/backup-server/server.py:336-341 | a chunk without an offset is appended as it comes |
| `SessionLife.FinishCompletes` | apps/force-app/backup-server/server.py:363-373 | a finish makes every session with readable meta that is no tombstone complete, notes its own clock and restarts the retention clock; a tombstone stays one |
| `SessionLife.CompleteExactly` | apps/force-app/backup-server/server.py:355-376 | over any run without a mark or an erasure, the state is complete if it was or a finish of the session came, and otherwise what it was; the time on record is that of the last finish; starts and chunks take nothing back |
| `SessionLife.CompleteComesBack` | apps/force-app/backup-server/server.py:414-461 | a finished session that is marked, with any such traffic after it, and restored, is complete again |
| `SessionLife.StreamsUntilFinished` | apps/force-app/backup-server/server.py:287-373 | from its first start a session is streaming with that start's configuration until it is finished |
| `SessionLife.MarkNotes` | apps/force-app/backup-server/server.py:433-440 | a mark notes its time and the state it hides |
| `SessionLife.RestoreNeedsTombstone` | apps/force-app/backup-server/server.py:449-461 | a restore changes tombstones and nothing else, and gives `unknown` where no state was kept |
| `Knn.KnnDeterministic` | scripts/diag/spatial.py:30-70 | returns, row by row, the k first points of the whole set in (rounded distance, index) order and their distances, for every tree that answers with some nearest points |
| `KnnDistances.NearestAreReturned` | scripts/diag/spatial.py:30-70 | in terms of the distances alone: nothing left out is nearer than anything kept, nor kept earlier than something nearer, by more than a billionth of some distance of the problem no smaller than any returned, or by nothing if all returned are zero; points at one distance, or nearest to one multiple of that unit, come in index order, after the query itself where asked; every returned distance is that of its index |
| `Knn.GrowWindow` | scripts/diag/spatial.py:49-70 | the doubling loop terminates with the first points of the whole set at the rounding unit of the window it stops at |
| `Knn.QueryWindow` | scripts/diag/spatial.py:54-69 | one pass decides whether the window is complete, and a complete pass already has the result |
| `Knn.Tolerance` | scripts/diag/spatial.py:57-58 | the rounding unit is the largest distance of the window times the tie tolerance, or 1 |
| `Numpy.RoundIsNearest` | scripts/diag/spatial.py:59 | no integer is nearer to a number than its rounding, and of two equally near ones it is even |
| `Knn.SortRow` | scripts/diag/spatial.py:62-68 | the row in (key, index) order, and whether its last key exceeds the k-th |
| `Knn.CompleteIsFirst` | scripts/diag/spatial.py:66-69 | a complete window, sorted, starts with the k first points of the whole set: nothing left out could precede them |
| `Knn.FirstIsUnique` | scripts/diag/spatial.py:39-40 | there is only one such list, so the specification determines the answer |
| `Knn.SelfComesFirst` | scripts/diag/spatial.py:43-45 | with self_first a point is its own first neighbour at distance zero, among however many duplicates |
| `Knn.TolAgrees` | scripts/diag/spatial.py:57-58 | windows of one width have one rounding unit, whichever ties they keep |
| `Knn.RowCompleteAgrees` | scripts/diag/spatial.py:66-68 | windows of one width are complete together |
| `Knn.FinalAgrees` | scripts/diag/spatial.py:53-70 | so every tree makes the loop stop at the same window |
| `Knn.TreeDoesNotMatter` | scripts/diag/spatial.py:39-40 | two trees that break ties differently give the same distances and indices |
| `BenjaminiHochberg.BenjaminiHochberg` | scripts/diag/spatial.py:123-137 | marks the first ranks of the given order up to the largest that passes; when the rate or all the values are at least 0, a point is marked exactly when it is rejected by the definition that mentions no order |
| `BenjaminiHochberg.StepUp` | scripts/diag/spatial.py:129-137 | the same for any thresholds |
| `BenjaminiHochberg.ThresholdShares` | scripts/diag/spatial.py:130 | the k-th threshold is k n-ths of the rate |
| `BenjaminiHochberg.KthWithin` | scripts/diag/spatial.py:128-131 | the k-th smallest is within x exactly when at least k values are |
| `BenjaminiHochberg.SameRank` | scripts/diag/spatial.py:131-134 | the rank found in sorted order is the rank found by counting, for every sorting order |
| `BenjaminiHochberg.RejectedIsUpToLargest` | scripts/diag/spatial.py:123-137 | rejected if and only if no larger than some p(k) with p(k) <= k alpha / n |
| `BenjaminiHochberg.RejectionsCounted` | scripts/diag/spatial.py:134-136 | exactly as many values lie within the last threshold as the rank where the step-up stopped |
| `BenjaminiHochberg.Laxer` | scripts/diag/spatial.py:130-136 | laxer ascending thresholds and lower p-values never lose a rejection |
| `BenjaminiHochberg.Monotone` | scripts/diag/spatial.py:123-137 | a higher rate and lower p-values never lose a rejection |
| `BenjaminiHochberg.OrderMattersOnlyAcrossTies` | scripts/diag/spatial.py:128-136 | all sorting orders mark the same points if and only if no tie straddles the last marked rank |
| `BenjaminiHochberg.SoundIgnoresOrder` | scripts/diag/spatial.py:128-136 | with a rate or values of at least 0, any two sorting orders mark the same points |
| `BenjaminiHochberg.NegativeRateReadsTies` | scripts/diag/spatial.py:128-136 | an input with a negative rate on which two sorting orders mark different points |
| `Medians.MedianOfBag` | scripts/diag/detrend.py:61-63 | the median does not depend on the order of the values |
| `Medians.MedianIsMiddle` | scripts/diag/detrend.py:61-63 | by counting, without sorting: the median is the mean of a value with half of the values up to it and the one after it, which are one and the same for an odd number and have no value between them |
| `Medians.KthIsUnique` | scripts/diag/detrend.py:61-63 | there is only one value of a given rank |
| `Medians.MedianHalves` | scripts/diag/detrend.py:61-63 | at least half of the values are at or below the median and at least half at or above it |
| `Medians.MedianNegates` | scripts/diag/detrend.py:61-63 | the median of the negated values is the negated median |
| `Medians.MedianFollowsUnits` | scripts/diag/detrend.py:61-63 | so it moves with every change of units, also one that turns the values round |
| `Medians.MedianScales` | scripts/diag/detrend.py:61-63 | the median moves with a positive change of units |
| `Detrend.PointsLieInTheirBins` | scripts/diag/detrend.py:48-90 | the edges ascend and every point lies in the bin it is assigned; only the largest radius lies on its bin's right edge |
| `Detrend.SliceIsWindow` | scripts/diag/detrend.py:52-57 | the slice of the sorted order between two bounds holds exactly the points of the bins from lo to hi |
| `Detrend.BinTrend` | scripts/diag/detrend.py:33-64 | every bin gets the median and the median absolute deviation of the weighted points of its five-bin window, or neither when they are too few |
| `Detrend.WindowStat` | scripts/diag/detrend.py:55-63 | one bin's slice, weight and statistics, against the bag of points in its window |
| `RobustScore.WindowHalves` | scripts/diag/detrend.py:55-64 | a bin has statistics if and only if enough points count for it; at least half of these are on either side of its median, at least half within its median absolute deviation of it and at least half no nearer |
| `RobustScore.StatIsMiddle` | scripts/diag/detrend.py:60-63 | each is the mean of the two middle values, of the points and of their distances from the first |
| `RobustScore.WindowSpansFiveBins` | scripts/diag/detrend.py:54-57 | the points that count for a bin are the kept ones from two bins before it to two bins after it |
| `RobustScore.EdgesAreEven` | scripts/diag/detrend.py:90 | the bins have one width |
| `Detrend.Passes` | scripts/diag/detrend.py:91-116 | both passes with the reweighting and the early exit give each point its specified score |
| `Detrend.RadialDetrend` | scripts/diag/detrend.py:67-116 | refuses exactly unequal lengths; otherwise every entry is the specified score of its point, including the empty, the degenerate and the no-good-bin cases |
| `RobustScore.ScoreAtCentre` | scripts/diag/detrend.py:97-112 | a point at the centre of a bin with statistics scores by how many times 1.4826 of its median absolute deviation it lies above its median; where that is zero the unit is 1.4826 of the median over the bins, or 1; beyond 3.5 units it is flagged |
| `RobustScore.TrendAtKnot` | scripts/diag/detrend.py:100-101 | trend and spread pass through the bins' statistics and are constant beyond the outer ones |
| `RobustScore.StraightTrendRemoved` | scripts/diag/detrend.py:100-109 | where the medians lie on a straight line, a point scores zero exactly on that line and positive exactly above it |
| `DetrendInvariance.Reordered` | scripts/diag/detrend.py:52-116 | a point's score depends on the bag of points only, through both passes: reordering points reorders scores |
| `DetrendInvariance.ScoreScales` | scripts/diag/detrend.py:100-109 | under a shift and a positive scale one pass keeps a point's score if and only if the scale is 1, or the fit has spread there, or the point is on the trend |
| `DetrendInvariance.FlagsKeptExactly` | scripts/diag/detrend.py:104-109 | the second pass keeps the same points in both units if and only if every point has spread in the first fit or a score on one side of the bound in both units |
| `DetrendInvariance.UnitsMatterExactly` | scripts/diag/detrend.py:67-116 | where it does, the whole function gives a point another score in other units if and only if the fit of its last pass has no spread there, the point is off the trend and the scale is not 1 |
| `DetrendInvariance.UnitsDoNotMatter` | scripts/diag/detrend.py:67-116 | a shift never changes a score; a scale does not while the median bin spread of each pass is positive (a special case of UnitsMatterExactly a caller can read off the fits) |
| `DetrendInvariance.UnitsMatterWithoutSpread` | scripts/diag/detrend.py:102-108 | an input without spread on which doubling the values doubles the score |
| `DetrendInvariance.FlagsMatter` | scripts/diag/detrend.py:104-113 | an input where a quarter of the units scores a point that is flagged and left unscored in the units given, although the last fit does not read the units |
| `Layers.RingContains` | scripts/diag/layers.py:40-53 | the vectorised edge loop computes even-odd containment at every point |
| `Layers.RasterizePolygons` | scripts/diag/layers.py:21-65 | refused exactly when a ring has fewer than three vertices; otherwise the mask is the union of the rings |
| `Layers.HitUp` | scripts/diag/layers.py:48-51 | the ray test of an upward edge holds exactly when the point is strictly left of it |
| `Layers.HitDown` | scripts/diag/layers.py:48-51 | that of a downward edge, exactly when the point is strictly right of it |
| `Layers.HitSymmetric` | scripts/diag/layers.py:48-51 | an edge is hit whichever way it runs |
| `PolygonFill.ChordSplit` | scripts/diag/layers.py:40-53 | cutting a ring along any chord between vertices gives two parts whose containments differ from each other exactly when the ring contains the point |
| `PolygonFill.RotationInvariant` | scripts/diag/layers.py:45-52 | starting the ring at another vertex changes nothing |
| `PolygonFill.ReversalInvariant` | scripts/diag/layers.py:45-52 | nor does reversing it |
| `PolygonFill.ClosedCrossesEvenly` | scripts/diag/layers.py:48 | a closed ring crosses every horizontal line an even number of times |
| `PolygonFill.OutsideBoxIsOutside` | scripts/diag/layers.py:40-53 | a point outside the bounding box is never inside |
| `PolygonFill.TriangleFill` | scripts/diag/layers.py:40-53 | a counter-clockwise triangle is filled strictly inside and empty strictly outside |
| `PolygonFill.FanDecomposition` | scripts/diag/layers.py:40-53 | any ring contains a point exactly when an odd number of its fan triangles do |
| `PolygonFill.EdgeSubdivides` | scripts/diag/layers.py:47-51 | an edge is hit exactly when one of the two parts of it is |
| `PolygonFill.VertexOnEdge` | scripts/diag/layers.py:40-53 | a new vertex on an edge changes nothing, so the split holds along every chord |
| `Int32.RotlRotates` | packages/d1-ui/src/md5.ts:8 | the two signed and unsigned shifts rotate the word, bit by bit |
| `Int32.OrIsSum` | packages/d1-ui/src/md5.ts:8 | or of numbers without a common bit is their sum |
| `Int32.ComplementIsBitwise` | packages/d1-ui/src/md5.ts:29-32 | arithmetic complement is exclusive-or with ones |
| `Rfc1321.PadIsShortest` | packages/d1-ui/src/md5.ts:11-18 | the padded message is whole blocks, and no fewer blocks hold the message, the mark and the length |
| `Rfc1321.PadIsInjective` | packages/d1-ui/src/md5.ts:11-18 | no two messages pad to the same blocks |
| `Md5.PaddedLengthExact` | packages/d1-ui/src/md5.ts:12 | the 32-bit shifts give the padded length if and only if the message is shorter than 2^31 - 72 bytes |
| `Md5.SetUint32` | packages/d1-ui/src/md5.ts:17-18 | four bytes in little-endian order, the rest of the buffer unchanged |
| `Md5.Padded` | packages/d1-ui/src/md5.ts:11-18 | the buffer written in place is the padding of sections 3.1 and 3.2 of RFC 1321 |
| `Md5.TableMatches` | packages/d1-ui/src/md5.ts:26-35 | the index arithmetic of the loop is the table of 64 named operations of section 3.4 |
| `Md5.MixIsAuxiliary` | packages/d1-ui/src/md5.ts:29-32 | the four branches are the functions F, G, H and I on the unsigned words |
| `Md5.Step` | packages/d1-ui/src/md5.ts:27-35 | one rotating assignment is one named operation; no intermediate sum reaches 2^53 |
| `Md5.Block` | packages/d1-ui/src/md5.ts:25-36 | the in-place loop of 64 steps is the 64 operations on named registers |
| `Md5.Registers` | packages/d1-ui/src/md5.ts:20-38 | the outer loop accumulates all blocks |
| `Md5.HexIsInjective` | packages/d1-ui/src/md5.ts:41 | the printed digits determine the bytes |
| `Md5.Md5` | packages/d1-ui/src/md5.ts:10-42 | the whole function prints the digest of RFC 1321 of every byte string it can hold |
| `AccessRules.Expand` | scripts/gen_access_rules.py:59-75 | terminates on every document and returns the specified paths in order, or the first error |
| `AccessRules.RefusedExactlyWhenBad` | scripts/gen_access_rules.py:61-66 | a set is refused if and only if some chain of inclusions from it reaches a missing set or repeats one |
| `AccessRules.PathFilter` | scripts/gen_access_rules.py:78-83 | the loop nests the keys of the path around the comparison |
| `AccessRules.UniqueKeepsOrder` | scripts/gen_access_rules.py:86-89 | duplicates are dropped where they come later; the order of the paths is kept |
| `RuleMeaning.NestedMeans` | scripts/gen_access_rules.py:78-83 | the nested object accepts a value exactly when following the path leads to the user |
| `RuleMeaning.SplitJoins` | scripts/gen_access_rules.py:70-73 | putting a prefix and a dot before a path composes the two paths |
| `RuleMeaning.ExpandedMeans` | scripts/gen_access_rules.py:59-75 | some flattened path leads to the user exactly when some item of the nested sets does, through its via relations |
| `RuleMeaning.FilterMeansRule` | scripts/gen_access_rules.py:86-89 | the compiled filter, duplicates dropped, accepts a record exactly when the nested sets mean it |
| `RuleMeaning.SubstituteReadsAsUser` | core/extensions/d1-access-guard/index.js:89-96 | the instantiated filter, taken literally, accepts what the original accepts when read as that user |
| `OwnerGuards.Declared` | scripts/gen_access_rules.py:241-258 | succeeds exactly when every declared collection filters both actions and its delete rule compiles; each guard then carries that rule |
| `OwnerGuards.OwnerGuards` | scripts/gen_access_rules.py:233-270 | succeeds exactly when moreover every undeclared collection compiles update and delete to the same filter |
| `OwnerGuards.EditorsAreOwners` | scripts/gen_access_rules.py:259-269 | where no guard is declared, whoever may update a record may delete it |
| `AccessGuard.Enforce` | core/extensions/d1-access-guard/index.js:149-163 | allows exactly when every checked parent the item names passes |
| `AccessGuard.PassesExactly` | core/extensions/d1-access-guard/index.js:149-163 | a parent named by a key, bare or in an object, must be one the caller may use; a blank one or one about to be created need not |
| `AccessGuard.Changed` | core/extensions/d1-access-guard/index.js:213-224 | the touched parent keys that some row does not already have |
| `AccessGuard.UpdateFilter` | core/extensions/d1-access-guard/index.js:199-235 | an update that sends the owner column is allowed exactly when each record keeps its owner or the caller may delete it; any other, when nothing is repointed, or the one guard passes, or every merged row passes every guard |
| `AccessGuard.UpdateParents` | core/extensions/d1-access-guard/index.js:206-234 | the second half of that: the parents of a junction row |
| `AccessGuard.NewLinksArePermitted` | core/extensions/d1-access-guard/index.js:207-234 | an allowed update that does not send the owner column and is seen to repoint some row leaves every row with parents the caller may use |
| `AccessGuard.RelinkAllowedExactly` | core/extensions/d1-access-guard/index.js:207-234 | an update seen to repoint some row is allowed if and only if the caller may use every parent every row ends up with; the old parents are not asked for |
| `AccessGuard.NothingGainedPasses` | core/extensions/d1-access-guard/index.js:213-225 | an update that gives no row a new parent is never refused |
| `AccessGuard.CreatedParentIsSeen` | core/extensions/d1-access-guard/index.js:219-222 | a parent created by the update counts as new for every row |
| `AccessGuard.NewLinksArePermittedExactly` | core/extensions/d1-access-guard/index.js:199-235 | for a row that an update gives a new parent, every caller's allowed update leaves parents that caller may use if and only if it does not send the owner column and the hook sees some row repointed, as it does unless the new key is the text of the missing value |
| `AccessGuard.GainIsSeen` | core/extensions/d1-access-guard/index.js:219-224 | the hook sees a new parent unless its key is the text `null` or `undefined` and the row has no value there |
| `AccessGuard.NullTextSkipsGuards` | core/extensions/d1-access-guard/index.js:223 | a stored NULL updated to the key `null` passes whatever the caller may use |
| `AccessGuard.OwnerColumnSkipsGuards` | core/extensions/d1-access-guard/index.js:200-205 | a guarded row that an allowed update links to a parent the caller may not use, because the update sends the owner column too |
| `AccessGuard.UnchangedIsAllowed` | core/extensions/d1-access-guard/index.js:208-225 | saving a form with its current keys is never refused |
| `AccessGuard.EnforceOwner` | core/extensions/d1-access-guard/index.js:169-189 | allows exactly when each record keeps its owner or the caller may delete it |
| `AccessGuard.KeptIsSame` | core/extensions/d1-access-guard/index.js:173-179 | the test for a kept owner passes exactly when the owner stays, or the stored key is the text `null` or `undefined` and the payload clears it or names a new person |
| `AccessGuard.OwnerHandedOverByOwner` | core/extensions/d1-access-guard/index.js:168-189 | but for those two texts, a record whose owner an allowed update changes is one the caller may delete |
| `AccessGuard.OwnerUpdateExactly` | core/extensions/d1-access-guard/index.js:199-205 | an update that sends the owner column is allowed if and only if each record keeps its owner, has none and gets none, meets one of the two texts, or is one the caller may delete |
| `ArchiveSweep.BaseName` | scripts/index_archive.py:199 | the part after the last slash |
| `ArchiveSweep.MovesExactly` | scripts/index_archive.py:184-199 | a vanished file is taken to have moved if and only if no other vanished file and exactly one seen file has its fingerprint, and that one has its name |
| `ArchiveSweep.JunctionMoves` | scripts/index_archive.py:216-225 | the DELETE in a junction loses no link of the outcome and leaves the UPDATE nothing to collide with |
| `ArchiveSweep.Database.RepointColumn` | scripts/index_archive.py:214-237 | one column under the deletion, the savepoint and the multi-column exception |
| `ArchiveSweep.Database.RepointFileReferences` | scripts/index_archive.py:202-239 | all columns so, and the exact number of references left on the old row |
| `ArchiveSweep.Database.Sweep` | scripts/index_archive.py:623-663 | every column ends as its links under exactly the moves it accepted, in order; a file row is deleted if and only if it is planned to move and nothing refers to it; the candidates whose rows remain are those reported missing |
| `ArchiveSweep.TakenIsPlan` | scripts/index_archive.py:214-237 | a junction, or a column no constraint can refuse, takes every move of the plan |
| `ArchiveSweep.TakenIsNothing` | scripts/index_archive.py:214-237 | a multi-column key takes none |
| `ArchiveSweep.PlanIsInjection` | scripts/index_archive.py:184-199 | the plan maps vanished files to seen files, no two to one |
| `ArchiveSweep.ParentKeepsItsFiles` | scripts/index_archive.py:202-239 | after the sweep each parent's files in a column are its earlier files under the moves the column took; two become one only where one was the other's target |
| `ArchiveSweep.IntegrityKept` | scripts/index_archive.py:642-653 | no link of a swept column refers to a deleted row |
| `Trace.BuildNext` | core/extensions/d1-trace/index.js:119-125 | the successor lists hold exactly the listed steps |
| `Trace.Seeds` | core/extensions/d1-trace/index.js:126-136 | the walk starts at the root and, for a cut list, at every predecessor that was cut |
| `Trace.Reachable` | core/extensions/d1-trace/index.js:118-146 | terminates on cyclic genealogies and returns exactly the nodes a walk through readable samples reaches |
| `Trace.Lineage` | core/extensions/d1-trace/index.js:233-264 | shows exactly the readable rows, in order, and shown plus hidden are the rows listed |
| `Trace.ShownInOrder` | core/extensions/d1-trace/index.js:233-264 | the rows shown keep their order |
| `Trace.ThroughHiddenExactly` | core/extensions/d1-trace/index.js:230-242 | with a complete list, a row is marked if and only if every listed walk from the root to it passes a hidden sample |
| `Trace.ReachedHasPredecessor` | core/extensions/d1-trace/index.js:243-245 | every unmarked row but the root's has a reached predecessor for its edge |
| `Trace.CutStepIsNotHidden` | core/extensions/d1-trace/index.js:128-136 | after a cut, a readable row whose step was cut is not called hidden |
| `Trace.CapEvents` | core/extensions/d1-trace/index.js:206-213 | of one event too many the oldest is dropped, an undated one before any dated one |
| `OctreeQueue.Database.ClaimOctree` | scripts/force_orchestrator.py:678-698 | a call claims up to two pending rows, each with its current crop; fewer only when no other is pending |
| `OctreeQueue.Database.FinishOctree` | scripts/force_orchestrator.py:963-975 | the final update leaves done exactly with the crop of the build, pending with another, and changes no other row |
| `OctreeQueue.RequestIsServed` | scripts/force_orchestrator.py:678-975 | requested, claimed by an idle worker and built with nothing else happening, a row ends as done, its own octree published as it is cut, the worker idle and all else unchanged |
| `OctreeQueue.EditedMeanwhile` | scripts/force_orchestrator.py:963-975 | a crop saved during the build sends the row back to the queue |
| `OctreeQueue.FailedIsShown` | scripts/force_orchestrator.py:976-989 | a build that fails is shown as failed and publishes nothing more |
| `OctreeQueue.PublishKeepsCurrentExactly` | scripts/force_orchestrator.py:958-961 | a build that publishes leaves every finished row with its own octree if and only if every finished row of the operation is the row built, with the crop built |
| `OctreeQueue.StepKeepsCurrentExactly` | scripts/force_orchestrator.py:958-989 | the same for every kind of step: publishing, the final update, a crop saved by a page, and all others, which do no harm |
| `OctreeQueue.RunIsCurrentExactly` | scripts/force_orchestrator.py:678-989 | over every interleaving of discoveries, claims, builds, failures, crashes, edits and requests, by any number of workers, finished rows show their own octree throughout if and only if every step is harmless |
| `OctreeQueue.OneWorkerRun` | scripts/force_orchestrator.py:1404-1423 | for a single worker, whatever is requested, edited or crashes: if and only if no build replaces the directory of another finished row and no outdated page changes a finished row's crop |
| `OctreeQueue.OneRowEachRun` | scripts/force_orchestrator.py:1404-1423 | for a single worker and one row per operation: if and only if no outdated page changes a finished row's crop |
| `OctreeQueue.AttentiveRun` | packages/force-plotting/src/ForceDashboard.vue:1746-1754 | for any number of workers and one row per operation the status column keeps builds apart, and all is well, while pages are up to date and no build is requested of a row being built |
| `OctreeQueue.SharedDirectoryBreaks` | scripts/force_orchestrator.py:960-961 | a run of one worker without edits, at whose end a finished row shows the octree of another file |
| `OctreeQueue.StalePageBreaks` | packages/force-plotting/src/ForceDashboard.vue:1749-1754 | a run of one worker and one row in which a page with an outdated status saves a crop over a finished row |
| `OctreeQueue.SecondClaimBreaks` | packages/force-plotting/src/ForceDashboard.vue:268-276 | a run of two workers and one row in which a second claim leaves a finished row with an older crop's octree |
| `DiagQueue.Queue.ClaimDiag` | scripts/force_orchestrator.py:702-744 | nothing is claimed exactly when nothing waits; otherwise the earliest requested waiting row |
| `DiagQueue.DoneIsLeftAlone` | scripts/force_orchestrator.py:710-714 | a finished row is left alone if and only if it was baked by the recipe engine at version 10 or later |
| `DiagQueue.EarlierMeans` | scripts/force_orchestrator.py:702-744 | rows that were never given a time come first, then the smaller time |
| `DiagQueue.Queue.ProcessDiagRow` | scripts/force_orchestrator.py:1346-1373 | a bake ends as done with the current version and a hash, a failure as error |
| `DiagQueue.Queue.HandleDiags` | scripts/force_orchestrator.py:1378-1401 | one call settles exactly one waiting row, counts it only when done, and touches no other |
| `DiagQueue.Queue.Drain` | scripts/force_orchestrator.py:1378-1401 | the daemon's polling (the loop around `force_orchestrator.py:2099`): repeated calls end, take each waiting row once, in the order of the requests, settle it, and leave every other row as it was |
| `DiagQueue.StepShrinksWaiting` | scripts/force_orchestrator.py:710-714 | a claim removes one row from the waiting set for good; no other step adds one |
| `DiagQueue.ClaimedAtMostOnce` | scripts/force_orchestrator.py:710-714 | over any run without outside writes each row is claimed at most once, and exactly when it stopped waiting |
| `DiagQueue.ClaimsAreBounded` | scripts/force_orchestrator.py:710-714 | a run has exactly as many claims as the waiting set lost rows |
| `DiagQueue.EndsSettled` | scripts/force_orchestrator.py:702-744 | once nobody waits or works, every row that waited or was under way is error, or done with the current version and a hash; every other row is unchanged |
| `DiagQueue.StrideIsLeast` | scripts/force_orchestrator.py:1082-1084 | the stride is the least step that keeps the samples within the target |
| `Calendar.DayFromYearFormula` | packages/d1-ui/src/activity.ts:56-60 | the closed formula of ECMA-262 counts the days year by year |
| `Calendar.MonthLengths` | packages/d1-ui/src/activity.ts:48 | April, June, September and November have 30 days, February 28 or 29, the others 31 |
| `Calendar.FieldsRebuild` | packages/d1-ui/src/activity.ts:48 | rebuilding a date from its fields with the day moved moves the day, outside the years 0 to 99 |
| `Calendar.TwoDigitYearsMove` | packages/d1-ui/src/activity.ts:48 | in those years it lands in another century |
| `Activity.OneWeekEach` | packages/d1-ui/src/activity.ts:45-49 | every day lies in exactly one week that starts on a Monday |
| `Activity.WeekStartIsMonday` | packages/d1-ui/src/activity.ts:46-49 | the function returns that Monday if and only if the year is not one of 0 to 99 |
| `Activity.WeekOfNthThursday` | packages/d1-ui/src/activity.ts:52-61 | week n of a year is the week of that year's n-th Thursday, and n lies in 1 to 53 (section 2.2.10 of ISO 8601:2004) |
| `Activity.NumberIdentifiesWeek` | packages/d1-ui/src/activity.ts:52-61 | two days have one number exactly when they lie in one week |
| `Activity.LongYears` | packages/d1-ui/src/activity.ts:52-61 | a year has a week 53 exactly when it starts on a Thursday, or is a leap year that starts on a Wednesday |
| `Activity.YmdIsInjective` | packages/d1-ui/src/activity.ts:39-43 | different days have different texts |
| `Activity.YmdReads` | packages/d1-ui/src/activity.ts:39-43 | read back, a text gives the year, then the month counted from one, then the day |
| `Activity.LastWeeks` | packages/d1-ui/src/activity.ts:64-75 | the last n Mondays, oldest first, with their week numbers; none for a count of zero or less |
| `Activity.Count` | packages/d1-ui/src/activity.ts:94-99 | a date raises the count of its own week by one and no other |
| `Activity.BinWeekly` | packages/d1-ui/src/activity.ts:86-102 | each entry is the number of dates in its week |
| `Activity.CountsSum` | packages/d1-ui/src/activity.ts:86-102 | the counts sum to the dates from the first Monday to the end of the current week |
| `Activity.FutureIgnoredExactly` | packages/d1-ui/src/activity.ts:85-102 | the counts are those without the dates after now if and only if none of these lies in the rest of the current week |
| `Activity.FutureDateCounted` | packages/d1-ui/src/activity.ts:85-102 | a date after now in the current week is counted |
| `Activity.TomorrowCounted` | packages/d1-ui/src/activity.ts:85-102 | Tuesday 6 January 1970 is, on the Monday before it |
| `Compare.Interp` | packages/force-plotting/src/compare.ts:23-45 | one forward pointer gives every ascending query its piecewise-linear value, and never divides by zero |
| `Compare.ValueIsBracketed` | packages/force-plotting/src/compare.ts:28-42 | the value lies between those of the two knots around the query |
| `Compare.FirstKnotWins` | packages/force-plotting/src/compare.ts:36-42 | at a repeated knot the value is that of its first occurrence |
| `Compare.AgreesWithNumpy` | packages/force-plotting/src/compare.ts:18-45 | it equals np.interp if and only if the query is at or past the last knot, or no knot, or a knot whose first and last values agree |
| `Compare.AlignAndDiff` | packages/force-plotting/src/compare.ts:47-81 | for cuts with ascending bases, the specified grid, both aligned signals and their difference, or the refusal |
| `CutDifference.AlignedMeans` | packages/force-plotting/src/compare.ts:47-81 | of ascending bases: refused exactly for unequal lengths, for no common stretch and for one shorter than a sample; otherwise the grid starts where the stretch starts, has as many places as fit, and at each of them the difference is the first cut less the second |
| `Compare.DiffIsAntisymmetric` | packages/force-plotting/src/compare.ts:47-81 | exchanging the cuts negates the difference and keeps the grid and the refusals, for every base, ascending or not |
| `Compare.SameCutIsZero` | packages/force-plotting/src/compare.ts:47-81 | a cut against itself differs by nothing |
| `Compare.BoundedSamples` | packages/force-plotting/src/compare.ts:172-189 | a difference of envelopes has between 1 and 4000 samples, however long, dense or disordered the recordings |
| `CutDifference.MidLineMeans` | packages/force-plotting/src/compare.ts:102-110 | a trace is half way between the two sides of its envelope, as far as it has both; there is none exactly for fewer than two samples or no time |
| `CutDifference.EnvelopesMean` | packages/force-plotting/src/compare.ts:172-189 | the current mid-line less that of the reference on their common stretch, sampled at the rate of the denser trace or at the one that gives 4000 samples, with its mean and root mean square; nothing exactly where no sample fits |
| `CutDifference.NothingToCompare` | packages/force-plotting/src/compare.ts:176-178 | a missing envelope, or one that spans no time, leaves nothing to compare |
| `Compare.EnvelopesAntisymmetric` | packages/force-plotting/src/compare.ts:172-189 | exchanging the envelopes negates trace and mean and keeps grid and root mean square |
| `D1an.CheckedAreWritable` | scripts/diag/d1an.py:45-47 | the name check passes exactly when every name can be written |
| `D1anLayout.WrittenExactly` | scripts/diag/d1an.py:31-53 | a file is written if and only if there are columns, of one length, with ASCII names of at most 16 bytes, and both counts fit in 32 bits |
| `D1anLayout.SizeOfFile` | scripts/diag/d1an.py:31-53 | sixteen bytes, sixteen a name, four a value, and nothing after them |
| `D1anLayout.HeaderLayout` | scripts/diag/d1an.py:31-53 | the first eight bytes literally; then the length of a column and the number of columns as little-endian words |
| `D1anLayout.NameLayout` | scripts/diag/d1an.py:31-53 | the k-th name in its 16 bytes, padded with zeros |
| `D1anLayout.ValueLayout` | scripts/diag/d1an.py:31-53 | the i-th value of the k-th column as a little-endian word after the values of the columns before it |
| `D1an.ReadD1an` | scripts/diag/d1an.py:62-79 | the reader with its moving position returns the specified columns or refusal |
| `D1an.ReadNames` | scripts/diag/d1an.py:73-75 | the name loop and where it leaves the position |
| `D1an.ParseD1an` | packages/force-plotting/src/diagAttrs.ts:24-63 | the browser's reader returns the specified columns or refusal, refused assignments included; every view it opens starts at a multiple of 4 and ends within the buffer |
| `D1an.NameReadersAgree` | packages/force-plotting/src/diagAttrs.ts:42-44 | the two readers take one name from a field if and only if nothing follows its first NUL |
| `D1an.RoundTrip` | scripts/diag/d1an.py:31-79 | for every non-empty list of equal-length columns with NUL-free ASCII names that fit, the Python reader recovers exactly what was written, the browser's reader what a plain object holds of it |
| `D1an.HeldExactly` | packages/force-plotting/src/diagAttrs.ts:52-61 | an assignment throws if and only if a read-only name is first listed after a column called `__proto__`; otherwise the object holds every column as written, but that one and the numbers first listed after it that are no index |
| `D1an.BrowserKeepsAllExactly` | packages/force-plotting/src/diagAttrs.ts:52-61 | everything written is recovered if and only if no column is called `__proto__` |
| `D1an.LaterNamesSuffer` | packages/force-plotting/src/diagAttrs.ts:59 | after such a column, one called `length` makes the reader throw and one called `7` is dropped |
| `D1an.AsMapKeepsAll` | scripts/diag/d1an.py:79 | with distinct names no column is lost in the result |
| `Csv.ToCsv` | packages/force-plotting/src/csvExport.ts:22-26 | header and rows as CRLF-terminated lines |
| `Csv.QuotedWhenNeeded` | packages/force-plotting/src/csvExport.ts:14-19 | quotes enclose a cell if and only if it has a quote, a comma or a line break; any other cell is its text |
| `Csv.CellReadsBack` | packages/force-plotting/src/csvExport.ts:14-19 | a strict reader recovers every cell, quoted or not, and stops where it ends |
| `Csv.LineReadsBack` | packages/force-plotting/src/csvExport.ts:22-26 | a strict reader recovers every row |
| `Csv.CsvReadsBack` | packages/force-plotting/src/csvExport.ts:22-26 | every table with at least one column is read back exactly |
| `Csv.NoColumnsReadAsOneEmptyCell` | packages/force-plotting/src/csvExport.ts:22-26 | a table without columns is not: it reads as one empty cell |

## Left out

Contracts that are deliberately narrower:

- Md5.Md5: messages of 2^31 - 72 bytes or more, for which the buffer's length is wrong, and the encoding of text to bytes; the sine table is the table of RFC 1321 taken as literals.
- Activity.LastWeeks: `now` is at least six days past the start of year 100; below that `weekStart` is not the Monday (`WeekStartIsMonday`). Fractional counts are taken as already floored.
- Activity.BinWeekly: as LastWeeks; instants and time zones are left out, a date is its local calendar day.
- Activity.CountsSum: dates before year 100 are left out, for the same reason.
- DiagQueue.Queue.Drain: no outside writes while it polls; with them the length of a run is unbounded.
- Runner.RunRecipe: the metrics dictionary returned beside the columns.
- OctreeQueue.Database.ClaimOctree: which of several pending rows are taken (`ORDER BY octree_requested_at`); any are.
- OctreeQueue.AttentiveRun: one row per operation; with several, a build replaces the directory of the others (`SharedDirectoryBreaks`).
- OctreeQueue.RunIsCurrentExactly: of what an octree is built from, the row's file and its crop; the filter chain and the diameters, which the final update does not compare, are left out.
- ArchiveSweep.Database.Sweep: whether a UNIQUE constraint refuses an update is an arbitrary function of the column and its links; two columns of one table do not see each other's updates.
- Detrend.RadialDetrend: NaN and infinite values, as everywhere: numbers are reals.
- Csv.CsvReadsBack: the strict reader does not require equal numbers of fields in all records.
- Compare.AlignAndDiff: bases that do not ascend, on which the forward pointer's value depends on the queries before.
- PublicColumns.PublicColumnsAgreeExactly: several grids in one recipe, for which the lengths need not agree (`SecondGridBreaks`); `AssembledAgreeExactly` holds there too.
- DetrendInvariance.UnitsMatterExactly: units in which a point crosses the flagging bound; `FlagsMatter` shows that the condition is needed.
- D1an.HeldExactly: which property keys are canonical numeric strings is a parameter; the order of a plain object's properties is left out.
- BackupProtocol.StoredIsAlwaysPrefix: chunks without an offset (the legacy append), which nothing protects against repetition.

Not modelled:

- The inside of the library algorithms (HDBSCAN, Gaussian mixtures, label spreading, filters, spectra); their outputs are arbitrary values of the right length.
- Floating-point rounding and the casts to float32; NaN cells produced by a step.
- `base_columns_all_channels`.
- Numeric strings as step parameters, and recipes and layer geometries that are not well-typed JSON.
- SHA-256 itself: a digest without collisions stands for it.
- `getis_ord_gi_star`, `grid_reduce`, `assign_from_grid` and `assign_by_neighbours`: they would add members of the kinds already here.
- PostgreSQL, HTTP, Directus's own evaluation of an empty `_or`, MATLAB, PotreeConverter, threads and files: only their effect on row states, stored bytes and link tables is kept. The publishing of an octree directory is one step. Requests of administrators and of the system itself, which the access guard lets pass.
- The row builder, the SQL text and the resolver of `gen_access_rules.py`, and its check that an owner guard has exactly three keys; the rules document is arbitrary.
- The stock-origin section of `d1-trace`, and the reading of edges and fields after the lineage is decided.
- `cropWindowSec`, `diffWindow` and `intersectWindows`: one-line arithmetic on windows.
- User interface, importers, migrations and configuration.
