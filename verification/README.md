# QuantAgent: a verified model of its own algorithms

QuantAgent is a research and paper-trading code base. This project models the parts of it that are algorithms or on-disk
protocols in their own right, one Dafny module per script or concern, and proves what those scripts rely on.
`dafny verify dfyconfig.toml` checks everything.

Floats are mathematical reals, missing values (None, NaN, NaT) are `None` or `NaN`, dates and minutes are integers, and
vendors, decision engines, square roots, standard deviations, rounding and hashing are parameters with stated contracts.
Objects whose methods update fields are classes; loops of the source are methods with loops, each proved against a
function of its inputs about which the lemmas then speak.

| file | what it models |
|---|---|
| `Options.dfy`, `Vectors.dfy`, `Calendars.dfy`, `Texts.dfy` | missing values; sums, co-moments and Cauchy-Schwarz; sorted schedules; strip and decimals |
| `Ranks.dfy`, `FactorJudgment.dfy`, `FactorSeries.dfy` | the six-bincount daily rank-IC engine, and what its series holds date by date |
| `FactorVerdict.dfy`, `VerdictRules.dfy` | the verdict built on it, and what each verdict says about the factor |
| `CatchUp.dfy`, `PanelMerge.dfy`, `CleanUp.dfy`, `CatchUpProcess.dfy` | the crash-restartable panel catch-up: staging, merge, discarded windows, and the process over its files |
| `PanelFlags.dfy` | what the flags of a written panel say, read off its own rows |
| `Universe.dfy`, `CatchUpExamples.dfy` | which symbols the catch-up follows from window to window; two small catch-ups worked through |
| `Redundancy.dfy`, `Neutralize.dfy` | greedy correlation clusters and their consumer; one day's neutralisation |
| `FactorOrder.dfy`, `CopiedStocks.dfy`, `TiltedSectors.dfy` | what neutralisation does to the order of stocks and to repeated stocks, and days it leaves tilted |
| `MinuteHistory.dfy` | backward paging and the incremental minute cache |
| `TrailingTwelveMonths.dfy`, `RollingRank.dfy`, `AsOfJoin.dfy` | the fundamentals arithmetic and the point-in-time join |
| `BlindLedger.dfy`, `ForwardLedger.dfy`, `SettledReturns.dfy`, `DotSimulation.dfy` | the hash chain, the freeze/settle ledger and what a settled row records, the T+1 day |
| `WalkForward.dfy`, `ExecutableLabels.dfy` | purged folds and labels at exact sessions |
| `DataTransfer.dfy`, `FlagRewrite.dfy`, `DefinitionMerge.dfy` | the streamed import, the flag rewrite, the definition merge |

## Where the code is weaker than it reads

Each of these is a lemma that gives the exact condition, or a concrete input.

- Catch-up: the done file is written before the chunk file. A crash between the two, or inside the chunk write, keeps
  staging complete if and only if the batch staged no row (`BatchKeepsCompleteIff`); otherwise the batch's symbols are
  skipped with no rows staged. Over any restarts they stay skipped for exactly as long as no run rewrites the done file
  of that number, which a run does when it has that many batches left to do (`LostForAsLongAs`); after that they are
  fetched again (`RewrittenIsStagedAgain`). No crash ever stages a symbol in part or twice (`RunsStageAllOrNothing`).
- Catch-up: a window fetches the symbols with a row on the panel's last date, so a symbol is still followed after any
  number of windows if and only if every written window obtained it and closed it on its new last date (`FollowedIff`):
  the universe only shrinks (`DroppedNeverReturns`). One failed fetch in a run that finishes, or one split crash, is enough
  (`SplitCrashRemovesForGood`; two stocks in `OneCrashDropsStock`).
- Catch-up: another window first unlinks the old staging file by file and rewrites the manifest last. If it dies on the
  way, the old window's staging stays complete if and only if no symbol that a remaining file names had a row in an
  unlinked one (`CutShortCompleteIff`, `RunAfterCutShort`).
- Catch-up: duplicates are dropped before rows without a close, so a date whose first quote has no close gets no row
  even if a later quote has one (`RunsFillPanel`). If that leaves no row at all, the evidence join hands back an empty
  frame without `is_st` and the merge raises (`RunsRaiseIff`, `QuoteWithoutCloseRaises`), and so does every restart that
  has nothing left to fetch (`RestartRepeatsOutcome`).
- Redundancy: the report lists at most 12 members of a cluster, so the columns kept downstream are the survivors if and
  only if no cluster is larger (`KeptColumnsAreSurvivorsIff`, `KeptFactorsAreSurvivorsIff` for other column lists);
  fourteen factors that are all alike show it (`ManyAlikeAreCut`).
- Judgment: a zero mean is oriented +1, so a factor and its negation are judged as mirror images if and only if the best
  mean is not zero (`JudgmentNegates`). With a zero mean the verdict alone survives exactly under the condition of
  `ZeroMeanVerdictSurvivesIff`, and three series on which it does not are given (`ZeroMeanVerdictsDiffer`).
- Neutralisation: the size step undoes sector neutrality in every sector where beta and the sector's mean size are both
  non-zero (`FinalSectorMean`; a day of 32 stocks, or any larger multiple of four, in `SectorsCanBeTilted`).
- Minute cache: a tail fetch leaves a hole exactly when its successful calls are some but too few for the range
  (`PagedTailGapFreeIff`, `OneSuccessfulCallLeavesHole`), and no later run fills it (`HolesAreNeverFilled`,
  `CacheStaysGapFreeIff`).
- TTM: the second implementation accepts histories the first refuses, in exactly the cases of `ImplementationsDifferIff`.
- Rolling rank: missing values lower the rank (`MissingValuesDilute`), and a missing current value is ranked 0
  (`MissingCurrentRanksZero`).
- As-of join: the pick is independent of the order of equal dates if and only if no different visible statement of the
  symbol ties with it in both dates (`PickIsOrderFreeIff`, `EqualDatesDependOnOrder`).
- Ledger: appending a record that already carries `record_hash` breaks the chain (`AppendValidIff`), so appending the
  same object twice does (`AppendingSameObjectTwiceBreaks`).
- Settlement: an unsettled row settles to the same outcome early and late if and only if its window is at least one
  session (`ConfluentIff`); a window of 0 raises on every run, a negative one moves with the end of the panel
  (`ZeroWindowRaises`, `NegativeWindowFollowsPanel`).
- T+1 day: the closing restore sells shares bought the same day when more was bought back than was carried
  (`RestoreKeepsT1Iff`). The price band limits how much more that can be (`BandLimitsBuying`), but a 10% band, whole lots
  and 40% of the shares at a time still allow it (`EngineDayBreaksT1`).
- Folds: a request for -1 folds divides by zero (`BuildFolds`). A label of the last training row at the full embargo
  horizon exits on the first test session itself (`LabelExitsByTestStart`); the comment at
  scripts/build_u0_full_universe_gold.py:65-66 says only that the embargo must be at least the horizon.
- Labels: the five-session return exits one session after the five-session drawdown window, so it is at least the
  drawdown if and only if some close of the window is no higher than that exit (`FiveDayReturnAboveDrawdownIff`,
  `FiveDayReturnCanFallBelowDrawdown`).
- Streamed import: types are inferred batch by batch, so the result is independent of the batch size if and only if
  parsing two parts apart or together gives the same usable rows and, for a Parquet output, no batch size writes a second
  schema (`BatchSizeIsIrrelevantIff`). Stock codes fail the first condition, from CSV and, where a code is missing, from
  Parquet (`CsvDependsOnBatchSize`, `ParquetDependsOnBatchSize`); one empty cell fails the second, so the same file is
  published at one batch size and raises at another (`EmptyCellCanRaise`).
- Flag rewrite: refusals are raised as SystemExit, which the clean-up handler does not catch, so the temporary file stays
  behind after a refusal; the dataset is untouched all the same (`DatasetFile.Fix`).

## Model

| member | source | states |
|---|---|---|
| Vectors.OnePassCoMoment | scripts/factor_full_judgment.py:96-99 | the one-pass expression of running sums is the co-moment about the means |
| Vectors.CauchySchwarz | scripts/factor_full_judgment.py:97-102 | the square of a co-moment is at most the product of the two spreads |
| Ranks.RankSum | scripts/factor_full_judgment.py:76-92 | average-tie ranks of N present values add up to N(N+1)/2 |
| Ranks.RankMirror | scripts/factor_full_judgment.py:86-92 | a value's rank and its negation's rank add up to N+1 |
| Ranks.RankColumnKeepsOrder | scripts/factor_full_judgment.py:86-92 | two columns that order each date alike have the same rank column |
| Ranks.RankOrder | scripts/factor_full_judgment.py:76-92 | a value's rank is below another's exactly when the value is, and ranks run from 1 to N |
| FactorJudgment.DateRanksSum | scripts/factor_full_judgment.py:76-92 | the ranks one date hands out add up to N(N+1)/2 |
| FactorJudgment.DailyICEngine.constructor | scripts/factor_full_judgment.py:69-80 | the loop over horizons fills the fields with date codes and per-date label ranks |
| FactorJudgment.DailyICEngine.DailyIC | scripts/factor_full_judgment.py:82-104 | six bincounts over the masked rows give, for every date coding and mask, that date's Pearson correlation of whole-date ranks by deviations from the mean, in date order |
| FactorJudgment.BinsAreColumns | scripts/factor_full_judgment.py:91-96 | a bin of the compressed arrays is the sum over that date's own rows |
| FactorJudgment.FromSumsIsPearson | scripts/factor_full_judgment.py:96-104 | the correlation computed from six sums is Pearson's, and is missing in the same cases |
| FactorJudgment.EveryICIsBounded | scripts/factor_full_judgment.py:97-104 | every emitted IC lies in [-1, 1] and belongs to an input date |
| FactorJudgment.NegatedFactorNegatesICs | scripts/factor_full_judgment.py:82-104 | the negated factor has the same dates and negated ICs |
| FactorJudgment.IncreasingTransformKeepsICs | scripts/factor_full_judgment.py:82-104 | a per-date strictly increasing transform leaves every IC unchanged |
| FactorSeries.SeriesIff | scripts/factor_full_judgment.py:82-104 | the series is empty with fewer than 100 rows taking part; otherwise it holds, in date order, exactly the dates with 30 such rows and varying ranks, each with its correlation |
| FactorSeries.PerfectFactor | scripts/factor_full_judgment.py:82-104 | a factor that is its own label has IC 1 wherever it has one, its negation -1 |
| FactorVerdict.JudgeFactor | scripts/factor_full_judgment.py:115-186 | the running-best loop and the gates give the judgment function's verdict and orientation |
| FactorVerdict.StatsNegate | scripts/factor_full_judgment.py:107-112 | a negated series has negated mean and negated information ratio |
| FactorVerdict.BestNegate | scripts/factor_full_judgment.py:125-136 | the best horizon of the negated series is the same horizon, ties included |
| FactorVerdict.GateVerdictMirror | scripts/factor_full_judgment.py:163-186 | flipping the sign and every gate input keeps the verdict |
| FactorVerdict.JudgmentNegates | scripts/factor_full_judgment.py:138-186 | a computable factor and its negation get one verdict and opposite orientations iff the best mean is not zero |
| FactorVerdict.OrientationFlipsIffMeanNonzero | scripts/factor_full_judgment.py:138 | orientation flips under negation exactly when the mean is not zero |
| FactorVerdict.ZeroMeanVerdictSurvivesIff | scripts/factor_full_judgment.py:138-186 | with a zero best mean a factor and its negation get one verdict iff the gates pass in neither direction and the specialist branch is out of reach or the same both ways |
| FactorVerdict.ZeroMeanVerdictsDiffer | scripts/factor_full_judgment.py:125-186 | three series with a zero best mean whose judgment differs from that of their negation |
| FactorVerdict.NegatedFactorSameVerdict | scripts/factor_full_judgment.py:82-186 | from raw values to verdict: negating a factor whose best mean is not zero does not change the verdict |
| VerdictRules.SubsetIs | scripts/factor_full_judgment.py:139-149 | a period's days are listed in order and no other |
| VerdictRules.SubsetMeanIs | scripts/factor_full_judgment.py:139-149 | a period has an IC exactly with 20 days, and it is their average |
| VerdictRules.StatsAre | scripts/factor_full_judgment.py:107-112 | mean and information ratio: the ratio times the deviation is the mean, and 0 for a deviation of at most 1e-12 |
| VerdictRules.BestIs | scripts/factor_full_judgment.py:125-136 | the best horizon has the largest absolute ratio, strictly above every later one |
| VerdictRules.JudgmentIff | scripts/factor_full_judgment.py:125-186 | the direction is the sign of the best mean, and each verdict holds iff the gate years, the regimes and the horizons are, one by one, as it requires |
| VerdictRules.SteadyIsAllWeather | scripts/factor_full_judgment.py:125-186 | a factor with one IC of 0.015 or more on every day is all_weather with +1, and with -1 when that IC is negative |
| CatchUp.WholeBatchKeepsComplete | scripts/catchup_panel_chunked.py:138-203 | a batch whose two files are both written keeps every skipped symbol's rows exactly staged |
| CatchUp.BatchKeepsCompleteIff | scripts/catchup_panel_chunked.py:190-200 | whatever the crash point, a batch keeps staging complete iff its files are not split or it staged no row |
| CatchUp.StageFromComplete | scripts/catchup_panel_chunked.py:138-203 | a whole run, cut short anywhere but inside a pair, keeps staging complete though done files are renumbered and overwritten |
| CatchUp.StageFromRows | scripts/catchup_panel_chunked.py:138-203 | a run adds exactly the rows of the symbols it had to fetch and could |
| CatchUp.RunsStayComplete | scripts/catchup_panel_chunked.py:98-203 | over any sequence of runs, crashes and restarts that keeps the file pairs together staging stays complete |
| CatchUp.RunsStageAllOrNothing | scripts/catchup_panel_chunked.py:98-203 | over any sequence of runs and crashes, split pairs included, every symbol is staged exactly or not at all |
| CatchUp.FinishedRunHasEverySeed | scripts/catchup_panel_chunked.py:117-203 | on complete staging a finishing run holds the in-window rows of exactly the symbols done before or fetched by it |
| CatchUp.FinishedRunRows | scripts/catchup_panel_chunked.py:117-203 | after any crashes a finishing run holds exactly the symbols staged before or fetched by it, each in full |
| CatchUp.SplitCrashSkipsNextRun | scripts/catchup_panel_chunked.py:190-200 | after a split crash the next run that finishes skips the symbol and stages no row of it |
| CatchUp.LostUntilRewritten | scripts/catchup_panel_chunked.py:117-200 | a run never stages a symbol only done file k names, and the next one skips it again iff this one did not rewrite that file |
| CatchUp.LostForAsLongAs | scripts/catchup_panel_chunked.py:117-200 | over any restarts such a symbol is skipped for exactly as long as no run rewrites done file k |
| CatchUp.SplitSkippedForAsLongAs | scripts/catchup_panel_chunked.py:117-200 | after a crash between a batch's two files, a symbol the batch had fetched is skipped by every later run iff none of them rewrites that batch's done file |
| CatchUp.SplitRunLoses | scripts/catchup_panel_chunked.py:138-200 | a run that dies between the two files of batch k leaves every symbol of that batch it had fetched named by done file k only and without a row |
| CatchUp.RewrittenIsStagedAgain | scripts/catchup_panel_chunked.py:117-200 | once it is rewritten, a run that finishes fetches the symbol and stages all of its rows |
| CatchUp.FetchedIs | scripts/catchup_panel_chunked.py:146-176 | each quote in the window gives one row, in the vendor's order, with its close and 100 shares for every lot |
| PanelMerge.KeepFirstIsFirst | scripts/catchup_panel_chunked.py:205-249 | dropping duplicates keeps exactly the first row of each key |
| PanelMerge.WrittenPanelKeepsHistory | scripts/catchup_panel_chunked.py:205-317 | a written panel has unique keys, adds only the new rows, and starts with the old panel unchanged iff its keys were unique |
| PanelMerge.WrittenPanelIsReflagged | scripts/catchup_panel_chunked.py:251-309 | every new row has flags rebuilt from its evidence and its own previous close |
| PanelFlags.WrittenFlags | scripts/catchup_panel_chunked.py:251-309 | every window row of a written panel, from the written rows: ST is the evidence, suspended iff volume is missing or not positive, at a limit iff its rounded close reaches its previous row's limit price to half a tick, and at none without one |
| PanelFlags.FlagsFollowClose | scripts/catchup_panel_chunked.py:270-283 | limit-up stays at every higher close, limit-down at every lower one |
| PanelFlags.LimitsExclude | scripts/catchup_panel_chunked.py:270-283 | with limit prices more than a tick apart no row is at both, and one between them at neither |
| PanelFlags.TenPercentDay | scripts/catchup_panel_chunked.py:270-284 | from 10 to 11, 9 and 10 under a 10% limit |
| PanelMerge.CompleteSymbolMerged | scripts/catchup_panel_chunked.py:205-249 | of a completely staged symbol exactly the first quoted row of a date is merged, if it has a close |
| PanelMerge.PanelShowsStagedRows | scripts/catchup_panel_chunked.py:205-309 | a written panel shows, on each window date of a symbol, its first staged row if that has a close, and nothing else |
| PanelMerge.RunsFillPanel | scripts/catchup_panel_chunked.py:98-317 | from an empty directory over any runs, crashes and restarts to the panel: keys unique, old rows kept, and exactly the first quoted rows with a close of the obtained symbols |
| PanelMerge.PairsKeptFillPanel | scripts/catchup_panel_chunked.py:98-317 | when no crash splits a pair that is every symbol done earlier or fetched by the last run |
| PanelMerge.MergeRaisesIff | scripts/catchup_panel_chunked.py:224-273 | the merge raises exactly when rows are staged but no date's first row has a close |
| PanelMerge.RunsRaiseIff | scripts/catchup_panel_chunked.py:117-273 | over any runs and restarts it raises iff some obtained symbol is quoted in the window and no obtained symbol's first row of a date has a close |
| PanelMerge.CoveredMergeWrites | scripts/catchup_panel_chunked.py:205-309 | evidence for every staged row and one first row with a close are enough for the panel to be written |
| PanelMerge.RestartRepeatsOutcome | scripts/catchup_panel_chunked.py:117-273 | a restart with nothing left to fetch meets the same outcome |
| Universe.Seed | scripts/catchup_panel_chunked.py:94-96 | the seed lists, sorted and once each, exactly the symbols with a row on the panel's last date |
| Universe.WrittenLastDate | scripts/catchup_panel_chunked.py:75-77 | a written panel ends inside its window, so the next window starts later |
| Universe.FollowedNextIff | scripts/catchup_panel_chunked.py:75-317 | the next window fetches a symbol iff this one did and, if it was written, obtained it and found a close on the new last date |
| Universe.FollowedIff | scripts/catchup_panel_chunked.py:75-317 | after any number of windows a symbol is fetched iff it was at first and every written window since kept it |
| Universe.DroppedNeverReturns | scripts/catchup_panel_chunked.py:75-317 | a symbol that one window does not keep is fetched by no later one |
| Universe.SplitCrashNotObtained | scripts/catchup_panel_chunked.py:117-203 | a window in which a run dies between the files of a fetched symbol's batch, with no later rewrite of its done file, does not obtain that symbol |
| Universe.SplitCrashRemovesForGood | scripts/catchup_panel_chunked.py:75-317 | if that window is written, the symbol is fetched by no later window |
| CatchUpExamples.QuoteWithoutCloseRaises | scripts/catchup_panel_chunked.py:117-273 | one stock quoted without a close, one run that finishes: the merge raises |
| CatchUpExamples.OneCrashDropsStock | scripts/catchup_panel_chunked.py:75-317 | two stocks, one crash, a restart that finishes and writes: the first stock is never fetched again |
| CleanUp.CutShortCompleteIff | scripts/catchup_panel_chunked.py:110-115 | a clean-up that stops early leaves the old staging complete iff no symbol a remaining file names had a row in an unlinked one |
| CleanUp.RunAfterCutShort | scripts/catchup_panel_chunked.py:110-203 | a finishing run for the old window then holds a symbol in full iff it is fetched again or lost no row |
| CleanUp.UnlinkedIsSkipped | scripts/catchup_panel_chunked.py:110-115 | while a chunk file is left, a symbol whose rows were unlinked is still skipped |
| CatchUpProcess.Disk.OpenWindow | scripts/catchup_panel_chunked.py:98-115 | staging of another window or evidence is unlinked file by file, otherwise kept; a crash on the way leaves some of its files and the old manifest |
| CatchUpProcess.Disk.ReadStaged | scripts/catchup_panel_chunked.py:117-131 | unreadable files are deleted and the skip set is that of all readable files |
| CatchUpProcess.Disk.FetchBatch | scripts/catchup_panel_chunked.py:138-189 | a batch's rows are those of its non-failing symbols, failures are noted |
| CatchUpProcess.Disk.WriteBatch | scripts/catchup_panel_chunked.py:190-203 | the files after a batch for every crash point |
| CatchUpProcess.Disk.StageAll | scripts/catchup_panel_chunked.py:138-203 | the batch loop refines the staging function the lemmas are about |
| CatchUpProcess.Disk.Finish | scripts/catchup_panel_chunked.py:205-317 | merge and clean up, or on a refusal or an error leave panel, staging and manifest as they were |
| CatchUpProcess.Disk.CatchUp | scripts/catchup_panel_chunked.py:70-317 | one invocation from files to files: window and seed read from the panel, the early exits, and panel, staging and manifest after either crash, a refusal, an error and a success |
| Redundancy.ClusterFactors | scripts/factor_diagnostics.py:131-142 | the clustering loop computes the greedy function's clusters |
| Redundancy.SurvivorsAreTheRule | scripts/factor_diagnostics.py:131-142 | the kept set is the one and only set in which a factor is iff no earlier member correlates at the threshold |
| Redundancy.SurvivorsAreIndependent | scripts/factor_diagnostics.py:131-142 | kept factors are pairwise below the threshold |
| Redundancy.DroppedAreTheRest | scripts/factor_diagnostics.py:131-142 | the uncut clusters hold exactly the labelled factors not kept, each with an earlier kept head |
| Redundancy.ClustersAreDisjoint | scripts/factor_diagnostics.py:131-142 | no factor is listed twice and no head is listed |
| Redundancy.GroupInOrder | scripts/factor_diagnostics.py:138-140 | a cluster's members stand in label order, so the exported twelve are the first of them |
| Redundancy.ExportIsDropIffSmall | scripts/factor_diagnostics.py:131-142 | the exported list is the dropped set iff no cluster has more than 12 members |
| Redundancy.DropRedundant | scripts/factor_neutralize.py:92-98 | the consumer splits the columns into kept and redundant, in order |
| Redundancy.WithoutKeepsOrder | scripts/factor_neutralize.py:92-98 | the kept columns are listed in their old order |
| Redundancy.KeptColumnsAreSurvivorsIff | scripts/factor_neutralize.py:92-98 | end to end, for columns that are the labels: kept columns are the survivors iff no cluster was cut |
| Redundancy.KeptFactorsAreSurvivorsIff | scripts/factor_neutralize.py:92-98 | for any columns: labelled columns are kept exactly when they survive iff no cluster cut one of the columns |
| Redundancy.ManyAlikeAreCut | scripts/factor_diagnostics.py:131-142 | fourteen or more mutually correlated factors: the cluster is cut and a dropped factor comes back |
| Neutralize.DemeanedSectorSum | scripts/factor_neutralize.py:45-63 | after the sector step each sector sums to zero |
| Neutralize.ResidualIsOrthogonal | scripts/factor_neutralize.py:45-63 | the size step keeps a zero sum and removes all correlation with size |
| Neutralize.NeutralizedColumn | scripts/factor_neutralize.py:45-63 | the finished column sums to zero and is orthogonal to standardised size |
| Neutralize.FinalSectorMean | scripts/factor_neutralize.py:45-63 | a sector's final mean is -beta times its mean size over sigma, zero iff beta or that mean is zero |
| FactorOrder.ClipMeans | scripts/factor_neutralize.py:46-48 | clipping moves a value to the bound it passes and leaves the others |
| FactorOrder.DistanceKept | scripts/factor_neutralize.py:45-63 | two stocks of one sector and size end as far apart as their clipped values, in units of the two deviations |
| FactorOrder.OrderKept | scripts/factor_neutralize.py:45-63 | so they keep the order of their factor values, strictly inside the bounds |
| FactorOrder.DayIff | scripts/factor_neutralize.py:45-118 | fewer than 30 stocks pass through unchanged; a longer day has no column iff the clipped values or the residuals are all the same |
| CopiedStocks.CopiesAreNeutralizedAlike | scripts/factor_neutralize.py:45-63 | a day with every stock repeated n times is neutralised to the n-fold repetition of the single day's column |
| TiltedSectors.SectorsCanBeTilted | scripts/factor_neutralize.py:45-118 | days of 32 stocks or more, past the length check, whose first sector ends with mean 0.8 |
| MinuteHistory.FetchSymbol | scripts/fetch_tickflow_minute_history.py:41-69 | paging returns the latest bars of the range, as many as pages times successful calls hold, and all of them when it leaves by break |
| MinuteHistory.CoveredSpanIsFixed | scripts/fetch_tickflow_minute_history.py:105-143 | one extension adds and removes nothing inside the cached span |
| MinuteHistory.HolesAreNeverFilled | scripts/fetch_tickflow_minute_history.py:105-143 | nor do any number of later runs |
| MinuteHistory.ExtendedGapFreeIff | scripts/fetch_tickflow_minute_history.py:105-143 | an extended cache stays gap-free iff the tail piece is everything or nothing, whatever the head piece |
| MinuteHistory.PagedTailGapFreeIff | scripts/fetch_tickflow_minute_history.py:41-143 | in terms of calls: iff none succeeds or the successful ones hold the whole tail range |
| MinuteHistory.OneSuccessfulCallLeavesHole | scripts/fetch_tickflow_minute_history.py:41-143 | a bar history and failing calls after which the cache has a hole |
| MinuteHistory.MinuteCache.FetchWhole | scripts/fetch_tickflow_minute_history.py:105-143 | a first fetch writes a gap-free file or nothing |
| MinuteHistory.MinuteCache.Extend | scripts/fetch_tickflow_minute_history.py:105-143 | head and tail are fetched under the one-hour rule, as paged, and merged into the file; otherwise it is untouched |
| MinuteHistory.CacheStaysGapFreeIff | scripts/fetch_tickflow_minute_history.py:105-143 | over any number of runs a gap-free cache is gap-free at the end iff no run's tail fetch was cut |
| TrailingTwelveMonths.TtmFromYtd | scripts/build_valuation_fundamental_features.py:50-83 | the array passes compute the four-quarter sum row by row |
| TrailingTwelveMonths.DecumulationRecovers | scripts/build_valuation_fundamental_features.py:50-83 | de-cumulating a cumulated series gives back every quarter and every sum of four |
| TrailingTwelveMonths.TtmDefinedIff | scripts/build_valuation_fundamental_features.py:50-83 | a value is defined iff the whole fiscal year, or the last five quarters, are consecutive and reported |
| TrailingTwelveMonths.TtmTelescopes | scripts/build_valuation_fundamental_features.py:50-83 | it is the annual figure in Q4, else ytd + last annual - last year's ytd |
| TrailingTwelveMonths.ImplementationsAgree | scripts/industry_chain_research.py:124-142 | wherever the builder defines the last row, the second implementation gives the same figure |
| TrailingTwelveMonths.LatestTtmDefinedIff | scripts/industry_chain_research.py:124-142 | the second implementation gives a figure iff the latest reported period is annual or last year reports its annual and same-month figures |
| TrailingTwelveMonths.ImplementationsDifferIff | scripts/industry_chain_research.py:124-142 | exactly when the two implementations disagree on the last row |
| TrailingTwelveMonths.SecondIsMoreLenient | scripts/industry_chain_research.py:124-142 | a history only the second implementation accepts |
| RollingRank.RankBlock | scripts/build_valuation_fundamental_features.py:118-146 | the two phases fill exactly one block's rows with their own ranks |
| RollingRank.RollingRanks | scripts/build_valuation_fundamental_features.py:118-146 | every row is ranked by its own symbol's trailing history only, and on complete data by the naive fraction |
| RollingRank.PresentIsCounted | scripts/build_valuation_fundamental_features.py:118-146 | the minimum-periods count is the number of values that are there |
| RollingRank.CompleteDataRank | scripts/build_valuation_fundamental_features.py:118-146 | by row numbers: of the symbol's rows among the last win rows, the fraction with a value at or below the current one |
| RollingRank.MissingValuesDilute | scripts/build_valuation_fundamental_features.py:118-146 | with missing values the rank is at most the share of the present ones, equal iff none is missing or none counts |
| RollingRank.MissingCurrentRanksZero | scripts/build_valuation_fundamental_features.py:118-146 | in a full window a missing current value is ranked 0 |
| AsOfJoin.MergeAsof | scripts/build_valuation_fundamental_features.py:153-172 | the two-pointer merge equals the audit's filter-and-take-last for every key |
| AsOfJoin.AsOfIsLatest | scripts/audit_val_fund_pit.py:36-55 | the pick is disclosed by the date and nothing disclosed by then comes after it; no pick iff nothing disclosed |
| AsOfJoin.PickIgnoresOrderAndFuture | scripts/audit_val_fund_pit.py:36-55 | builder and audit agree whatever their frames hold beyond the date, unless a different statement ties with the pick |
| AsOfJoin.VisibleNeverMovesBack | scripts/build_valuation_fundamental_features.py:153-172 | what is visible never moves back as the date advances |
| AsOfJoin.PickIsOrderFreeIff | scripts/build_valuation_fundamental_features.py:153-172 | every sorted arrangement of the statements gives the same pick iff no different visible statement ties with it |
| AsOfJoin.EqualDatesDependOnOrder | scripts/build_valuation_fundamental_features.py:153-172 | statements equal in both dates make the pick depend on order |
| BlindLedger.VerifyChain | scripts/fresh_blind_status.py:24-38 | the walk reports ok iff the chain is valid, otherwise the first break, and raises iff that record has no hash |
| BlindLedger.Ledger.Append | scripts/fresh_blind_daily.py:71-82 | the file gains the record sealed with the last hash and the caller's record is updated |
| BlindLedger.SameLastHashSameLedger | scripts/fresh_blind_status.py:24-38 | two valid ledgers that share their last hash are identical |
| BlindLedger.AppendValidIff | scripts/fresh_blind_daily.py:71-82 | an append keeps a valid chain valid iff the record has no record_hash of its own |
| BlindLedger.AppendingSameObjectTwiceBreaks | scripts/fresh_blind_daily.py:71-82 | appending one record object twice breaks the chain |
| BlindLedger.AppendNeverHeals | scripts/fresh_blind_daily.py:71-82 | a broken chain stays broken at the same first place |
| BlindLedger.AppendsStayValid | scripts/fresh_blind_daily.py:71-82 | any number of plain appends keeps the chain valid, adds a line each and keeps all earlier lines as a prefix |
| ForwardLedger.LedgerFile.Freeze | scripts/forward_paper_log.py:58-104 | new pools replace rows of the same date and sleeve, keys stay unique |
| ForwardLedger.LedgerFile.Settle | scripts/forward_paper_log.py:107-140 | the in-place row loop settles every row or saves nothing |
| ForwardLedger.FreezeReplacesOnlyItsKeys | scripts/forward_paper_log.py:99-101 | other rows survive a freeze; re-freezing a date discards what it had settled to |
| ForwardLedger.DistinctKeepsFirst | scripts/forward_paper_log.py:87 | the union pool keeps every symbol at its first place |
| ForwardLedger.SettlementIsConfluent | scripts/forward_paper_log.py:107-140 | settling early and again on a panel with only later sessions added equals settling once at the end |
| ForwardLedger.SettlementIsIdempotent | scripts/forward_paper_log.py:107-140 | settling twice on one panel equals settling once |
| ForwardLedger.SettlesOnlyOnElapsedWindow | scripts/forward_paper_log.py:107-140 | a row settles only once fwd_td later sessions exist, and at the last of them |
| ForwardLedger.UsesOnlyTwoSessions | scripts/forward_paper_log.py:107-140 | prices outside the as-of and window-end sessions cannot change an outcome |
| ForwardLedger.ConfluentIff | scripts/forward_paper_log.py:117-138 | an unsettled row is confluent over all growing panels iff its window is at least one session |
| ForwardLedger.ZeroWindowRaises | scripts/forward_paper_log.py:121-124 | an unsettled row with a zero window raises whatever the panel |
| ForwardLedger.NegativeWindowFollowsPanel | scripts/forward_paper_log.py:121-124 | with a window of -k the row settles k sessions before the panel's last, so the end moves with the panel |
| SettledReturns.ReturnsAre | scripts/forward_paper_log.py:126-133 | one return per symbol priced on both days, in order, which takes its first close to its last |
| SettledReturns.ScoreIs | scripts/forward_paper_log.py:128-138 | benchmark and pool are rounded averages of those returns, the excess the rounded difference, and nothing is recorded without a priced symbol |
| SettledReturns.WinnersExceed | scripts/forward_paper_log.py:130-137 | a pool whose every priced symbol does at least as well as the benchmark records no negative excess |
| SettledReturns.HalfTheMarket | scripts/forward_paper_log.py:126-137 | two stocks in numbers: pool 0.1, benchmark 0.05, excess 0.05 |
| SettledReturns.SettledOn | scripts/forward_paper_log.py:117-138 | an open row settles on the day up to which exactly fwd_td sessions have passed, from that day's closes and its own day's |
| SettledReturns.OpenUntilElapsed | scripts/forward_paper_log.py:121-124 | with fewer sessions in the panel it stays as it is |
| DotSimulation.TradeDay | scripts/dot_engine_forward_backtest.py:74-110 | the loop's running totals are those of the day's trades |
| DotSimulation.SimulateDay | scripts/dot_engine_forward_backtest.py:62-120 | a simulated day for any decision engine, with its early exits and its report: the uplift is the edge less all fees over the carried value |
| DotSimulation.DayIsLegal | scripts/dot_engine_forward_backtest.py:74-110 | every trade of a day passed the guards after the trades before it |
| DotSimulation.LegalStaysSafe | scripts/dot_engine_forward_backtest.py:74-110 | no more than the carried shares are sold, cash is never negative, nothing is bought before a sale, bought shares never become sellable |
| DotSimulation.RestoredIsEdgeMinusFees | scripts/dot_engine_forward_backtest.py:110-120 | after the restore cash is the edge of sales less that of purchases less non-negative fees |
| DotSimulation.TradingAtCloseNeverGains | scripts/dot_engine_forward_backtest.py:74-120 | a day that trades only at its close price never gains |
| DotSimulation.UpliftMeans | scripts/dot_engine_forward_backtest.py:118-120 | the reported uplift times the carried value is the cash, so it has the cash's sign |
| DotSimulation.CloseOnlyDayReportsFees | scripts/dot_engine_forward_backtest.py:74-120 | a day that trades only at its close reports exactly the fees as a loss |
| DotSimulation.RestoreKeepsT1Iff | scripts/dot_engine_forward_backtest.py:110-120 | the restore sells only carried shares iff no more was bought than carried |
| DotSimulation.BandLimitsBuying | scripts/dot_engine_forward_backtest.py:74-110 | with all prices in a band, purchases at its low end and cost are worth no more than sales at its high end net of cost |
| DotSimulation.EngineDayBreaksT1 | scripts/dot_engine_forward_backtest.py:62-120 | a day of decisions inside the decision rules (limit band, lots, fraction, cash; src/quantagent/execution/intraday_dot_decision.py:206-251) at the default costs after which the restore sells 1800 shares with 1400 carried ones left |
| WalkForward.FoldLoop | scripts/build_u0_full_universe_gold.py:189-208 | the loop emits the fitting folds in order and stops at the first that does not fit; no index is out of range |
| WalkForward.BuildFolds | scripts/build_u0_full_universe_gold.py:180-209 | from a date column to folds; fails exactly for a request of -1 |
| WalkForward.AttemptedIs | scripts/build_u0_full_universe_gold.py:185-187 | as many folds as asked for with 20 sessions each beyond the embargo, otherwise the most that have 60, or one |
| WalkForward.FittingFoldInRange | scripts/build_u0_full_universe_gold.py:189-208 | every index of a fitting fold is a session, in order |
| WalkForward.FoldGeometry | scripts/build_u0_full_universe_gold.py:189-208 | training grows, the gap is exactly the embargo, neighbouring test windows share one boundary session |
| WalkForward.LabelExitsByTestStart | scripts/build_u0_full_universe_gold.py:61-67 | a training label exits no later than test start, and on it exactly for the last row at the full horizon |
| WalkForward.FitsIsPrefixClosed | scripts/build_u0_full_universe_gold.py:189-195 | folds before a fitting fold fit, so the early break misses none |
| WalkForward.AllFoldsIffLastFits | scripts/build_u0_full_universe_gold.py:187-195 | all attempted folds are produced iff block is positive and block * attempted + embargo < n - 1 |
| WalkForward.EnoughSessionsGiveAllFolds | scripts/build_u0_full_universe_gold.py:185-195 | with (n_folds + 1)(embargo + 20) sessions exactly n_folds folds are produced |
| WalkForward.NegativeRequests | scripts/build_u0_full_universe_gold.py:185-187 | a negative request is never adjusted |
| ExecutableLabels.HoldingPeriodMinClose | scripts/build_executable_labels_dataset.py:170-189 | the offset loop gives each row's path minimum and whether every session of its path has a positive close |
| ExecutableLabels.PathMinIsLeast | scripts/build_executable_labels_dataset.py:170-189 | on an observed path the minimum is one of the closes and none is lower |
| ExecutableLabels.BuildDrawdowns | scripts/build_executable_labels_dataset.py:192-256 | the drawdown column, or a refusal exactly for a bad calendar, duplicate keys or a date off the calendar |
| ExecutableLabels.DrawdownDefinedIff | scripts/build_executable_labels_dataset.py:219-256 | defined iff signal and entry rows are explicitly clear and the symbol has its own positive close on each of T+1..T+5 |
| ExecutableLabels.DrawdownIsWorstClose | scripts/build_executable_labels_dataset.py:241-256 | it lies in (-1, 0], is reached by one of the five closes and undercut by none |
| ExecutableLabels.DrawdownIsLocal | scripts/build_executable_labels_dataset.py:131-189 | other symbols' rows and other sessions' rows cannot change it: no shift to a next row |
| ExecutableLabels.DrawdownIsFinal | scripts/build_executable_labels_dataset.py:131-256 | a defined drawdown keeps its value when sessions and rows are added later |
| ExecutableLabels.ReturnsStayAboveDrawdown | src/quantagent/factors/executable_labels.py:195-221 | returns that exit inside the window are defined and at least the drawdown |
| ExecutableLabels.FiveDayReturnAboveDrawdownIff | src/quantagent/factors/executable_labels.py:195-221 | the five-session return is at least the drawdown iff some close of the window is no higher than the exit at T+6 |
| ExecutableLabels.FiveDayReturnCanFallBelowDrawdown | src/quantagent/factors/executable_labels.py:195-221 | a frame in which it is below the drawdown |
| Texts.StripRemovesOnlyBlanks | scripts/merge_factor_definitions.py:36-39 | stripping removes white space at the ends and nothing else |
| Texts.DecimalInjective | scripts/merge_factor_definitions.py:42-44 | different numbers render differently |
| Texts.SpacesAre | scripts/merge_factor_definitions.py:36-39 | the white-space code points, one by one |
| Texts.PaddedIs | scripts/merge_factor_definitions.py:39 | padding adds zeros in front up to three places |
| DataTransfer.DedupBatch | scripts/data_manager_transfer.py:123-131 | a batch against the key table keeps exactly the stream's next first occurrences |
| DataTransfer.Transfer.Write | scripts/data_manager_transfer.py:42-55 | a frame is appended; a Parquet file opens with the first frame's schema and raises on any other |
| DataTransfer.Transfer.Fill | scripts/data_manager_transfer.py:106-134 | the batch loop leaves the selection of the whole stream in the partial file, or stops on the first batch without the columns or with another schema |
| DataTransfer.Transfer.Run | scripts/data_manager_transfer.py:103-165 | the output is replaced only on success, the partial file is always gone, and read = written + duplicates + filtered |
| DataTransfer.FaultFreeIff | scripts/data_manager_transfer.py:42-134 | a run reads all its batches iff none lacks a column and, for Parquet, all batches that write rows write one schema |
| DataTransfer.KeptMembers | scripts/data_manager_transfer.py:111-122 | the filter keeps exactly the wanted rows |
| DataTransfer.WantedMeans | scripts/data_manager_transfer.py:111-122 | the kept rows are dated, named, of a wanted symbol, and lie between the start and the end day's last microsecond |
| DataTransfer.SameKeyIff | scripts/data_manager_transfer.py:123-127 | two rows are duplicates iff their stripped symbols agree and their instants fall in one microsecond |
| DataTransfer.FirstOccurrencesPositions | scripts/data_manager_transfer.py:123-131 | deduplication lists, in order, exactly the rows that come first with their key |
| DataTransfer.FirstOccurrencesKeys | scripts/data_manager_transfer.py:123-131 | selected keys are distinct and none is lost |
| DataTransfer.ReimportIsIdentity | scripts/data_manager_transfer.py:103-141 | importing a published import again selects all of it |
| DataTransfer.StreamKeepsWhole | scripts/data_manager_transfer.py:29-39 | if parts parse alike, any batch size keeps what parsing the whole file at once keeps |
| DataTransfer.BatchSizeIsIrrelevantIff | scripts/data_manager_transfer.py:29-134 | every run is independent of the batch size iff parsing two parts apart or together always gives the same dated rows with a symbol and, for a Parquet output, no run writes two schemas at any batch size |
| DataTransfer.ExportsWriteOneSchemaIff | scripts/data_manager_transfer.py:42-134 | no export writes two schemas at any batch size iff no two parts, the second no longer than the first, leave rows of different schemas |
| DataTransfer.RowByRowIsIrrelevant | scripts/data_manager_transfer.py:106-134 | a reader that types every row on its own gives runs that do not depend on the batch size, to either format |
| DataTransfer.CsvDependsOnBatchSize | scripts/data_manager_transfer.py:30-32 | a CSV whose symbol column is read as numbers where it can be does not |
| DataTransfer.ParquetDependsOnBatchSize | scripts/data_manager_transfer.py:37-39 | nor does a Parquet file of integer codes, which a batch with a missing code reads as floats |
| DataTransfer.EmptyCellCanRaise | scripts/data_manager_transfer.py:37-55 | two rows of which the second lacks a value: published as one batch, a schema error as two |
| FlagRewrite.RewriteGroup | scripts/fix_training_dataset_tradability_flags.py:163-174 | one group becomes its join, with counts and evidence |
| FlagRewrite.DatasetFile.WriteTemporary | scripts/fix_training_dataset_tradability_flags.py:130-176 | the temporary file holds the joined groups before the first fault |
| FlagRewrite.DatasetFile.Fix | scripts/fix_training_dataset_tradability_flags.py:114-207 | the dataset becomes its join or is untouched; the temporary file remains iff the run was refused |
| FlagRewrite.RewriteIsWholeFileJoin | scripts/fix_training_dataset_tradability_flags.py:132-207 | it succeeds iff the panel covers every row with unique keys, reporting the counts of one whole-file join |
| FlagRewrite.GroupsJoinToWhole | scripts/fix_training_dataset_tradability_flags.py:132-176 | the rewritten groups in order are the whole-file join |
| FlagRewrite.GroupingIsIrrelevant | scripts/fix_training_dataset_tradability_flags.py:132-207 | how rows are cut into groups does not matter to a success |
| FlagRewrite.FirstFaultIsReported | scripts/fix_training_dataset_tradability_flags.py:132-162 | a failed run reports the first faulty group's fault |
| FlagRewrite.JoinTakesPanelFlags | scripts/fix_training_dataset_tradability_flags.py:141-174 | a row gets the flags of the panel row with its key and keeps everything else |
| FlagRewrite.FlaggedCounts | scripts/fix_training_dataset_tradability_flags.py:163-174 | each reported count is the number of rewritten rows that carry that flag |
| FlagRewrite.GroupFaultIff | scripts/fix_training_dataset_tradability_flags.py:132-162 | which fault a group has: an undated row, a panel key held twice, a row without its panel row, in that order |
| FlagRewrite.EvidenceIff | scripts/fix_training_dataset_tradability_flags.py:163-167 | the reported evidence is that of the panel rows which the rows match |
| FlagRewrite.JoinIsIdempotent | scripts/fix_training_dataset_tradability_flags.py:141-174 | rewriting a rewritten file changes nothing |
| DefinitionMerge.UniqueName | scripts/merge_factor_definitions.py:40-44 | the renaming loop ends and gives the first free name of base, base_2, base_3, ... |
| DefinitionMerge.Pigeonhole | scripts/merge_factor_definitions.py:42-44 | k candidates in use need k used names |
| DefinitionMerge.Merger.Add | scripts/merge_factor_definitions.py:36-53 | one item's step on list and both sets |
| DefinitionMerge.Merger.AddAll | scripts/merge_factor_definitions.py:34-53 | the nested loops merge all inputs in order |
| DefinitionMerge.MergeIsWellMerged | scripts/merge_factor_definitions.py:31-53 | names and expressions are pairwise distinct, trimmed and not empty |
| DefinitionMerge.MergeCovers | scripts/merge_factor_definitions.py:36-53 | merged expressions are exactly the non-empty input expressions |
| DefinitionMerge.MergeExtends | scripts/merge_factor_definitions.py:31-53 | later inputs only append |
| DefinitionMerge.FirstItemWins | scripts/merge_factor_definitions.py:36-53 | name and description come from the first item with the expression |
| DefinitionMerge.MergeIsIdempotent | scripts/merge_factor_definitions.py:31-53 | merging a merge's own output changes nothing |

## Left out

- IEEE rounding, time zones, Parquet, CSV, JSON and SHA-256 encodings: abstracted, as are square root, standard
  deviation, tick rounding, vendor answers and decision engines, which are parameters.
- Network fetching, command lines, reports, path checks before a run, and manifests written after one.
- Catch-up: a crash inside the final merge, the panel write or the clean-up after it; a torn manifest; the tail backup
  file; the order in which chunk files are globbed and the final sort of the panel (keys are unique, so neither changes
  the set of rows); two chunk files of one number written within one second by different processes (restarts are taken to
  happen after every second already on disk); a vendor that revises a window's history between runs; the clamping of the
  window's end to the last published close (the end is a parameter); missing trade dates in the panel.
- Universe: windows are taken up to their merge and start from an empty directory. A window that is abandoned before its
  merge leaves the panel as it is, and its staging is discarded by the next one.
- CatchUp.RunsStayComplete: holds for runs that do not die between a done file and its chunk file, because there the code
  does lose rows (BatchKeepsCompleteIff); RunsStageAllOrNothing and RunsFillPanel hold for all runs.
- FactorVerdict.JudgeFactor: without the cross-sectional early exit, the capacity ratio and the report row.
- Redundancy: how the averaged correlations are accumulated and how factors are ordered by strength; the matrix is taken
  to be symmetric.
- Neutralize.NeutralizedColumn: complete data only; missing sizes and factor values, and the quantiles that give the
  clip bounds, are not modelled.
- Neutralize.FinalSectorMean: complete data only, as above.
- RollingRank: a min_periods or window below 1 (the source uses 120 and 504).
- BlindLedger: the encoding of lines. Records are written with non-ASCII text as is and read back with splitlines, so a
  text that holds U+2028, U+2029 or U+0085 splits its line and the next read fails.
- TrailingTwelveMonths: statements without a period end and repeated quarter ends.
- ForwardLedger: how the pools are chosen before they are frozen, and non-positive closes in the panel.
- DotSimulation: market regime and bar features shown to the decision engine. EngineDayBreaksT1 keeps to the sizes and
  prices its rules allow, and takes the signals and confidences that trigger them as given.
- ExecutableLabels: sample weights, the fundamentals flag, the parsing of flag text, and label-end columns.
- DataTransfer: how pandas infers a batch's types in general (any parser that keeps the number of rows is covered, two
  inference rules are given as examples), an error raised while reading a batch, and the manifest.
- DataTransfer.BatchSizeIsIrrelevantIff: published rows are compared by value; the column types of two published files may
  still differ.
- DataTransfer.ExportsWriteOneSchemaIff: for exports; an import's frames also depend on the keys seen before.
- FlagRewrite: the checks of `load_panel_flags` on the panel itself (its output's unique keys appear as a condition), and
  write errors, after which the code cleans up.
- DefinitionMerge: items whose fields are not text.
