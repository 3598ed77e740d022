# Verified model of the trading platform's data and compiler core

This project models the algorithmic core of a trading platform: the collectors and
downloaders that fill its data files, the reconciler that keeps its market streams in step with
connected clients, the compiler from visual strategies to code, the tick and order book
aggregation, the dilated causal network it forecasts with, and the migration head finder. Each
module is one component. Code that updates state is a class or a method with loops, proved
against a specification function; what the component is for is then proved about that function,
for all inputs, all runs or all interleavings. `dafny verify dfyconfig.toml` checks everything.

| module | component | main results |
|---|---|---|
| `TemporalNetwork` | dilated causal network | the output is the one solution of the layer equations, the last R+1 = 2(k-1)(2^L-1)+1 steps decide it, every prefix is causal, and R is exact |
| `HybridCollector`, `CollectorHistory`, `CollectorStops`, `L2Collector`, `Chunks` | trade and order book collectors | rows match the lock's history over every interleaving, conservation, exactly what a stop loses, promptness of the price trigger |
| `PagedHistory`, `CandleDownload`, `TradeDownload`, `TickDownload`, `TradeText`, `LastLine`, `Decimal` | resumable downloads | resumed equals uninterrupted, termination, exactly when trades are missed or written twice, the file's text alone carries the cursor, what a torn row does |
| `DedupeSort`, `OhlcvPaging`, `ForexCollector` | paged requests | the pages together are one range query, in a bounded number of requests, and exactly when a candle falls between two pages |
| `StreamReconciler` | subscription reconciler | no task leaks, no churn, each pass leaves exactly the wanted tasks, and exactly the rejected forex symbols are missing |
| `StrategyCompiler`, `StrategyText`, `StrategyNodes`, `StrategyParams` | visual strategy compiler | the generated text reads back as what was compiled, when the generated program acts as the labels say and when it runs, and exactly when a threshold is the number in its label |
| `Grouping`, `AsOfJoin`, `TickFeatures`, `VolumeBlocks`, `TradeCandles` | aggregation | conservation over bins, path variation, volume blocks as slices, gap-filled candles, exactly when the join looks ahead and when it is possible |
| `LiquidityZones` | order book smoothing | geometric fading, bounds over every run, the ratcheting level |
| `RevisionHeads` | migration heads | every revision of an acyclic graph has a head above it |

## Conventions

- Floats are reals, timestamps are integer milliseconds, collections are values. A source field
  that is updated in place is a class field; its specification is a function on a state value.
- An exchange is a history in time order. A page is the first entries at or after the cursor;
  a failed request is a turn that changes nothing.
- Two tasks that share a lock are a state machine whose steps are the code between two awaits,
  so a sequence of events is an interleaving. A process that dies is a script that runs out.

## Where the code differs from what it is meant to do

- Candle download: an empty window (start equal to end) is reported as up to date although a
  candle may sit exactly there (`CandleDownload.FreshIffWindow`); timestamps that are not whole
  seconds are fetched again on resume (`CandleDownload.ResumesPastLast`).
- Trade download of `tasks.py`: a trade exactly on the end can be lost, a page that ends inside
  one millisecond loses the rest of it (`TradeDownload.MissesNothingIff` is the exact
  condition). Its tail reader takes the id of the last trade for a date
  (`TradeText.DateIsId`), so a repeated download resumes only when that id happens to read as
  a late enough date (`TradeDownload.ResumesIff`) and otherwise writes the range, or part of it,
  a second time (`TradeDownload.SecondDownload`, `TradeDownload.RestartRepeats`).
- `download_trades.py`: a page that ends inside one millisecond loses the rest of it
  (`TickDownload.NothingLostIff`). A row torn by a crash is read as a smaller time when it is
  torn inside its digits and as no time before them (`TradeText.TornRow`); the next run then
  starts too early, and glues its first row to the torn one (`TickDownload.RunAfterTear`).
- Paged candle request: a candle less than one timeframe behind a full page is skipped
  (`OhlcvPaging.OnePageIff`, `OhlcvPaging.CloseCandleLost`).
- Hybrid collector: a stop loses the rows since the last chunk file, a whole chunk if it comes
  between the row that fills the buffer and the chunk check (`CollectorStops.StopLoss`,
  `CollectorStops.WholeChunkLost`); a frame that does not parse takes the trades it has drained
  with it (`CollectorHistory.Conservation`, `CollectorHistory.NothingLostIff`).
- Reconciler: a wanted forex channel that OANDA has rejected since its visit is missing after the
  pass (`StreamReconciler.PassReconciles`).
- Strategy compiler: every comparison reads the first indicator node of the graph, whatever
  period the label shows, and compares it with the first run of digits behind the sign. So a
  comparison means what its label says exactly when that node is the label's RSI, the RSI stands
  before the sign, the sign is not `<=` or `>=`, and the number has no places but zeros, no
  minus unless it is 0, and no second sign before it unless it is the usual limit
  (`StrategyCompiler.ComparisonMeansIff`, `StrategyCompiler.ThresholdAsWrittenIff`); otherwise
  the code may act against its own label
  (`StrategyCompiler.BuysOnTheWrongIndicator`, `StrategyCompiler.MissesTheDecimals`). A program
  in which every comparison means it acts as the labels say. One in which some visible
  comparison does not acts otherwise on some bar (`StrategyCompiler.CompilationPreservesIff`),
  unless labels with the RSI behind the sign cancel each other
  (`StrategyCompiler.TurnedCancel`). If the first node stands for no known indicator, the code
  reads an attribute that does not exist, and with a leading zero in a threshold the file is
  refused and nothing runs (`StrategyCompiler.RunsIff`, `StrategyCompiler.LeadingZeroRefused`).
- Tick features: the RSI of a flat market is 0, never the neutral 50 the code falls back to
  (`TickFeatures.RsiZeroIff`); the as-of join labels a bin by its left edge, so a bar sees every
  tick up to the end of its window (`TickFeatures.SeesNothingLaterIff`).
- Volume blocks: counting ticks, the first block is one tick short (`VolumeBlocks.UnitVolumeKey`);
  negative volumes can make the join impossible (`VolumeBlocks.JoinPossibleIff`).

## Model

| member | source | states |
|---|---|---|
| TemporalNetwork.BuildLayers | backend/debug_scripts/debug_tcn.py:31-40 | the layer list grown level by level has channels, dilation 2^i and padding (k-1)2^i of each level |
| TemporalNetwork.LevelsStack | backend/debug_scripts/debug_tcn.py:35-40 | with well-shaped weights those layers are a chain of causal blocks |
| TemporalNetwork.StageLength | backend/debug_scripts/debug_tcn.py:9-22 | a padded convolution with its chomp keeps the length if and only if there is padding (or nothing to keep): with kernel size 1 the chomp slices everything away |
| TemporalNetwork.BlockForward | backend/debug_scripts/debug_tcn.py:25-28 | a block keeps the sequence length and has the declared output channels |
| TemporalNetwork.RunFrom | backend/debug_scripts/debug_tcn.py:40-45 | the stack keeps the sequence length and ends with the last level's channels |
| TemporalNetwork.FrameIsResponse | backend/debug_scripts/debug_tcn.py:9-22 | a zero-padded convolution read at a step is the textbook sum: the last tap on the step, every earlier one a dilation further back |
| TemporalNetwork.BlockIff | backend/debug_scripts/debug_tcn.py:25-28 | the output of a block is the one signal that solves the equations of its layers: two rectified convolutions, then the input added and rectified again |
| TemporalNetwork.ForwardIff | backend/debug_scripts/debug_tcn.py:40-46 | the output of the model is the one frame that solves the equations of all its layers and of the linear readout |
| TemporalNetwork.SilentBlock | backend/debug_scripts/debug_tcn.py:25-28 | a block whose second convolution is silent returns a non-negative input unchanged, and with a 1x1 convolution the positive part of that convolution |
| TemporalNetwork.NoResidual | backend/debug_scripts/debug_tcn.py:25-28 | where nothing comes back in, the block is its two convolutions alone |
| TemporalNetwork.StageAgree | backend/debug_scripts/debug_tcn.py:9-22 | cutting history off spoils at most the first `padding` steps of a stage |
| TemporalNetwork.BlockAgree | backend/debug_scripts/debug_tcn.py:25-28 | one residual block spoils the first 2*padding steps of a shortened history and no more |
| TemporalNetwork.RunAgree | backend/debug_scripts/debug_tcn.py:40-45 | the stack spoils at most the sum of the blocks' 2*padding |
| TemporalNetwork.HaloClosedForm | backend/debug_scripts/debug_tcn.py:35-39 | for the dilation schedule 2^i that sum has the closed form 2(k-1)(2^L-2^i) |
| TemporalNetwork.ReceptiveField | backend/debug_scripts/debug_tcn.py:25-46 | for any weights the output on more than R steps is the output on the last R+1 alone |
| TemporalNetwork.BlockPrefix | backend/debug_scripts/debug_tcn.py:25-28 | a block applied to a prefix gives that prefix of its output |
| TemporalNetwork.Causal | backend/debug_scripts/debug_tcn.py:25-45 | the whole stack is causal: no step depends on a later one |
| TemporalNetwork.WindowOnly | backend/debug_scripts/debug_tcn.py:25-46 | the output at step t >= R depends on the R+1 steps that end at t and on nothing else |
| TemporalNetwork.OldestStepMatters | backend/debug_scripts/debug_tcn.py:25-46 | R cannot be smaller: for every kernel and depth some weights tell apart histories that differ in the oldest of R+1 steps |
| Chunks.PrefixLoss | backend/scripts/hybrid_collector.py:180-187 | the saved chunks are a prefix of the rows, at most one chunk short |
| Chunks.ChunkCount | backend/scripts/hybrid_collector.py:180-187 | a completed run leaves ceil(target/size) files |
| L2Collector.Collect | backend/scripts/l2_collector.py:57-120 | chunks followed by the buffer are the rows received; completion saves exactly the target, every other ending leaves full chunks and at most one chunk in the buffer; and the task ends at the first turn that finds the job cancelled on a hundredth row, breaks, or cannot write a chunk, and not before |
| HybridCollector.Collector.constructor | backend/scripts/hybrid_collector.py:25-31 | the accumulator starts empty |
| HybridCollector.Collector.OnTrade | backend/scripts/hybrid_collector.py:60-67 | one trade under the lock |
| HybridCollector.Collector.OnGuard | backend/scripts/hybrid_collector.py:93-103 | the loop guard and the periodic cancellation check |
| HybridCollector.Collector.OnTimeout | backend/scripts/hybrid_collector.py:105-108 | a wait without a frame |
| HybridCollector.Collector.OnFrame | backend/scripts/hybrid_collector.py:110-159 | a frame drains the accumulator and appends one row |
| HybridCollector.Collector.TakeTrades | backend/scripts/hybrid_collector.py:113-127 | the part under the lock: the accumulator is read, counted and emptied, the price stays |
| HybridCollector.Collector.OnGarbled | backend/scripts/hybrid_collector.py:123-145 | a frame whose prices are no numbers ends the task after the drain |
| HybridCollector.Collector.CheckTrigger | backend/scripts/hybrid_collector.py:150-159 | the price trigger remembers the first non-zero price and stops on a large move |
| HybridCollector.Collector.OnResume | backend/scripts/hybrid_collector.py:180-187 | the chunk check saves and clears a full or final buffer |
| HybridCollector.Collector.OnAbort | backend/scripts/hybrid_collector.py:189-193 | a cancellation or an exception ends the task |
| CollectorHistory.RowsMatchHistory | backend/scripts/hybrid_collector.py:60-67 | over every interleaving row i carries exactly the totals of the trades between frames i-1 and i, the last price seen and its own book |
| CollectorHistory.BookColumns | backend/scripts/hybrid_collector.py:128-145 | every row has twenty levels of each side of its own book, the missing ones empty |
| CollectorHistory.Conservation | backend/scripts/hybrid_collector.py:113-127 | trades received = sum over rows + what is still in the accumulator + what an unparsable frame had drained, by volume and count; volume = buy + sell always |
| CollectorHistory.NothingLostIff | backend/scripts/hybrid_collector.py:110-145 | trades are lost if and only if a frame that does not parse arrives while trades wait in the accumulator |
| CollectorStops.RunChunked | backend/scripts/hybrid_collector.py:93-187 | in every reachable state the chunks and the buffer are the rows so far, with the chunk sizes the phase allows |
| CollectorStops.SavedRows | backend/scripts/hybrid_collector.py:180-187 | a completed run saves exactly target rows in ceil(target/size) files; any other end saves a prefix at most one chunk short |
| CollectorStops.StopLoss | backend/scripts/hybrid_collector.py:150-187 | a stop loses exactly totalCollected % size rows, or a whole chunk exactly when it comes between the row that fills the buffer and the chunk check |
| CollectorStops.WholeChunkLost | backend/scripts/hybrid_collector.py:161-180 | for every chunk size and every target of at least one chunk some run loses a whole chunk |
| CollectorStops.TriggerIsPrompt | backend/scripts/hybrid_collector.py:150-159 | a collector that has not stopped holds no row that moved by the trigger percentage: a breach stops it at that very row |
| CollectorStops.FrameStopsIff | backend/scripts/hybrid_collector.py:150-159 | with first non-zero price p and percentage v a frame stops the collector exactly when its non-zero price is at most p(1-v/100) or at least p(1+v/100) |
| CollectorStops.FrameGoesOn | backend/scripts/hybrid_collector.py:150-153 | without the trigger, or before a price has been seen, a frame does not stop it |
| CollectorStops.InsideBand | backend/scripts/hybrid_collector.py:150-159 | as long as it has not stopped, every price collected lies strictly inside that band |
| CollectorStops.StopsIff | backend/scripts/hybrid_collector.py:93-193 | the reasons for a stop: the cancellation check on a hundredth row, a frame that does not parse, a price outside the band, a chunk that cannot be written, an exception or cancellation at an await |
| CollectorStops.CompletesIff | backend/scripts/hybrid_collector.py:93 | it completes exactly when the loop guard finds the target reached |
| CollectorStops.GuardBeforeEveryWait | backend/scripts/hybrid_collector.py:93-187 | it waits for a frame exactly after passing the loop guard, and every row is followed by the chunk check |
| PagedHistory.RangeIsSlice | backend/app/tasks.py:596-607 | a range query on a sorted history is a contiguous slice |
| PagedHistory.PageIsRange | backend/app/tasks.py:596-601 | a page of a strictly ascending history is the range up to its last entry, and an empty page means nothing is left |
| CandleDownload.CandleFile.WritePage | backend/app/tasks.py:603-611 | the rows of a page not after the end are appended with whole-second timestamps |
| CandleDownload.CandleFile.Download | backend/app/tasks.py:560-630 | the loop with resume, stop signals, faults and range filter does what the session function says |
| CandleDownload.LoopKeeps | backend/app/tasks.py:588-627 | every turn leaves a file that is the range query up to its own last row |
| CandleDownload.ResumedEqualsUninterrupted | backend/app/tasks.py:549-630 | any number of interruptions and resumes, each with its own later end and whatever the exchange has gained by then, leave the rows of one uninterrupted run of the last call: each candle with start <= t <= end once, in order |
| CandleDownload.EnoughFetchesFinish | backend/app/tasks.py:588-627 | without a stop signal the loop ends after at most one fetch per missing candle and two more, however many fetches fail |
| CandleDownload.FetchesNeededIff | backend/app/tasks.py:588-627 | the exact number of fetches: without faults the loop ends by turn n if and only if the first n pages exhaust the history or reach the end |
| CandleDownload.AbortEnds | backend/app/tasks.py:588-602 | a stop signal leaves what the turns before it left |
| CandleDownload.FaultsDoNotMatter | backend/app/tasks.py:618-627 | a failed fetch changes nothing, and neither does an exception in the progress report |
| CandleDownload.UpToDateIff | backend/app/tasks.py:573-575 | a session does not start exactly when its cursor has reached the end |
| CandleDownload.StoredTime | backend/app/tasks.py:606-611 | the file keeps a candle's values and its time down to the whole second |
| CandleDownload.FreshIffWindow | backend/app/tasks.py:573-575 | a finished fresh download is the range query unless start equals end and a candle sits there |
| CandleDownload.ResumesPastLast | backend/app/tasks.py:565-569 | a resume starts after its last candle exactly when that candle's time is a whole second and not the epoch |
| TradeDownload.TradeFile.WritePage | backend/app/tasks.py:710-717 | the trades of a page not after the end are appended |
| TradeDownload.TradeFile.Download | backend/app/tasks.py:662-736 | the loop with the one-hour skip, stop signals and faults does what the session function says |
| TradeDownload.LoopRowsAt | backend/app/tasks.py:710-717 | the rows written are the trades at the reported positions |
| TradeDownload.WritesInOrder | backend/app/tasks.py:683-728 | a session writes in time order, no trade twice, none after the end |
| TradeDownload.Terminates | backend/app/tasks.py:683-728 | end - cursor falls on every reply, empty ones too, so the loop ends |
| TradeDownload.TurnEndsIff | backend/app/tasks.py:688-728 | one turn ends the loop exactly when the cursor has reached the end already, or when a reported reply holds a trade at or past the end |
| TradeDownload.CompletedStays | backend/app/tasks.py:683-728 | a completed loop does not look at later turns |
| TradeDownload.AbortEnds | backend/app/tasks.py:683-697 | a stop signal leaves what the turns before it wrote |
| TradeDownload.FaultsDoNotMatter | backend/app/tasks.py:724-728 | a failed fetch changes nothing that is written |
| TradeDownload.ReplyCovers | backend/app/tasks.py:695-722 | one reply covers the time up to the next cursor exactly when it neither splits a millisecond nor hides a trade |
| TradeDownload.MissesNothingIff | backend/app/tasks.py:683-728 | a completed run misses nothing if and only if no reply splits or hides and the cursor never rests on an end that has a trade |
| TradeDownload.DistinctTimesSuffice | backend/app/tasks.py:683-728 | distinct timestamps, none on the end, and an exchange whose empty pages mean empty hours suffice |
| TradeDownload.EndTradeLost | backend/app/tasks.py:688 | a trade exactly on the end is lost when a page stops one millisecond before it |
| TradeDownload.ResumesIff | backend/app/tasks.py:662-666 | a second download resumes behind the file exactly when the last trade's id reads as a date that is not 0 and not before that trade |
| TradeDownload.SecondDownload | backend/app/tasks.py:662-728 | two complete downloads leave the range query and then its part from the second cursor on once more |
| TradeDownload.RestartRepeats | backend/app/tasks.py:662-728 | with an id that has no dash the file's rows are the range twice over |
| LastLine.File.Seek | utility_scripts/download_trades.py:13-17 | a seek to before the start fails and leaves the position |
| LastLine.File.ReadLine | utility_scripts/download_trades.py:19 | the line from the current position, its newline included |
| LastLine.File.ReadLastLine | utility_scripts/download_trades.py:10-19 | the backward byte scan ends at the last line that splitting on newlines gives, for every byte string |
| LastLine.LastFrom | backend/app/tasks.py:494-502 | the stretch behind the last inner newline is the last line |
| TradeText.GetLastTimestamp | utility_scripts/download_trades.py:10-29 | column 1 of the last line when it is a numeral |
| TradeText.StripIs | utility_scripts/download_trades.py:25-33 | stripping a line takes exactly the white space off its ends |
| TradeText.LineReadBack | utility_scripts/download_trades.py:19-27 | behind any whole lines the first two columns of an appended line are read back |
| TradeText.RowReadBack | utility_scripts/download_trades.py:24-27 | the timestamp of an appended row is read back exactly |
| TradeText.FileReadBack | utility_scripts/download_trades.py:10-29 | the reader returns the last trade's time for every file the script writes, and nothing for a bare header |
| TradeText.TradesReadBack | utility_scripts/download_trades.py:82-107 | cut at its line ends and each line at its first two commas, a trade file gives back id, time and the rest of the row of every trade, in order |
| TradeText.TornRow | utility_scripts/download_trades.py:10-27 | a row torn after p characters is read back right exactly when its digits are complete; inside the digits it passes for a smaller time, before them for none |
| TickDownload.TradeFile.Download | utility_scripts/download_trades.py:48-121 | resume from the text, header and loop do what the session function says; on a missing file or on whole rows it leaves whole rows, which read back as those that were there and the trades of all pages answered |
| TickDownload.TradeFile.AppendPages | utility_scripts/download_trades.py:91-121 | the loop appends page by page and stops on an empty page or one that reaches the present |
| TickDownload.FetchingAppends | utility_scripts/download_trades.py:91-121 | a run appends exactly the trades of the pages it was answered, and they read back from the text |
| TickDownload.InterruptionsDoNotMatter | utility_scripts/download_trades.py:48-121 | for any trade times and any runs, the file is the header and the trades of all pages answered, as one run leaves it, and reads back as exactly these trades |
| TickDownload.RunsAreOne | utility_scripts/download_trades.py:48-121 | as long as no trade lies in the future, the runs leave the very text of one run with all their requests |
| TickDownload.NothingLostIff | utility_scripts/download_trades.py:93-118 | for a history in time order the file holds every trade up to the next cursor if and only if no page break splits a millisecond |
| TickDownload.CleanBreaksBring | utility_scripts/download_trades.py:93-118 | with clean breaks n pages bring the next n*limit trades |
| TickDownload.DistinctTimesBring | utility_scripts/download_trades.py:93-118 | so do they for trades with distinct times |
| TickDownload.RunEnds | utility_scripts/download_trades.py:91-121 | a run gets at most one page per trade behind its cursor; with requests left it has ended by itself, on an empty page or on a trade in the future |
| TickDownload.CompleteIff | utility_scripts/download_trades.py:91-121 | with more requests than trades and none in the future, a run brings every trade from its cursor on if and only if no page break splits a millisecond |
| TickDownload.RunAfterTear | utility_scripts/download_trades.py:48-121 | after a tear the next run starts over, or at an earlier time, or right behind the row, as the tear lies; its first row is glued to the torn one |
| TradeText.DateIsId | backend/app/tasks.py:490-514 | on a trade file the task's tail reader parses the last trade's id as a date, and the word id when there is only a header |
| TradeText.BlankHasNoDate | utility_scripts/download_trades.py:22-33 | a blank last line has neither a date nor a time |
| Decimal.RoundTrip | utility_scripts/download_trades.py:26-27 | a written number is read back |
| DedupeSort.LastKept | backend/verification_scripts/verify_ohlcv_pagination.py:136-140 | for any rows the result is strictly ascending and keeps the last row of each timestamp |
| DedupeSort.FirstKept | backend/scripts/forex_collector.py:187-191 | the same with the first row of each timestamp |
| DedupeSort.AscendingUnique | backend/verification_scripts/verify_ohlcv_pagination.py:136-140 | ascending lists that hold the same at each timestamp are equal |
| DedupeSort.PagesMerge | backend/scripts/forex_collector.py:187-191 | overlapping pages of one ascending list, deduplicated and sorted, are that list |
| OhlcvPaging.DedupeAndSort | backend/verification_scripts/verify_ohlcv_pagination.py:136-140 | the dict and the sort, as the specification says |
| OhlcvPaging.FetchPages | backend/verification_scripts/verify_ohlcv_pagination.py:109-134 | the paged loop's rows and number of requests |
| OhlcvPaging.FetchOhlcv | backend/verification_scripts/verify_ohlcv_pagination.py:96-146 | the cap, the single-request branch, the paged branch and the conversion to seconds; the result is in order for any responses |
| OhlcvPaging.SecondsAscendIff | backend/verification_scripts/verify_ohlcv_pagination.py:142-146 | the returned seconds are strictly ascending exactly when no two neighbours share a second |
| OhlcvPaging.RowInSeconds | backend/verification_scripts/verify_ohlcv_pagination.py:142-146 | a returned row is its candle with the time cut to whole seconds, toward zero |
| OhlcvPaging.CollectIsOnePage | backend/verification_scripts/verify_ohlcv_pagination.py:115-127 | the loop receives exactly the first `limit` candles at or after its cursor, as one uncapped request would |
| OhlcvPaging.RequestBound | backend/verification_scripts/verify_ohlcv_pagination.py:115-127 | in at most ceil(limit/batch) requests, for any responses no longer than asked |
| OhlcvPaging.PagedFetchIsOnePage | backend/verification_scripts/verify_ohlcv_pagination.py:109-140 | and deduplication and sorting leave that page as it is |
| OhlcvPaging.OnePageIff | backend/verification_scripts/verify_ohlcv_pagination.py:115-127 | for candles at any distance the loop receives the uncapped page if and only if no candle lies strictly between a full page's last one and one timeframe later |
| OhlcvPaging.CloseCandleLost | backend/verification_scripts/verify_ohlcv_pagination.py:124 | for every batch size some history loses a candle there |
| OhlcvPaging.MockFetch | backend/verification_scripts/verify_ohlcv_pagination.py:65-89 | the mock's loop, with or without a cursor, returns the capped page of its synthetic grid |
| OhlcvPaging.MockShape | backend/verification_scripts/verify_ohlcv_pagination.py:84-87 | the shape of the mock's candles |
| OhlcvPaging.MockNewest | backend/verification_scripts/verify_ohlcv_pagination.py:70-89 | without a cursor that page is its newest candles, the last one timeframe before now |
| OhlcvPaging.MockIsHonest | backend/verification_scripts/verify_ohlcv_pagination.py:65-89 | on the cursors the fetch uses the mock serves one fixed grid, although it anchors every page at the cursor |
| OhlcvPaging.PagedFetchOnMock | backend/verification_scripts/verify_ohlcv_pagination.py:65-140 | the paged fetch on the mock returns the first `limit` candles of that grid |
| ForexCollector.AppendPage | backend/scripts/forex_collector.py:95-107 | the complete candles of a page not after the end are appended |
| ForexCollector.PageCovers | backend/scripts/forex_collector.py:81-115 | an overlapping page extends what is covered up to its last candle |
| ForexCollector.Exhausted | backend/scripts/forex_collector.py:90-114 | an empty page, or one that does not move the cursor, means nothing is left in the window |
| ForexCollector.CollectRange | backend/scripts/forex_collector.py:76-115 | the forward loop terminates and yields exactly the complete candles of the window, for every page size of at least 2; an error leaves those up to some point |
| ForexCollector.CompletePage | backend/scripts/forex_collector.py:152-163 | the complete candles of a backward page |
| ForexCollector.BackwardTurn | backend/scripts/forex_collector.py:134-176 | one answered request prepends the next older candles |
| ForexCollector.CollectNewest | backend/scripts/forex_collector.py:130-191 | the backward loop yields the complete ones among the newest target candles, in order |
| StreamReconciler.StreamManager.BeginPass | backend/app/main.py:311-332 | a pass starts from a snapshot of the connected channels |
| StreamReconciler.StreamManager.VisitChannel | backend/app/main.py:335-437 | one channel: ignored, added to the forex set, or given two tasks if it has none |
| StreamReconciler.StreamManager.CleanSymbols | backend/app/main.py:441-443 | unwanted forex symbols are removed |
| StreamReconciler.StreamManager.CancelPair | backend/app/main.py:447-449 | both tasks of a symbol are cancelled and the symbol dropped |
| StreamReconciler.StreamManager.CleanTasks | backend/app/main.py:445-449 | exactly the unwanted symbols' tasks are cancelled |
| StreamReconciler.StreamManager.CleanUp | backend/app/main.py:439-449 | the end of a pass as one step |
| StreamReconciler.RunValid | backend/app/main.py:309-449 | over every run each task ever created is either held uncancelled in the map or cancelled, and a pass has served what it visited |
| StreamReconciler.StreamManager.DropInvalid | backend/app/services/oanda_streamer.py:95-107 | the streamer drops an instrument that OANDA rejects |
| StreamReconciler.GoneIff | backend/app/services/oanda_streamer.py:99-107 | a symbol is gone exactly when some removal is followed by no addition |
| StreamReconciler.PassReconciles | backend/app/main.py:309-449 | after a completed pass the map's keys are exactly the wanted crypto channels with two tasks each; the forex set holds nothing unwanted and misses exactly the wanted symbols that the streamer removed after their visit and nothing added again |
| StreamReconciler.PassByCharacters | backend/app/main.py:345-449 | by the characters of a channel: after a completed pass a market channel of the snapshot has two tasks exactly when it has no underscore, and one with an underscore is in the OANDA set exactly when it is not gone; a reserved or log, status or godmode channel has neither |
| StreamReconciler.RejectedIsMissing | backend/app/main.py:347-350 | without a rejection every wanted forex channel is there; rejected right before the cleanup it is missing |
| StreamReconciler.NoLeak | backend/app/main.py:435-449 | created tasks = cancelled tasks + two per symbol in the map |
| StreamReconciler.NoChurn | backend/app/main.py:387-449 | whatever happens next, a pair of tasks stays in the map untouched until both have been cancelled |
| StrategyCompiler.VisualStrategyCompiler.constructor | backend/app/strategy_parser.py:104-115 | the node dict, first position and last value of a repeated id |
| StrategyCompiler.VisualStrategyCompiler.ScanIndicators | backend/app/strategy_parser.py:127-153 | names and indicator lines, in dict order |
| StrategyCompiler.VisualStrategyCompiler.BuildLogic | backend/app/strategy_parser.py:155-183 | one block per Condition-to-Action edge |
| StrategyCompiler.VisualStrategyCompiler.IndicatorCode | backend/app/strategy_parser.py:250-254 | one line of text per indicator |
| StrategyCompiler.VisualStrategyCompiler.LogicCode | backend/app/strategy_parser.py:265-268 | one block of text per logic line |
| StrategyCompiler.VisualStrategyCompiler.Generate | backend/app/strategy_parser.py:117-125 | the three passes give the rendered text of the indicator lines and blocks under the class name, between the fixed parts of the file |
| StrategyText.CompileVisual | backend/app/strategy_parser.py:274-279 | the text of the compiled graph, which reads back as the compiled graph |
| StrategyText.LinesReadBack | backend/app/strategy_parser.py:127-153 | reading the emitted indicator lines by their literal forms gives back every name, indicator and parameter, in order |
| StrategyText.BlocksReadBack | backend/app/strategy_parser.py:206-230 | reading the emitted blocks by their literal forms gives back every condition and action, in order |
| StrategyText.FileReadBack | backend/app/strategy_parser.py:232-270 | a whole file is read back as its indicators and blocks, whatever its fixed parts |
| StrategyText.CompiledReadBack | backend/app/strategy_parser.py:117-125 | so the generated text of a graph says what the graph was compiled to |
| StrategyNodes.FindIff | backend/app/strategy_parser.py:170-174 | an edge end means the last node of the graph with that id |
| StrategyNodes.DictOrder | backend/app/strategy_parser.py:105 | the node dict keeps the order in which the ids first appear |
| StrategyNodes.LinesIff | backend/app/strategy_parser.py:127-153 | there is a line for every indicator node that stands for an indicator and no other, numbered by the indicator nodes before it |
| StrategyNodes.LinesInOrder | backend/app/strategy_parser.py:127-153 | the lines come in the order of their numbers |
| StrategyNodes.BlocksIff | backend/app/strategy_parser.py:166-183 | there is one block for every edge from a condition to an action, in order, with the condition, threshold and action of its nodes |
| StrategyNodes.RolesIff | backend/app/strategy_parser.py:131-180 | by the characters of its label or its kind a node is an indicator, a condition, an action |
| StrategyNodes.IndicatorForms | backend/app/strategy_parser.py:138-153 | the indicator of a node: RSI before MACD before a moving average, with its own parameters or the usual ones |
| StrategyNodes.ActionIff | backend/app/strategy_parser.py:224-230 | an action buys exactly when the word buy is in its label, sells exactly when sell is and buy is not, in any capitals |
| StrategyCompiler.DistinctNames | backend/app/strategy_parser.py:133-135 | indicator names are distinct |
| StrategyCompiler.FirstIsWatched | backend/app/strategy_parser.py:127-153 | the first name belongs to the first indicator node and is defined exactly when that node stands for an indicator |
| StrategyCompiler.NoFallback | backend/app/strategy_parser.py:207-220 | the `self.rsi` fallback is unreachable |
| StrategyCompiler.ReadsFirstIndicator | backend/app/strategy_parser.py:185-230 | for every graph and bar `next` performs the edges' actions in order, with every comparison reading the first indicator node; with a threshold that is no literal it does nothing |
| StrategyCompiler.ComparisonMeansIff | backend/app/strategy_parser.py:206-220 | one generated comparison agrees with its label on every bar exactly when the first indicator node is the label's RSI and the side, the sign and the number are as written |
| StrategyCompiler.CompilationPreservesIff | backend/app/strategy_parser.py:155-230 | `next` does on every bar what walking the edges and evaluating each label does if no comparison edge is misread, and, where no label has its RSI behind the sign, only if none is |
| StrategyCompiler.TurnedCancel | backend/app/strategy_parser.py:206-220 | labels with the RSI behind the sign can cancel each other: `30 > RSI 70` and `70 < RSI 30` are both misread, yet every bar acts as it should |
| StrategyCompiler.BuysOnTheWrongIndicator | backend/app/strategy_parser.py:206-214 | an SMA node first: `RSI < 30` buys with SMA 10 and RSI 50, where the graph does nothing |
| StrategyCompiler.MissesTheDecimals | backend/app/strategy_parser.py:206-214 | `RSI < 30.5` does not buy at an RSI of 30.2 |
| StrategyCompiler.RunsIff | backend/app/strategy_parser.py:141-220 | `next` runs through if and only if every comparison edge carries a literal threshold and, if there is one, the first indicator node is a known indicator |
| StrategyCompiler.ThresholdsLiteralIff | backend/app/strategy_parser.py:212-220 | every emitted threshold is a decimal literal if and only if, in every comparison label, the first digits behind the sign are one |
| StrategyCompiler.ThresholdAsWrittenIff | backend/app/strategy_parser.py:206-220 | the emitted threshold is the number behind its label's sign if and only if that has no places but zeros, no minus unless it is 0, and no second sign before it unless it is the usual limit of 30 or 70 |
| StrategyCompiler.LeadingZeroRefused | backend/app/strategy_parser.py:212-214 | with `RSI < 030` the file is refused and nothing runs on any bar |
| StrategyParams.ExtractParams | backend/app/strategy_parser.py:40-77 | one loop per form, keys that are no literal skipped |
| StrategyParams.FormsAgree | backend/app/strategy_parser.py:40-99 | settings written as a tuple, a dict call or a dict display are read back alike and as meant, negative numbers and repeated names included |
| StrategyParams.TupleIff | backend/app/strategy_parser.py:47-58 | of any tuple exactly the pairs with a literal key are read, the last one of a key |
| StrategyParams.CallIff | backend/app/strategy_parser.py:61-66 | of a dict call exactly the named arguments are read, the last one of a name |
| StrategyParams.DisplayIff | backend/app/strategy_parser.py:69-75 | of a dict display exactly the entries with a literal key are read, the last one of a key |
| StrategyParams.MinusIs | backend/app/strategy_parser.py:87-90 | a minus before a literal number is its negative, and before anything else no literal |
| StrategyParams.KeyIff | backend/app/strategy_parser.py:58 | two values are one key exactly when Python calls them equal |
| Grouping.SelectIsSlice | backend/scripts/merge_hybrid.py:159 | in a sorted series every group is a contiguous slice |
| Grouping.BinsPartition | backend/scripts/merge_hybrid.py:94 | the bins partition the series |
| Grouping.ColumnConserved | backend/scripts/merge_hybrid.py:94-107 | binning conserves the total of every summed column |
| Grouping.BinIsSlice | utility_scripts/convert_trades_to_candles.py:26-27 | bin b is the slice from the end of the bin before it to its own end |
| AsOfJoin.MergeAsOf | backend/scripts/merge_hybrid.py:168 | a two-pointer backward join: an error exactly when a side is unsorted, else every left row once with the latest right row at or before it |
| AsOfJoin.LatestIsUnique | backend/scripts/merge_hybrid.py:168 | that row is unique |
| AsOfJoin.LatestByCount | backend/scripts/merge_hybrid.py:168 | by counting, with sorted right times it is the row before the first one after the left time, so an equal time is matched |
| TickFeatures.PriceSteps | backend/scripts/hybrid_tick_calculator.py:46-51 | the sign and path columns, step by step |
| TickFeatures.MicroRsi | backend/scripts/hybrid_tick_calculator.py:61-66 | the RSI column from the rolling means of rises and falls |
| TickFeatures.TickTable.AddFeatures | backend/scripts/hybrid_tick_calculator.py:28-66 | every prefix of the path column adds up to that prefix's path variation, sign times path gives back the price step, the RSI is in [0, 100), net volume plus ask gives bid |
| TickFeatures.PathConserved | backend/scripts/merge_hybrid.py:94-107 | summed over all bins the universal path variation is that of the whole tick series |
| TickFeatures.CountConserved | backend/scripts/merge_hybrid.py:94-107 | every tick is counted in exactly one bin |
| TickFeatures.BinPath | backend/scripts/merge_hybrid.py:192-203 | each bin's universal value is the within-bin path variation plus the jump from the previous tick into the bin |
| TickFeatures.JoinedBin | backend/scripts/merge_hybrid.py:221 | a bar inside the tick range is joined with the bin of its own window |
| TickFeatures.SeesNothingLaterIff | backend/scripts/merge_hybrid.py:221 | a bar is joined with no tick later than itself if and only if none lies strictly between it and the end of its window |
| TickFeatures.BarSeesWhatFollows | backend/scripts/merge_hybrid.py:221 | a bar on a bin edge is given only ticks from that edge on |
| TickFeatures.GainLoss | backend/scripts/hybrid_tick_calculator.py:61-63 | the rises and falls behind the RSI split the path, and their difference is the net move |
| TickFeatures.RsiZeroIff | backend/scripts/hybrid_tick_calculator.py:61-66 | the RSI is in [0, 100) and is 0 exactly when none of the last 14 steps was a rise |
| TickFeatures.RsiOfPath | backend/scripts/hybrid_tick_calculator.py:61-66 | with the path variation V and the net move M of the last n <= 14 steps, rsi * (V + n * 1e-8) = 50 * (V + M) |
| TickFeatures.RsiAboveIff | backend/scripts/hybrid_tick_calculator.py:61-66 | the RSI is above 50 exactly when the price has risen over those steps, by more than 1e-8 a step |
| VolumeBlocks.BlocksPartition | backend/scripts/merge_hybrid.py:156-159 | without negative volumes the blocks are consecutive slices that make up the tick series |
| VolumeBlocks.SliceEnds | backend/scripts/merge_hybrid.py:160-161 | their end times come out sorted, each the latest of its block |
| VolumeBlocks.JoinBlocks | backend/scripts/merge_hybrid.py:147-168 | the join succeeds exactly when the end times are sorted, and pairs each candle with the latest block that has ended |
| VolumeBlocks.NoLookAhead | backend/scripts/merge_hybrid.py:147-168 | without negative volumes no tick of the joined block is later than the candle, and the blocks that have ended are exactly those up to it |
| VolumeBlocks.JoinPossibleIff | backend/scripts/merge_hybrid.py:156-168 | for volumes of any sign the join succeeds if and only if, of any two blocks, the one with less cumulative volume ends no later |
| VolumeBlocks.NegativeVolumeRefused | backend/scripts/merge_hybrid.py:156-168 | a negative volume can leave the end times unsorted |
| VolumeBlocks.BlockVolume | backend/scripts/merge_hybrid.py:155-157 | between two ticks of one block less than a block of volume has passed |
| VolumeBlocks.UnitVolumeKey | backend/scripts/merge_hybrid.py:152-157 | counting ticks, tick i lands in block (i+1)/n |
| TradeCandles.FillForward | utility_scripts/convert_trades_to_candles.py:35 | every position gets the last present value up to it |
| TradeCandles.FillFrom | utility_scripts/convert_trades_to_candles.py:36-38 | missing values are taken from another column |
| TradeCandles.CandleTable.FillGaps | utility_scripts/convert_trades_to_candles.py:35-39 | close is filled first, the others from it |
| TradeCandles.Convert | utility_scripts/convert_trades_to_candles.py:26-39 | sort, resample and fill, column by column |
| TradeCandles.OneCandlePerInterval | utility_scripts/convert_trades_to_candles.py:26-31 | one candle for every interval from the first trade to the last, and total volume = total amount |
| TradeCandles.IntervalVolume | utility_scripts/convert_trades_to_candles.py:27 | an interval's volume is the amount of its own trades, 0 when there are none |
| TradeCandles.CloseIsLatest | utility_scripts/convert_trades_to_candles.py:35 | every close, of an empty interval too, is the price of the last trade up to the interval's end |
| TradeCandles.CandleShape | utility_scripts/convert_trades_to_candles.py:35-38 | no gaps; low <= open, close <= high; open, close and extremes of the interval's trades; an empty interval is flat at the last earlier trade |
| LiquidityZones.LiquidityService.Gather | verification_scripts/verify_dtlc.py:82-87 | the significant levels, the last one of a price |
| LiquidityZones.LiquidityService.Blend | verification_scripts/verify_dtlc.py:89-93 | present zones move toward their volume, new ones start at it |
| LiquidityZones.LiquidityService.Fade | verification_scripts/verify_dtlc.py:95-100 | absent zones decay and the small ones are listed |
| LiquidityZones.LiquidityService.Trail | verification_scripts/verify_dtlc.py:103-107 | the trailing level's update |
| LiquidityZones.LiquidityService.Observe | verification_scripts/verify_dtlc.py:81-107 | one whole tick |
| LiquidityZones.CurrentIff | verification_scripts/verify_dtlc.py:82-87 | a tick counts a price with the volume of its last bid above a tenth of the largest bid, or without one of its last ask above a tenth of the largest ask |
| LiquidityZones.BlendStep | verification_scripts/verify_dtlc.py:89-93 | a counted price that has a zone gets 0.15 of its volume and 0.85 of the zone, a new one its volume |
| LiquidityZones.ZonesInRange | verification_scripts/verify_dtlc.py:81-100 | in every run each zone stays between 0 and the largest volume seen at its price |
| LiquidityZones.Fades | verification_scripts/verify_dtlc.py:95-100 | a zone absent for n ticks is 0.85^n of its value and is listed exactly when below the smallest zone |
| LiquidityZones.Pruned | backend/app/services/god_mode_liquidation_service.py:321-327 | where listed zones are deleted, a zone goes at the first tick that takes it below the smallest zone |
| LiquidityZones.ListedWithin | verification_scripts/verify_dtlc.py:96-100 | a zone of at most 5000*2^k is listed by its (5k+1)-th absent tick |
| LiquidityZones.Settles | verification_scripts/verify_dtlc.py:89-93 | at a steady volume the gap shrinks to 0.85^n |
| LiquidityZones.TrailStep | verification_scripts/verify_dtlc.py:103-107 | the level never ends a tick above the price and falls exactly when the price is below it |
| LiquidityZones.TrailBelowPrice | verification_scripts/verify_dtlc.py:103-107 | so in every run of positive prices it is positive and at most the last price |
| LiquidityZones.TrailApproach | verification_scripts/verify_dtlc.py:103-107 | at a steady price the gap to 98.5% of it shrinks to 0.9^n |
| RevisionHeads.Heads | utility_scripts/find_heads.py:45-51 | exactly the revisions no other names as its down revision |
| RevisionHeads.HeadsCover | utility_scripts/find_heads.py:45-51 | in an acyclic graph every revision is an ancestor-or-self of some head |
| RevisionHeads.SingleHead | utility_scripts/find_heads.py:45-51 | a non-empty acyclic graph has a head, and a single head descends from everything |
| RevisionHeads.HeadsAreTops | utility_scripts/find_heads.py:45-51 | only a head itself descends from it |
| RevisionHeads.CycleHasNoHead | utility_scripts/find_heads.py:45-51 | two revisions that name each other leave no head |

## Left out

- Exchange, OANDA, websocket, Redis, database, Celery, notification and file clients: an abstract history, a script of events or an in-memory text stands for them; progress reports count only in that they may raise.
- Float rounding, infinities and NaN: reals throughout; the ratio columns of the tick calculator (returns, buy/sell ratio, imbalance, toxicity, acceleration, bounce, jump intensity) are not modelled.
- Time zones, date and regex parsing: `TradeText.LastDate` takes the date parser as a parameter; OANDA's time strings are integers in the same order; CSV quoting and UTF-8 decoding are not modelled, so ids hold no comma or line break.
- CandleDownload.ResumedEqualsUninterrupted: a candle keeps the values it is first served with; one that is still forming when it is saved is not modelled.
- Sleeps and retry timing: a failed request is a turn without effect.
- The `until` parameter that one exchange gets in the trade download: a reply may hold any number of trades at or after the cursor anyway.
- TickDownload.InterruptionsDoNotMatter: runs are cut between two requests; a row torn by a crash is treated in `TradeText.TornRow` and `TickDownload.RunAfterTear`.
- Training, dropout, scalers, SHAP and the feature engines.
- The network's batch dimension: one batch element is modelled, since every operation acts on each alone.
- StrategyText.CompiledReadBack: parameters that hold a comma or a line break cannot be told from the text around them, so reading back is stated for parameters without either, and for a file whose indicator lines end at an empty line.
- VisualStrategyCompiler: the adjacency lists, trigger list and linked-indicator lookup have no effect on the code's output and are not modelled; labels are strings, `lower()` and `\d` cover ASCII. The fixed parts of the generated file are a parameter (`StrategyCompiler.Template`). Meaning is given to the indicator lines and blocks, which the text is rendered from; whether Python can load that text also depends on the class name and the pasted parameter values, which may be any text, and is not decided here.
- StrategyCompiler.ComparisonMeansIff: a label is one comparison of the RSI with the first number on the other side of its first `<` (or `>`), or with the usual limit when there is no number; what a label says beyond that (a second comparison, another indicator as its operand, separators between groups of digits) has no meaning here. Indicators are told apart by their parameters as written, so two spellings of one period count as two.
- The strategies time_based_5s, event_based and the default of the merge, and the means and deviations of the others: they would repeat the binning results.
- OANDA's `to` bound is taken to exclude the boundary candle (`ForexCollector.NewestBefore`); were it included, the backward loop would count it twice.
- pandas' sort and groupby internals: a stable sort by time and groups by ascending key; resampling assumes intervals that divide a day.
- In main.py everything after the cleanup of a pass, the ticker and order book messages, shutdown and the body of the stream tasks; symbols are kept as the connection names them.
- The service's other order book outputs (magnet zones, cascade probabilities, trajectory, the short side of the trailing level).
- Reading the migration files: the graph is given.
- The frontend, patch scripts, ratings cache and string-search scripts.
