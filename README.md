# Wallet refresh progress reporter and logger fan-out group

This project models two small sequential components of the Conceal wallet
and node code base and proves properties of them in Dafny.

**The refresh progress reporter** (`progress_reporter.dfy`, module
`PoolWallet`, class `RefreshProgressReporter`) is part of the pool wallet.
It keeps three fields: the known network height, the time of the last node
height query and the time of the last status redraw. On every
synchronization progress event it does two things. First, it asks the node
for its height when more than half the block target interval, in whole
seconds, has passed since the last query, or when the wallet height has
reached the known height. The known height then becomes the larger of the
node's answer and the wallet height. Second, it redraws the status line
`Height <h> of <known>` when more than one millisecond has passed since the
last redraw, or when the caller forces it.

- Time is an integer count of milliseconds since the clock's epoch. A
  default-constructed time point is the epoch, 0.
- The block target interval (`difficultyTarget()` of the currency) is a
  constructor parameter.
- The node's answer (`getLastLocalBlockHeight()`) is an input of `Update`.
- The clock reading that `update_blockchain_height` takes for itself is a
  second time input, `queryNow`. It is separate from the reading of
  `update`, and nothing is assumed about how the two compare, because the
  system clock is not monotonic.
- The console is the field `console`, an append-only log of `StatusLine`
  records.

The class method `Update` is proved against pure functions on a `Fields`
value: `Next` gives the new fields and `Emitted` gives the lines drawn.
`Run` folds a sequence of events. The lemmas about these functions state the
first-update, query, throttle and rate-limit properties.

**The logger group** (`logger_group.dfy`, module `Logging`, class
`LoggerGroup`) holds an ordered list of registered loggers, a level threshold
and a set of disabled categories. `AddLogger` appends a logger without
rejecting duplicates. `RemoveLogger` erases every registration of a logger,
proved equal to the pure filter `Without`. `Dispatch` calls every registered
logger, in list order and once per registration, when the message's level is
at most the threshold and its category is not disabled; otherwise it calls no
logger. A logger's identity is its address in the source, modelled as a
number. `Dispatch` returns the calls it makes as a sequence of `Delivery`
records. It changes no field, and its frame says so.

Three details of the code shape the model:

- After a node query the known height is `max(nodeHeight, height)`. The old
  known height takes no part in the new one, so it can go down
  (`KnownHeightCanDecrease`).
- The query rate limit holds only while the wallet height stays below the
  known height. Once the wallet has caught up, every progress event queries
  the node, however close together the events are
  (`CaughtUpQueriesEveryEvent`, `CaughtUpQueriesInsideWindow`).
- The redraw throttle is one millisecond.

## Model

| member | source | states |
|---|---|---|
| `PoolWallet.RefreshProgressReporter.constructor` | src/PoolWallet/PoolWallet.h:127-133 | known height 0, both times at the epoch, nothing drawn |
| `PoolWallet.RefreshProgressReporter.Update` | src/PoolWallet/PoolWallet.h:135-148 | the new fields are `Next` of the old ones: query exactly when `difficultyTarget/2` seconds are exceeded or known height ≤ height; redraw exactly when more than 1 ms passed or forced; the console gains exactly the `Emitted` lines |
| `PoolWallet.RefreshProgressReporter.UpdateBlockchainHeight` | src/PoolWallet/PoolWallet.h:151-156 | known height becomes the node's answer, query time becomes the query's own clock reading; no other field changes |
| `PoolWallet.FirstUpdateQueries` | src/PoolWallet/PoolWallet.h:127-141 | from the initial fields, every first update queries the node, whatever the height, and afterwards the known height is max(node, height) |
| `PoolWallet.QueryCoversHeight` | src/PoolWallet/PoolWallet.h:138-155 | after a query the known height is max(node answer, height), so ≥ both, and the query time is the query's clock reading |
| `PoolWallet.KnownHeightCanDecrease` | src/PoolWallet/PoolWallet.h:140-154 | there are fields and an event after which the known height is lower than before |
| `PoolWallet.NoQueryKeepsKnownHeight` | src/PoolWallet/PoolWallet.h:138-142 | no query means the window has not passed and height < known height; then known height and query time are unchanged |
| `PoolWallet.ForcedUpdatePrints` | src/PoolWallet/PoolWallet.h:144-146 | a forced update draws exactly one line and sets the draw time to the update's time |
| `PoolWallet.UnforcedUpdateThrottle` | src/PoolWallet/PoolWallet.h:144-146 | an unforced update draws a line if and only if more than 1 ms passed since the last draw; the draw time moves only then |
| `PoolWallet.LineShowsKnownHeight` | src/PoolWallet/PoolWallet.h:138-145 | a drawn line carries the given height and the known height after the query step |
| `PoolWallet.RunBounds` | src/PoolWallet/PoolWallet.h:135-148 | over any run, at most one line and at most one node query per event |
| `PoolWallet.NoQueryWithinWindow` | src/PoolWallet/PoolWallet.h:138-142 | any number of events within the query window whose heights stay below the known height make no query and leave known height and query time unchanged |
| `PoolWallet.CaughtUpQueriesEveryEvent` | src/PoolWallet/PoolWallet.h:138-141 | once the known height is at most the wallet height, with node answers never above the wallet height and heights not going down, every event of a run queries the node, whatever the times |
| `PoolWallet.CaughtUpQueriesInsideWindow` | src/PoolWallet/PoolWallet.h:138-141 | two events at the caught-up height 1 ms apart, well inside the query window, make two node queries |
| `PoolWallet.NoLinesWithinThrottle` | src/PoolWallet/PoolWallet.h:144-147 | any number of unforced events within 1 ms of the last draw draw nothing and leave the draw time unchanged |
| `PoolWallet.TwoUnforcedUpdatesDrawAtMostOnce` | src/PoolWallet/PoolWallet.h:144-146 | two unforced updates at most 1 ms apart draw at most one line |
| `PoolWallet.ForcedRunDrawsEveryEvent` | src/PoolWallet/PoolWallet.h:144-145 | a run of forced updates draws one line per event, in order, each with its event's height |
| `Logging.LoggerGroup.constructor` | src/Logging/LoggerGroup.cpp:27-28 | the threshold is the given level; no loggers are registered and no category is disabled |
| `Logging.LoggerGroup.AddLogger` | src/Logging/LoggerGroup.cpp:30-32 | the list is the old list with the logger appended, duplicates allowed; only the list changes |
| `Logging.LoggerGroup.RemoveLogger` | src/Logging/LoggerGroup.cpp:34-36 | the list becomes `Without(old list, logger)`; only the list changes |
| `Logging.LoggerGroup.Dispatch` | src/Logging/LoggerGroup.cpp:38-44 | if level ≤ threshold and the category is not disabled, one call per list entry in list order with the same message; otherwise no call; no field changes |
| `Logging.Without` | src/Logging/LoggerGroup.cpp:35 | the removed logger does not occur in the result, which is no longer than the input and holds only loggers of the input |
| `Logging.WithoutAbsent` | src/Logging/LoggerGroup.cpp:35 | removing a logger that is not registered leaves the list unchanged |
| `Logging.WithoutIdempotent` | src/Logging/LoggerGroup.cpp:35 | removing a logger twice equals removing it once |
| `Logging.WithoutCounts` | src/Logging/LoggerGroup.cpp:35 | the removed logger occurs 0 times; every other logger occurs as often as before |
| `Logging.WithoutIsSubsequence` | src/Logging/LoggerGroup.cpp:35 | the remaining loggers keep their original relative order |
| `Logging.WithoutUnique` | src/Logging/LoggerGroup.cpp:35 | any order-preserving sublist without the logger that keeps every other logger's count is exactly `Without`, so `Without` is the filter |
| `Logging.WithoutCommutes` | src/Logging/LoggerGroup.cpp:35 | removing two loggers gives the same list in either order |
| `Logging.AddThenRemove` | src/Logging/LoggerGroup.cpp:30-36 | removing right after adding drops the new entry if it is the removed logger and keeps it at the end otherwise |
| `Logging.Fanout` | src/Logging/LoggerGroup.cpp:40-42 | one delivery per list entry, at the same position, each with the identical message |
| `Logging.FanoutCounts` | src/Logging/LoggerGroup.cpp:40-42 | each logger receives the message exactly as many times as it is registered |
| `Logging.FanoutAfterRemove` | src/Logging/LoggerGroup.cpp:34-43 | after removal the removed logger receives nothing and every other registered logger receives the message |

## Left out

- The rest of the pool wallet: commands, initialization, the observer callbacks and transaction confirmation. Their bodies are not part of this model; only their declarations are visible.
- The cross-thread coordination (the init result promise, the synchronized flag with its mutex and condition variable): it is concurrency whose behaviour is not visible.
- The system clock, the console stream and the node RPC proxy: they become the time inputs `now` and `queryNow`, the `console` log and the `nodeHeight` input.
- Sub-millisecond clock resolution: the real clock ticks finer than a millisecond, so near the boundaries the comparisons "more than 1 ms" and "more than d/2 s" are taken at millisecond resolution.
- Integer widths: heights are unbounded naturals. The code's only height arithmetic is `max`, which stays inside 64 bits. The comparison at src/PoolWallet/PoolWallet.h:138 converts `difficultyTarget()/2` seconds to the clock's finer duration; on a nanosecond clock that conversion overflows for half-targets above about 9.2·10^9 seconds, and this overflow is not modelled.
- The message writers `success_msg_writer` and `fail_msg_writer`: thin wrappers over logger formatting.
- `CoreStatistics::serialize`: it only forwards five fields to a serializer whose behaviour is not visible.
- CommonLogger: its header is not part of this model. The model assumes it starts with no disabled category. Its setters for the threshold and the disabled categories are not modelled; the fields are public state instead.
- What the downstream loggers do with a message: `Dispatch` returns the calls it makes instead. A logger that re-enters the group during dispatch is not modelled.
