# Tableturf tier-list bot: a Dafny model of its voting core

The bot runs voting rounds over the cards of a trading-card game. Each round
works like this:

- `start` posts a group of not-yet-voted cards in a chat channel and records
  the posted messages in a SQLite ledger.
- `stop` reads the number-keycap reactions on each message into a ten-bucket
  histogram of scores.
- It trims the top and bottom tenth of the votes and computes their weighted
  average.
- It marks the cards as voted, posts one summary per card, and removes the
  pending messages.

A separate script, the manifest generator, reads the gallery file names and
builds a number → (name, rarity, cost tier) manifest.

The project models these pieces:

- `reactions.dfy` (module `Reactions`): the ten keycap reactions and
  `score_from_reaction_name`.
- `aggregator.dfy` (module `Aggregator`): `normal_round`, the trim count and
  `weighted_average` with its two `remove` passes. The passes are in-place loops
  over an `array`, proved equal to the recursive specification functions
  `DrainFront`/`DrainBack`.
- `cardfilename.dfy` (module `CardFileName`): the file-name pattern
  `No. (\d+) (.*) \((.*)\).jpg` under `re.match`, and the `get_img` file name
  built from a card row.
- `tierlists.dfy` and `manifest.dfy` (modules `TierLists`, `Manifest`):
  - the six cost-tier lists, as the literal lines they are split from;
  - `str.split("\n")`;
  - `cost_for`;
  - the manifest loop of `main`.
- `ledger.dfy` (module `Ledger`): the `DB` class over an in-memory copy of its
  tables:
  - the INSERT OR IGNORE seeding of the constructor;
  - every query and update that `bot.py` calls.
- `poller.dfy` (module `Poller`): the `Poller` class, with its `inProgress` flag
  and its ledger, and the commands `set_forum_channel`, `start` and `stop`.

The chat platform appears only as parameters:

- `start` takes `forumFound` (whether the forum channel resolves) and `sent`
  (the id of the k-th posted message).
- `stop` takes `fetch` (the reactions on message `id`) and `posted` (the id of
  the k-th summary message).
- The gallery walk is a sequence of file names `files`.

Facts about the code that the model keeps:

- **A worked trim example.** For the counts `[0,1,2,3,4,3,2,1,0,0]` (16 votes,
  trim 2), the two passes leave `[0,0,1,3,4,3,1,0,0,0]`. The weighted sum is
  60 and the average is 60/12 (`Aggregator.ExampleRound`).
- **Selection.** `get_next_group` draws from all unvoted cards, with no filter
  on cost tier.
- **Round size.** `get_next_group` is declared without a size argument
  (db.py:50), yet `start` calls it with one (bot.py:96). Python raises a
  TypeError at that call, after `in_progress` is set and the old summaries are
  cleared, and the lock is then never released. The model assumes the form
  that takes a size: `NextGroup(limit)` takes the limit, and
  `GetNextGroup` is the declared form, which uses the object's round size.
- **Trim divisor.** The divisor `total - 2*trim` is positive for every
  positive total (`Aggregator.TrimLeavesVotes`).

## Model

| member | source | states |
|---|---|---|
| Reactions.ScoreFromReactionName | bot.py:16-24 | None exactly for names outside the ten keycaps; otherwise a score 1..10 whose keycap (with 0 standing for ten) is the name |
| Reactions.PaletteRoundTrip | bot.py:16-24 | the i-th keycap scores i+1, so the palette and the scores are inverse |
| Aggregator.Ceil | bot.py:218-221 | ceil: the least integer not below x |
| Aggregator.NormalRound | bot.py:218-221 | round half up: the integer within [x-0.5, x+0.5) |
| Aggregator.TrimCountIsRoundedTenth | bot.py:230 | normal_round(total/10 + 0.01) equals (total+5) div 10 for every integer total |
| Aggregator.TrimLeavesVotes | bot.py:226-230 | for a positive total the trim count is at most total/10+1 and twice it stays below the total |
| Aggregator.TrimDivisorNonZero | bot.py:253 | the divisor total - 2*trim is never zero for a non-zero total, negative totals included |
| Aggregator.SumNonNegative | bot.py:226-228 | a total of non-negative counts is non-negative, and zero only when every count is zero |
| Aggregator.Sum | bot.py:226 | the vote total; its properties are SumSnoc and SumNonNegative |
| Aggregator.TrimCount | bot.py:230 | the trim count normal_round(total/10 + 0.01); TrimCountIsRoundedTenth gives its integer form |
| Aggregator.DrainFront | bot.py:232-246 | the low pass as a recursive function, one bucket at a time; the DrainFront* lemmas state what it removes |
| Aggregator.DrainBack | bot.py:232-247 | the high pass, scanning from the last bucket; the DrainBack* lemmas state what it removes |
| Aggregator.DrainFrontBounded | bot.py:232-246 | the low pass never raises a bucket and never makes one negative |
| Aggregator.DrainFrontRemoves | bot.py:232-246 | the low pass removes exactly min(trim, total) votes |
| Aggregator.DrainFrontGreedy | bot.py:232-246 | a bucket is touched only once every lower bucket is empty |
| Aggregator.DrainFrontStops | bot.py:237-240 | once a bucket is left non-empty, every higher bucket is untouched |
| Aggregator.DrainBackBounded | bot.py:232-247 | the high pass never raises a bucket and never makes one negative |
| Aggregator.DrainBackRemoves | bot.py:232-247 | the high pass removes exactly min(trim, total) votes |
| Aggregator.DrainBackGreedy | bot.py:232-247 | a bucket is touched only once every higher bucket is empty |
| Aggregator.DrainBackStops | bot.py:232-247 | once a bucket is left non-empty, every lower bucket is untouched |
| Aggregator.WeightedSumBounds | bot.py:249-251 | the weighted sum lies between the vote total and ten times it (length times it in general) |
| Aggregator.WeightedSum | bot.py:249-251 | the sum of (i+1)·count over the buckets; WeightedSumBounds bounds it |
| Aggregator.Trimmed | bot.py:246-247 | the counts after both passes keep their length; TrimmedKeepsRest states what was removed |
| Aggregator.Aggregate | bot.py:225-253 | the (trim, weighted sum, average) result; AggregateZeroIffNoVotes and AggregateTrimsBothTails characterise it |
| Aggregator.TrimmedKeepsRest | bot.py:246-247 | after both passes the counts are non-negative and exactly 2*trim votes are gone |
| Aggregator.AggregateTrimsBothTails | bot.py:225-253 | with votes, the result is (trim, weighted sum of the trimmed counts, that sum over total-2*trim), with the sum bounded by the remaining votes |
| Aggregator.AggregateZeroIffNoVotes | bot.py:226-228 | the all-zero result (0, 0, 0) comes exactly from histograms with no votes |
| Aggregator.ExampleLowPass | bot.py:246 | the low pass on the worked example takes one vote each from scores 2 and 3 |
| Aggregator.ExampleHighPass | bot.py:247 | the high pass then takes one vote each from scores 8 and 7 |
| Aggregator.ExampleWeightedSum | bot.py:249-251 | the trimmed example weighs 60 |
| Aggregator.ExampleRound | bot.py:225-253 | the worked example yields (2, 60, 60/12) |
| Aggregator.FrontLoopIsDrainFront | bot.py:233-244 | the low loop started at bucket i leaves buckets below i alone and drains the rest as DrainFront |
| Aggregator.BackLoopIsDrainBack | bot.py:233-247 | the high loop started below bucket j leaves buckets from j alone and drains the rest as DrainBack |
| Aggregator.RemoveLow | bot.py:232-246 | the in-place low pass leaves the array equal to DrainFront of its old contents |
| Aggregator.RemoveHigh | bot.py:232-247 | the in-place high pass leaves the array equal to DrainBack of its old contents |
| Aggregator.WeightedAverage | bot.py:225-253 | returns Aggregate of the original counts, and leaves the array trimmed (or untouched when there are no votes) |
| CardFileName.Decimal | db.py:62 | str() of a number is a non-empty digit string that int() reads back as that number |
| CardFileName.DigitRun | db.py:33 | the greedy `\d+` run: all digits, stopping at the end or at a non-digit |
| CardFileName.LastRarityEnd | db.py:33 | the greedy rarity group ends at the last position that lets `\).jpg` match, and None means no position does |
| CardFileName.LastNameEnd | db.py:33 | the greedy name group ends at the last position that lets ` \((.*)\).jpg` match, and None means no position does |
| CardFileName.GroupsSound | db.py:33 | the name and rarity groups are newline-free and re-form the text they were taken from |
| CardFileName.Parse | db.py:38-44 | prog.match and the three group reads; ParseSound gives every match's structure, and ParseFormat with OpenBracketBreaksRoundTrip gives its round trip |
| CardFileName.Format | db.py:62 | the get_img file name of a card; ParseFormat reads it back |
| CardFileName.Matches | db.py:35-45 | the walked file names that match, in order, at most one card per file |
| CardFileName.ParseSound | db.py:38-44 | a match is `No. `, a digit run whose value is the number, a space, then the groups |
| CardFileName.ParseFormat | db.py:62 | parsing the get_img file name of a card gives that card back, for newline-free fields and a rarity without ` (` |
| CardFileName.OpenBracketIsNameEnd | db.py:33 | a ` (` inside the rarity is a place the greedy name group can end |
| CardFileName.OpenBracketBreaksRoundTrip | db.py:33 | a rarity holding ` (` never comes back from its file name, so ParseFormat's condition is exact |
| CardFileName.ParseFormatTrailer | db.py:33 | a match is anchored at the start only: a parenthesis-free trailer after `.jpg` is ignored, for a rarity without ` (` |
| CardFileName.ParseNumbered | db.py:33 | the number group is the longest digit run after `No. ` |
| CardFileName.GroupsFormatted | db.py:33 | formatted name and rarity groups are recovered exactly |
| CardFileName.RarityWithParenthesisDoesNotRoundTrip | db.py:62 | a stored rarity holding ` (` does not come back from its own file name: the greedy name group takes part of it |
| CardFileName.MatchesMembership | db.py:36-45 | a card is in the seeding data exactly when some walked file name parses to it |
| Manifest.Split | manifest_gen.py:210 | split("\n") yields at least one line |
| Manifest.SplitHasNoNewline | manifest_gen.py:210 | no split line holds a newline |
| Manifest.JoinSplit | manifest_gen.py:210 | joining the split lines with newlines gives the text back |
| Manifest.SplitJoin | manifest_gen.py:210 | splitting newline-free lines joined by newlines gives the lines back |
| Manifest.TierFrom | manifest_gen.py:213-217 | the 1-based index of the first list from i holding the name, or -1 exactly when none holds it |
| Manifest.CostFor | manifest_gen.py:212-217 | -1 exactly when no tier lists the name; otherwise the 1-based index of the first tier that does |
| Manifest.CostForRange | manifest_gen.py:210-217 | over the six tiers, a cost is -1 or 1..6 |
| Manifest.TierTwoStartsEmpty | manifest_gen.py:14-15 | the second tier's text opens with a newline, so its first line is empty |
| Manifest.EmptyNameCostsTwo | manifest_gen.py:212-217 | an empty name therefore costs 2 |
| Manifest.SplatBombCostsOne | manifest_gen.py:5-12 | the first line of tier one costs 1 |
| Manifest.BuildManifest | manifest_gen.py:219-240 | the manifest loop builds ManifestOf of the matching file names |
| Manifest.ManifestOf | manifest_gen.py:219-240 | the manifest of a list of cards; ManifestKeys and ManifestLastWins characterise it |
| Manifest.ManifestKeys | manifest_gen.py:236-240 | the manifest has a key exactly for each matched card number |
| Manifest.ManifestLastWins | manifest_gen.py:236-240 | the entry for a number comes from the last file with that number, with its cost_for |
| Ledger.ScanGallery | db.py:35-45 | the seeding data is the groups of the matching file names, in walk order |
| Ledger.InsertOrIgnore | db.py:47 | existing rows are kept, every scanned number has a row, and new rows are unvoted |
| Ledger.InsertOrIgnoreFirstWins | db.py:47 | a new number's row comes from its first occurrence in the data |
| Ledger.InsertOrIgnoreKeys | db.py:47 | a number has a row exactly when it had one or occurs in the data |
| Ledger.DB.constructor | db.py:6-48 | the cards table is the stored one with the gallery inserted-or-ignored; the other tables are as stored |
| Ledger.DB.NextGroup | db.py:50-53 | distinct unvoted cards with their names and rarities, as many as the limit allows |
| Ledger.DB.GetNextGroup | db.py:50-53 | NextGroup at the object's round size |
| Ledger.Shuffle | db.py:52 | ORDER BY RANDOM(): a duplicate-free listing of exactly the given set |
| Ledger.DB.GetName | db.py:55-57 | the stored name of a card, None exactly when there is no row |
| Ledger.DB.ImageName | db.py:59-62 | a file name exactly when the card has a row |
| Ledger.DB.ImageNameParses | db.py:59-62 | the image file name of a card parses back to that card's number, name and rarity |
| Ledger.MessagesOf | db.py:70-73 | get_messages: exactly the (id, number) of the channel's rows |
| Ledger.DB.GetMessages | db.py:70-73 | exactly the (id, number) pairs of the channel's message rows |
| Ledger.MessagesOfAppend | db.py:65-73 | the messages of appended rows are the messages of each part in order |
| Ledger.DB.InsertMessages | db.py:65-68 | the rows are appended and nothing else changes |
| Ledger.WithScores | db.py:75-78 | the votes for (number, x+1) become scores[x]; other keys are unchanged |
| Ledger.DB.AddScores | db.py:75-79 | the votes table becomes WithScores and nothing else changes |
| Ledger.MarkVoted | db.py:81-83 | the card is flagged voted with its name and rarity unchanged; other rows are unchanged |
| Ledger.MarkVotedIdempotent | db.py:81-83 | marking twice is the same as marking once |
| Ledger.DB.MarkHasVoted | db.py:81-84 | the cards table becomes MarkVoted and nothing else changes |
| Ledger.WithoutMessage | db.py:86-89 | exactly the rows with other ids remain, each as often as before |
| Ledger.WithoutAbsentMessage | db.py:86-89 | removing an id that is not there changes nothing |
| Ledger.DB.RemoveMessage | db.py:86-89 | the messages table becomes WithoutMessage and nothing else changes |
| Ledger.SummaryIds | bot.py:87 | get_summaries: exactly the ids of the channel's summary rows |
| Ledger.WithoutSummary | bot.py:90-93 | remove_summary: exactly the rows with other ids remain |
| Ledger.DB.SetForumChan | bot.py:42 | set_forum_chan records the channel and nothing else changes |
| Ledger.DB.GetForumChan | bot.py:58 | the forum channel last recorded, None until one is set (bot.py calls get_forum_chan, which db.py does not define) |
| Ledger.DB.GetSummaries | bot.py:87 | exactly the ids of the channel's summary rows (bot.py calls get_summaries, which db.py does not define) |
| Ledger.DB.RemoveSummary | bot.py:93 | the summaries table becomes WithoutSummary and nothing else changes |
| Ledger.DB.InsertSummaries | bot.py:212 | the rows are appended and nothing else changes |
| Ledger.DB.GetLowestCost | bot.py:161 | None exactly when no card is unvoted; otherwise the least cost among unvoted cards, attained by one of them |
| Ledger.DB.NumberForCost | bot.py:208 | the count of unvoted cards at the cost: zero exactly when none has it, and at most the number unvoted |
| Ledger.DB.LowestCostRemains | bot.py:208 | at the lowest cost, at least one card remains |
| Poller.Histogram | bot.py:170-176 | the per-message score table has ten buckets |
| Poller.HistogramLastWins | bot.py:171-176 | a bucket holds the last keycap reaction for its score, minus the bot's own |
| Poller.HistogramUnreacted | bot.py:170-176 | a score with no reaction keeps count 0 |
| Poller.HistogramNonNegative | bot.py:170-176 | with positive reaction counts, every bucket is non-negative |
| Poller.ScoresFromReactions | bot.py:170-176 | the loop over the reactions builds Histogram |
| Poller.PostedRows | bot.py:96-112 | one (channel, message, number) row per posted card, in order |
| Poller.MessagesOfPosted | bot.py:141 | the channel's messages after posting are exactly the posted (id, number) pairs |
| Poller.WithoutSummaries | bot.py:87-93 | exactly the rows whose ids are not listed remain |
| Poller.VotedAll | bot.py:165-182 | the tallied cards are flagged voted, names and rarities are kept, and other cards are unchanged |
| Poller.ScoredAll | bot.py:165-179 | votes of cards not in the round are unchanged |
| Poller.ScoredAllLast | bot.py:165-179 | a tallied card's votes under (number, b+1) are bucket b of the histogram of its last pending message |
| Poller.RemovedAll | bot.py:165-204 | exactly the rows whose ids were not tallied remain |
| Poller.NoPendingLeft | bot.py:160-204 | after removing the channel's pending messages, the channel has none left |
| Poller.SummaryOf | bot.py:185-197 | one card's summary: its number, its name, its scores and their aggregate |
| Poller.SummariesOf | bot.py:185-197 | one summary per pending message, in order; SummariesOfAt gives each one |
| Poller.SummariesOfAt | bot.py:179-195 | the k-th summary holds the k-th card's number, its name before the tally, its histogram and the aggregate of that histogram |
| Poller.Poller.constructor | bot.py:27-32 | a new poller has no round in progress |
| Poller.Poller.SetForumChannel | bot.py:40-44 | the forum channel is recorded and nothing else changes |
| Poller.Poller.ClearSummaries | bot.py:86-93 | the channel's summaries are removed and nothing else changes |
| Poller.Poller.PostGroup | bot.py:95-141 | posts distinct unvoted cards up to the size, and records one message row per card in a single insert |
| Poller.Poller.Start | bot.py:55-142 | the four outcomes (no forum channel, forum not found, round in progress by flag or pending messages, started) with the ledger untouched unless started; when started, the flag is set, old summaries are cleared and the group is posted |
| Poller.Poller.TallyOne | bot.py:165-204 | one message: scores added, card marked voted, message removed, and its summary computed on the ledger beforehand |
| Poller.Poller.TallyAll | bot.py:165-204 | the loop over the pending messages folds TallyOne over them in order |
| Poller.Poller.Stop | bot.py:146-215 | refuses only when neither the flag nor pending messages show a round; otherwise tallies every pending message, leaves none in the channel, appends one summary per card plus the closing count, reports the lowest cost taken before the tally and the count left at that cost, and clears the flag |

## Left out

- The Discord client as a whole is not modelled. This covers:
  - slash-command registration and role checks;
  - reply texts;
  - attachments and forum threads and their tags;
  - adding reactions;
  - deleting messages (`should_delete_messages` is kept but has no effect).

  Each call into it is reduced to the parameters named above.
- The mutex in `Poller`: each command is one atomic method, so concurrency is
  not modelled.
- The `msg is None` branches of `start` and `stop` (bot.py:89-90,167-168) are
  left out. In the source, `fetch_message` raises instead of returning None,
  and after the branch the code goes on to use `msg`.
- A `fetch_message` that fails (bot.py:88, bot.py:166) raises while the lock
  is held. Neither it nor the held lock is modelled.
- The TypeError of the `get_next_group(size)` call (bot.py:96 against
  db.py:50) is not modelled. `Poller.Poller.Start` uses the form that takes a
  size.
- `Aggregator.WeightedAverage` returns the average as an exact fraction. Python
  returns a float, and `stop` prints it to four places; floating point and
  formatting are not modelled.
- SQLite itself is not modelled:
  - connections, commits and the file on disk (the stored tables are a `Store`
    value);
  - the `votes` primary key (a map);
  - the messages table (no key, so INSERT OR IGNORE never ignores and the rows
    form a sequence);
  - `open` of the image file (`ImageName` returns the joined file name).
- `Ledger.DB.NextGroup`: the random order is not modelled. Any duplicate-free
  order of the unvoted cards is allowed.
- `Ledger.DB.GetName`: the source raises on a missing card, and the model
  returns None.
- `Ledger.DB.ImageName` returns None for a missing card, where the source
  raises.
- The tables and queries that `bot.py` uses but `db.py` does not define have
  assumed implementations in the style of the ones `db.py` does define:
  - `set_forum_chan`, `get_forum_chan`, `get_summaries`, `remove_summary`,
    `insert_summaries`;
  - `get_lowest_cost`: the least `cost_for` over unvoted cards, or None when
    none remain;
  - `number_for_cost`: how many unvoted cards have that cost.
- `Poller.Poller.Stop`: when no card is unvoted, the closing count is taken as
  0.
- `Poller.Poller.Start` states `size` as 1..6 in its requires, as the option
  declaration at bot.py:47-53 does.
- Parts of `manifest_gen.py` that are not modelled:
  - the rename of each image to `<number>.jpg`;
  - writing `manifest.json`;
  - the directory walk beyond its list of file names.
- CardFileName.ParseFormat: the round trip is stated for fields without newlines. A rarity holding ` (` breaks it (`CardFileName.OpenBracketBreaksRoundTrip`). Seeding never produces such a rarity, because the greedy name group would have taken it.
- CardFileName.Parse: Python's `int()` accepts Unicode digits, and `\d` also
  matches them. The model takes ASCII digits only.
