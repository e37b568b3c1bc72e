# wpp_connect core, modelled in Dafny

This project models the message-handling core of a WhatsApp group bot:

- **The per-group statistics manager.** It folds every non-command chat message into a group record. The record holds:
  - message, word and participant totals;
  - a 24-slot hour histogram and per-day counts;
  - one record per participant, including a per-day count;
  - word and emoji frequency tables.

  The manager also answers five report queries: general, per-user, ranking, activity and words.
- **The bounded conversation context.** Each chat keeps its last five messages.
- **The per-user command rate limiter.** Each user has a counter and the time of their last allowed command.
- **The message validator.** It runs three ordered checks against the bot's configuration.
- **The `/stats` sub-command router.**

Modules:

| module | file | what it holds |
|---|---|---|
| `Text` | `text.dfy` | Character classes, lower-casing of ASCII and Latin-1 letters, JavaScript string length in UTF-16 units, splitting on one character. |
| `Extract` | `extract.dfy` | Word extraction, emoji extraction, the Portuguese stop words and the word filter. |
| `StatsModel` | `stats_model.dfy` | The group and participant records. `Record` gives the effect of one message as a function of the old record. Also the invariants that recording keeps. |
| `Ranking` | `ranking.dfy` | A stable descending insertion sort, top-N selection, map enumeration, and the first index of a maximum. |
| `Reports` | `reports.dfy` | What each report selects from a group record. |
| `Statistics` | `statistics.dfy` | `StatisticsManager`, a class whose `stats` map `RecordMessage` updates. Its word and emoji loops are imperative. The method is proved to compute `StatsModel.Record`. |
| `Context` | `context.dfy` | `ContextManager`. A ghost history proves that each context is the last five messages added. |
| `RateLimit` | `rate_limit.dfy` | `RateLimiter` over its `users` map, the single-step function it follows, and lemmas about runs of calls. |
| `Validator` | `validator.dfy` | `validateMessage`. |
| `StatsCommands` | `stats_commands.dfy` | The `/stats` router, as a function from the command, the chat and the author to an action. |
| `Config` | `config.dfy` | The bot configuration record and the shipped values. |
| `JsObject` | `js_object.dfy` | The word table as a plain JavaScript object, which exhibits the finding below. |
| `Wrappers` | `wrappers.dfy` | `Option`. |

Clock readings are inputs:
- `now`, in milliseconds;
- `hour`, in 0..23;
- `today`, a `YYYY-MM-DD` key.

The periodic save is a returned `flush` flag.

`groupName` is set only when a group is created (src/services/statisticService.ts:87-88); `RecordInGroup` keeps it.

## Model

| member | source | states |
|---|---|---|
| `Text.Utf16Length` | src/services/statisticService.ts:126 | The JavaScript `length` of a string lies between its number of characters and twice that, and equals it when every character is in the Basic Multilingual Plane. |
| `Text.ToLowerChar` | src/services/statisticService.ts:163 | Upper-case ASCII and Latin-1 letters map to their lower-case forms (code point + 32). Every other character is kept. The result is never upper-case. |
| `Text.Lower` | src/services/statisticService.ts:163 | `toLowerCase` keeps the length and lower-cases each character. |
| `Text.LowerIdempotent` | src/services/statisticService.ts:163 | Lower-casing twice is lower-casing once. |
| `Text.IsSpace` | src/services/statisticService.ts:164-165 | The ECMAScript `\s` class: tab, line feed, vertical tab, form feed, carriage return, space, no-break space, the Unicode space separators, the line and paragraph separators and the byte-order mark. |
| `Text.StartsWith` | src/services/statisticService.ts:81 | `startsWith`: the string's first characters are the prefix. |
| `Text.EndsWith` | src/command/statisticCommands.ts:12 | `endsWith`: the string's last characters are the suffix. |
| `Text.SplitOn` | src/command/statisticCommands.ts:17 | `split(' ')` yields at least one part, and no part holds the separator. |
| `Text.JoinSplitOn` | src/command/statisticCommands.ts:17 | Joining the parts of a split with the separator gives back the original text. |
| `Text.SplitOnLower` | src/command/statisticCommands.ts:17-18 | Splitting the lower-cased text gives the lower-cased parts. |
| `Extract.Clean` | src/services/statisticService.ts:164 | The replacement keeps word characters, the listed accented letters and white space, and turns every other character into a space. |
| `Extract.IsWordChar` | src/services/statisticService.ts:164 | The characters the replacement keeps besides white space: ASCII letters, digits, `_`, and the listed accented letters. |
| `Extract.Tokens` | src/services/statisticService.ts:165-166 | Splitting on runs of white space and dropping empty parts yields non-empty tokens. Each token contains only non-space characters of the text. |
| `Extract.TokensOfJoin` | src/services/statisticService.ts:165-166 | Non-empty words without white space, joined by single spaces, split back into exactly those words. |
| `Extract.ConcatTokens` | src/services/statisticService.ts:165-166 | The tokens, concatenated, are the text with its white space removed, so no character is lost or reordered. |
| `Extract.ExtractWords` | src/services/statisticService.ts:161-167 | Every extracted word is non-empty. Each of its characters is a word character or a listed accented letter, is not white space, and is already lower-case. |
| `Extract.ExtractWordsKeepsWordChars` | src/services/statisticService.ts:161-167 | Concatenated, the extracted words are exactly the word characters of the lower-cased text, in order. |
| `Extract.ExtractEmojis` | src/services/statisticService.ts:169-172 | Every match is one character from the eight listed emoji ranges, taken from the text. There are at most as many matches as characters. |
| `Extract.IsEmoji` | src/services/statisticService.ts:170 | A character in one of the eight code-point ranges of the emoji expression. |
| `Extract.ExtractEmojisAppend` | src/services/statisticService.ts:169-172 | Matching is compositional: the emojis of `a + b` are those of `a`, then those of `b`. |
| `Extract.ExtractEmojisEmpty` | src/services/statisticService.ts:171 | No match (the `\|\| []` fallback) happens exactly when the text holds no emoji character. |
| `Extract.StopWordsShort` | src/services/statisticService.ts:8-13 | Every stop word has at most five characters. |
| `Extract.IsStopWord` | src/services/statisticService.ts:8-13 | Membership in the 51 stop words, kept as four sets that follow the four source lines. |
| `Extract.Counted` | src/services/statisticService.ts:137 | The word filter: the lower-cased word is not a stop word, and the word is longer than two UTF-16 units. |
| `Extract.CountedExcludes` | src/services/statisticService.ts:137 | Stop words and words of at most two UTF-16 units never pass the filter. A BMP word that passes has at least three characters. |
| `StatsModel.NewGroup` | src/services/statisticService.ts:86-101 | A new group has the given name and creation time, zero counters, empty maps, and exactly 24 hour slots, all zero. |
| `StatsModel.NewGroupConsistent` | src/services/statisticService.ts:86-101 | A new group satisfies every recording invariant. |
| `StatsModel.IsCommand` | src/services/statisticService.ts:81 | A message starting with `/` or `!` is a bot command. |
| `StatsModel.NewUser` | src/services/statisticService.ts:104-116 | A participant seen for the first time starts with the given name, zero counters, average 0 and no active days. |
| `StatsModel.CountWords` | src/services/statisticService.ts:136-140 | The word loop on a `map`: each word that passes the filter bumps its count, one word after the other. |
| `StatsModel.CountEmojis` | src/services/statisticService.ts:144-146 | The emoji loop on a `map`: each emoji bumps its count. |
| `StatsModel.CountWordsSpec` | src/services/statisticService.ts:136-140 | A word's count grows by its number of occurrences when it passes the stop-word and length filter, and not at all otherwise. A word becomes a key only if it passes the filter and occurs. |
| `StatsModel.CountEmojisSpec` | src/services/statisticService.ts:143-146 | An emoji's count grows by its number of occurrences. Only occurring emojis become keys. |
| `StatsModel.RecordedUser` | src/services/statisticService.ts:124-133 | The participant gets the latest name and the message time, one more message, the message's UTF-16 length and its word count. The average becomes characters over messages. Today's day count grows by one, and no other day changes. |
| `StatsModel.RecordInGroup` | src/services/statisticService.ts:152 | Bumping the message's hour slot in place keeps the number of hour slots. |
| `StatsModel.RecordInGroupCounts` | src/services/statisticService.ts:104-153 | The message total grows by one and the word total by the message's word count. The activity time becomes `now`, and the name and creation time are kept. The participant count grows by one exactly for a new sender, the sender's record is `RecordedUser` of their old record (or of a new one from `NewUser`), and every other participant's record is unchanged. The message's hour slot and day slot grow by one, and no other slot changes. Word counts grow as `CountWordsSpec` states, emoji counts as `CountEmojisSpec` states, and keys appear only as those lemmas allow. |
| `StatsModel.Record` | src/services/statisticService.ts:80-153 | A command (leading `/` or `!`) leaves the whole map unchanged. Otherwise the group's entry is the old or the new group with the message folded in. An unseen group starts with the given name, the message time, one message and one participant. Every other group is unchanged. |
| `StatsModel.FlushDue` | src/services/statisticService.ts:156 | A group's snapshot is due when its message total is a multiple of 10. |
| `StatsModel.ParticipantsStep` | src/services/statisticService.ts:104-116 | The participant map grows by one key exactly when the sender is new. Otherwise its size is unchanged. |
| `StatsModel.HoursSumStep` | src/services/statisticService.ts:152 | Bumping one hour slot adds one to the histogram's sum. |
| `StatsModel.DaysSumStep` | src/services/statisticService.ts:153 | Bumping one day adds one to the sum of the day counts. |
| `StatsModel.UsersSumStep` | src/services/statisticService.ts:118-133 | Replacing the sender's record adds one to the participants' message sum and the message's word count to their word sum. |
| `StatsModel.RecordedUserConsistent` | src/services/statisticService.ts:124-133 | After a message the participant has at least one message. Their average equals characters over messages, and their day counts add up to their message count. |
| `StatsModel.HoursKept` | src/services/statisticService.ts:149-152 | Recording keeps 24 hour slots whose sum is the message total. |
| `StatsModel.DaysKept` | src/services/statisticService.ts:149-153 | Recording keeps the per-day counts summing to the message total. |
| `StatsModel.UsersKept` | src/services/statisticService.ts:104-150 | Recording keeps three facts: the participants' messages sum to the message total, their words sum to the word total, and the participant count equals the number of user keys. |
| `StatsModel.KeysKept` | src/services/statisticService.ts:136-146 | Recording keeps every word key passing the filter and every emoji key a single emoji character. |
| `StatsModel.RecordPreservesConsistent` | src/services/statisticService.ts:85-153 | Recording a message into a consistent group gives a consistent group. |
| `StatsModel.RecordKeepsAllConsistent` | src/services/statisticService.ts:80-153 | Recording keeps every group of the map consistent, whichever group the message goes to. |
| `Statistics.StatisticsManager.constructor` | src/services/statisticService.ts:5-6 | The manager starts with no groups and is valid. |
| `Statistics.StatisticsManager.RecordMessage` | src/services/statisticService.ts:73-159 | The new map is `Record` of the old one, and every group stays consistent. A save is requested exactly when the message is not a command and the group's new total is a multiple of 10. |
| `Statistics.FoldMessage` | src/services/statisticService.ts:103-153 | Folding a message into a group, step by step, gives `RecordInGroup` with the message's length, words and emojis. |
| `Statistics.FoldTally` | src/services/statisticService.ts:103-153 | The in-place updates give `RecordInGroup`: participant creation, counters, word and emoji loops, then group totals. |
| `Statistics.TallyWords` | src/services/statisticService.ts:136-140 | The `forEach` over the words computes `CountWords`. |
| `Statistics.TallyEmojis` | src/services/statisticService.ts:144-146 | The `forEach` over the emojis computes `CountEmojis`. |
| `Statistics.StatisticsManager.GeneralStats` | src/services/statisticService.ts:174-186 | An unknown group gets the "no statistics" reply. A known one gets its counters, the top 5 participants by messages, the top 10 words and the first busiest hour. |
| `Statistics.StatisticsManager.UserStatsOf` | src/services/statisticService.ts:209-221 | An unknown group or user gets the "user not found" reply. Otherwise the reply is `Reports.User` of the group and the user, whose rank lies in 1..participants. |
| `Statistics.StatisticsManager.RankingStats` | src/services/statisticService.ts:234-240 | An unknown group gets the "no statistics" reply. Otherwise the reply is `Reports.RankingOf` of the group, with min(10, participants) entries. |
| `Statistics.StatisticsManager.ActivityStats` | src/services/statisticService.ts:255-274 | An unknown group gets the "no statistics" reply. Otherwise the reply is the activity report. |
| `Statistics.StatisticsManager.WordStats` | src/services/statisticService.ts:294-308 | An unknown group gets the "no statistics" reply. Otherwise the reply is `Reports.Words` of the group, which counts the distinct words. |
| `Ranking.Insert` | src/services/statisticService.ts:179 | Inserting into a descending list keeps it descending and adds exactly the element. |
| `Ranking.SortDesc` | src/services/statisticService.ts:179 | The sort returns a permutation of its input in non-increasing key order, keeping distinct elements distinct. |
| `Ranking.TopN` | src/services/statisticService.ts:179-180 | `sort` then `slice(0, n)` gives min(n, size) elements, in non-increasing order, forming a sub-multiset of the input. No element left out beats one kept. |
| `Ranking.PrefixIsTop` | src/services/statisticService.ts:179-180 | The first n of any descending permutation are a top-n selection. |
| `Ranking.TopOfSorted` | src/services/statisticService.ts:179-180 | In a descending permutation, no element outside the first k has a larger key than one inside. |
| `Ranking.Entries` | src/services/statisticService.ts:178 | `Object.entries` lists each key of the map once, with its value, in some order. |
| `Ranking.EntriesPermutation` | src/services/statisticService.ts:178-179 | A permutation of an enumeration of a map is again an enumeration of it. |
| `Ranking.TopOfMap` | src/services/statisticService.ts:178-184 | The top-n entries of a map are distinct keys with their values. There are min(n, keys) of them, in non-increasing order, and no left-out entry beats a kept one. |
| `Ranking.MaxOf` | src/services/statisticService.ts:186 | `Math.max` of a non-empty list is an element no other element exceeds. |
| `Ranking.IndexOf` | src/services/statisticService.ts:186 | `indexOf` gives -1 exactly when the value is absent. Otherwise it gives the first position holding it. |
| `Ranking.FirstMaxIndex` | src/services/statisticService.ts:186 | `indexOf(Math.max(...))` gives -1 only for an empty list. Otherwise it gives the first position of a maximum. |
| `Reports.General` | src/services/statisticService.ts:174-186 | The general report copies the group's counters and holds the top 5 participants, the top 10 words and the first index of the busiest hour. |
| `Reports.GeneralHourOfDay` | src/services/statisticService.ts:186 | With 24 slots, the most active hour is in 0..23 and its count is the largest. |
| `Reports.GeneralWordsCounted` | src/services/statisticService.ts:182-184 | In a consistent group, every word the general report lists passes the stop-word filter. |
| `Reports.Standing` | src/services/statisticService.ts:216-217 | The participants sorted by message count are an enumeration of them in non-increasing order. |
| `Reports.FindId` | src/services/statisticService.ts:218 | `findIndex` gives -1 exactly when the id is absent. Otherwise it gives the id's first position. |
| `Reports.Rank` | src/services/statisticService.ts:216-218 | A known user's rank lies in 1..participants. Their entry is at that place, with no fewer messages before it and no more after it. |
| `Reports.MoreMessagesRankAhead` | src/services/statisticService.ts:216-218 | A user with strictly more messages ranks strictly ahead. |
| `Reports.AveragePerDay` | src/services/statisticService.ts:220-221 | The average is 0 for no active day. Otherwise, times the number of days, it gives the message count. |
| `Reports.User` | src/services/statisticService.ts:209-231 | The user report holds the rank, the user's counters and average length as stored, the number of active days and the per-day average. |
| `Reports.Share` | src/services/statisticService.ts:246 | The percentage is absent exactly for a zero total. In the source that is NaN for 0/0; with a positive count it would be Infinity, but a consistent group never reaches that case, because its total is the sum of its participants' counts. Otherwise, times the total, it gives 100 times the count. When the count is at most the total it lies in 0..100, and it is positive for a positive count. |
| `Reports.ShareBounds` | src/services/statisticService.ts:246 | A value v with v × total = 100 × count lies in 0..100 when count ≤ total, and is positive when count is positive. |
| `Reports.RankingOf` | src/services/statisticService.ts:238-246 | The ranking is the top 10 participants by messages, each with its share of the group's messages. |
| `Reports.Shares` | src/services/statisticService.ts:244-246 | One share per ranked participant, each computed from that participant's count. |
| `Reports.RankingSharesBounded` | src/services/statisticService.ts:238-246 | In a consistent non-empty group, every ranked share lies between 0 and 100. |
| `Reports.HourSlots` | src/services/statisticService.ts:260-261 | The `map((count, hour) => …)` pairs each hour with its own count. |
| `Reports.DigitsOrder` | src/services/statisticService.ts:268 | Among digit strings of one length, value order is dictionary order, and equal values mean equal strings. |
| `Reports.DateKeyOrder` | src/services/statisticService.ts:268 | For two `YYYY-MM-DD` keys, the first has the smaller key exactly when it comes first in dictionary order. For keys of real days, which are the only keys the recorder writes, that is calendar order, the order `new Date(key).getTime()` gives. |
| `Reports.DateKey` | src/services/statisticService.ts:268 | The sort key standing for `new Date(key).getTime()`: `YYYYMMDD` read as a number for an ISO day key. Its meaning is given by `Reports.DateKeyOrder` (key order is day order) and `Reports.DateKeyDistinct` (different days have different keys). |
| `Reports.DateKeyDistinct` | src/services/statisticService.ts:268 | Two ISO day keys with equal keys are the same day. |
| `Reports.LatestDays` | src/services/statisticService.ts:266-269 | A top-n choice of ISO days by date lists them strictly newest first, and every day left out is older than every day listed. |
| `Reports.Activity` | src/services/statisticService.ts:255-274 | The activity report holds the top 5 hours by count, the 7 latest days and the top 8 emojis. |
| `Reports.ActivityLatestDays` | src/services/statisticService.ts:266-269 | With ISO day keys, the report lists its days newest first, and every day left out is older than every day listed. |
| `Reports.ActivityHoursOfDay` | src/services/statisticService.ts:260-263 | With 24 slots, the report lists exactly five distinct hours of the day, each with its own count. |
| `Reports.TopHours` | src/services/statisticService.ts:260-263 | Any top-5 selection of 24 hour slots is five distinct hours carrying their counts. |
| `Reports.HourSlotsDistinct` | src/services/statisticService.ts:260-261 | The hour slots are pairwise distinct. |
| `Reports.ActivityEmojis` | src/services/statisticService.ts:272-274 | In a consistent group, every listed emoji is a single emoji character, with its stored count. |
| `Reports.Words` | src/services/statisticService.ts:294-308 | The word report holds the top 20 words and the number of distinct words. |
| `Reports.WordsOfConsistent` | src/services/statisticService.ts:298-300 | In a consistent group, each listed word passes the filter and carries its stored count. |
| `Context.LastN` | src/services/contextManager.ts:14-16 | The last n elements: min(n, length) of them, the newest ones, in their order. |
| `Context.Push` | src/services/contextManager.ts:10-16 | Appending and dropping the oldest above capacity: the context grows by one below 5 and keeps its length otherwise. The message is last, and it is preceded by the newest messages of the old context, in their order. |
| `Context.PushIsLastN` | src/services/contextManager.ts:10-16 | Pushing onto the window of a history gives the window of the longer history. |
| `Context.PushKeepsNewest` | src/services/contextManager.ts:11-16 | After a push the context has at most 5 messages, the pushed one is the last, and nothing is dropped below capacity. |
| `Context.WindowedPush` | src/services/contextManager.ts:5-17 | Pushing onto one chat, an unknown chat included, keeps every context the last five messages of its history. |
| `Context.ContextManager.constructor` | src/services/contextManager.ts:2-3 | The manager starts with no chats. |
| `Context.ContextManager.AddMessage` | src/services/contextManager.ts:5-17 | Only this chat changes. Its context becomes the push of the message onto the old one (empty when missing), with at most 5 messages and the new one last. It stays the last five messages added. |
| `Context.ContextManager.GetContext` | src/services/contextManager.ts:19-21 | An unknown chat gives the empty list. A known one gives at most 5 messages: the last five added since creation or the last clear. |
| `Context.ContextManager.ClearContext` | src/services/contextManager.ts:23-25 | Only this chat is removed, and its context then reads as empty. |
| `RateLimit.Step` | src/services/rateLimit.ts:11-31 | An allowed call records `now` and either restarts the count at 1 or adds one to the old count. A refused call leaves the user's record as it was. |
| `RateLimit.StepCases` | src/services/rateLimit.ts:7-32 | Four cases: a new user is allowed with count 1; a call more than the window after the last allowed one restarts the count at 1; a user at the cap within the window is refused, with the record unchanged; otherwise the call is allowed with the count one higher. Every allowed call records `now`. |
| `RateLimit.StepInRange` | src/services/rateLimit.ts:11-31 | With a cap of at least 1, every call keeps the count in 1..cap. |
| `RateLimit.Run` | src/services/rateLimit.ts:7-32 | A series of calls gets one answer per call. |
| `RateLimit.RunWithinWindow` | src/services/rateLimit.ts:19-31 | Consider calls all within one window starting no earlier than the last allowed command. Exactly the first `cap - count` are allowed, and the rest are refused. |
| `RateLimit.RunBurst` | src/services/rateLimit.ts:11-31 | A new user whose calls span at most one window after the first is allowed exactly the first `cap` calls. |
| `RateLimit.CeilThousandths` | src/services/rateLimit.ts:39 | `Math.ceil(x / 1000)` is the least integer r with x ≤ 1000·r. |
| `RateLimit.SecondsLeft` | src/services/rateLimit.ts:38-39 | The wait is never negative. It is 0 exactly when the window has run out, and at most the window in seconds once the last command is past. A positive wait is the remaining time rounded up to whole seconds. |
| `RateLimit.BoundaryWaitIsZero` | src/services/rateLimit.ts:19-39 | At exactly `window` milliseconds after the last command, the wait reads 0 but a user at the cap is still refused. |
| `RateLimit.WaitingMeansRefused` | src/services/rateLimit.ts:19-39 | A positive wait means a user at the cap is refused. |
| `RateLimit.RateLimiter.constructor` | src/config/bot.ts:5-6 | The limiter starts empty, with the shipped window (60000 ms) and cap (5). |
| `RateLimit.RateLimiter.IsAllowed` | src/services/rateLimit.ts:7-32 | The answer and the user's new record are those of `Step`. No other user's record changes, and every count stays in 1..cap. |
| `RateLimit.RateLimiter.TimeUntilReset` | src/services/rateLimit.ts:34-40 | The result is 0 for an unknown user and never negative. It is at most ceil(window / 1000) once the last command is past, and 0 exactly when the window has run out. |
| `Validator.ValidateMessage` | src/utils/messageValidator.ts:3-20 | The result is valid exactly when it carries no error, and exactly when none of the three checks fails. A blocked sender gets "Usuário bloqueado.". Otherwise a chat outside a non-empty allowlist gets "Chat não autorizado.". "Mensagem muito longa." is given exactly when only the length check fails. |
| `Validator.EmptyAllowlistAdmitsEveryChat` | src/utils/messageValidator.ts:11-13 | With an empty allowlist, the chat plays no part in the answer, and no chat is refused. |
| `Validator.BlockedComesFirst` | src/utils/messageValidator.ts:7-9 | A blocked sender gets the same answer whatever the chat and the body. |
| `Validator.DefaultConfigLimitsLengthOnly` | src/config/bot.ts:3-9 | Under the shipped configuration, a message is valid exactly when its length is at most 4000 UTF-16 units. |
| `StatsCommands.SubCommand` | src/command/statisticCommands.ts:17-18 | The sub-command is absent exactly when the command holds no space. When present, it holds no space. |
| `StatsCommands.NoSpaceOnePart` | src/command/statisticCommands.ts:17 | Splitting gives one part exactly when the text holds no space. |
| `StatsCommands.Sender` | src/command/statisticCommands.ts:41 | A non-empty author is the sender. An absent or empty author falls back to the chat. |
| `StatsCommands.Route` | src/command/statisticCommands.ts:6-58 | A non-group chat gets only the groups-only notice. Every report is about the chat the command came from, the user report is for the sender, and a command with no space asks for the general report. |
| `StatsCommands.RouteIgnoresCase` | src/command/statisticCommands.ts:18 | Lower-casing the command never changes the route. |
| `StatsCommands.RouteBySecondPart` | src/command/statisticCommands.ts:22-54 | `geral`, `ranking`, `atividade`, `palavras` and `meu` each route to their report. Any other second part routes to the help text. |
| `StatsCommands.TrailingSpaceAsksForHelp` | src/command/statisticCommands.ts:17-54 | In a group, `"/stats "` (an empty second part) routes to the help text, while `"/stats"` routes to the general report. |
| `JsObject.BumpAsWritten` | src/services/statisticService.ts:138 | `(table[word] \|\| 0) + 1` on a plain object: a read that falls back to `Object.prototype`, a JavaScript `+`, and a write that ignores a string assigned to `__proto__`. |
| `JsObject.CountWordsAsWritten` | src/services/statisticService.ts:136-140 | The word loop over the plain-object table, filter included. |
| `JsObject.BumpAsWrittenAgrees` | src/services/statisticService.ts:138 | On the plain-object table, bumping any lower-case key other than `constructor` and `__proto__` matches the map model. |
| `JsObject.ExtractedWordsLower` | src/services/statisticService.ts:161-167 | Every extracted word is already lower-case, so the word loop only receives lower-case keys. |
| `JsObject.CountWordsAsWrittenAgrees` | src/services/statisticService.ts:136-140 | For lower-case words other than the two prototype names, the as-written table holds exactly the counts of `CountWords`. |
| `JsObject.PrototypeNamesExtracted` | src/services/statisticService.ts:161-167 | The words of "constructor __proto__" are those two names. |
| `JsObject.PrototypeNamesCounted` | src/services/statisticService.ts:137 | Both names pass the stop-word and length filter. |
| `JsObject.PrototypeWordsMiscounted` | src/services/statisticService.ts:136-140 | For that message the as-written table holds the text "function Object() { [native code] }1" under `constructor` and nothing under `__proto__`. The intended counts are 1 and 1. |

## Left out

- Persistence is not modelled: the data directory, loading, saving and saving all groups (src/services/statisticService.ts:15-71, 312-317). It is file and JSON I/O with `Promise.all` concurrency. Only the "save due" flag that `RecordMessage` returns is kept.
- The clock is three inputs of `RecordMessage`: `now`, `hour` and `today`. The source takes `hour` from local time (`getHours`) and `today` from UTC (`toISOString`). The model does not tie the two together. `Date.now()` in the rate limiter is the `now` parameter.
- Report text is not modelled. That covers `toLocaleString`, `toLocaleDateString('pt-BR')`, `toFixed`, medals and emoji decoration. The report members model the data each report selects. Shares and averages are exact rationals (`real`).
- `Ranking.Entries` leaves the enumeration order open. JavaScript fixes it: integer-like keys in ascending order, then the other keys in insertion order. The sorts are stable, so that order decides which of several equal counts comes first. The model does not capture it: the order among equal counts, and a tied participant's exact rank, are not modelled. The contracts say what holds for every order: non-increasing by count, a permutation, and no left-out entry beating a kept one. The reports are ghost functions because `Entries` is chosen with `:|`.
- `JsObject.Read` models the inherited names that a lower-case key can reach, `constructor` and `__proto__`. The other members of `Object.prototype` (`valueOf`, `toString`, `hasOwnProperty`, `__defineGetter__` and the like) are left out: each holds a capital letter, and the words the loop receives are lower-case (`JsObject.ExtractedWordsLower`). The two agreement lemmas are stated for lower-case words for that reason.
- `StatsModel.CountWords` gives the word table own-key semantics, as a `map`. For the words `constructor` and `__proto__` it gives the intended counts, not the code's. `JsObject` models the code's plain-object table and the miscount (see Findings).
- `Reports.DateKey`: a day key that is not `YYYY-MM-DD` sorts as 0. `new Date(key)` would give NaN, and the JavaScript sort's handling of NaN is not modelled. The recorder only writes ISO keys.
- The regular expressions are modelled as character predicates over Unicode scalar values:
  - `\w` plus the listed accented letters, `\s` as the ECMAScript white-space set, and the eight emoji ranges;
  - `toLowerCase` is modelled for ASCII and Latin-1 letters only, so other scripts are not lower-cased. Two consequences follow:
    - `İ` (U+0130) is not lower-cased, so `Clean` blanks it. `toLowerCase` turns it into `i` followed by U+0307, which line 164 blanks instead. So `İstanbul` gives the words `i` and `stanbul` in the source, adding 2 to the word counts, but only `stanbul` in the model, adding 1;
    - the Kelvin sign (U+212A), which `toLowerCase` turns into the ASCII `k`, is kept. So `/stats ran\u{212A}ing` routes to help in the model but to the ranking in the source (src/command/statisticCommands.ts:18-29), and the word `\u{212A}elvin` is extracted as `elvin` in the model but as `kelvin` in the source;
  - `length` counts UTF-16 units.
- The `mostActiveHour` field of a participant record is always 0 and never read, so the record omits it (src/services/statisticService.ts:112; src/types/statistics.ts:8).
- The source mutates nested records in place: the group found in the map, the participant in it, the session in the limiter's map, and the array in the context map. The model replaces them as values in the owning map. The group, participant and session records never leave their owner.
- `Context.ContextManager.GetContext` returns a copy of the chat's context. `getContext` returns the stored array itself (src/services/contextManager.ts:19-21), so a caller that pushed onto or shifted it would change the chat's context. The model does not capture that aliasing: it assumes that callers do not modify the returned array.
- The source creates a new group with `stats.set` before folding the message in. `RecordMessage` builds the group and stores it once, with the same final state.
- `handleStatsCommand` sends its reply through the WhatsApp client. The router returns the action and the reports the data. `client.sendMessage` and the text of the help message are not modelled.
- `BotConfig.allowedChats` and `blockedUsers` are declared as possibly absent or `any` (src/types/index.ts:5-6). The model takes them as lists of chat and user ids, as the shipped configuration has them.
- Integer widths: counters are unbounded `nat`. JavaScript numbers lose precision above 2^53, which the model does not capture.
- The HTTP server, the webhook routes, the WhatsApp client events and the OpenAI and Meta API calls are not part of this model (index.ts, src/routes/, src/services/ia.ts, src/services/metaApi.ts).

## Findings

| source | as written | input that shows it | evidently intended | confidence | as-written member | corrected member |
|---|---|---|---|---|---|---|
| src/services/statisticService.ts:136-140 | The word table is a plain object literal `{}`, updated with `(table[word] \|\| 0) + 1`. A missing key falls back to `Object.prototype`. `constructor` reads the built-in `Object` function, so its count becomes the text of that function plus "1". `__proto__` reads the prototype, and the assignment to it is ignored. Both names are lower-case word characters that pass the filter. | A group message "constructor __proto__" | Each counted word's entry is its number of occurrences: 1 and 1 here. | not executed | `JsObject.PrototypeWordsMiscounted` | `StatsModel.CountWordsSpec` |
