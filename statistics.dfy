/**
  The statistics manager: a map from group id to group record that
  `RecordMessage` updates in place, message by message, and the report
  queries that read it.
*/
module Statistics {
  import opened Text
  import opened Extract
  import opened StatsModel
  import opened Reports

  class StatisticsManager {
    /** Group id to the group's record. */
    var stats: map<string, GroupStats>

    /** Every stored group is consistent. */
    ghost predicate Valid()
      reads this
    {
      AllConsistent(stats)
    }

    /** A manager with no groups yet (persistence is not modelled). */
    constructor()
      ensures stats == map[]
      ensures Valid()
    {
      stats := map[];
    }

    /** `recordMessage`: folds one chat message into its group's record,
        creating the group and the participant on first sight, and says
        whether the group's snapshot is due to be written. Commands change
        nothing. The clock is the three inputs `now`, `hour` and `today`. */
    method RecordMessage(groupId: string, userId: string, userName: string, message: string,
                         groupName: string, now: Timestamp, hour: nat, today: string)
      returns (flush: bool)
      requires Valid() && hour < HoursPerDay
      modifies this
      ensures Valid()
      ensures old(groupId in stats ==> |stats[groupId].messagesByHour| == HoursPerDay)
      ensures stats == Record(old(stats), groupId, userId, userName, message, groupName, now, hour, today)
      ensures flush <==> !IsCommand(message) && FlushDue(stats[groupId])
    {
      RecordKeepsAllConsistent(stats, groupId, userId, userName, message, groupName, now, hour, today);
      if StartsWith(message, "/") || StartsWith(message, "!") {
        return false;
      }
      var groupStats: GroupStats;
      if groupId in stats {
        groupStats := stats[groupId];
      } else {
        groupStats := NewGroup(groupName, now);
      }
      ghost var before := stats;
      assert groupStats == GroupOrNew(before, groupId, groupName, now);
      groupStats := FoldMessage(groupStats, userId, userName, message, now, hour, today);
      stats := stats[groupId := groupStats];
      assert stats == Record(before, groupId, userId, userName, message, groupName, now, hour, today);
      flush := groupStats.totalMessages % FlushEvery == 0;
    }

    /** `getGeneralStats`: the sentinel for an unknown group, else the
        general report of its record. */
    ghost function GeneralStats(groupId: string): (r: Reply<GeneralReport>)
      reads this
      ensures groupId !in stats <==> r == Sentinel(NoStatsForGroup)
      ensures groupId in stats ==> r.Data? && IsGeneralReport(r.report, stats[groupId])
    {
      if groupId in stats then Data(General(stats[groupId])) else Sentinel(NoStatsForGroup)
    }

    /** `getUserStats`: the sentinel unless both the group and the user are known. */
    ghost function UserStatsOf(groupId: string, userId: string): (r: Reply<UserReport>)
      reads this
      ensures (groupId !in stats || userId !in stats[groupId].users) <==> r == Sentinel(UserNotFound)
      ensures groupId in stats && userId in stats[groupId].users ==>
                r.Data? && 1 <= r.report.rank <= |stats[groupId].users|
      ensures groupId in stats && userId in stats[groupId].users ==> r == Data(User(stats[groupId], userId))
    {
      if groupId in stats && userId in stats[groupId].users then Data(User(stats[groupId], userId))
      else Sentinel(UserNotFound)
    }

    /** `getRankingStats`. */
    ghost function RankingStats(groupId: string): (r: Reply<RankingReport>)
      reads this
      ensures groupId !in stats <==> r == Sentinel(NoStats)
      ensures groupId in stats ==> r.Data? && |r.report.top| == Ranking.Min(10, |stats[groupId].users|)
      ensures groupId in stats ==> r == Data(RankingOf(stats[groupId]))
    {
      if groupId in stats then Data(RankingOf(stats[groupId])) else Sentinel(NoStats)
    }

    /** `getActivityStats`. */
    ghost function ActivityStats(groupId: string): (r: Reply<ActivityReport>)
      reads this
      ensures groupId !in stats <==> r == Sentinel(NoStats)
      ensures groupId in stats ==> r.Data? && IsActivityReport(r.report, stats[groupId])
    {
      if groupId in stats then Data(Activity(stats[groupId])) else Sentinel(NoStats)
    }

    /** `getWordStats`. */
    ghost function WordStats(groupId: string): (r: Reply<WordReport>)
      reads this
      ensures groupId !in stats <==> r == Sentinel(NoStats)
      ensures groupId in stats ==> r.Data? && r.report.uniqueWords == |stats[groupId].wordFrequency|
      ensures groupId in stats ==> r == Data(Words(stats[groupId]))
    {
      if groupId in stats then Data(Words(stats[groupId])) else Sentinel(NoStats)
    }
  }

  /** The update of one group record by one non-command message: its
      length, words and emojis are taken first (the extractors are pure, so
      taking them before the updates changes nothing), then folded in. */
  method FoldMessage(g: GroupStats, userId: string, userName: string, message: string,
                     now: Timestamp, hour: nat, today: string) returns (r: GroupStats)
    requires hour < |g.messagesByHour|
    ensures r == RecordInGroup(g, userId, userName, TallyOf(message), now, hour, today)
  {
    var units := Utf16Length(message);
    var words := ExtractWords(message);
    var emojis := ExtractEmojis(message);
    r := FoldTally(g, userId, userName, units, words, emojis, now, hour, today);
  }

  /** The in-place update of one group record, in the order the source
      performs it: the participant (created on first sight, counted once),
      then the word and emoji tallies, then the group's counters and
      histograms. */
  method FoldTally(g: GroupStats, userId: string, userName: string, units: nat,
                   words: seq<string>, emojis: seq<string>,
                   now: Timestamp, hour: nat, today: string) returns (r: GroupStats)
    requires hour < |g.messagesByHour|
    ensures r == RecordInGroup(g, userId, userName, Tally(units, words, emojis), now, hour, today)
  {
    var users := g.users;
    var participants := g.totalParticipants;
    if userId !in users {
      users := users[userId := NewUser(userName, now)];
      participants := participants + 1;
    }

    var user := users[userId];
    user := user.(name := userName,
                  messageCount := user.messageCount + 1,
                  characterCount := user.characterCount + units,
                  lastActivity := now,
                  dayActivity := Bump(user.dayActivity, today));
    user := user.(wordCount := user.wordCount + |words|,
                  averageMessageLength := Ratio(user.characterCount, user.messageCount));
    users := users[userId := user];

    var wordFrequency := TallyWords(g.wordFrequency, words);
    var topEmojis := TallyEmojis(g.topEmojis, emojis);

    var hours := g.messagesByHour;
    hours := hours[hour := hours[hour] + 1];
    r := g.(totalMessages := g.totalMessages + 1,
            totalWords := g.totalWords + |words|,
            totalParticipants := participants,
            lastActivity := now,
            users := users,
            wordFrequency := wordFrequency,
            messagesByHour := hours,
            messagesByDay := Bump(g.messagesByDay, today),
            topEmojis := topEmojis);
  }

  /** The word loop: each word that passes the stop-word filter bumps its count. */
  method TallyWords(freq: map<string, nat>, words: seq<string>) returns (r: map<string, nat>)
    ensures r == CountWords(freq, words)
  {
    r := freq;
    var i := 0;
    while i < |words|
      invariant 0 <= i <= |words|
      invariant r == CountWords(freq, words[..i])
    {
      var word := words[i];
      // not a stop word once lower-cased, and longer than two UTF-16 units
      if Counted(word) {
        r := r[word := Get(r, word) + 1];
      }
      assert words[..i + 1][..i] == words[..i] && words[..i + 1][i] == word;
      i := i + 1;
    }
    assert words[..|words|] == words;
  }

  /** The emoji loop: each emoji bumps its count. */
  method TallyEmojis(freq: map<string, nat>, emojis: seq<string>) returns (r: map<string, nat>)
    ensures r == CountEmojis(freq, emojis)
  {
    r := freq;
    var j := 0;
    while j < |emojis|
      invariant 0 <= j <= |emojis|
      invariant r == CountEmojis(freq, emojis[..j])
    {
      var emoji := emojis[j];
      r := r[emoji := Get(r, emoji) + 1];
      assert emojis[..j + 1][..j] == emojis[..j] && emojis[..j + 1][j] == emoji;
      j := j + 1;
    }
    assert emojis[..|emojis|] == emojis;
  }
}
