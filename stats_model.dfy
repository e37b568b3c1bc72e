/**
  The per-group statistics record and what one recorded chat message does to
  it, as a function of the old record. The statistics manager's imperative
  `RecordMessage` is proved to compute exactly this function; the lemmas
  here state the invariants every recording keeps.
*/
module StatsModel {
  import opened Text
  import opened Extract

  /** Milliseconds since the epoch. */
  type Timestamp = int

  /** One participant of one group. */
  datatype UserStats = UserStats(
    name: string,
    messageCount: nat,
    wordCount: nat,
    characterCount: nat,
    lastActivity: Timestamp,
    averageMessageLength: real,
    dayActivity: map<string, nat>)

  /** One group: counters, histograms and the participants' records. */
  datatype GroupStats = GroupStats(
    groupName: string,
    totalMessages: nat,
    totalWords: nat,
    totalParticipants: nat,
    createdAt: Timestamp,
    lastActivity: Timestamp,
    users: map<string, UserStats>,
    wordFrequency: map<string, nat>,
    messagesByHour: seq<nat>,
    messagesByDay: map<string, nat>,
    topEmojis: map<string, nat>)

  const HoursPerDay: nat := 24

  /** A group's snapshot is written out whenever its message total reaches a multiple of this. */
  const FlushEvery: nat := 10

  /** Bot commands start with `/` or `!` and are never counted. */
  predicate IsCommand(message: string)
  {
    StartsWith(message, "/") || StartsWith(message, "!")
  }

  /** `(m[k] || 0)`. */
  function Get<K>(m: map<K, nat>, k: K): nat
  {
    if k in m then m[k] else 0
  }

  /** `m[k] = (m[k] || 0) + 1`. */
  function Bump<K>(m: map<K, nat>, k: K): map<K, nat>
  {
    m[k := Get(m, k) + 1]
  }

  /** The sum of a sequence of counters. */
  function Sum(s: seq<nat>): nat
  {
    if s == [] then 0 else Sum(s[..|s| - 1]) + s[|s| - 1]
  }

  /** The sum of `f` over the values of a map. */
  ghost function SumBy<K, V>(m: map<K, V>, f: V -> nat): nat
    decreases |m|
  {
    if m == map[] then 0
    else
      var k :| k in m;
      f(m[k]) + SumBy(m - {k}, f)
  }

  /** `a / b` on counters, as the exact quotient. */
  function Ratio(a: nat, b: nat): real
    requires b > 0
  {
    a as real / b as real
  }

  function Count(n: nat): nat { n }
  function MessageCountOf(u: UserStats): nat { u.messageCount }
  function WordCountOf(u: UserStats): nat { u.wordCount }

  /** A participant record as it is after at least one recorded message. */
  ghost predicate UserConsistent(u: UserStats)
  {
    && u.messageCount >= 1
    && u.averageMessageLength == Ratio(u.characterCount, u.messageCount)
    && SumBy(u.dayActivity, Count) == u.messageCount
  }

  /** The hour histogram has 24 slots that add up to the message total. */
  ghost predicate HoursAddUp(g: GroupStats)
  {
    |g.messagesByHour| == HoursPerDay && Sum(g.messagesByHour) == g.totalMessages
  }

  /** The per-day counts add up to the message total. */
  ghost predicate DaysAddUp(g: GroupStats)
  {
    SumBy(g.messagesByDay, Count) == g.totalMessages
  }

  /** The participants' message and word counts add up to the group's totals,
      there is one participant per user key, and every participant record is
      consistent. */
  ghost predicate UsersAddUp(g: GroupStats)
  {
    && SumBy(g.users, MessageCountOf) == g.totalMessages
    && SumBy(g.users, WordCountOf) == g.totalWords
    && g.totalParticipants == |g.users|
    && (forall id :: id in g.users ==> UserConsistent(g.users[id]))
  }

  /** Every word key passes the stop-word filter; every emoji key is one emoji character. */
  ghost predicate KeysWellFormed(g: GroupStats)
  {
    && (forall w :: w in g.wordFrequency ==> Counted(w))
    && (forall e :: e in g.topEmojis ==> |e| == 1 && IsEmoji(e[0]))
  }

  /** What recording keeps true of a group that starts empty. */
  ghost predicate Consistent(g: GroupStats)
  {
    HoursAddUp(g) && DaysAddUp(g) && UsersAddUp(g) && KeysWellFormed(g)
  }

  /** The record of a group seen for the first time. */
  function NewGroup(groupName: string, now: Timestamp): (g: GroupStats)
    ensures g.groupName == groupName && g.createdAt == now
    ensures g.totalMessages == 0 && g.totalWords == 0 && g.totalParticipants == 0
    ensures g.users == map[] && g.wordFrequency == map[] && g.messagesByDay == map[] && g.topEmojis == map[]
    ensures |g.messagesByHour| == HoursPerDay
    ensures forall h :: 0 <= h < HoursPerDay ==> g.messagesByHour[h] == 0
  {
    GroupStats(groupName, 0, 0, 0, now, now, map[], map[], seq(HoursPerDay, _ => 0), map[], map[])
  }

  /** A group seen for the first time starts consistent. */
  lemma NewGroupConsistent(groupName: string, now: Timestamp)
    ensures Consistent(NewGroup(groupName, now))
  {
    var g := NewGroup(groupName, now);
    SumZeros(g.messagesByHour);
    SumByEmpty(g.users, MessageCountOf);
    SumByEmpty(g.users, WordCountOf);
    SumByEmpty(g.messagesByDay, Count);
  }

  lemma {:induction false} SumZeros(s: seq<nat>)
    requires forall i :: 0 <= i < |s| ==> s[i] == 0
    ensures Sum(s) == 0
  {
    if s != [] {
      SumZeros(s[..|s| - 1]);
    }
  }

  /** The record of a participant seen for the first time in a group. */
  function NewUser(userName: string, now: Timestamp): UserStats
  {
    UserStats(userName, 0, 0, 0, now, 0.0, map[])
  }

  /** The participant record a message is folded into. */
  function PriorUser(g: GroupStats, userId: string, userName: string, now: Timestamp): UserStats
  {
    if userId in g.users then g.users[userId] else NewUser(userName, now)
  }

  /** The word loop: each extracted word that passes the filter bumps its count. */
  function CountWords(freq: map<string, nat>, words: seq<string>): map<string, nat>
  {
    if words == [] then freq
    else
      var f := CountWords(freq, words[..|words| - 1]);
      var w := words[|words| - 1];
      if Counted(w) then Bump(f, w) else f
  }

  /** The emoji loop: each extracted emoji bumps its count. */
  function CountEmojis(freq: map<string, nat>, emojis: seq<string>): map<string, nat>
  {
    if emojis == [] then freq
    else Bump(CountEmojis(freq, emojis[..|emojis| - 1]), emojis[|emojis| - 1])
  }

  /** A word's count grows by its number of occurrences when it passes the
      filter and not at all otherwise; words that do not pass never become keys. */
  lemma {:induction false} CountWordsSpec(freq: map<string, nat>, words: seq<string>)
    ensures forall w :: Get(CountWords(freq, words), w) == Get(freq, w) + (if Counted(w) then multiset(words)[w] else 0)
    ensures forall w :: w in CountWords(freq, words) <==> w in freq || (Counted(w) && w in words)
  {
    if words != [] {
      var init := words[..|words| - 1];
      var last := words[|words| - 1];
      CountWordsSpec(freq, init);
      assert words == init + [last];
      assert multiset(words) == multiset(init) + multiset{last};
      assert forall w :: w in words <==> w in init || w == last;
    }
  }

  /** An emoji's count grows by its number of occurrences. */
  lemma {:induction false} CountEmojisSpec(freq: map<string, nat>, emojis: seq<string>)
    ensures forall e :: Get(CountEmojis(freq, emojis), e) == Get(freq, e) + multiset(emojis)[e]
    ensures forall e :: e in CountEmojis(freq, emojis) <==> e in freq || e in emojis
  {
    if emojis != [] {
      var init := emojis[..|emojis| - 1];
      var last := emojis[|emojis| - 1];
      CountEmojisSpec(freq, init);
      assert emojis == init + [last];
      assert multiset(emojis) == multiset(init) + multiset{last};
      assert forall e :: e in emojis <==> e in init || e == last;
    }
  }

  /** What the recorder takes from one message: its UTF-16 length, its words
      and its emojis. */
  datatype Tally = Tally(units: nat, words: seq<string>, emojis: seq<string>)

  function TallyOf(message: string): Tally
  {
    Tally(Utf16Length(message), ExtractWords(message), ExtractEmojis(message))
  }

  /** The participant record after one more message: the latest name, one
      more message, the message's length and word count added, the average
      recomputed from the new totals, one more message on `today`. */
  function RecordedUser(u: UserStats, userName: string, t: Tally, now: Timestamp, today: string): (v: UserStats)
    ensures v.name == userName && v.lastActivity == now
    ensures v.messageCount == u.messageCount + 1
    ensures v.characterCount == u.characterCount + t.units
    ensures v.wordCount == u.wordCount + |t.words|
    ensures v.averageMessageLength == Ratio(v.characterCount, v.messageCount)
    ensures Get(v.dayActivity, today) == Get(u.dayActivity, today) + 1
    ensures forall d :: d != today ==> Get(v.dayActivity, d) == Get(u.dayActivity, d)
  {
    var messageCount := u.messageCount + 1;
    var characterCount := u.characterCount + t.units;
    UserStats(userName, messageCount, u.wordCount + |t.words|, characterCount, now,
              Ratio(characterCount, messageCount), Bump(u.dayActivity, today))
  }

  /** One non-command message from `userId`, folded into the group record:
      one more message and its words on the totals, the participant record
      replaced by its recorded form (a new participant counted once), the
      message's hour and day slots bumped, its counted words and its emojis
      tallied. The name and creation time of the group are kept. */
  function RecordInGroup(g: GroupStats, userId: string, userName: string, t: Tally,
                         now: Timestamp, hour: nat, today: string): (r: GroupStats)
    requires hour < |g.messagesByHour|
    ensures |r.messagesByHour| == |g.messagesByHour|
  {
    g.(totalMessages := g.totalMessages + 1,
       totalWords := g.totalWords + |t.words|,
       totalParticipants := if userId in g.users then g.totalParticipants else g.totalParticipants + 1,
       lastActivity := now,
       users := g.users[userId := RecordedUser(PriorUser(g, userId, userName, now), userName, t, now, today)],
       wordFrequency := CountWords(g.wordFrequency, t.words),
       messagesByHour := g.messagesByHour[hour := g.messagesByHour[hour] + 1],
       messagesByDay := Bump(g.messagesByDay, today),
       topEmojis := CountEmojis(g.topEmojis, t.emojis))
  }

  /** What one recording adds to each counter: one more message and the
      message's words on the totals, the activity time set, the name and
      creation time kept, one more participant exactly for a new sender, every
      other participant untouched; the message's hour and day
      slots grow by one and no other slot changes; a word's count grows by its
      occurrences in the message if it passes the filter, and not otherwise;
      an emoji's count grows by its occurrences; a key appears only if it was
      there or the message brought it. */
  lemma RecordInGroupCounts(g: GroupStats, userId: string, userName: string, t: Tally,
                            now: Timestamp, hour: nat, today: string)
    requires hour < |g.messagesByHour|
    ensures var r := RecordInGroup(g, userId, userName, t, now, hour, today);
            && r.totalMessages == g.totalMessages + 1
            && r.totalWords == g.totalWords + |t.words|
            && r.lastActivity == now
            && r.groupName == g.groupName && r.createdAt == g.createdAt
            && r.totalParticipants == g.totalParticipants + (if userId in g.users then 0 else 1)
            && userId in r.users
            && r.users[userId] == RecordedUser(PriorUser(g, userId, userName, now), userName, t, now, today)
            && (forall id :: id in g.users && id != userId ==> id in r.users && r.users[id] == g.users[id])
            && r.messagesByHour[hour] == g.messagesByHour[hour] + 1
            && (forall h :: 0 <= h < |g.messagesByHour| && h != hour ==> r.messagesByHour[h] == g.messagesByHour[h])
            && Get(r.messagesByDay, today) == Get(g.messagesByDay, today) + 1
            && (forall d :: d != today ==> Get(r.messagesByDay, d) == Get(g.messagesByDay, d))
            && (forall w :: Get(r.wordFrequency, w) == Get(g.wordFrequency, w) + (if Counted(w) then multiset(t.words)[w] else 0))
            && (forall w :: w in r.wordFrequency <==> w in g.wordFrequency || (Counted(w) && w in t.words))
            && (forall e :: Get(r.topEmojis, e) == Get(g.topEmojis, e) + multiset(t.emojis)[e])
            && (forall e :: e in r.topEmojis <==> e in g.topEmojis || e in t.emojis)
  {
    CountWordsSpec(g.wordFrequency, t.words);
    CountEmojisSpec(g.topEmojis, t.emojis);
  }

  /** The group a message for `groupId` is folded into. */
  function GroupOrNew(stats: map<string, GroupStats>, groupId: string, groupName: string, now: Timestamp): GroupStats
  {
    if groupId in stats then stats[groupId] else NewGroup(groupName, now)
  }

  /** `recordMessage` on the whole map of groups, without the save call. */
  function Record(stats: map<string, GroupStats>, groupId: string, userId: string, userName: string,
                  message: string, groupName: string, now: Timestamp, hour: nat, today: string): (r: map<string, GroupStats>)
    requires hour < HoursPerDay
    requires groupId in stats ==> |stats[groupId].messagesByHour| == HoursPerDay
    ensures IsCommand(message) ==> r == stats
    ensures !IsCommand(message) ==> r.Keys == stats.Keys + {groupId}
    ensures !IsCommand(message) ==> r[groupId] == RecordInGroup(GroupOrNew(stats, groupId, groupName, now), userId, userName, TallyOf(message), now, hour, today)
    ensures !IsCommand(message) && groupId !in stats ==>
              r[groupId].groupName == groupName && r[groupId].createdAt == now
              && r[groupId].totalMessages == 1 && r[groupId].totalParticipants == 1
    ensures forall id :: id in stats && id != groupId ==> id in r && r[id] == stats[id]
  {
    if IsCommand(message) then stats
    else stats[groupId := RecordInGroup(GroupOrNew(stats, groupId, groupName, now), userId, userName, TallyOf(message), now, hour, today)]
  }

  /** Whether a group's snapshot is due to be written: its total is a multiple of FlushEvery. */
  predicate FlushDue(g: GroupStats)
  {
    g.totalMessages % FlushEvery == 0
  }

  // ---------------------------------------------------------------- sums

  lemma {:induction false} SumUpdate(s: seq<nat>, h: nat, v: nat)
    requires h < |s|
    ensures Sum(s[h := v]) + s[h] == Sum(s) + v
  {
    var n := |s| - 1;
    if h < n {
      SumUpdate(s[..n], h, v);
      assert s[h := v][..n] == s[..n][h := v];
    } else {
      assert s[h := v][..n] == s[..n];
    }
  }

  lemma {:induction false} SumByRemove<K, V>(m: map<K, V>, f: V -> nat, k: K)
    requires k in m
    ensures SumBy(m, f) == f(m[k]) + SumBy(m - {k}, f)
    decreases |m|
  {
    var j :| j in m && SumBy(m, f) == f(m[j]) + SumBy(m - {j}, f);
    if j != k {
      assert (m - {j}).Keys < m.Keys;
      assert |m - {j}| < |m|;
      SumByRemove(m - {j}, f, k);
      SumByRemove(m - {k}, f, j);
      assert m - {j} - {k} == m - {k} - {j};
    }
  }

  lemma SumByUpdate<K, V>(m: map<K, V>, f: V -> nat, k: K, v: V)
    ensures SumBy(m[k := v], f) + (if k in m then f(m[k]) else 0) == SumBy(m, f) + f(v)
  {
    SumByRemove(m[k := v], f, k);
    assert m[k := v] - {k} == m - {k};
    if k in m {
      SumByRemove(m, f, k);
    } else {
      assert m - {k} == m;
    }
  }

  lemma SumByEmpty<K, V>(m: map<K, V>, f: V -> nat)
    requires m == map[]
    ensures SumBy(m, f) == 0
  {
  }

  // ---------------------------------------------------------------- invariants

  /** Recording a message keeps a consistent group consistent: the hour
      histogram, the days and the participants' counts keep adding up to the
      totals, and the participant count keeps equalling the number of user
      keys. Needs only that the tally's words and emojis are well formed,
      which ExtractWords and ExtractEmojis guarantee. */
  lemma RecordPreservesConsistent(g: GroupStats, userId: string, userName: string, t: Tally,
                                  now: Timestamp, hour: nat, today: string)
    requires Consistent(g) && hour < HoursPerDay
    requires forall e :: e in t.emojis ==> |e| == 1 && IsEmoji(e[0])
    ensures Consistent(RecordInGroup(g, userId, userName, t, now, hour, today))
  {
    HoursKept(g, userId, userName, t, now, hour, today);
    DaysKept(g, userId, userName, t, now, hour, today);
    UsersKept(g, userId, userName, t, now, hour, today);
    KeysKept(g, userId, userName, t, now, hour, today);
  }

  lemma HoursKept(g: GroupStats, userId: string, userName: string, t: Tally,
                  now: Timestamp, hour: nat, today: string)
    requires HoursAddUp(g) && hour < HoursPerDay
    ensures HoursAddUp(RecordInGroup(g, userId, userName, t, now, hour, today))
  {
    var hs := g.messagesByHour;
    HoursSumStep(hs, hour);
    assert RecordInGroup(g, userId, userName, t, now, hour, today).messagesByHour == hs[hour := hs[hour] + 1];
  }

  lemma DaysKept(g: GroupStats, userId: string, userName: string, t: Tally,
                 now: Timestamp, hour: nat, today: string)
    requires DaysAddUp(g) && hour < |g.messagesByHour|
    ensures DaysAddUp(RecordInGroup(g, userId, userName, t, now, hour, today))
  {
    DaysSumStep(g.messagesByDay, today);
  }

  lemma UsersKept(g: GroupStats, userId: string, userName: string, t: Tally,
                  now: Timestamp, hour: nat, today: string)
    requires UsersAddUp(g) && hour < |g.messagesByHour|
    ensures UsersAddUp(RecordInGroup(g, userId, userName, t, now, hour, today))
  {
    UsersSumStep(g, userId, userName, t, now, today);
    ParticipantsStep(g, userId, userName, t, now, today);
    UsersConsistentStep(g, userId, userName, t, now, today);
  }

  lemma KeysKept(g: GroupStats, userId: string, userName: string, t: Tally,
                 now: Timestamp, hour: nat, today: string)
    requires KeysWellFormed(g) && hour < |g.messagesByHour|
    requires forall e :: e in t.emojis ==> |e| == 1 && IsEmoji(e[0])
    ensures KeysWellFormed(RecordInGroup(g, userId, userName, t, now, hour, today))
  {
    RecordInGroupCounts(g, userId, userName, t, now, hour, today);
  }

  lemma ParticipantsStep(g: GroupStats, userId: string, userName: string, t: Tally, now: Timestamp, today: string)
    ensures var after := RecordedUser(PriorUser(g, userId, userName, now), userName, t, now, today);
            |g.users[userId := after]| == |g.users| + (if userId in g.users then 0 else 1)
  {
    var after := RecordedUser(PriorUser(g, userId, userName, now), userName, t, now, today);
    if userId !in g.users {
      assert g.users[userId := after].Keys == g.users.Keys + {userId};
    } else {
      assert g.users[userId := after].Keys == g.users.Keys;
    }
  }

  lemma UsersConsistentStep(g: GroupStats, userId: string, userName: string, t: Tally, now: Timestamp, today: string)
    requires forall id :: id in g.users ==> UserConsistent(g.users[id])
    ensures var users := g.users[userId := RecordedUser(PriorUser(g, userId, userName, now), userName, t, now, today)];
            forall id :: id in users ==> UserConsistent(users[id])
  {
    RecordedUserConsistent(g, userId, userName, t, now, today);
  }

  lemma HoursSumStep(hours: seq<nat>, hour: nat)
    requires hour < |hours|
    ensures Sum(hours[hour := hours[hour] + 1]) == Sum(hours) + 1
  {
    SumUpdate(hours, hour, hours[hour] + 1);
  }

  lemma DaysSumStep(days: map<string, nat>, today: string)
    ensures SumBy(Bump(days, today), Count) == SumBy(days, Count) + 1
  {
    SumByUpdate<string, nat>(days, Count, today, Get(days, today) + 1);
  }

  lemma UsersSumStep(g: GroupStats, userId: string, userName: string, t: Tally, now: Timestamp, today: string)
    ensures var after := RecordedUser(PriorUser(g, userId, userName, now), userName, t, now, today);
            && SumBy(g.users[userId := after], MessageCountOf) == SumBy(g.users, MessageCountOf) + 1
            && SumBy(g.users[userId := after], WordCountOf) == SumBy(g.users, WordCountOf) + |t.words|
  {
    var after := RecordedUser(PriorUser(g, userId, userName, now), userName, t, now, today);
    SumByUpdate(g.users, MessageCountOf, userId, after);
    SumByUpdate(g.users, WordCountOf, userId, after);
  }

  lemma RecordedUserConsistent(g: GroupStats, userId: string, userName: string, t: Tally, now: Timestamp, today: string)
    requires userId in g.users ==> UserConsistent(g.users[userId])
    ensures UserConsistent(RecordedUser(PriorUser(g, userId, userName, now), userName, t, now, today))
  {
    var before := PriorUser(g, userId, userName, now);
    DaysSumStep(before.dayActivity, today);
    if userId !in g.users {
      SumByEmpty(before.dayActivity, Count);
    }
  }

  /** Every group of the map is consistent. */
  ghost predicate AllConsistent(stats: map<string, GroupStats>)
  {
    forall id :: id in stats ==> Consistent(stats[id])
  }

  /** Every group of a map of consistent groups stays consistent after
      recording, and a consistent group has the 24 hour slots recording needs. */
  lemma RecordKeepsAllConsistent(stats: map<string, GroupStats>, groupId: string, userId: string,
                                 userName: string, message: string, groupName: string,
                                 now: Timestamp, hour: nat, today: string)
    requires hour < HoursPerDay && AllConsistent(stats)
    ensures groupId in stats ==> |stats[groupId].messagesByHour| == HoursPerDay
    ensures AllConsistent(Record(stats, groupId, userId, userName, message, groupName, now, hour, today))
  {
    assert groupId in stats ==> HoursAddUp(stats[groupId]);
    var r := Record(stats, groupId, userId, userName, message, groupName, now, hour, today);
    forall id | id in r
      ensures Consistent(r[id])
    {
      if IsCommand(message) || id != groupId {
        assert r[id] == stats[id];
      } else {
        if groupId !in stats {
          NewGroupConsistent(groupName, now);
        }
        RecordPreservesConsistent(GroupOrNew(stats, groupId, groupName, now), userId, userName, TallyOf(message), now, hour, today);
      }
    }
  }
}
