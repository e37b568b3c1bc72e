/**
  The data behind the five report queries of the statistics manager: which
  participants, words, hours, days and emojis each report lists, the most
  active hour, a participant's rank and daily average, and the ranking
  shares. The text layout of the replies is not modelled.
*/
module Reports {
  import opened StatsModel
  import opened Ranking
  import opened Wrappers

  /** A report query answers with a fixed sentinel text or with report data. */
  datatype Reply<T> = Sentinel(text: string) | Data(report: T)

  const NoStatsForGroup: string := "❌ Nenhuma estatística disponível para este grupo."
  const NoStats: string := "❌ Nenhuma estatística disponível."
  const UserNotFound: string := "❌ Usuário não encontrado nas estatísticas."

  /** Sort keys: participants by message count, counters by their count. */
  function ByMessages(e: (string, UserStats)): int { e.1.messageCount }
  function ByCount(e: (string, nat)): int { e.1 }

  // ---------------------------------------------------------------- general

  datatype GeneralReport = GeneralReport(
    groupName: string,
    participants: nat,
    totalMessages: nat,
    totalWords: nat,
    createdAt: Timestamp,
    lastActivity: Timestamp,
    topUsers: seq<(string, UserStats)>,
    topWords: seq<(string, nat)>,
    mostActiveHour: int)

  /** `i` is the first index of a maximum of `s`, or -1 when `s` is empty. */
  ghost predicate IsFirstMax(i: int, s: seq<nat>)
  {
    && (s == [] ==> i == -1)
    && (s != [] ==> 0 <= i < |s|
                    && (forall j :: 0 <= j < |s| ==> s[j] <= s[i])
                    && (forall j :: 0 <= j < i ==> s[j] < s[i]))
  }

  /** The general report of `g`: its counters as stored, the five most active
      participants, the ten most frequent words and the first busiest hour. */
  ghost predicate IsGeneralReport(r: GeneralReport, g: GroupStats)
  {
    && r.groupName == g.groupName
    && r.participants == g.totalParticipants
    && r.totalMessages == g.totalMessages
    && r.totalWords == g.totalWords
    && r.createdAt == g.createdAt
    && r.lastActivity == g.lastActivity
    && IsTopOfMap(r.topUsers, g.users, ByMessages, 5)
    && IsTopOfMap(r.topWords, g.wordFrequency, ByCount, 10)
    && IsFirstMax(r.mostActiveHour, g.messagesByHour)
  }

  ghost function General(g: GroupStats): (r: GeneralReport)
    ensures IsGeneralReport(r, g)
  {
    GeneralReport(g.groupName, g.totalParticipants, g.totalMessages, g.totalWords, g.createdAt,
                  g.lastActivity, TopOfMap(g.users, ByMessages, 5),
                  TopOfMap(g.wordFrequency, ByCount, 10), FirstMaxIndex(g.messagesByHour))
  }

  /** With 24 hour slots the most active hour is an hour of the day with the
      largest count. */
  lemma GeneralHourOfDay(g: GroupStats)
    requires HoursAddUp(g)
    ensures 0 <= General(g).mostActiveHour < HoursPerDay
    ensures forall h :: 0 <= h < HoursPerDay ==> g.messagesByHour[h] <= g.messagesByHour[General(g).mostActiveHour]
  {
    var r := General(g);
    assert g.messagesByHour != [];
    assert IsFirstMax(r.mostActiveHour, g.messagesByHour);
  }

  /** The general report lists only words that pass the filter. */
  lemma GeneralWordsCounted(g: GroupStats)
    requires KeysWellFormed(g)
    ensures forall i :: 0 <= i < |General(g).topWords| ==> Extract.Counted(General(g).topWords[i].0)
  {
    var r := General(g);
    forall i | 0 <= i < |r.topWords| ensures Extract.Counted(r.topWords[i].0) {
      assert r.topWords[i].0 in g.wordFrequency;
    }
  }

  // ---------------------------------------------------------------- user

  /** The participants ordered by message count, as the user report sorts them. */
  ghost function Standing(users: map<string, UserStats>): (order: seq<(string, UserStats)>)
    ensures SortedDesc(order, ByMessages)
    ensures IsEntries(order, users)
  {
    var es := Entries(users);
    var order := SortDesc(es, ByMessages);
    EntriesDistinct(users);
    EntriesPermutation(es, order, users);
    order
  }

  /** `findIndex(([id]) => id === userId)`: the first position holding `userId`, or -1. */
  function FindId<V>(order: seq<(string, V)>, userId: string): (i: int)
    ensures -1 <= i < |order|
    ensures i == -1 <==> forall k :: 0 <= k < |order| ==> order[k].0 != userId
    ensures i >= 0 ==> order[i].0 == userId && forall k :: 0 <= k < i ==> order[k].0 != userId
  {
    if order == [] then -1
    else if order[0].0 == userId then 0
    else
      var i := FindId(order[1..], userId);
      assert forall k :: 1 <= k < |order| ==> order[k] == order[1..][k - 1];
      if i == -1 then -1 else i + 1
  }

  /** The 1-based place of a known participant in the standing: everyone
      ahead has at least as many messages, everyone behind at most as many. */
  ghost function Rank(users: map<string, UserStats>, userId: string): (rank: int)
    requires userId in users
    ensures 1 <= rank <= |users|
    ensures Standing(users)[rank - 1] == (userId, users[userId])
    ensures forall i :: 0 <= i < rank - 1 ==> Standing(users)[i].1.messageCount >= users[userId].messageCount
    ensures forall i :: rank - 1 < i < |users| ==> Standing(users)[i].1.messageCount <= users[userId].messageCount
  {
    var order := Standing(users);
    assert (userId, users[userId]) in order;
    FindId(order, userId) + 1
  }

  /** A participant with strictly more messages is ranked strictly ahead. */
  lemma MoreMessagesRankAhead(users: map<string, UserStats>, a: string, b: string)
    requires a in users && b in users
    requires users[a].messageCount > users[b].messageCount
    ensures Rank(users, a) < Rank(users, b)
  {
    var ra := Rank(users, a);
    assert Standing(users)[ra - 1].1.messageCount > users[b].messageCount;
  }

  /** The average number of messages per active day; 0 for no active day. */
  function AveragePerDay(u: UserStats): (avg: real)
    ensures |u.dayActivity| == 0 ==> avg == 0.0
    ensures |u.dayActivity| > 0 ==> avg * |u.dayActivity| as real == u.messageCount as real
  {
    if |u.dayActivity| > 0 then u.messageCount as real / |u.dayActivity| as real else 0.0
  }

  datatype UserReport = UserReport(
    name: string,
    rank: int,
    messageCount: nat,
    wordCount: nat,
    averageMessageLength: real,
    averagePerDay: real,
    lastActivity: Timestamp,
    activeDays: nat)

  ghost function User(g: GroupStats, userId: string): (r: UserReport)
    requires userId in g.users
    ensures r.rank == Rank(g.users, userId) && 1 <= r.rank <= |g.users|
    ensures var u := g.users[userId];
            && r.name == u.name && r.messageCount == u.messageCount && r.wordCount == u.wordCount
            && r.averageMessageLength == u.averageMessageLength && r.lastActivity == u.lastActivity
            && r.activeDays == |u.dayActivity| && r.averagePerDay == AveragePerDay(u)
  {
    var u := g.users[userId];
    UserReport(u.name, Rank(g.users, userId), u.messageCount, u.wordCount, u.averageMessageLength,
               AveragePerDay(u), u.lastActivity, |u.dayActivity|)
  }

  // ---------------------------------------------------------------- ranking

  /** `(messageCount / totalMessages) * 100`, with None for a zero total:
      NaN for 0/0 in the source, and Infinity for a positive count, which a
      consistent group never reaches since its total is the sum of the counts. */
  function Share(count: nat, total: nat): (s: Option<real>)
    ensures total == 0 <==> s == None
    ensures total > 0 ==> s.value * total as real == count as real * 100.0
    ensures total > 0 && count <= total ==> 0.0 <= s.value <= 100.0
    ensures total > 0 && count > 0 ==> s.value > 0.0
  {
    if total == 0 then None
    else
      var v := count as real / total as real * 100.0;
      ShareBounds(count, total, v);
      Some(v)
  }

  lemma ShareBounds(count: nat, total: nat, v: real)
    requires total > 0 && v == count as real / total as real * 100.0
    ensures v * total as real == count as real * 100.0
    ensures count <= total ==> 0.0 <= v <= 100.0
    ensures count > 0 ==> v > 0.0
  {
    var q := count as real / total as real;
    assert q * total as real == count as real;
    assert q >= 0.0;
    if count <= total {
      assert q <= 1.0;
    }
  }

  /** The ten most active participants and, position by position, their shares. */
  datatype RankingReport = RankingReport(top: seq<(string, UserStats)>, shares: seq<Option<real>>)

  ghost function RankingOf(g: GroupStats): (r: RankingReport)
    ensures IsTopOfMap(r.top, g.users, ByMessages, 10)
    ensures |r.shares| == |r.top|
    ensures forall i :: 0 <= i < |r.top| ==> r.shares[i] == Share(r.top[i].1.messageCount, g.totalMessages)
  {
    var top := TopOfMap(g.users, ByMessages, 10);
    RankingReport(top, Shares(top, g.totalMessages))
  }

  /** Each listed participant's share of `total`, position by position. */
  function Shares(top: seq<(string, UserStats)>, total: nat): (shares: seq<Option<real>>)
    ensures |shares| == |top|
    ensures forall i :: 0 <= i < |top| ==> shares[i] == Share(top[i].1.messageCount, total)
  {
    seq(|top|, i requires 0 <= i < |top| => Share(top[i].1.messageCount, total))
  }

  /** With participants that add up to the total, every listed share is
      defined, positive and at most 100. */
  lemma RankingSharesBounded(g: GroupStats)
    requires UsersAddUp(g)
    ensures forall i :: 0 <= i < |RankingOf(g).shares| ==>
              RankingOf(g).shares[i].Some? && 0.0 < RankingOf(g).shares[i].value <= 100.0
  {
    var r := RankingOf(g);
    forall i | 0 <= i < |r.shares| ensures r.shares[i].Some? && 0.0 < r.shares[i].value <= 100.0 {
      var (id, u) := r.top[i];
      assert id in g.users && u == g.users[id];
      SumByRemove(g.users, MessageCountOf, id);
      assert 1 <= u.messageCount <= g.totalMessages;
    }
  }

  // ---------------------------------------------------------------- activity

  /** The hour histogram as (hour, count) pairs in hour order (`map((count, hour) => ...)`). */
  function HourSlots(hours: seq<nat>): (slots: seq<(nat, nat)>)
    ensures |slots| == |hours|
    ensures forall h :: 0 <= h < |hours| ==> slots[h] == (h, hours[h])
  {
    seq(|hours|, h requires 0 <= h < |hours| => (h, hours[h]))
  }

  function BySlotCount(slot: (nat, nat)): int { slot.1 }

  predicate IsDigit(c: char) { '0' <= c <= '9' }

  /** A `YYYY-MM-DD` day key. */
  predicate IsIsoDate(d: string)
  {
    |d| == 10 && d[4] == '-' && d[7] == '-'
    && forall i :: 0 <= i < 10 && i != 4 && i != 7 ==> IsDigit(d[i])
  }

  function DigitValue(c: char): nat
    requires IsDigit(c)
  {
    c as int - '0' as int
  }

  /** The value of a string of decimal digits. */
  function Digits(s: string): nat
    requires forall i :: 0 <= i < |s| ==> IsDigit(s[i])
  {
    if s == [] then 0 else Digits(s[..|s| - 1]) * 10 + DigitValue(s[|s| - 1])
  }

  /** A day's position in time: `YYYYMMDD` as a number, which orders the keys
      of real days as `new Date(key).getTime()` does. Not a day key: 0. */
  function DateKey(d: string): (k: nat)
    ensures IsIsoDate(d) ==> k == Digits(d[..4] + d[5..7] + d[8..])
  {
    if IsIsoDate(d) then Digits(d[..4] + d[5..7] + d[8..]) else 0
  }

  function ByDate(e: (string, nat)): int { DateKey(e.0) }

  /** `a` comes before `b` in dictionary order: at their first differing
      position `a` has the smaller character. */
  predicate LexLess(a: string, b: string)
    decreases |a|
  {
    |a| > 0 && |b| > 0 && (a[0] < b[0] || (a[0] == b[0] && LexLess(a[1..], b[1..])))
  }

  function Pow10(n: nat): (p: nat)
    ensures p >= 1
  {
    if n == 0 then 1 else 10 * Pow10(n - 1)
  }

  /** A string of `n` digits is worth less than 10^n. */
  lemma {:induction false} DigitsBound(s: string)
    requires forall i :: 0 <= i < |s| ==> IsDigit(s[i])
    ensures Digits(s) < Pow10(|s|)
  {
    if s != [] {
      DigitsBound(s[..|s| - 1]);
    }
  }

  /** Reading the digits from the front: the first weighs 10^(n-1). */
  lemma {:induction false} DigitsFront(s: string)
    requires |s| > 0 && forall i :: 0 <= i < |s| ==> IsDigit(s[i])
    ensures Digits(s) == DigitValue(s[0]) * Pow10(|s| - 1) + Digits(s[1..])
  {
    if |s| == 1 {
      assert s[..0] == [] && s[1..] == [];
    } else {
      var init := s[..|s| - 1];
      DigitsFront(init);
      assert init[0] == s[0];
      assert s[1..][..|s[1..]| - 1] == init[1..];
      assert s[1..][|s[1..]| - 1] == s[|s| - 1];
      ShiftDigit(DigitValue(s[0]), Pow10(|s| - 2), Digits(init[1..]), DigitValue(s[|s| - 1]));
    }
  }

  lemma ShiftDigit(d: nat, q: nat, t: nat, last: nat)
    ensures (d * q + t) * 10 + last == d * (10 * q) + (t * 10 + last)
  {
  }

  /** A smaller leading digit decides, whatever follows it. */
  lemma LeadingDigitDecides(dx: nat, dy: nat, p: nat, tx: nat, ty: nat)
    requires dx < dy && tx < p
    ensures dx * p + tx < dy * p + ty
  {
    MulMono(dx + 1, dy, p);
    assert (dx + 1) * p == dx * p + p;
  }

  lemma MulMono(a: nat, b: nat, c: nat)
    requires a <= b
    ensures a * c <= b * c
  {
  }

  /** Among digit strings of one length, value order is dictionary order,
      and equal values mean equal strings. */
  lemma {:induction false} DigitsOrder(x: string, y: string)
    requires |x| == |y|
    requires forall i :: 0 <= i < |x| ==> IsDigit(x[i])
    requires forall i :: 0 <= i < |y| ==> IsDigit(y[i])
    ensures Digits(x) < Digits(y) <==> LexLess(x, y)
    ensures Digits(x) == Digits(y) ==> x == y
    decreases |x|
  {
    if x != [] {
      DigitsFront(x);
      DigitsFront(y);
      DigitsBound(x[1..]);
      DigitsBound(y[1..]);
      DigitsOrder(x[1..], y[1..]);
      var p := Pow10(|x| - 1);
      var dx, dy := DigitValue(x[0]), DigitValue(y[0]);
      if dx < dy {
        LeadingDigitDecides(dx, dy, p, Digits(x[1..]), Digits(y[1..]));
      } else if dy < dx {
        LeadingDigitDecides(dy, dx, p, Digits(y[1..]), Digits(x[1..]));
      } else {
        assert x[0] == y[0];
        assert x == [x[0]] + x[1..] && y == [y[0]] + y[1..];
      }
    }
  }

  /** Dictionary order over two pieces of which the first pair have one length. */
  lemma {:induction false} LexLessAppend(a1: string, a2: string, b1: string, b2: string)
    requires |a1| == |b1|
    ensures LexLess(a1 + a2, b1 + b2) <==> LexLess(a1, b1) || (a1 == b1 && LexLess(a2, b2))
    decreases |a1|
  {
    if a1 == [] {
      assert a1 + a2 == a2 && b1 + b2 == b2;
    } else {
      assert (a1 + a2)[1..] == a1[1..] + a2 && (b1 + b2)[1..] == b1[1..] + b2;
      LexLessAppend(a1[1..], a2, b1[1..], b2);
      assert a1 == [a1[0]] + a1[1..] && b1 == [b1[0]] + b1[1..];
    }
  }

  /** A character both sides share at one position plays no part in the order. */
  lemma LexLessSkip(p1: string, c: char, r1: string, p2: string, r2: string)
    requires |p1| == |p2|
    ensures LexLess(p1 + ([c] + r1), p2 + ([c] + r2)) <==> LexLess(p1 + r1, p2 + r2)
  {
    LexLessAppend(p1, [c] + r1, p2, [c] + r2);
    LexLessAppend([c], r1, [c], r2);
    LexLessAppend(p1, r1, p2, r2);
    assert [c] + r1 == [c] + r2 <==> r1 == r2 by {
      if [c] + r1 == [c] + r2 {
        assert r1 == ([c] + r1)[1..] && r2 == ([c] + r2)[1..];
      }
    }
  }

  /** An ISO day key is its digits with the two dashes put back. */
  lemma IsoPieces(d: string)
    requires IsIsoDate(d)
    ensures d == d[..7] + ([d[7]] + d[8..])
    ensures d[..7] == d[..4] + ([d[4]] + d[5..7])
    ensures forall i :: 0 <= i < |d[..4] + d[5..7] + d[8..]| ==> IsDigit((d[..4] + d[5..7] + d[8..])[i])
  {
  }

  /** Two day keys agree up to the month exactly when their year and month digits do. */
  lemma IsoMonthsEqual(a: string, b: string)
    requires IsIsoDate(a) && IsIsoDate(b)
    ensures a[..7] == b[..7] <==> a[..4] + a[5..7] == b[..4] + b[5..7]
  {
    if a[..4] + a[5..7] == b[..4] + b[5..7] {
      assert a[..4] == (a[..4] + a[5..7])[..4] && b[..4] == (b[..4] + b[5..7])[..4];
      assert a[5..7] == (a[..4] + a[5..7])[4..] && b[5..7] == (b[..4] + b[5..7])[4..];
      assert a[..7] == a[..4] + [a[4]] + a[5..7] && b[..7] == b[..4] + [b[4]] + b[5..7];
    }
  }

  /** The key orders ISO day keys as dictionary order does, which for
      `YYYY-MM-DD` is calendar order, the order of `new Date(key).getTime()`. */
  lemma DateKeyOrder(a: string, b: string)
    requires IsIsoDate(a) && IsIsoDate(b)
    ensures DateKey(a) < DateKey(b) <==> LexLess(a, b)
  {
    IsoPieces(a);
    IsoPieces(b);
    DigitsOrder(a[..4] + a[5..7] + a[8..], b[..4] + b[5..7] + b[8..]);
    LexLessSkip(a[..7], '-', a[8..], b[..7], b[8..]);
    LexLessAppend(a[..7], a[8..], b[..7], b[8..]);
    LexLessSkip(a[..4], '-', a[5..7], b[..4], b[5..7]);
    IsoMonthsEqual(a, b);
    LexLessAppend(a[..4] + a[5..7], a[8..], b[..4] + b[5..7], b[8..]);
  }

  /** Distinct ISO day keys get distinct keys. */
  lemma DateKeyDistinct(a: string, b: string)
    requires IsIsoDate(a) && IsIsoDate(b) && DateKey(a) == DateKey(b)
    ensures a == b
  {
    IsoPieces(a);
    IsoPieces(b);
    var ka, kb := a[..4] + a[5..7] + a[8..], b[..4] + b[5..7] + b[8..];
    DigitsOrder(ka, kb);
    assert a[..4] == ka[..4] == kb[..4] == b[..4];
    assert a[5..7] == ka[4..6] == kb[4..6] == b[5..7];
    assert a[8..] == ka[6..] == kb[6..] == b[8..];
    assert a == a[..4] + [a[4]] + a[5..7] + [a[7]] + a[8..];
    assert b == b[..4] + [b[4]] + b[5..7] + [b[7]] + b[8..];
  }

  datatype ActivityReport = ActivityReport(
    hours: seq<(nat, nat)>,
    days: seq<(string, nat)>,
    emojis: seq<(string, nat)>)

  /** The five busiest hours, the seven latest days and the eight most used emojis. */
  ghost predicate IsActivityReport(r: ActivityReport, g: GroupStats)
  {
    && IsTop(r.hours, HourSlots(g.messagesByHour), BySlotCount, 5)
    && IsTopOfMap(r.days, g.messagesByDay, ByDate, 7)
    && IsTopOfMap(r.emojis, g.topEmojis, ByCount, 8)
  }

  ghost function Activity(g: GroupStats): (r: ActivityReport)
    ensures IsActivityReport(r, g)
  {
    ActivityReport(TopN(HourSlots(g.messagesByHour), BySlotCount, 5),
                   TopOfMap(g.messagesByDay, ByDate, 7),
                   TopOfMap(g.topEmojis, ByCount, 8))
  }

  /** With `YYYY-MM-DD` day keys, as the recorder writes them, the report
      lists its days newest first, and every day it leaves out is older than
      every day it lists. */
  lemma ActivityLatestDays(g: GroupStats)
    requires forall d :: d in g.messagesByDay ==> IsIsoDate(d)
    ensures forall i, j :: 0 <= i < j < |Activity(g).days| ==> LexLess(Activity(g).days[j].0, Activity(g).days[i].0)
    ensures forall d, i :: d in g.messagesByDay && (d, g.messagesByDay[d]) !in Activity(g).days && 0 <= i < |Activity(g).days| ==>
              LexLess(d, Activity(g).days[i].0)
  {
    LatestDays(Activity(g).days, g.messagesByDay, 7);
  }

  /** A top-n choice of days by `ByDate` over ISO day keys is newest first
      and newer than every day left out. */
  lemma LatestDays(days: seq<(string, nat)>, m: map<string, nat>, n: nat)
    requires forall d :: d in m ==> IsIsoDate(d)
    requires IsTopOfMap(days, m, ByDate, n)
    ensures forall i, j :: 0 <= i < j < |days| ==> LexLess(days[j].0, days[i].0)
    ensures forall d, i :: d in m && (d, m[d]) !in days && 0 <= i < |days| ==> LexLess(d, days[i].0)
  {
    forall i, j | 0 <= i < j < |days| ensures LexLess(days[j].0, days[i].0) {
      NewerKey(days[j].0, days[i].0);
    }
    forall d, i | d in m && (d, m[d]) !in days && 0 <= i < |days|
      ensures LexLess(d, days[i].0)
    {
      assert d != days[i].0;
      NewerKey(d, days[i].0);
    }
  }

  /** Of two different ISO day keys, the one with the smaller or equal key comes first. */
  lemma NewerKey(a: string, b: string)
    requires IsIsoDate(a) && IsIsoDate(b) && a != b && DateKey(a) <= DateKey(b)
    ensures LexLess(a, b)
  {
    if DateKey(a) == DateKey(b) {
      DateKeyDistinct(a, b);
    }
    DateKeyOrder(a, b);
  }

  /** With 24 hour slots the report lists five distinct hours of the day,
      each with its own count. */
  lemma ActivityHoursOfDay(g: GroupStats)
    requires HoursAddUp(g)
    ensures |Activity(g).hours| == 5
    ensures forall i :: 0 <= i < 5 ==>
              Activity(g).hours[i].0 < HoursPerDay && Activity(g).hours[i].1 == g.messagesByHour[Activity(g).hours[i].0]
    ensures forall i, j :: 0 <= i < j < 5 ==> Activity(g).hours[i].0 != Activity(g).hours[j].0
  {
    TopHours(g.messagesByHour, Activity(g).hours);
  }

  lemma TopHours(hours: seq<nat>, top: seq<(nat, nat)>)
    requires |hours| == HoursPerDay && IsTop(top, HourSlots(hours), BySlotCount, 5)
    ensures |top| == 5
    ensures forall i :: 0 <= i < 5 ==> top[i].0 < HoursPerDay && top[i].1 == hours[top[i].0]
    ensures forall i, j :: 0 <= i < j < 5 ==> top[i].0 != top[j].0
  {
    var slots := HourSlots(hours);
    assert |top| == 5;
    forall i | 0 <= i < 5 ensures top[i].0 < HoursPerDay && top[i].1 == hours[top[i].0] {
      assert top[i] in multiset(top);
    }
    HourSlotsDistinct(hours);
    assert Distinct(top);
  }

  lemma HourSlotsDistinct(hours: seq<nat>)
    ensures Distinct(HourSlots(hours))
  {
    var slots := HourSlots(hours);
    forall i, j | 0 <= i < j < |slots| ensures slots[i] != slots[j] {
      assert slots[i].0 == i && slots[j].0 == j;
    }
  }

  /** The activity report lists only emoji characters. */
  lemma ActivityEmojis(g: GroupStats)
    requires KeysWellFormed(g)
    ensures forall i :: 0 <= i < |Activity(g).emojis| ==>
              |Activity(g).emojis[i].0| == 1 && Extract.IsEmoji(Activity(g).emojis[i].0[0])
  {
    var r := Activity(g);
    forall i | 0 <= i < |r.emojis| ensures |r.emojis[i].0| == 1 && Extract.IsEmoji(r.emojis[i].0[0]) {
      assert r.emojis[i].0 in g.topEmojis;
    }
  }

  // ---------------------------------------------------------------- words

  datatype WordReport = WordReport(topWords: seq<(string, nat)>, uniqueWords: nat)

  /** The twenty most frequent words and the number of distinct counted words. */
  ghost function Words(g: GroupStats): (r: WordReport)
    ensures IsTopOfMap(r.topWords, g.wordFrequency, ByCount, 20)
    ensures r.uniqueWords == |g.wordFrequency|
  {
    WordReport(TopOfMap(g.wordFrequency, ByCount, 20), |g.wordFrequency|)
  }

  /** In a consistent group the word report lists only words that pass the
      stop-word filter, each with its recorded count. */
  lemma WordsOfConsistent(g: GroupStats)
    requires KeysWellFormed(g)
    ensures forall i :: 0 <= i < |Words(g).topWords| ==>
              Extract.Counted(Words(g).topWords[i].0)
              && Words(g).topWords[i].1 == g.wordFrequency[Words(g).topWords[i].0]
  {
    var r := Words(g);
    forall i | 0 <= i < |r.topWords|
      ensures Extract.Counted(r.topWords[i].0) && r.topWords[i].1 == g.wordFrequency[r.topWords[i].0]
    {
      assert r.topWords[i].0 in g.wordFrequency;
    }
  }
}
