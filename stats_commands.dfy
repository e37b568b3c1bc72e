/**
  The `/stats` command router: from the command text, the chat id and the
  message author to the reply the bot sends. Sending the reply is not
  modelled; the router names the report to send.
*/
module StatsCommands {
  import opened Wrappers
  import opened Text

  /** Chat ids of groups end with this suffix. */
  const GroupSuffix: string := "@g.us"

  /** Reply to a `/stats` command outside a group. */
  const GroupsOnlyText: string := "📊 Este comando só funciona em grupos!"

  /** What the bot answers with: the groups-only notice, one of the five
      reports of a group, or the help text listing the sub-commands. */
  datatype Action =
    | GroupsOnly
    | GeneralOf(group: string)
    | RankingOf(group: string)
    | ActivityOf(group: string)
    | WordsOf(group: string)
    | UserOf(group: string, user: string)
    | Help

  /** `command.split(' ')[1]?.toLowerCase()`: the second space-separated
      part, lower-cased, or absent when there is no space at all. */
  function SubCommand(command: string): (r: Option<string>)
    ensures r.None? <==> ' ' !in command
    ensures r.Some? ==> ' ' !in r.value
  {
    var parts := SplitOn(command, ' ');
    NoSpaceOnePart(command);
    if |parts| < 2 then None else Some(Lower(parts[1]))
  }

  /** A text splits into one part exactly when it holds no space. */
  lemma {:induction false} NoSpaceOnePart(s: string)
    ensures |SplitOn(s, ' ')| == 1 <==> ' ' !in s
  {
    if s != [] {
      NoSpaceOnePart(s[1..]);
      assert s == [s[0]] + s[1..];
    }
  }

  /** `msg.author || msg.from`: an absent or empty author falls back to the chat. */
  function Sender(from: string, author: Option<string>): (r: string)
    ensures author.Some? && author.value != "" ==> r == author.value
    ensures author.None? || author.value == "" ==> r == from
  {
    if author.Some? && author.value != "" then author.value else from
  }

  /** `handleStatsCommand`: outside a group only the notice; inside one, the
      sub-command picks the report, always about the chat it came from. */
  function Route(command: string, from: string, author: Option<string>): (a: Action)
    ensures a == GroupsOnly <==> !EndsWith(from, GroupSuffix)
    ensures a.GeneralOf? || a.RankingOf? || a.ActivityOf? || a.WordsOf? || a.UserOf? ==> a.group == from
    ensures a.UserOf? ==> a.user == Sender(from, author)
    ensures EndsWith(from, GroupSuffix) && ' ' !in command ==> a == GeneralOf(from)
  {
    if !EndsWith(from, GroupSuffix) then GroupsOnly
    else
      match SubCommand(command)
      case None => GeneralOf(from)
      case Some(sub) =>
        if sub == "geral" then GeneralOf(from)
        else if sub == "ranking" then RankingOf(from)
        else if sub == "atividade" then ActivityOf(from)
        else if sub == "palavras" then WordsOf(from)
        else if sub == "meu" then UserOf(from, Sender(from, author))
        else Help
  }

  /** Sub-commands are matched without regard to case: lower-casing the
      whole command changes nothing. */
  lemma RouteIgnoresCase(command: string, from: string, author: Option<string>)
    ensures Route(Lower(command), from, author) == Route(command, from, author)
  {
    SplitOnLower(command);
    var parts := SplitOn(command, ' ');
    if |parts| >= 2 {
      LowerIdempotent(parts[1]);
    }
  }

  /** The second part decides: the bare command or `geral` give the general
      report, each report name its report, `meu` the sender's own figures,
      and any other part, the empty one included, the help text. */
  lemma RouteBySecondPart(command: string, from: string, author: Option<string>)
    requires EndsWith(from, GroupSuffix) && |SplitOn(command, ' ')| >= 2
    ensures var sub := Lower(SplitOn(command, ' ')[1]);
      && (sub == "geral" ==> Route(command, from, author) == GeneralOf(from))
      && (sub == "ranking" ==> Route(command, from, author) == RankingOf(from))
      && (sub == "atividade" ==> Route(command, from, author) == ActivityOf(from))
      && (sub == "palavras" ==> Route(command, from, author) == WordsOf(from))
      && (sub == "meu" ==> Route(command, from, author) == UserOf(from, Sender(from, author)))
      && (sub !in {"geral", "ranking", "atividade", "palavras", "meu"} ==> Route(command, from, author) == Help)
  {
  }

  /** A trailing space leaves an empty second part, which asks for help. */
  lemma TrailingSpaceAsksForHelp(from: string, author: Option<string>)
    requires EndsWith(from, GroupSuffix)
    ensures Route("/stats ", from, author) == Help
    ensures Route("/stats", from, author) == GeneralOf(from)
  {
    assert SplitOn("/stats ", ' ')[1] == "";
  }
}
