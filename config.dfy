/** The bot's configuration record and the values it ships with. */
module Config {
  /** Message length limit (UTF-16 units), rate-limit window (milliseconds)
      and cap (commands per window), chat allowlist and user blocklist. */
  datatype BotConfig = BotConfig(
    maxMessageLength: nat,
    rateLimitWindow: int,
    rateLimitMax: int,
    allowedChats: seq<string>,
    blockedUsers: seq<string>)

  /** The shipped configuration: 4000 units, 5 commands a minute, an empty
      allowlist (every chat allowed) and nobody blocked. */
  const Default: BotConfig := BotConfig(4000, 60000, 5, [], [])
}
