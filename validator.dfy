/**
  The incoming-message validator: three checks in a fixed order against
  the bot's configuration.
*/
module Validator {
  import opened Wrappers
  import opened Text
  import opened Config

  /** `{ isValid, error? }`. */
  datatype Validation = Validation(isValid: bool, error: Option<string>)

  const BlockedUser: string := "Usuário bloqueado."
  const ChatNotAllowed: string := "Chat não autorizado."
  const TooLong: string := "Mensagem muito longa."

  /** `validateMessage`: a blocked sender first, then a chat outside a
      non-empty allowlist, then a body longer than the limit (in UTF-16
      units); a message that passes all three is valid and carries no error. */
  function ValidateMessage(body: string, fromUser: string, fromChat: string, config: BotConfig): (v: Validation)
    ensures v.isValid <==> v.error.None?
    ensures v.isValid <==>
              && fromUser !in config.blockedUsers
              && (|config.allowedChats| == 0 || fromChat in config.allowedChats)
              && Utf16Length(body) <= config.maxMessageLength
    ensures fromUser in config.blockedUsers ==> v.error == Some(BlockedUser)
    ensures fromUser !in config.blockedUsers && |config.allowedChats| > 0 && fromChat !in config.allowedChats ==>
              v.error == Some(ChatNotAllowed)
    ensures v.error == Some(TooLong) <==>
              && fromUser !in config.blockedUsers
              && (|config.allowedChats| == 0 || fromChat in config.allowedChats)
              && Utf16Length(body) > config.maxMessageLength
  {
    if fromUser in config.blockedUsers then Validation(false, Some(BlockedUser))
    else if |config.allowedChats| > 0 && fromChat !in config.allowedChats then Validation(false, Some(ChatNotAllowed))
    else if Utf16Length(body) > config.maxMessageLength then Validation(false, Some(TooLong))
    else Validation(true, None)
  }

  /** An empty allowlist never refuses a chat: the chat then plays no part
      in the answer. */
  lemma EmptyAllowlistAdmitsEveryChat(body: string, fromUser: string, chat1: string, chat2: string, config: BotConfig)
    requires config.allowedChats == []
    ensures ValidateMessage(body, fromUser, chat1, config) == ValidateMessage(body, fromUser, chat2, config)
    ensures ValidateMessage(body, fromUser, chat1, config).error != Some(ChatNotAllowed)
  {
  }

  /** A blocked sender is refused as such whatever the chat and the body. */
  lemma BlockedComesFirst(body1: string, body2: string, fromUser: string, chat1: string, chat2: string, config: BotConfig)
    requires fromUser in config.blockedUsers
    ensures ValidateMessage(body1, fromUser, chat1, config) == ValidateMessage(body2, fromUser, chat2, config)
  {
  }

  /** Under the shipped configuration only the length matters, and a body
      of exactly 4000 units still passes. */
  lemma DefaultConfigLimitsLengthOnly(body: string, fromUser: string, fromChat: string)
    ensures ValidateMessage(body, fromUser, fromChat, Default).isValid <==> Utf16Length(body) <= 4000
  {
  }
}
