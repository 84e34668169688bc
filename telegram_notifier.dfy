/**
 * The Telegram notification gate (telegram_notifier.py).
 *
 * The background send itself (urllib, its 10-second timeout, the logging of
 * a failure) is outside the model; `SendAsync` records the request that the
 * started thread makes, with the URL the source builds.
 */
module Telegram {
  import opened Text

  const ApiPrefix: string := "https://api.telegram.org/bot"
  const SendMessageSuffix: string := "/sendMessage"

  /**
   * The request URL of `_send`, plain concatenation around the token: the
   * token sits between the fixed prefix and suffix and can be read back.
   */
  function SendUrl(token: string): (url: string)
    ensures |url| == |ApiPrefix| + |token| + |SendMessageSuffix|
    ensures url[..|ApiPrefix|] == ApiPrefix
    ensures url[|url| - |SendMessageSuffix|..] == SendMessageSuffix
    ensures url[|ApiPrefix|..|url| - |SendMessageSuffix|] == token
  {
    ApiPrefix + token + SendMessageSuffix
  }

  /** Different tokens give different URLs. */
  lemma SendUrlInjective(a: string, b: string)
    ensures SendUrl(a) == SendUrl(b) ==> a == b
  {
    if SendUrl(a) == SendUrl(b) {
      assert a == SendUrl(a)[|ApiPrefix|..|SendUrl(a)| - |SendMessageSuffix|];
    }
  }

  /** `bool(token and chat_id)`. */
  predicate CredentialsPresent(token: string, chatId: string) {
    token != "" && chatId != ""
  }

  /** One send a background thread was started for: URL, chat and text. */
  datatype Request = Request(url: string, chatId: string, text: string)

  /**
   * Right after construction, notifications are enabled exactly when
   * neither credential is empty or whitespace only.
   */
  lemma EnabledAfterConstruction(token: string, chatId: string)
    ensures CredentialsPresent(Strip(token), Strip(chatId)) <==> !AllSpace(token) && !AllSpace(chatId)
  {
  }

  /**
   * Without the stripping, which only the constructor does, a whitespace
   * credential counts as present, while the stripped one would not: any
   * non-empty all-whitespace token and chat id are accepted, " " for one.
   */
  lemma RawCredentialsNotStripped(t: string, c: string)
    ensures t != "" && AllSpace(t) && c != "" && AllSpace(c) ==>
      CredentialsPresent(t, c) && !CredentialsPresent(Strip(t), Strip(c))
    ensures CredentialsPresent(" ", " ") && !CredentialsPresent(Strip(" "), Strip(" "))
  {
    assert IsSpace(" "[0]);
    assert AllSpace(" ");
  }

  /** TelegramNotifier: the credentials, and the sends started so far. */
  class TelegramNotifier {
    var token: string
    var chatId: string
    var requests: seq<Request>

    /** `__init__`: both credentials are stored stripped. */
    constructor(token: string, chatId: string)
      ensures this.token == Strip(token) && this.chatId == Strip(chatId)
      ensures requests == []
    {
      this.token := Strip(token);
      this.chatId := Strip(chatId);
      requests := [];
    }

    /** `enabled()`. */
    function Enabled(): bool
      reads this
    {
      CredentialsPresent(token, chatId)
    }

    /**
     * `send_async`: nothing when disabled; otherwise exactly one send of
     * `text` is started. A failing send is caught inside its own thread, so
     * nothing reaches the caller either way.
     */
    method SendAsync(text: string)
      modifies this`requests
      ensures requests == if Enabled() then old(requests) + [Request(SendUrl(token), chatId, text)]
                          else old(requests)
    {
      if !Enabled() {
        return;
      }
      requests := requests + [Request(SendUrl(token), chatId, text)];
    }
  }
}
