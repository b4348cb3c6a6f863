/**
 * `WhatsAppBot.send_message`: sanitize the message, open the chat URL for the
 * phone number, give up if the browser was redirected away from the chat host,
 * search for the input box, and type the message line by line.
 *
 * The browser is an input: whether navigating raises, what `current_url` reads
 * (`None` when reading it raises, which the source ignores), and what the
 * selectors find during the search.
 */
module Sender {
  import opened Wrappers
  import opened Text
  import opened Sanitizer
  import opened Locator
  import opened Typing

  /** The browser's behaviour while one chat is opened. */
  datatype Page = Page(navigationRaises: bool, currentUrl: Option<string>, probe: Probe)

  /** The host the chat page must still be on after navigation. */
  const ChatHost := "web.whatsapp.com"

  /** The chat URL opened for a phone number (country code, no `+`). */
  function ChatUrl(phone: string): string
  {
    "https://web.whatsapp.com/send?phone=" + phone
  }

  /** The redirect check passes: the URL is on the chat host, or reading it raised. */
  predicate OnChatPage(currentUrl: Option<string>)
  {
    currentUrl.None? || Contains(currentUrl.value, ChatHost)
  }

  /** The send succeeds on this page. */
  predicate Delivers(page: Page)
  {
    !page.navigationRaises && OnChatPage(page.currentUrl) && Locatable(page.probe)
  }

  /**
   * One send. `ok` is the source's return value, `url` the page it opens,
   * `rounds` the search attempts made and `keys` what is typed: the keystrokes of
   * the sanitized message when the send succeeds, nothing at all otherwise.
   */
  method SendMessage(phone: string, message: string, normalize: string -> Option<string>, page: Page)
    returns (ok: bool, url: string, rounds: nat, keys: seq<Key>)
    ensures url == ChatUrl(phone)
    ensures ok <==> Delivers(page)
    ensures keys == if ok then Keystrokes(Sanitize(message, normalize)) else []
    ensures rounds <= Attempts
    ensures rounds == 0 <==> page.navigationRaises || !OnChatPage(page.currentUrl)
    ensures !ok && rounds > 0 ==> rounds == Attempts
  {
    var sanitized := Sanitize(message, normalize);
    url := ChatUrl(phone);
    ok, rounds, keys := false, 0, [];
    if page.navigationRaises {
      return;
    }
    if page.currentUrl.Some? && !Contains(page.currentUrl.value, ChatHost) {
      return;
    }
    var found, waits;
    found, rounds, waits := Locate(page.probe);
    if found.None? {
      return;
    }
    keys := TypeMessage(sanitized);
    ok := true;
  }
}
