/**
 * The search for the message input box in `WhatsAppBot.send_message`: up to five
 * attempts; in each, the seven XPath selectors are tried in priority order, and
 * for each selector only the first matching element is examined. It is skipped
 * when its `data-tab` is "3" (the chat-list search box) and accepted when it is
 * displayed and enabled. The first acceptance ends the search; between two
 * attempts that found nothing the source sleeps (four seconds).
 *
 * What the browser reports is a parameter: `probe(attempt, selector)` is the
 * first element the selector matches during that attempt, or `None` when it
 * matches nothing or a driver call raises (the source catches and moves on).
 */
module Locator {
  import opened Wrappers

  /** What the source reads from the first element a selector matches. */
  datatype Element = Element(dataTab: Option<string>, displayed: bool, enabled: bool)

  /** Number of attempts (`range(5)`). */
  const Attempts: nat := 5

  /** The selectors, most specific first; the last one is the catch-all. */
  const Selectors: seq<string> := [
    "//div[@contenteditable=\"true\"][@data-tab=\"10\"]",
    "//div[contains(@class, \"selectable-text\")][@contenteditable=\"true\"][@data-tab=\"10\"]",
    "//div[@data-testid=\"conversation-compose-box-input\"]",
    "//div[contains(@aria-label, \"Type a message\")][@contenteditable=\"true\"]",
    "//div[@title=\"Type a message\"][@contenteditable=\"true\"]",
    "//div[contains(@class, \"lexical-rich-text-input\")][@contenteditable=\"true\"]",
    "//div[@contenteditable=\"true\"][@role=\"textbox\"][not(@data-tab=\"3\")]"
  ]

  /** How many selectors each attempt tries. */
  const SelectorCount: nat := 7

  lemma SelectorCountMatches()
    ensures |Selectors| == SelectorCount
  {
  }

  /** The `data-tab` of the search box, which is never taken for the input box. */
  const SearchBoxTab := "3"

  /** The browser's answers: the first match of a selector during an attempt. */
  type Probe = (nat, nat) -> Option<Element>

  /** The examined element is taken as the input box. */
  predicate Accepts(e: Option<Element>)
  {
    e.Some? && e.value.dataTab != Some(SearchBoxTab) && e.value.displayed && e.value.enabled
  }

  /** Where the input box was found: the attempt and the selector's index. */
  datatype Hit = Hit(attempt: nat, selector: nat)

  /** (a1, s1) is probed strictly before (a2, s2): attempt-major, selector-minor order. */
  predicate Before(a1: nat, s1: nat, a2: nat, s2: nat)
  {
    a1 < a2 || (a1 == a2 && s1 < s2)
  }

  /** Some probe of the whole search accepts. */
  predicate Locatable(probe: Probe)
  {
    exists a: nat, s: nat | a < Attempts && s < SelectorCount :: Accepts(probe(a, s))
  }

  /**
   * The search. `found` is the first accepting probe in probing order, or `None`
   * when no probe of the five attempts accepts; `rounds` counts the attempts made
   * and `waits` the sleeps between them.
   */
  method Locate(probe: Probe) returns (found: Option<Hit>, rounds: nat, waits: nat)
    ensures found.Some? ==>
      found.value.attempt < Attempts && found.value.selector < SelectorCount
      && Accepts(probe(found.value.attempt, found.value.selector))
    ensures found.Some? ==>
      forall a: nat, s: nat :: s < SelectorCount && Before(a, s, found.value.attempt, found.value.selector)
        ==> !Accepts(probe(a, s))
    ensures found.None? ==> forall a: nat, s: nat :: a < Attempts && s < SelectorCount ==> !Accepts(probe(a, s))
    ensures found.Some? <==> Locatable(probe)
    ensures rounds == (if found.Some? then found.value.attempt + 1 else Attempts)
    ensures waits == rounds - 1
  {
    found := None;
    rounds, waits := 0, 0;
    var attempt: nat := 0;
    while attempt < Attempts
      invariant attempt <= Attempts
      invariant found.None?
      invariant rounds == attempt
      invariant waits == if attempt < Attempts then attempt else Attempts - 1
      invariant forall a: nat, s: nat :: a < attempt && s < SelectorCount ==> !Accepts(probe(a, s))
    {
      rounds := rounds + 1;
      var selector: nat := 0;
      while selector < SelectorCount
        invariant selector <= SelectorCount
        invariant found.None?
        invariant forall s: nat :: s < selector ==> !Accepts(probe(attempt, s))
      {
        var element := probe(attempt, selector);
        if element.Some? {
          if element.value.dataTab == Some(SearchBoxTab) {
            selector := selector + 1;
            continue;
          }
          if element.value.displayed && element.value.enabled {
            found := Some(Hit(attempt, selector));
            break;
          }
        }
        selector := selector + 1;
      }
      if found.Some? {
        break;
      }
      if attempt < Attempts - 1 {
        waits := waits + 1;
      }
      attempt := attempt + 1;
    }
  }
}
