# WhatsApp bulk sender — verified model of the core

`whatsapp_bot.py` sends a personalised message to every contact of a list through
WhatsApp Web. It picks a message template from a file (or a built-in one) and
loads the contacts from a Google Sheet or a CSV file. For every row with a
usable phone and name, it:

- fills the placeholders of the template;
- strips the characters the browser driver cannot type;
- opens the chat and searches for the input box;
- types the message line by line.

At the end it reports how many sends succeeded.

This project models that core in Dafny and proves what it does:

- `Sanitizer`: the character filter (`sanitize_message`).
- `Template`: the placeholder substitution (`format_message_with_variables`, the
  second and effective definition). It is a fixed chain of replace-all calls. For
  templates in which every `{` opens a placeholder whose key has no brace, and
  values without `{`, it is proved equal to a one-pass substitution of every
  placeholder by its value.
- `Locator`: the bounded search for the input box. This is five attempts over
  seven selectors, examining the first match of each.
- `Typing`: how a message becomes keystrokes. Each non-blank line is typed,
  Shift+Enter goes between lines and one Enter comes at the end.
- `Sender`: one `send_message`, with the browser's answers as inputs.
- `Dispatch`: the `__main__` block. It covers template choice, contact-source
  choice, row validation, the send loop with its success counter, and the summary.
- `Text`: the string operations the core relies on. These are Python's
  `split('\n')`, `strip()` and `upper()`, `in` on strings, and filtering.

The browser, the files, the sheet service, the clock and Unicode normalisation
are inputs:

- NFKC normalisation is a function parameter. It returns `None` when it raises.
- The clock is the six strings `strftime` renders for one call.
- Per row, the browser supplies three things. One is whether navigation raised.
  Another is the `current_url` read back. The last is the first element each
  selector matches on each attempt.
- Per source, the start-up supplies whether the file exists and what the read
  returned.

## Model

| member | source | states |
|---|---|---|
| Sanitizer.Sanitize | whatsapp_bot.py:64-84 | The result lies entirely in the BMP (code points up to U+FFFF). When normalisation raises, every character of the result is ASCII (below 128). |
| Sanitizer.KeepBmpExactly | whatsapp_bot.py:72 | The first filter keeps each BMP character exactly as often as it occurs and drops every other character. It distributes over concatenation, so order is kept. It returns its input exactly when the input is already all-BMP. |
| Sanitizer.FallbackKeepsAscii | whatsapp_bot.py:81-84 | On the exception path the result holds each ASCII character of the original message as often as the message does, and nothing else. |
| Sanitizer.SanitizeBmpMessage | whatsapp_bot.py:72-80 | A BMP message whose normalisation stays in the BMP comes out as exactly that normalisation. |
| Sanitizer.SanitizeTwice | whatsapp_bot.py:94 | A template sanitized on reading comes through a second sanitization unchanged, provided the normalisation of its BMP part does not raise, stays in the BMP and is already normalised. This is about the template before values are filled in. |
| Sanitizer.SanitizeTwiceCanChange | whatsapp_bot.py:94-112 | When normalisation leaves the BMP, sanitizing twice can change the text. With NFKC's tables, "e", U+FA6C, U+0301 is sanitized on reading to "e", U+0301, and `send_message` sanitizes that again to U+00E9. |
| Text.Split | whatsapp_bot.py:190 | `split('\n')` yields one more piece than there are newlines, and no piece contains a newline. |
| Text.JoinSplit | whatsapp_bot.py:190 | Joining the pieces of a split with the separator gives back the original text. |
| Text.SplitJoin | whatsapp_bot.py:190 | Splitting a join of newline-free lines gives back exactly those lines. |
| Text.StripEmptyIff | whatsapp_bot.py:192 | `strip()` is empty exactly when every character is white space. |
| Text.TrimStartRemovesLeadingSpace | whatsapp_bot.py:389-390 | The left part of `strip()` is a suffix of its input. It removes only white space and stops at the first character that is not white space. |
| Text.TrimEndRemovesTrailingSpace | whatsapp_bot.py:389-390 | The right part of `strip()` is a prefix of its input. It removes only white space and stops at the last character that is not white space. |
| Text.Upper | whatsapp_bot.py:298 | `upper()` keeps the length and leaves no lower-case ASCII letter. Each lower-case letter becomes its capital (code point minus 32) and every other character is kept. |
| Text.UpperIdempotent | whatsapp_bot.py:298 | Upper-casing an upper-cased text changes nothing. |
| Template.ReplaceAllWithoutFirstChar | whatsapp_bot.py:296 | `str.replace` leaves a text unchanged when the pattern's first character does not occur in it. |
| Template.ReplaceAllAbsent | whatsapp_bot.py:296 | `str.replace` leaves a text unchanged when the pattern does not occur in it. |
| Template.ReplaceAllLeftmost | whatsapp_bot.py:296 | In `a + pat + b` where no occurrence starts inside `a`, `str.replace` copies `a`, puts the replacement in place of that occurrence and goes on with `b` alone. So occurrences are replaced left to right and never overlap. |
| Template.Format | whatsapp_bot.py:292-312 | A template with no `{` is returned unchanged. |
| Template.LookupName | whatsapp_bot.py:295-298 | The name replacements give `{name}` and `{Name}` the name, `{NAME}` its upper-case form, and no other placeholder a value. |
| Template.LookupClock | whatsapp_bot.py:301-306 | The clock replacements give each of the six clock placeholders its own string and no other placeholder a value. |
| Template.LookupSteps | whatsapp_bot.py:294-310 | In the whole chain, each placeholder gets its defined value. The name placeholders get one only when there is a name, `{phone}` only when there is a phone, and the clock placeholders always. |
| Template.ApplyAllRenders | whatsapp_bot.py:292-310 | Running the replace chain over literal text and placeholders replaces each placeholder by the first value the chain has for it. |
| Template.FormatRendersPlaceholders | whatsapp_bot.py:292-312 | Take a template in which every `{` opens a placeholder whose key has no brace, and values without `{`. Formatting replaces every known placeholder by its value. It leaves verbatim every placeholder without a value: an unknown key, the name placeholders without a name, `{phone}` without a phone. |
| Template.NameVariantsExample | whatsapp_bot.py:295-298 | With the name "ana", `{name}, {Name}, {NAME} {foo}` becomes `ana, ana, ANA {foo}`. |
| Template.NoNameNoPhoneExample | whatsapp_bot.py:295-310 | Without name and phone, `{NAME} {phone} {year}` keeps its first two placeholders and fills in the year. |
| Locator.Locate | whatsapp_bot.py:147-180 | The result is the first probe in attempt-major, selector-minor order whose first match is displayed and enabled and does not have `data-tab` "3". The search fails exactly when no probe of the five attempts accepts. Attempts made is the attempt found plus one, or all five; the waits are one fewer. |
| Locator.SelectorCountMatches | whatsapp_bot.py:134-143 | There are seven selectors. |
| Typing.NonBlankIsStripTest | whatsapp_bot.py:192 | A line is typed exactly when its `strip()` is not empty. |
| Typing.TypeMessage | whatsapp_bot.py:190-198 | The typing loop emits exactly the keystrokes of the message. |
| Typing.KeystrokesBreaks | whatsapp_bot.py:190-198 | There are as many Shift+Enter as the message has newlines, exactly one Enter, and the Enter comes last. |
| Typing.KeystrokesLines | whatsapp_bot.py:190-193 | The texts typed are exactly the lines that are not blank, in order. |
| Typing.KeystrokesDecode | whatsapp_bot.py:189-198 | Reading the keys back (a line's text, a line break for Shift+Enter, nothing for Enter) gives the message with its blank lines emptied. So each Shift+Enter comes right after its own line. |
| Typing.KeystrokesRoundTrip | whatsapp_bot.py:189-198 | A message with no line that is blank but not empty is read back from its keys exactly. |
| Typing.TypedLinesHaveNoNewline | whatsapp_bot.py:190-193 | No typed text holds a newline. |
| Sender.SendMessage | whatsapp_bot.py:103-206 | It opens the chat URL for the phone. It succeeds exactly when navigation does not raise, the page is still on `web.whatsapp.com` (or reading the URL raised), and the input box is found. On success it types the keystrokes of the sanitized message, otherwise nothing. No search happens after a failed navigation or a redirect, and a failed search uses all five attempts. |
| Dispatch.SendRow | whatsapp_bot.py:389-400 | A row is attempted exactly when its stripped phone and name are non-empty and the phone is not "nan". The attempt carries those cells, the clock read and the send's outcome. Its keystrokes are those of the sanitized, personalised message. |
| Dispatch.RowsWhereExactly | whatsapp_bot.py:388-392 | The rows selected are exactly those that pass the test, in increasing order. |
| Dispatch.PlanRows | whatsapp_bot.py:388-407 | The attempts the loop makes are one per row that the validity test selects, in that order. |
| Dispatch.TallyStep | whatsapp_bot.py:388-400 | One loop pass keeps the tally: a valid row's attempt and keystrokes are appended, and the counter grows by one exactly when the send succeeded. An invalid row changes nothing. |
| Dispatch.SendNext | whatsapp_bot.py:388-400 | One pass of the loop moves the tally from the first `i` rows to the first `i + 1`. |
| Dispatch.SendAll | whatsapp_bot.py:386-407 | The attempts made are the plan: one per valid row, in row order. `successful_sends` is the number of them that succeeded. Each attempt typed the keystrokes of the template personalised for its row and sanitized, or nothing when the send failed. |
| Dispatch.PlanAttemptsValidRows | whatsapp_bot.py:389-400 | Every attempt is for a valid row. It carries that row's stripped name and phone, the clock its formatting read and that row's send outcome. |
| Dispatch.PlanCoversValidRows | whatsapp_bot.py:388-407 | Rows are attempted in increasing order, so none twice, and every valid row is attempted. |
| Dispatch.PlanBounds | whatsapp_bot.py:386-409 | Successful sends are at most the rows attempted, which are at most the rows read. |
| Dispatch.TwoOfThree | whatsapp_bot.py:386-409 | Take three valid rows whose second send fails. All three are attempted and two succeed. |
| Dispatch.LoadContacts | whatsapp_bot.py:352-381 | The sheet is read exactly when credentials exist. A CSV file is read exactly when no credentials exist or the sheet gave `None` (an empty list does not count), and a CSV file exists. `contacts.csv` is preferred over the example file, and the contacts are what the last read returned. |
| Dispatch.DefaultMessageInBmp | whatsapp_bot.py:344-349 | The built-in message lies in the BMP. |
| Dispatch.ChosenTemplate | whatsapp_bot.py:335-349 | The template chosen lies in the BMP, whichever source it comes from. |
| Dispatch.LoadMessage | whatsapp_bot.py:335-349 | The template is the sanitized primary file, else the sanitized fallback file, else the built-in message. Either way it lies in the BMP. |
| Dispatch.Run | whatsapp_bot.py:333-409 | A summary is printed exactly when the contacts loaded are a non-empty list. The attempts are then the plan for those rows. Each attempt typed the chosen template, personalised for its row and sanitized, or nothing when the send failed. The summary is the successes over all rows read, and it is at most the attempts, which are at most the rows. |

## Left out

- The browser driver: `__init__`, `open_whatsapp`, `close`, and the driver calls inside `send_message`. `get`, `current_url`, `find_elements`, `get_attribute`, `is_displayed` and `is_enabled` are inputs. `clear`, `click` and `send_keys` are modelled only through the keystrokes they receive.
- Sender.SendMessage: an exception raised by `clear`, `click` or `send_keys` is not modelled. In the source it makes the send return False after part of the message may have been typed.
- File, CSV and Google Sheets reading (`read_message_from_file`, `read_csv_file`, `read_google_sheet`): what a read returns is an input. Exceptions other than a missing file, which propagate in `read_message_from_file`, are not modelled.
- Sleeps and printed messages. The sleeps between search attempts are counted, not timed.
- NFKC normalisation internals depend on the Unicode tables, so normalisation is a parameter.
- `strftime` rendering: the clock is given as its six rendered strings.
- Text.Upper: upper-cases ASCII letters only. Python's `str.upper` covers all of Unicode and can change the length (ß becomes SS).
- Template.FormatRendersPlaceholders: requires the name, phone and clock strings to contain no `{`. When a value itself holds a placeholder, a later replacement in the chain rewrites it; that behaviour of the chain is modelled but not characterised.
- Template.FormatRendersPlaceholders: covers only templates in which every `{` opens a placeholder whose key has no brace. Other templates are formatted by the model but not characterised. With `{NA{name}` and the name `ME}`, the chain yields `ME}`, where a one-pass substitution would yield `{NAME}`.
- The `except` branch of `format_message_with_variables` returns the template unchanged. It cannot be reached with string inputs, so it is not modelled.
- The first definition of `format_message_with_variables` is shadowed by the second and never runs.
- Dispatch.Cell: a row's cells are strings. The source's `str()` of a non-string cell, such as a number or a float NaN from a sheet, is not modelled.
- Python strings can hold lone surrogate code points; Dafny characters cannot, so such messages are outside the model.
