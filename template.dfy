/**
 * The template engine of `WhatsAppBot.format_message_with_variables` (the second,
 * effective definition). The source runs a fixed chain of `str.replace` calls on
 * one local: the three name placeholders when a name is given, the six clock
 * placeholders always, and `{phone}` when a phone is given. The clock is read
 * once per call; its rendered strings are a parameter here.
 *
 * The chain is written as a list of (placeholder key, value) steps applied in
 * order. Its meaning is then proved: on a template made of literal text and
 * placeholders, running the chain is the same as replacing every placeholder in
 * one pass by its value, and leaving the ones without a value verbatim.
 */
module Template {
  import opened Wrappers
  import opened Text

  /** Python's `s.replace(pat, rep)`: non-overlapping occurrences, scanned left to right. */
  function ReplaceAll(s: string, pat: string, rep: string): (r: string)
    requires pat != []
    decreases |s|
  {
    if |s| < |pat| then s
    else if s[..|pat|] == pat then rep + ReplaceAll(s[|pat|..], pat, rep)
    else [s[0]] + ReplaceAll(s[1..], pat, rep)
  }

  /** A text without the pattern's first character comes back unchanged. */
  lemma {:induction false} ReplaceAllWithoutFirstChar(s: string, pat: string, rep: string)
    requires pat != []
    ensures pat[0] !in s ==> ReplaceAll(s, pat, rep) == s
    decreases |s|
  {
    if pat[0] !in s && |s| >= |pat| {
      assert s[..|pat|][0] == s[0];
      assert pat[0] !in s[1..];
      ReplaceAllWithoutFirstChar(s[1..], pat, rep);
      assert [s[0]] + s[1..] == s;
    }
  }

  /** A text in which the pattern does not occur comes back unchanged. */
  lemma {:induction false} ReplaceAllAbsent(s: string, pat: string, rep: string)
    requires pat != []
    ensures !Contains(s, pat) ==> ReplaceAll(s, pat, rep) == s
    decreases |s|
  {
    if !Contains(s, pat) && |s| >= |pat| {
      assert s[0..] == s;
      assert s[..|pat|] != pat;
      assert !Contains(s[1..], pat) by {
        forall i | 0 <= i <= |s[1..]| ensures !(pat <= s[1..][i..]) {
          assert s[1..][i..] == s[i + 1..];
        }
      }
      ReplaceAllAbsent(s[1..], pat, rep);
      assert [s[0]] + s[1..] == s;
    }
  }

  /** An occurrence of `pat` starts at position `i` of `s`. */
  predicate OccursAt(s: string, pat: string, i: nat)
  {
    i + |pat| <= |s| && s[i..i + |pat|] == pat
  }

  /** No occurrence of `pat` starts at any of the first `n` positions of `s`. */
  predicate NoOccurrenceBefore(s: string, pat: string, n: nat)
  {
    forall i: nat :: i < n ==> !OccursAt(s, pat, i)
  }

  /** Dropping the first character shifts the positions free of occurrences by one. */
  lemma NoOccurrenceBeforeTail(s: string, pat: string, n: nat)
    requires 1 <= n <= |s| && NoOccurrenceBefore(s, pat, n)
    ensures !OccursAt(s, pat, 0) && NoOccurrenceBefore(s[1..], pat, n - 1)
  {
    forall i: nat | i < n - 1 ensures !OccursAt(s[1..], pat, i) {
      assert !OccursAt(s, pat, i + 1);
      if i + |pat| <= |s[1..]| {
        assert s[1..][i..i + |pat|] == s[i + 1..i + 1 + |pat|];
      }
    }
  }

  /** Where no occurrence starts, the first character is copied and the scan moves on by one. */
  lemma ReplaceAllCopyFirst(s: string, pat: string, rep: string)
    requires pat != [] && s != [] && !OccursAt(s, pat, 0)
    ensures ReplaceAll(s, pat, rep) == [s[0]] + ReplaceAll(s[1..], pat, rep)
  {
    if |s| >= |pat| {
      assert s[0..|pat|] == s[..|pat|];
    }
    ReplaceNoMatchHere(s, pat, rep);
  }

  lemma ConsConcat(c: char, a: string, b: string, d: string)
    ensures [c] + (a + b + d) == ([c] + a) + b + d
  {
  }

  /**
   * The leftmost occurrence is replaced: the text `a` before it, in which no
   * occurrence starts, is copied, the occurrence becomes `rep`, and the scan
   * resumes right after it (so occurrences never overlap).
   */
  lemma {:induction false} ReplaceAllLeftmost(a: string, pat: string, b: string, rep: string)
    requires pat != [] && NoOccurrenceBefore(a + pat + b, pat, |a|)
    ensures ReplaceAll(a + pat + b, pat, rep) == a + rep + ReplaceAll(b, pat, rep)
    decreases |a|
  {
    var s := a + pat + b;
    if a == [] {
      assert s == pat + b && s[..|pat|] == pat && s[|pat|..] == b;
    } else {
      NoOccurrenceBeforeTail(s, pat, |a|);
      assert s[1..] == a[1..] + pat + b;
      ReplaceAllCopyFirst(s, pat, rep);
      ReplaceAllLeftmost(a[1..], pat, b, rep);
      ConsConcat(a[0], a[1..], rep, ReplaceAll(b, pat, rep));
      assert [a[0]] + a[1..] == a;
    }
  }

  /** The placeholder written for `key`, as in `{name}`. */
  function Token(key: string): string
  {
    "{" + key + "}"
  }

  /** A placeholder key has no brace in it. */
  predicate IsKey(key: string)
  {
    '{' !in key && '}' !in key
  }

  /** The strings `datetime.now().strftime` renders for one call. */
  datatype Clock = Clock(time: string, date: string, datetime: string, day: string, month: string, year: string)

  /** One `replace` of the chain: the placeholder key and the text put in its place. */
  type Step = (string, string)

  /** The replacements of the source, in the order it applies them. */
  function Steps(name: string, phone: string, clock: Clock): seq<Step>
  {
    (if name != "" then NameSteps(name) else [])
    + ClockSteps(clock)
    + (if phone != "" then [("phone", phone)] else [])
  }

  function NameSteps(name: string): seq<Step>
  {
    [("name", name), ("Name", name), ("NAME", Upper(name))]
  }

  function ClockSteps(clock: Clock): seq<Step>
  {
    [("time", clock.time), ("date", clock.date), ("datetime", clock.datetime),
     ("day", clock.day), ("month", clock.month), ("year", clock.year)]
  }

  /** Applies the steps one after the other, each to the result of the previous one. */
  function ApplyAll(s: string, steps: seq<Step>): (r: string)
    ensures '{' !in s ==> r == s
    decreases |steps|
  {
    if steps == [] then s
    else
      var (key, rep) := steps[0];
      ReplaceAllWithoutFirstChar(s, Token(key), rep);
      ApplyAll(ReplaceAll(s, Token(key), rep), steps[1..])
  }

  /** The personalised message; a template without any `{` comes back unchanged. */
  function Format(message: string, name: string, phone: string, clock: Clock): (r: string)
    ensures '{' !in message ==> r == message
  {
    ApplyAll(message, Steps(name, phone, clock))
  }

  /**
   * What each placeholder stands for: the name (as given for `{name}` and
   * `{Name}`, upper-cased for `{NAME}`) only when there is one, the clock strings
   * always, the phone only when there is one. `None` leaves a placeholder as it is.
   */
  function Value(key: string, name: string, phone: string, clock: Clock): Option<string>
  {
    if key == "name" || key == "Name" then (if name != "" then Some(name) else None)
    else if key == "NAME" then (if name != "" then Some(Upper(name)) else None)
    else if key == "time" then Some(clock.time)
    else if key == "date" then Some(clock.date)
    else if key == "datetime" then Some(clock.datetime)
    else if key == "day" then Some(clock.day)
    else if key == "month" then Some(clock.month)
    else if key == "year" then Some(clock.year)
    else if key == "phone" then (if phone != "" then Some(phone) else None)
    else None
  }

  /** A template cut into literal text (without `{`) and placeholders. */
  datatype Piece = Lit(text: string) | Slot(key: string)

  predicate WellFormed(p: Piece)
  {
    match p
    case Lit(t) => '{' !in t
    case Slot(k) => IsKey(k)
  }

  predicate AllWellFormed(ps: seq<Piece>)
  {
    forall i :: 0 <= i < |ps| ==> WellFormed(ps[i])
  }

  /** The template text a piece stands for. */
  function Show(p: Piece): string
  {
    match p
    case Lit(t) => t
    case Slot(k) => Token(k)
  }

  function Flatten(ps: seq<Piece>): string
  {
    if ps == [] then [] else Show(ps[0]) + Flatten(ps[1..])
  }

  /** A piece with its value put in, or left as written when it has none. */
  function Fill(p: Piece, v: Option<string>): string
  {
    match p
    case Lit(t) => t
    case Slot(k) => if v.Some? then v.value else Token(k)
  }

  /** One-pass substitution of every placeholder by its `Value`. */
  function Rendered(ps: seq<Piece>, name: string, phone: string, clock: Clock): string
  {
    if ps == [] then []
    else
      var v := if ps[0].Slot? then Value(ps[0].key, name, phone, clock) else None;
      Fill(ps[0], v) + Rendered(ps[1..], name, phone, clock)
  }

  /** The value the first step for `key` puts in, if any step is for `key`. */
  function Lookup(key: string, steps: seq<Step>): Option<string>
  {
    if steps == [] then None
    else if steps[0].0 == key then Some(steps[0].1)
    else Lookup(key, steps[1..])
  }

  /** One-pass substitution by the steps' own values. */
  function RenderBy(ps: seq<Piece>, steps: seq<Step>): string
  {
    if ps == [] then []
    else
      var v := if ps[0].Slot? then Lookup(ps[0].key, steps) else None;
      Fill(ps[0], v) + RenderBy(ps[1..], steps)
  }

  /** Steps whose keys are placeholder keys and whose values cannot start a placeholder. */
  predicate BraceFreeSteps(steps: seq<Step>)
  {
    forall i :: 0 <= i < |steps| ==> IsKey(steps[i].0) && '{' !in steps[i].1
  }

  /** Text without `{` is copied through a replacement untouched. */
  lemma {:induction false} ReplaceOverPlainText(z: string, y: string, key: string, rep: string)
    requires '{' !in z
    ensures ReplaceAll(z + y, Token(key), rep) == z + ReplaceAll(y, Token(key), rep)
    decreases |z|
  {
    var pat := Token(key);
    if z == [] {
      assert z + y == y;
    } else {
      var s := z + y;
      assert pat[0] == '{' && s[0] == z[0];
      if |s| >= |pat| {
        assert s[..|pat|][0] == s[0];
      }
      ReplaceNoMatchHere(s, pat, rep);
      assert s[1..] == z[1..] + y;
      ReplaceOverPlainText(z[1..], y, key, rep);
      var r := ReplaceAll(y, pat, rep);
      assert [z[0]] + (z[1..] + r) == z + r;
    }
  }

  /** Two placeholders are the same text only when their keys are the same. */
  lemma TokenInjective(k1: string, k2: string)
    requires Token(k1) == Token(k2)
    ensures k1 == k2
  {
    assert k1 == Token(k1)[1..|Token(k1)| - 1];
  }

  /** A placeholder for another key is never matched, even when text follows it. */
  lemma {:induction false} OtherTokenNoMatch(k: string, key: string, y: string)
    requires IsKey(k) && IsKey(key) && k != key
    requires |Token(k) + y| >= |Token(key)|
    ensures (Token(k) + y)[..|Token(key)|] != Token(key)
  {
    var x, pat := Token(k), Token(key);
    var m, n := |pat|, |x|;
    var front := (x + y)[..m];
    if m == n {
      if front == pat {
        assert x == pat;
        TokenInjective(k, key);
        assert false;
      }
    } else if m < n {
      assert front[m - 1] == x[m - 1] == k[m - 2];
      assert front[m - 1] != pat[m - 1];
    } else {
      assert front[n - 1] == x[n - 1] == '}';
      assert pat[n - 1] == key[n - 2];
      assert front[n - 1] != pat[n - 1];
    }
  }

  /** The placeholder being replaced is replaced, and the text after it is replaced on its own. */
  lemma ReplaceSameSlot(key: string, y: string, rep: string)
    ensures ReplaceAll(Token(key) + y, Token(key), rep) == rep + ReplaceAll(y, Token(key), rep)
  {
    var pat := Token(key);
    assert (pat + y)[..|pat|] == pat && (pat + y)[|pat|..] == y;
  }

  /** Where the pattern does not start, the first character is copied. */
  lemma ReplaceNoMatchHere(s: string, pat: string, rep: string)
    requires pat != [] && s != []
    requires |s| < |pat| || s[..|pat|] != pat
    ensures ReplaceAll(s, pat, rep) == [s[0]] + ReplaceAll(s[1..], pat, rep)
  {
    if |s| < |pat| {
      assert ReplaceAll(s[1..], pat, rep) == s[1..];
      assert s == [s[0]] + s[1..];
    }
  }

  /** A placeholder for another key is copied, and the text after it is replaced on its own. */
  lemma ReplaceOtherSlot(k: string, y: string, key: string, rep: string)
    requires IsKey(k) && IsKey(key) && k != key
    ensures ReplaceAll(Token(k) + y, Token(key), rep) == Token(k) + ReplaceAll(y, Token(key), rep)
  {
    var x, pat := Token(k), Token(key);
    var inner := k + "}";
    assert x == "{" + inner && '{' !in inner;
    var s := x + y;
    assert s[0] == '{' && s[1..] == inner + y;
    if |s| >= |pat| {
      OtherTokenNoMatch(k, key, y);
    }
    ReplaceNoMatchHere(s, pat, rep);
    ReplaceOverPlainText(inner, y, key, rep);
    var r := ReplaceAll(y, pat, rep);
    assert ReplaceAll(s[1..], pat, rep) == inner + r;
    assert ReplaceAll(s, pat, rep) == [s[0]] + (inner + r);
    ConsConcat('{', k, "}", r);
  }

  /**
   * One replacement over a well-formed piece followed by any text: the piece is
   * substituted (if it is the placeholder replaced) and the rest is replaced on
   * its own; no occurrence straddles the boundary.
   */
  lemma ReplacePiece(p: Piece, y: string, key: string, rep: string)
    requires WellFormed(p) && IsKey(key)
    ensures ReplaceAll(Show(p) + y, Token(key), rep)
         == (if p == Slot(key) then rep else Show(p)) + ReplaceAll(y, Token(key), rep)
  {
    match p
    case Lit(t) => ReplaceOverPlainText(t, y, key, rep);
    case Slot(k) =>
      if k == key {
        ReplaceSameSlot(key, y, rep);
      } else {
        ReplaceOtherSlot(k, y, key, rep);
      }
  }

  /** Running the steps over a piece and the text after it renders the piece on its own. */
  lemma {:induction false} ApplyOverPiece(p: Piece, y: string, steps: seq<Step>)
    requires WellFormed(p) && BraceFreeSteps(steps)
    ensures ApplyAll(Show(p) + y, steps)
         == Fill(p, if p.Slot? then Lookup(p.key, steps) else None) + ApplyAll(y, steps)
    decreases |steps|
  {
    if steps != [] {
      var (key, rep) := steps[0];
      var rest := steps[1..];
      assert BraceFreeSteps(rest) by {
        forall i | 0 <= i < |rest| ensures IsKey(rest[i].0) && '{' !in rest[i].1 {
          assert rest[i] == steps[i + 1];
        }
      }
      ReplacePiece(p, y, key, rep);
      var y' := ReplaceAll(y, Token(key), rep);
      if p == Slot(key) {
        ApplyOverPiece(Lit(rep), y', rest);
      } else {
        ApplyOverPiece(p, y', rest);
      }
    }
  }

  /** Running the steps over a whole template is one-pass substitution by the steps' values. */
  lemma {:induction false} ApplyAllRenders(ps: seq<Piece>, steps: seq<Step>)
    requires AllWellFormed(ps) && BraceFreeSteps(steps)
    ensures ApplyAll(Flatten(ps), steps) == RenderBy(ps, steps)
  {
    if ps != [] {
      ApplyOverPiece(ps[0], Flatten(ps[1..]), steps);
      ApplyAllRenders(ps[1..], steps);
    }
  }

  /** The clock steps give each clock placeholder its string and nothing else a value. */
  lemma LookupClock(key: string, clock: Clock)
    ensures Lookup(key, ClockSteps(clock))
         == if key == "time" then Some(clock.time)
            else if key == "date" then Some(clock.date)
            else if key == "datetime" then Some(clock.datetime)
            else if key == "day" then Some(clock.day)
            else if key == "month" then Some(clock.month)
            else if key == "year" then Some(clock.year)
            else None
  {
    var c := ClockSteps(clock);
    assert Lookup(key, c[5..]) == if key == "year" then Some(clock.year) else None by {
      assert c[5..][1..] == [];
    }
    assert c[4..][1..] == c[5..] && c[3..][1..] == c[4..] && c[2..][1..] == c[3..];
    assert c[1..][1..] == c[2..] && c[1..] == c[1..];
    assert Lookup(key, c[4..]) == if key == "month" then Some(clock.month) else Lookup(key, c[5..]);
    assert Lookup(key, c[3..]) == if key == "day" then Some(clock.day) else Lookup(key, c[4..]);
    assert Lookup(key, c[2..]) == if key == "datetime" then Some(clock.datetime) else Lookup(key, c[3..]);
    assert Lookup(key, c[1..]) == if key == "date" then Some(clock.date) else Lookup(key, c[2..]);
  }

  /** The name steps give the three name placeholders their values and nothing else a value. */
  lemma LookupName(key: string, name: string)
    ensures Lookup(key, NameSteps(name))
         == if key == "name" || key == "Name" then Some(name)
            else if key == "NAME" then Some(Upper(name))
            else None
  {
    var n := NameSteps(name);
    assert Lookup(key, n[2..]) == if key == "NAME" then Some(Upper(name)) else None by {
      assert n[2..][1..] == [];
    }
    assert n[1..][1..] == n[2..];
    assert Lookup(key, n[1..]) == if key == "Name" then Some(name) else Lookup(key, n[2..]);
  }

  /** The step list of the source gives every placeholder exactly its `Value`. */
  lemma LookupSteps(key: string, name: string, phone: string, clock: Clock)
    ensures Lookup(key, Steps(name, phone, clock)) == Value(key, name, phone, clock)
  {
    var clockSteps := ClockSteps(clock);
    var phoneSteps := if phone != "" then [("phone", phone)] else [];
    LookupClock(key, clock);
    LookupAppend(key, clockSteps, phoneSteps);
    if name != "" {
      LookupName(key, name);
      LookupAppend(key, NameSteps(name), clockSteps + phoneSteps);
      assert Steps(name, phone, clock) == NameSteps(name) + (clockSteps + phoneSteps);
    } else {
      assert Steps(name, phone, clock) == clockSteps + phoneSteps;
    }
  }

  /** Looking a key up in two lists of steps one after the other. */
  lemma {:induction false} LookupAppend(key: string, a: seq<Step>, b: seq<Step>)
    ensures Lookup(key, a + b) == if Lookup(key, a).Some? then Lookup(key, a) else Lookup(key, b)
  {
    if a == [] {
      assert a + b == b;
    } else {
      assert (a + b)[0] == a[0] && (a + b)[1..] == a[1..] + b;
      LookupAppend(key, a[1..], b);
    }
  }

  /** No value of the source's steps holds a `{`. */
  predicate BraceFreeValues(name: string, phone: string, clock: Clock)
  {
    '{' !in name && '{' !in phone && '{' !in clock.time && '{' !in clock.date
    && '{' !in clock.datetime && '{' !in clock.day && '{' !in clock.month && '{' !in clock.year
  }

  /**
   * The template engine's meaning: when neither the name, the phone nor the clock
   * strings contain `{`, formatting a template of literal text and placeholders
   * replaces every recognised placeholder by its value and leaves every other
   * placeholder (an unknown key, or a name or phone placeholder without a name or
   * phone) verbatim. Only templates in which every `{` opens a `{key}` with no
   * brace inside the key are covered: in `{NA{name}` with the name `ME}` the chain
   * yields `ME}`, where a one-pass substitution would yield `{NAME}`.
   */
  lemma {:induction false} FormatRendersPlaceholders(ps: seq<Piece>, name: string, phone: string, clock: Clock)
    requires AllWellFormed(ps)
    requires BraceFreeValues(name, phone, clock)
    ensures Format(Flatten(ps), name, phone, clock) == Rendered(ps, name, phone, clock)
  {
    var steps := Steps(name, phone, clock);
    assert '{' !in Upper(name);
    assert BraceFreeSteps(steps);
    ApplyAllRenders(ps, steps);
    RenderByValue(ps, name, phone, clock);
  }

  lemma {:induction false} RenderByValue(ps: seq<Piece>, name: string, phone: string, clock: Clock)
    ensures RenderBy(ps, Steps(name, phone, clock)) == Rendered(ps, name, phone, clock)
  {
    if ps != [] {
      if ps[0].Slot? {
        LookupSteps(ps[0].key, name, phone, clock);
      }
      RenderByValue(ps[1..], name, phone, clock);
    }
  }

  /** The template "{name}, {Name}, {NAME} {foo}" cut into pieces. */
  const NameTemplate: seq<Piece> :=
    [Slot("name"), Lit(", "), Slot("Name"), Lit(", "), Slot("NAME"), Lit(" "), Slot("foo")]

  /** The template "{NAME} {phone} {year}" cut into pieces. */
  const NoNameTemplate: seq<Piece> := [Slot("NAME"), Lit(" "), Slot("phone"), Lit(" "), Slot("year")]

  lemma NameTemplateWellFormed()
    ensures AllWellFormed(NameTemplate)
  {
  }

  lemma NameTemplateTextTail()
    ensures Flatten(NameTemplate[3..]) == ", " + ("{NAME}" + (" " + "{foo}"))
  {
    var t := NameTemplate;
    assert t[6..][1..] == [];
    assert Flatten(t[6..]) == "{foo}";
    assert t[5..][1..] == t[6..];
    assert Flatten(t[5..]) == " " + "{foo}";
    assert t[4..][1..] == t[5..];
    assert Flatten(t[4..]) == "{NAME}" + (" " + "{foo}");
    assert t[3..][1..] == t[4..];
  }

  lemma NameTemplateText()
    ensures Flatten(NameTemplate) == "{name}" + (", " + ("{Name}" + (", " + ("{NAME}" + (" " + "{foo}")))))
  {
    var t := NameTemplate;
    var tail := ", " + ("{NAME}" + (" " + "{foo}"));
    NameTemplateTextTail();
    assert t[2..][1..] == t[3..];
    assert Flatten(t[2..]) == "{Name}" + tail;
    assert t[1..][1..] == t[2..];
    assert Flatten(t[1..]) == ", " + ("{Name}" + tail);
  }

  lemma NameTemplateRenderedTail(phone: string, clock: Clock)
    ensures Rendered(NameTemplate[3..], "ana", phone, clock) == ", " + ("ANA" + (" " + "{foo}"))
  {
    var t := NameTemplate;
    assert Upper("ana") == "ANA";
    assert Value("NAME", "ana", phone, clock) == Some("ANA");
    assert Value("foo", "ana", phone, clock) == None;
    assert t[6..][1..] == [];
    assert Rendered(t[6..], "ana", phone, clock) == "{foo}";
    assert t[5..][1..] == t[6..];
    assert Rendered(t[5..], "ana", phone, clock) == " " + "{foo}";
    assert t[4..][1..] == t[5..];
    assert Rendered(t[4..], "ana", phone, clock) == "ANA" + (" " + "{foo}");
    assert t[3..][1..] == t[4..];
  }

  lemma NameTemplateRendered(phone: string, clock: Clock)
    ensures Rendered(NameTemplate, "ana", phone, clock) == "ana" + (", " + ("ana" + (", " + ("ANA" + (" " + "{foo}")))))
  {
    var t := NameTemplate;
    var tail := ", " + ("ANA" + (" " + "{foo}"));
    NameTemplateRenderedTail(phone, clock);
    assert Value("name", "ana", phone, clock) == Some("ana");
    assert Value("Name", "ana", phone, clock) == Some("ana");
    assert t[2..][1..] == t[3..];
    assert Rendered(t[2..], "ana", phone, clock) == "ana" + tail;
    assert t[1..][1..] == t[2..];
    assert Rendered(t[1..], "ana", phone, clock) == ", " + ("ana" + tail);
  }

  lemma NoNameTemplateWellFormed()
    ensures AllWellFormed(NoNameTemplate)
  {
  }

  lemma NoNameTemplateText()
    ensures Flatten(NoNameTemplate) == "{NAME}" + (" " + ("{phone}" + (" " + "{year}")))
  {
    var t := NoNameTemplate;
    assert t[4..][1..] == [];
    assert Flatten(t[4..]) == "{year}";
    assert t[3..][1..] == t[4..];
    assert Flatten(t[3..]) == " " + "{year}";
    assert t[2..][1..] == t[3..];
    assert Flatten(t[2..]) == "{phone}" + (" " + "{year}");
    assert t[1..][1..] == t[2..];
    assert Flatten(t[1..]) == " " + ("{phone}" + (" " + "{year}"));
  }

  lemma NoNameTemplateRenderedTail(clock: Clock)
    ensures Rendered(NoNameTemplate[2..], "", "", clock) == "{phone}" + (" " + clock.year)
  {
    var t := NoNameTemplate;
    assert Value("phone", "", "", clock) == None;
    assert Value("year", "", "", clock) == Some(clock.year);
    assert t[4..][1..] == [];
    assert Rendered(t[4..], "", "", clock) == clock.year;
    assert t[3..][1..] == t[4..];
    assert Rendered(t[3..], "", "", clock) == " " + clock.year;
    assert t[2..][0] == Slot("phone") && t[2..][1..] == t[3..];
    assert Token("phone") == "{phone}";
  }

  lemma NoNameTemplateRendered(clock: Clock)
    ensures Rendered(NoNameTemplate, "", "", clock) == "{NAME}" + (" " + ("{phone}" + (" " + clock.year)))
  {
    var t := NoNameTemplate;
    NoNameTemplateRenderedTail(clock);
    assert Value("NAME", "", "", clock) == None;
    assert t[1..][1..] == t[2..];
    assert Rendered(t[1..], "", "", clock) == " " + ("{phone}" + (" " + clock.year));
  }

  /**
   * With the name "ana", `{name}` and `{Name}` become "ana", `{NAME}` becomes
   * "ANA", and the unknown `{foo}` stays as written.
   */
  lemma NameVariantsExample(phone: string, clock: Clock)
    requires BraceFreeValues("ana", phone, clock)
    ensures Format("{name}" + (", " + ("{Name}" + (", " + ("{NAME}" + (" " + "{foo}"))))), "ana", phone, clock)
         == "ana" + (", " + ("ana" + (", " + ("ANA" + (" " + "{foo}")))))
  {
    NameTemplateWellFormed();
    NameTemplateText();
    NameTemplateRendered(phone, clock);
    FormatRendersPlaceholders(NameTemplate, "ana", phone, clock);
  }

  /**
   * Without a name and a phone, the name and phone placeholders stay as written
   * while the clock ones are filled in.
   */
  lemma NoNameNoPhoneExample(clock: Clock)
    requires BraceFreeValues("", "", clock)
    ensures Format("{NAME}" + (" " + ("{phone}" + (" " + "{year}"))), "", "", clock)
         == "{NAME}" + (" " + ("{phone}" + (" " + clock.year)))
  {
    NoNameTemplateWellFormed();
    NoNameTemplateText();
    NoNameTemplateRendered(clock);
    FormatRendersPlaceholders(NoNameTemplate, "", "", clock);
  }
}
