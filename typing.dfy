/**
 * How `WhatsAppBot.send_message` types a message into the input box: the text is
 * split on '\n'; each line whose `strip()` is not empty is typed; Shift+Enter
 * (a line break inside the message) follows every line but the last; a final
 * Enter sends the message.
 */
module Typing {
  import opened Text

  /** One `send_keys` call: a line of text, Shift+Enter, or Enter. */
  datatype Key = Type(text: string) | ShiftEnter | Enter

  /** A line the source types: one with a character that is not white space. */
  predicate NonBlank(line: string)
  {
    exists i :: 0 <= i < |line| && !IsSpace(line[i])
  }

  /** `NonBlank` is the source's test: `line.strip()` is not empty. */
  lemma NonBlankIsStripTest(line: string)
    ensures NonBlank(line) <==> Strip(line) != []
  {
    StripEmptyIff(line);
  }

  /** The keys sent for line `i`: its text unless blank, then Shift+Enter unless it is the last line. */
  function LineStep(lines: seq<string>, i: nat): seq<Key>
    requires i < |lines|
  {
    (if NonBlank(lines[i]) then [Type(lines[i])] else [])
    + (if i < |lines| - 1 then [ShiftEnter] else [])
  }

  /** The keys sent for the first `n` of `lines`. */
  function LineKeys(lines: seq<string>, n: nat): seq<Key>
    requires n <= |lines|
  {
    if n == 0 then [] else LineKeys(lines, n - 1) + LineStep(lines, n - 1)
  }

  /** All keys sent for `message`, the final Enter included. */
  function Keystrokes(message: string): seq<Key>
  {
    var lines := Split(message, '\n');
    LineKeys(lines, |lines|) + [Enter]
  }

  /** The texts typed, in order. */
  function Typed(keys: seq<Key>): seq<string>
  {
    if keys == [] then []
    else (if keys[0].Type? then [keys[0].text] else []) + Typed(keys[1..])
  }

  /** The typing loop of the source. */
  method TypeMessage(message: string) returns (keys: seq<Key>)
    ensures keys == Keystrokes(message)
  {
    var lines := Split(message, '\n');
    keys := [];
    for i := 0 to |lines|
      invariant keys == LineKeys(lines, i)
    {
      if NonBlank(lines[i]) {
        keys := keys + [Type(lines[i])];
      }
      if i < |lines| - 1 {
        keys := keys + [ShiftEnter];
      }
    }
    keys := keys + [Enter];
  }

  lemma {:induction false} TypedAppend(a: seq<Key>, b: seq<Key>)
    ensures Typed(a + b) == Typed(a) + Typed(b)
  {
    if a == [] {
      assert a + b == b;
    } else {
      assert (a + b)[0] == a[0] && (a + b)[1..] == a[1..] + b;
      TypedAppend(a[1..], b);
    }
  }

  /** What one line contributes: its text unless blank, and one Shift+Enter unless it is the last. */
  lemma LineStepShape(lines: seq<string>, i: nat)
    requires i < |lines|
    ensures Count(LineStep(lines, i), ShiftEnter) == (if i < |lines| - 1 then 1 else 0)
    ensures Count(LineStep(lines, i), Enter) == 0
    ensures Typed(LineStep(lines, i)) == Filter(NonBlank, [lines[i]])
  {
    var x := lines[i];
    var typed := if NonBlank(x) then [Type(x)] else [];
    var brk := if i < |lines| - 1 then [ShiftEnter] else [];
    CountAppend(typed, brk, ShiftEnter);
    CountAppend(typed, brk, Enter);
    TypedAppend(typed, brk);
    FilterOne(NonBlank, x);
    assert Typed(brk) == [] by {
      if brk != [] {
        assert brk[1..] == [];
      }
    }
    assert Typed(typed) == (if NonBlank(x) then [x] else []) by {
      if typed != [] {
        assert typed[1..] == [];
      }
    }
  }

  /** One Shift+Enter after each of the first `n` lines except the very last line. */
  lemma {:induction false} LineKeysBreaks(lines: seq<string>, n: nat)
    requires 1 <= |lines| && n <= |lines|
    ensures Count(LineKeys(lines, n), ShiftEnter) == (if n < |lines| then n else n - 1)
    ensures Count(LineKeys(lines, n), Enter) == 0
  {
    if n > 0 {
      LineKeysBreaks(lines, n - 1);
      LineStepShape(lines, n - 1);
      CountAppend(LineKeys(lines, n - 1), LineStep(lines, n - 1), ShiftEnter);
      CountAppend(LineKeys(lines, n - 1), LineStep(lines, n - 1), Enter);
    }
  }

  /** The texts typed for the first `n` lines are those of them that are not blank. */
  lemma {:induction false} LineKeysTyped(lines: seq<string>, n: nat)
    requires n <= |lines|
    ensures Typed(LineKeys(lines, n)) == Filter(NonBlank, lines[..n])
  {
    if n > 0 {
      LineKeysTyped(lines, n - 1);
      LineStepShape(lines, n - 1);
      TypedAppend(LineKeys(lines, n - 1), LineStep(lines, n - 1));
      assert lines[..n] == lines[..n - 1] + [lines[n - 1]];
      FilterAppend(NonBlank, lines[..n - 1], [lines[n - 1]]);
    }
  }

  /**
   * The control keys of a message: as many Shift+Enter as the message has
   * newlines, and exactly one Enter, which comes last.
   */
  lemma KeystrokesBreaks(message: string)
    ensures Count(Keystrokes(message), ShiftEnter) == Count(message, '\n')
    ensures Count(Keystrokes(message), Enter) == 1
    ensures Keystrokes(message)[|Keystrokes(message)| - 1] == Enter
  {
    var lines := Split(message, '\n');
    var body := LineKeys(lines, |lines|);
    LineKeysBreaks(lines, |lines|);
    CountAppend(body, [Enter], ShiftEnter);
    CountAppend(body, [Enter], Enter);
    assert [Enter][1..] == [];
  }

  /** The texts typed for a message are exactly its non-blank lines, in order. */
  lemma KeystrokesLines(message: string)
    ensures Typed(Keystrokes(message)) == Filter(NonBlank, Split(message, '\n'))
  {
    var lines := Split(message, '\n');
    var body := LineKeys(lines, |lines|);
    LineKeysTyped(lines, |lines|);
    assert lines[..|lines|] == lines;
    TypedAppend(body, [Enter]);
    assert [Enter][1..] == [];
  }

  /** The text a key puts into the input box: its line, a line break, or nothing for Enter. */
  function KeyText(k: Key): string
  {
    match k
    case Type(t) => t
    case ShiftEnter => "\n"
    case Enter => ""
  }

  /** The text the keys leave in the input box, in order. */
  function Decode(keys: seq<Key>): string
  {
    if keys == [] then [] else KeyText(keys[0]) + Decode(keys[1..])
  }

  lemma {:induction false} DecodeAppend(a: seq<Key>, b: seq<Key>)
    ensures Decode(a + b) == Decode(a) + Decode(b)
  {
    if a == [] {
      assert a + b == b;
    } else {
      assert (a + b)[0] == a[0] && (a + b)[1..] == a[1..] + b;
      DecodeAppend(a[1..], b);
    }
  }

  /** A line as it shows up in the box: itself unless blank, empty if blank. */
  function Shown(line: string): string
  {
    if NonBlank(line) then line else []
  }

  function Blanked(lines: seq<string>): seq<string>
  {
    seq(|lines|, i requires 0 <= i < |lines| => Shown(lines[i]))
  }

  lemma BlankedSnoc(lines: seq<string>, n: nat)
    requires 1 <= n <= |lines|
    ensures Blanked(lines[..n]) == Blanked(lines[..n - 1]) + [Shown(lines[n - 1])]
  {
    var a, b := Blanked(lines[..n]), Blanked(lines[..n - 1]) + [Shown(lines[n - 1])];
    forall i | 0 <= i < n ensures a[i] == b[i] {
      if i < n - 1 {
        assert lines[..n][i] == lines[..n - 1][i];
      }
    }
  }

  lemma Regroup(j: string, x: string, t: string)
    ensures (j + "\n") + (x + t) == j + ['\n'] + x + t
  {
  }

  /** One line leaves its shown text, then a line break unless it is the last line. */
  lemma DecodeLineStep(lines: seq<string>, i: nat)
    requires i < |lines|
    ensures Decode(LineStep(lines, i)) == Shown(lines[i]) + (if i < |lines| - 1 then "\n" else "")
  {
    var typed := if NonBlank(lines[i]) then [Type(lines[i])] else [];
    var brk := if i < |lines| - 1 then [ShiftEnter] else [];
    DecodeAppend(typed, brk);
    assert Decode(typed) == Shown(lines[i]) by {
      if typed != [] {
        assert typed[1..] == [];
      }
    }
    assert Decode(brk) == (if i < |lines| - 1 then "\n" else "") by {
      if brk != [] {
        assert brk[1..] == [];
      }
    }
  }

  /**
   * The first `n` lines leave their shown texts joined by line breaks, with one
   * more line break when a line follows: each break comes right after its line.
   */
  lemma {:induction false} DecodeLineKeys(lines: seq<string>, n: nat)
    requires 1 <= n <= |lines|
    ensures Decode(LineKeys(lines, n)) == Join(Blanked(lines[..n]), '\n') + (if n < |lines| then "\n" else "")
  {
    DecodeLineStep(lines, n - 1);
    var tail := if n < |lines| then "\n" else "";
    if n == 1 {
      assert LineKeys(lines, 1) == LineStep(lines, 0) by {
        assert [] + LineStep(lines, 0) == LineStep(lines, 0);
      }
      assert Blanked(lines[..1]) == [Shown(lines[0])];
      assert Join([Shown(lines[0])], '\n') == Shown(lines[0]);
    } else {
      DecodeLineKeys(lines, n - 1);
      DecodeAppend(LineKeys(lines, n - 1), LineStep(lines, n - 1));
      var front, x := Blanked(lines[..n - 1]), Shown(lines[n - 1]);
      BlankedSnoc(lines, n);
      JoinSnoc(front, x, '\n');
      var j := Join(front, '\n');
      assert Decode(LineKeys(lines, n)) == (j + "\n") + (x + tail);
      Regroup(j, x, tail);
    }
  }

  /**
   * The text the keystrokes of a message leave is the message with its blank
   * lines emptied: the line breaks stay where they were.
   */
  lemma KeystrokesDecode(message: string)
    ensures Decode(Keystrokes(message)) == Join(Blanked(Split(message, '\n')), '\n')
  {
    var lines := Split(message, '\n');
    DecodeLineKeys(lines, |lines|);
    assert lines[..|lines|] == lines;
    DecodeAppend(LineKeys(lines, |lines|), [Enter]);
    assert [Enter][1..] == [];
  }

  /** A message without blank but non-empty lines is typed exactly as written. */
  lemma KeystrokesRoundTrip(message: string)
    requires forall i :: 0 <= i < |Split(message, '\n')| ==>
      Split(message, '\n')[i] == [] || NonBlank(Split(message, '\n')[i])
    ensures Decode(Keystrokes(message)) == message
  {
    var lines := Split(message, '\n');
    KeystrokesDecode(message);
    assert Blanked(lines) == lines;
    JoinSplit(message, '\n');
  }

  /** A typed line never holds a newline: every line break is a Shift+Enter. */
  lemma TypedLinesHaveNoNewline(message: string, i: nat)
    requires i < |Typed(Keystrokes(message))|
    ensures '\n' !in Typed(Keystrokes(message))[i]
  {
    KeystrokesLines(message);
    var kept := Filter(NonBlank, Split(message, '\n'));
    FilterCounts(NonBlank, Split(message, '\n'), kept[i]);
    assert kept[i] in multiset(kept);
  }
}
