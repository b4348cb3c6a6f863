/**
 * The `__main__` block of `whatsapp_bot.py`: choose the message template, load
 * the contacts (Google Sheet first when credentials exist, a CSV file only when
 * the sheet gave `None`), then send to every row with a usable phone and name,
 * counting the successful sends; the summary is reported over all rows.
 *
 * Files, the sheet service, the clock and the browser are inputs: whether a
 * file exists, what a read returned (`None` for a failed read), the clock strings
 * each formatting call sees, and the browser's behaviour for each row's chat.
 */
module Dispatch {
  import opened Wrappers
  import opened Text
  import opened Sanitizer
  import opened Template
  import opened Typing
  import opened Sender

  /** A contact row: column header to cell text. */
  type Row = map<string, string>

  /** `str(row.get(key, '')).strip()`. */
  function Cell(row: Row, key: string): string
  {
    Strip(if key in row then row[key] else "")
  }

  /** A row is sent to: stripped phone and name are not empty and the phone is not "nan". */
  predicate IsValid(row: Row)
  {
    Cell(row, "Phone") != "" && Cell(row, "Name") != "" && Cell(row, "Phone") != "nan"
  }

  /** The inputs from outside that the sends consult, per row index. */
  datatype World = World(normalize: string -> Option<string>, clocks: nat -> Clock, pages: nat -> Page)

  /**
   * One attempted row: its index, the stripped name and phone, the clock the
   * formatting read and whether the send succeeded.
   */
  datatype Attempt = Attempt(row: nat, name: string, phone: string, clock: Clock, sent: bool)

  /** The attempt the source makes for row `i`. */
  function AttemptFor(data: seq<Row>, i: nat, world: World): Attempt
    requires i < |data|
  {
    Attempt(i, Cell(data[i], "Name"), Cell(data[i], "Phone"), world.clocks(i), Delivers(world.pages(i)))
  }

  /** The message personalised for an attempt. */
  function Personalised(message: string, a: Attempt): string
  {
    Format(message, a.name, a.phone, a.clock)
  }

  /** What is typed for an attempt: the keystrokes of the sanitized personalised message, if it was sent. */
  function TypedFor(message: string, a: Attempt, normalize: string -> Option<string>): seq<Key>
  {
    if a.sent then Keystrokes(Sanitize(Personalised(message, a), normalize)) else []
  }

  /** The indices of the rows among the first `n` that `keep` holds of, in order. */
  function RowsWhere(data: seq<Row>, n: nat, keep: Row -> bool): (rows: seq<nat>)
    requires n <= |data|
    ensures |rows| <= n
    ensures forall k :: 0 <= k < |rows| ==> rows[k] < n
  {
    if n == 0 then [] else RowsWhere(data, n - 1, keep) + (if keep(data[n - 1]) then [n - 1] else [])
  }

  /** Strictly increasing, so without repeats. */
  predicate Increasing(rows: seq<nat>)
  {
    forall k, l :: 0 <= k < l < |rows| ==> rows[k] < rows[l]
  }

  /**
   * The rows picked are exactly those among the first `n` that `keep` holds of,
   * in increasing order, so none twice.
   */
  lemma {:induction false} RowsWhereExactly(data: seq<Row>, n: nat, keep: Row -> bool)
    requires n <= |data|
    ensures forall i: nat :: i in RowsWhere(data, n, keep) <==> i < n && keep(data[i])
    ensures Increasing(RowsWhere(data, n, keep))
  {
    if n > 0 {
      RowsWhereExactly(data, n - 1, keep);
      var before := RowsWhere(data, n - 1, keep);
      var rows := RowsWhere(data, n, keep);
      if keep(data[n - 1]) {
        assert rows == before + [n - 1];
        forall k, l | 0 <= k < l < |rows| ensures rows[k] < rows[l] {
          assert rows[k] == before[k];
          if l < |before| {
            assert rows[l] == before[l];
          } else {
            assert rows[l] == n - 1;
            assert before[k] < n - 1;
          }
        }
      } else {
        assert rows == before;
      }
    }
  }

  /** The attempts the loop makes over the first `n` rows: one per valid row, as they come. */
  function Plan(data: seq<Row>, n: nat, world: World): seq<Attempt>
    requires n <= |data|
  {
    if n == 0 then [] else Plan(data, n - 1, world) + (if IsValid(data[n - 1]) then [AttemptFor(data, n - 1, world)] else [])
  }

  /** The plan is one attempt per row that `RowsWhere` selects as valid, in that order. */
  lemma {:induction false} PlanRows(data: seq<Row>, n: nat, world: World)
    requires n <= |data|
    ensures |Plan(data, n, world)| == |RowsWhere(data, n, IsValid)|
    ensures forall k :: 0 <= k < |Plan(data, n, world)| ==>
      Plan(data, n, world)[k] == AttemptFor(data, RowsWhere(data, n, IsValid)[k], world)
  {
    if n > 0 {
      PlanRows(data, n - 1, world);
      var before, log := Plan(data, n - 1, world), Plan(data, n, world);
      var rows := RowsWhere(data, n, IsValid);
      forall k | 0 <= k < |log| ensures log[k] == AttemptFor(data, rows[k], world) {
        if k < |before| {
          assert log[k] == before[k] && rows[k] == RowsWhere(data, n - 1, IsValid)[k];
        }
      }
    }
  }

  /** Number of attempts that sent their message, counted as the log grows. */
  function Successes(log: seq<Attempt>): nat
  {
    if log == [] then 0 else Successes(log[..|log| - 1]) + (if log[|log| - 1].sent then 1 else 0)
  }

  /**
   * One pass of the send loop: row `i` is sent to exactly when it is valid, with
   * the message personalised for it.
   */
  method SendRow(data: seq<Row>, i: nat, message: string, world: World)
    returns (attempt: Option<Attempt>, keys: seq<Key>)
    requires i < |data|
    ensures attempt.Some? <==> IsValid(data[i])
    ensures attempt.Some? ==> attempt.value == AttemptFor(data, i, world)
    ensures keys == if attempt.Some? then TypedFor(message, attempt.value, world.normalize) else []
  {
    attempt, keys := None, [];
    var phone := Cell(data[i], "Phone");
    var name := Cell(data[i], "Name");
    if phone != "" && name != "" && phone != "nan" {
      var text := Format(message, name, phone, world.clocks(i));
      var ok, url, rounds;
      ok, url, rounds, keys := SendMessage(phone, text, world.normalize, world.pages(i));
      attempt := Some(Attempt(i, name, phone, world.clocks(i), ok));
    }
  }

  /**
   * What the send loop has done after the first `n` rows: `log` holds the attempts
   * made, `successful` counts those that sent, and `typed` holds the keystrokes
   * each attempt typed.
   */
  predicate Tallied(data: seq<Row>, n: nat, message: string, world: World,
                    successful: nat, log: seq<Attempt>, typed: seq<seq<Key>>)
    requires n <= |data|
  {
    && log == Plan(data, n, world)
    && successful == Successes(log)
    && |typed| == |log|
    && forall k {:trigger typed[k]} :: 0 <= k < |typed| ==> typed[k] == TypedFor(message, log[k], world.normalize)
  }

  /** One pass of the send loop: row `i` is sent to when it is valid, and the tally is kept. */
  method SendNext(data: seq<Row>, i: nat, message: string, world: World,
                  successful: nat, log: seq<Attempt>, typed: seq<seq<Key>>)
    returns (successful': nat, log': seq<Attempt>, typed': seq<seq<Key>>)
    requires i < |data| && Tallied(data, i, message, world, successful, log, typed)
    ensures Tallied(data, i + 1, message, world, successful', log', typed')
  {
    var attempt, keys := SendRow(data, i, message, world);
    TallyStep(data, i, message, world, successful, log, typed, attempt, keys);
    successful', log', typed' := successful, log, typed;
    if attempt.Some? {
      if attempt.value.sent {
        successful' := successful + 1;
      }
      log', typed' := log + [attempt.value], typed + [keys];
    }
  }

  /**
   * The send loop: `successful` is the source's `successful_sends`, `log` the
   * attempts made, one per valid row in row order, and `typed` the keystrokes
   * each attempt typed.
   */
  method SendAll(data: seq<Row>, message: string, world: World)
    returns (successful: nat, log: seq<Attempt>, typed: seq<seq<Key>>)
    ensures log == Plan(data, |data|, world)
    ensures successful == Successes(log)
    ensures |typed| == |log|
    ensures forall k {:trigger typed[k]} :: 0 <= k < |typed| ==> typed[k] == TypedFor(message, log[k], world.normalize)
  {
    successful, log, typed := 0, [], [];
    for i := 0 to |data|
      invariant Tallied(data, i, message, world, successful, log, typed)
    {
      successful, log, typed := SendNext(data, i, message, world, successful, log, typed);
    }
  }

  /**
   * The bookkeeping of one pass of the send loop: a valid row's attempt and
   * keystrokes are appended and the counter grows by one exactly when the send
   * succeeded; an invalid row changes nothing.
   */
  lemma TallyStep(data: seq<Row>, i: nat, message: string, world: World,
                  successful: nat, log: seq<Attempt>, typed: seq<seq<Key>>,
                  attempt: Option<Attempt>, keys: seq<Key>)
    requires i < |data| && Tallied(data, i, message, world, successful, log, typed)
    requires attempt.Some? <==> IsValid(data[i])
    requires attempt.Some? ==> attempt.value == AttemptFor(data, i, world)
    requires attempt.Some? ==> keys == TypedFor(message, attempt.value, world.normalize)
    ensures attempt.None? ==> Tallied(data, i + 1, message, world, successful, log, typed)
    ensures attempt.Some? ==>
      Tallied(data, i + 1, message, world, successful + (if attempt.value.sent then 1 else 0),
              log + [attempt.value], typed + [keys])
  {
    if attempt.Some? {
      var log', typed' := log + [attempt.value], typed + [keys];
      assert log'[..|log|] == log;
      forall k | 0 <= k < |typed'| ensures typed'[k] == TypedFor(message, log'[k], world.normalize) {
        if k < |typed| {
          assert typed'[k] == typed[k] && log'[k] == log[k];
        }
      }
    }
  }

  /**
   * Every attempt is for a valid row and carries that row's stripped name and
   * phone, the clock its formatting read and whether its send succeeds.
   */
  lemma PlanAttemptsValidRows(data: seq<Row>, world: World)
    ensures forall a <- Plan(data, |data|, world) ::
      && a.row < |data| && IsValid(data[a.row])
      && a.name == Cell(data[a.row], "Name") && a.phone == Cell(data[a.row], "Phone")
      && a.clock == world.clocks(a.row) && a.sent == Delivers(world.pages(a.row))
  {
    RowsWhereExactly(data, |data|, IsValid);
    PlanRows(data, |data|, world);
  }

  /** Rows are attempted in increasing order, so none twice, and every valid row is attempted. */
  lemma PlanCoversValidRows(data: seq<Row>, world: World)
    ensures var log := Plan(data, |data|, world);
      && (forall k, l :: 0 <= k < l < |log| ==> log[k].row < log[l].row)
      && (forall i :: 0 <= i < |data| && IsValid(data[i]) ==> exists k :: 0 <= k < |log| && log[k].row == i)
  {
    var log := Plan(data, |data|, world);
    var rows := RowsWhere(data, |data|, IsValid);
    RowsWhereExactly(data, |data|, IsValid);
    PlanRows(data, |data|, world);
    assert forall k :: 0 <= k < |log| ==> log[k].row == rows[k];
    forall i | 0 <= i < |data| && IsValid(data[i]) ensures exists k :: 0 <= k < |log| && log[k].row == i {
      assert i in rows;
      var k :| 0 <= k < |rows| && rows[k] == i;
      assert log[k].row == i;
    }
  }

  /** No more successes than attempts. */
  lemma {:induction false} SuccessesBound(log: seq<Attempt>)
    ensures Successes(log) <= |log|
  {
    if log != [] {
      SuccessesBound(log[..|log| - 1]);
    }
  }

  /** Successful sends are at most the rows attempted, which are at most the rows read. */
  lemma PlanBounds(data: seq<Row>, n: nat, world: World)
    requires n <= |data|
    ensures Successes(Plan(data, n, world)) <= |Plan(data, n, world)| <= n
  {
    SuccessesBound(Plan(data, n, world));
  }

  /** With every row valid, the first three rows are attempted in order. */
  lemma PlanOfThreeValid(data: seq<Row>, world: World)
    requires |data| >= 3
    requires IsValid(data[0]) && IsValid(data[1]) && IsValid(data[2])
    ensures Plan(data, 3, world)
         == [AttemptFor(data, 0, world), AttemptFor(data, 1, world), AttemptFor(data, 2, world)]
  {
    assert Plan(data, 1, world) == [AttemptFor(data, 0, world)];
    assert Plan(data, 2, world) == [AttemptFor(data, 0, world), AttemptFor(data, 1, world)];
  }

  /**
   * Three valid contacts where the second send fails and the others succeed:
   * all three are attempted and two sends succeed.
   */
  lemma TwoOfThree(data: seq<Row>, world: World)
    requires |data| == 3
    requires IsValid(data[0]) && IsValid(data[1]) && IsValid(data[2])
    requires Delivers(world.pages(0)) && !Delivers(world.pages(1)) && Delivers(world.pages(2))
    ensures |Plan(data, 3, world)| == 3
    ensures Successes(Plan(data, 3, world)) == 2
    ensures !Plan(data, 3, world)[1].sent
  {
    PlanOfThreeValid(data, world);
    var log := Plan(data, 3, world);
    assert log[0].sent && !log[1].sent && log[2].sent;
    SuccessesOfThree(log);
  }

  lemma SuccessesOfThree(log: seq<Attempt>)
    requires |log| == 3
    ensures Successes(log) == (if log[0].sent then 1 else 0) + (if log[1].sent then 1 else 0) + (if log[2].sent then 1 else 0)
  {
    var front := log[..2];
    assert front[..1][..0] == [] && front[..1][0] == log[0] && front[1] == log[1];
    assert Successes(front[..1]) == if log[0].sent then 1 else 0;
  }

  /** The contact sources of the source, in the order they are preferred. */
  datatype Source = Sheet | ContactsCsv | ExampleCsv

  /**
   * What the start-up finds: whether `credentials.json`, `contacts.csv` and
   * `examples/contacts_example.csv` exist, and what reading the sheet and each CSV
   * file would return (`None` for a failed read).
   */
  datatype Store = Store(
    credentialsExist: bool, sheet: Option<seq<Row>>,
    contactsCsvExists: bool, contactsCsv: Option<seq<Row>>,
    exampleCsvExists: bool, exampleCsv: Option<seq<Row>>)

  /**
   * The contacts the start-up ends with: the sheet when credentials exist and it
   * gave a list (possibly empty), otherwise the first CSV file that exists.
   */
  function Loaded(store: Store): Option<seq<Row>>
  {
    if store.credentialsExist && store.sheet.Some? then store.sheet
    else if store.contactsCsvExists then store.contactsCsv
    else if store.exampleCsvExists then store.exampleCsv
    else None
  }

  /**
   * Loading the contacts. `read` lists the sources read, in order. The sheet is
   * read exactly when credentials exist; a CSV file is read exactly when the sheet
   * gave `None` (an empty sheet does not count as failure) and a CSV file exists,
   * `contacts.csv` in preference to the example file; `data` is what the last
   * read returned.
   */
  method LoadContacts(store: Store) returns (data: Option<seq<Row>>, read: seq<Source>)
    ensures data == Loaded(store)
    ensures |read| <= 2
    ensures Sheet in read <==> store.credentialsExist
    ensures (ContactsCsv in read || ExampleCsv in read)
        <==> (!store.credentialsExist || store.sheet.None?) && (store.contactsCsvExists || store.exampleCsvExists)
    ensures ContactsCsv in read ==> store.contactsCsvExists && ExampleCsv !in read
    ensures ExampleCsv in read ==> !store.contactsCsvExists && store.exampleCsvExists
    ensures store.credentialsExist && store.sheet.Some? ==> data == store.sheet
    ensures ContactsCsv in read ==> data == store.contactsCsv
    ensures ExampleCsv in read ==> data == store.exampleCsv
    ensures read == [] || read == [Sheet] ==> data.None? || data == store.sheet
    ensures read == [] ==> data.None?
  {
    data, read := None, [];
    if store.credentialsExist {
      data, read := store.sheet, [Sheet];
    }
    if data.None? {
      var csv := if store.contactsCsvExists then ContactsCsv else ExampleCsv;
      var present := if csv == ContactsCsv then store.contactsCsvExists else store.exampleCsvExists;
      if present {
        data := if csv == ContactsCsv then store.contactsCsv else store.exampleCsv;
        read := read + [csv];
      }
    }
  }

  /** The message used when neither template file can be read. */
  const DefaultMessage := "Hello! \n" + "This is an automated message " + "sent via Python + Selenium.\n"
    + "\nBest regards,\n" + "Your WhatsApp Bot"

  lemma AllBmpAppend(s: string, t: string)
    requires AllBmp(s) && AllBmp(t)
    ensures AllBmp(s + t)
  {
    forall i | 0 <= i < |s + t| ensures InBmp((s + t)[i]) {
      if i >= |s| {
        assert (s + t)[i] == t[i - |s|];
      }
    }
  }

  /** The built-in message is inside the BMP (it is plain ASCII). */
  lemma DefaultMessageInBmp()
    ensures AllBmp(DefaultMessage)
  {
    var a, b, c := "Hello! \n", "This is an automated message ", "sent via Python + Selenium.\n";
    var d, e := "\nBest regards,\n", "Your WhatsApp Bot";
    OpeningInBmp();
    assert AllBmp(d) && AllBmp(e);
    AllBmpAppend(a + b + c, d);
    AllBmpAppend(a + b + c + d, e);
  }

  lemma OpeningInBmp()
    ensures AllBmp("Hello! \n" + "This is an automated message " + "sent via Python + Selenium.\n")
  {
    var a, b, c := "Hello! \n", "This is an automated message ", "sent via Python + Selenium.\n";
    assert AllBmp(a) && AllBmp(b) && AllBmp(c);
    AllBmpAppend(a, b);
    AllBmpAppend(a + b, c);
  }

  /**
   * The template chosen: `templates/message.txt` if it could be read, else
   * `templates/message_no_emoji.txt`, else the built-in message. A file's content
   * is sanitized on reading; either way the template is inside the BMP.
   */
  function ChosenTemplate(primary: Option<string>, fallback: Option<string>, normalize: string -> Option<string>)
    : (r: string)
    ensures AllBmp(r)
  {
    if primary.Some? then Sanitize(primary.value, normalize)
    else if fallback.Some? then Sanitize(fallback.value, normalize)
    else DefaultMessageInBmp(); DefaultMessage
  }

  /** Reading the template files in turn, as the start-up does. */
  method LoadMessage(primary: Option<string>, fallback: Option<string>, normalize: string -> Option<string>)
    returns (message: string)
    ensures message == ChosenTemplate(primary, fallback, normalize)
    ensures primary.Some? ==> message == Sanitize(primary.value, normalize)
    ensures primary.None? && fallback.Some? ==> message == Sanitize(fallback.value, normalize)
    ensures primary.None? && fallback.None? ==> message == DefaultMessage
    ensures AllBmp(message)
  {
    if primary.Some? {
      message := Sanitize(primary.value, normalize);
    } else if fallback.Some? {
      message := Sanitize(fallback.value, normalize);
    } else {
      message := DefaultMessage;
      DefaultMessageInBmp();
    }
  }

  /** The printed summary: successful sends over the number of rows read. */
  datatype Summary = Summary(sent: nat, total: nat)

  /**
   * The whole run. A summary is produced exactly when the contacts loaded are a
   * non-empty list; the attempts are then the plan for those rows, each typing
   * the chosen template personalised for its row, and the summary counts the
   * successful sends over all rows read, valid or not.
   */
  method Run(primary: Option<string>, fallback: Option<string>, store: Store, world: World)
    returns (summary: Option<Summary>, log: seq<Attempt>, typed: seq<seq<Key>>)
    ensures summary.Some? <==> Loaded(store).Some? && |Loaded(store).value| > 0
    ensures summary.None? ==> log == [] && typed == []
    ensures |typed| == |log|
    ensures forall k :: 0 <= k < |typed| ==>
      typed[k] == TypedFor(ChosenTemplate(primary, fallback, world.normalize), log[k], world.normalize)
    ensures summary.Some? ==>
      && log == Plan(Loaded(store).value, |Loaded(store).value|, world)
      && summary.value == Summary(Successes(log), |Loaded(store).value|)
    ensures summary.Some? ==> summary.value.sent <= |log| <= summary.value.total
  {
    var message := LoadMessage(primary, fallback, world.normalize);
    var data, read := LoadContacts(store);
    if data.Some? && |data.value| > 0 {
      var successful;
      successful, log, typed := SendAll(data.value, message, world);
      PlanBounds(data.value, |data.value|, world);
      summary := Some(Summary(successful, |data.value|));
    } else {
      summary, log, typed := None, [], [];
    }
  }
}
