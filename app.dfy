/** The POST branch of the web form: read the reminder settings and the title prefix, then
    create one weekly event per usable timetable row, in order, inside a single try block. */
module App {
  import opened Results
  import opened Text
  import opened Dates
  import opened GoogleCalendar

  const DefaultRemindValue := 10
  const DefaultUnit := "phút"
  const DefaultMethod := "popup"
  const HourUnit := "giờ"
  const DayUnit := "ngày"

  /** Minutes per unit for the units the form converts; every other unit counts as minutes. */
  const UnitMinutes: map<string, int> := map[HourUnit := 60, DayUnit := 1440]

  /** The form fields remind_value, remind_unit, remind_method and prefix; None is a field
      the browser did not send. remind_value is already an integer. */
  datatype Form = Form(
    remindValue: Option<int>,
    remindUnit: Option<string>,
    remindMethod: Option<string>,
    prefix: Option<string>)

  /** One row as doc_tkb returns it: mon, phong, giang_vien, ngay_bat_dau, ngay_ket_thuc,
      thu, gio_bd and gio_kt. A blank time cell is None and a blank weekday cell is 0. */
  datatype Row = Row(
    subject: string,
    room: string,
    instructor: string,
    startDate: Date,
    endDate: Date,
    weekday: int,
    startTime: Option<Time>,
    endTime: Option<Time>)

  /** The message the request ends with: the success flash, or the error flash with the
      exception that stopped the try block. */
  datatype Outcome = Scheduled | Failed(error: Error)

  // ---------------------------------------------------------------------------
  // Form defaults and the reminder list
  // ---------------------------------------------------------------------------

  /** A form field: the value the browser sent, or the default when it sent none. */
  function FormValue<T>(field: Option<T>, default: T): (v: T)
    ensures field.Some? ==> v == field.value
    ensures field.None? ==> v == default
  {
    if field.Some? then field.value else default
  }

  /** A reminder value read in `unit`, converted to minutes. */
  function Minutes(value: int, unit: string): int {
    if unit in UnitMinutes then value * UnitMinutes[unit] else value
  }

  /** Hours count 60 minutes, days 1440, and any other unit, the default included, leaves the
      value as it is; a day is 24 hours. */
  lemma MinutesByUnit(value: int, unit: string)
    ensures unit == HourUnit ==> Minutes(value, unit) == 60 * value
    ensures unit == DayUnit ==> Minutes(value, unit) == 1440 * value
    ensures unit != HourUnit && unit != DayUnit ==> Minutes(value, unit) == value
    ensures Minutes(value, DefaultUnit) == value
    ensures Minutes(value, DayUnit) == Minutes(24 * value, HourUnit)
  {
    assert HourUnit != DayUnit by {
      assert HourUnit[0] != DayUnit[0];
    }
    assert DefaultUnit != HourUnit && DefaultUnit != DayUnit by {
      assert DefaultUnit[0] == 'p';
    }
  }

  /** The one-element reminder list every created event gets: the method sent (popup when
      none is), and the value sent (10 when none is) counted in minutes: an hour unit
      multiplies it by 60, a day unit by 1440, and a missing or any other unit keeps it. */
  function ReminderList(form: Form): (r: seq<Reminder>)
    ensures |r| == 1
    ensures form.remindMethod.None? ==> r[0].kind == DefaultMethod
    ensures form.remindMethod.Some? ==> r[0].kind == form.remindMethod.value
    ensures form.remindUnit == Some(HourUnit) ==> r[0].minutes == 60 * FormValue(form.remindValue, DefaultRemindValue)
    ensures form.remindUnit == Some(DayUnit) ==> r[0].minutes == 1440 * FormValue(form.remindValue, DefaultRemindValue)
    ensures form.remindUnit != Some(HourUnit) && form.remindUnit != Some(DayUnit) ==>
      r[0].minutes == FormValue(form.remindValue, DefaultRemindValue)
    ensures form == Form(None, None, None, None) ==> r == [Reminder("popup", 10)]
  {
    var value := FormValue(form.remindValue, DefaultRemindValue);
    var unit := FormValue(form.remindUnit, DefaultUnit);
    MinutesByUnit(value, unit);
    [Reminder(FormValue(form.remindMethod, DefaultMethod), Minutes(value, unit))]
  }

  /** With no fields sent, the reminder is a popup ten minutes ahead and the prefix is [TKB]. */
  lemma EmptyFormDefaults()
    ensures ReminderList(Form(None, None, None, None)) == [Reminder("popup", 10)]
    ensures FormValue(Form(None, None, None, None).prefix, DefaultPrefix) == "[TKB]"
  {
    MinutesByUnit(10, DefaultUnit);
  }

  /** The form handling before the try block: read the fields with their defaults and
      convert the reminder value to minutes in place. */
  method ReadForm(form: Form) returns (remindValue: int, remindMethod: string, prefix: string)
    ensures [Reminder(remindMethod, remindValue)] == ReminderList(form)
    ensures prefix == FormValue(form.prefix, DefaultPrefix)
  {
    remindValue := if form.remindValue.Some? then form.remindValue.value else DefaultRemindValue;
    var remindUnit := if form.remindUnit.Some? then form.remindUnit.value else DefaultUnit;
    remindMethod := if form.remindMethod.Some? then form.remindMethod.value else DefaultMethod;
    prefix := if form.prefix.Some? then form.prefix.value else DefaultPrefix;
    MinutesByUnit(remindValue, remindUnit);
    if remindUnit == HourUnit {
      remindValue := remindValue * 60;
    } else if remindUnit == DayUnit {
      remindValue := remindValue * 1440;
    }
  }

  // ---------------------------------------------------------------------------
  // The rows the loop submits
  // ---------------------------------------------------------------------------

  /** The loop passes over a row whose start time or end time is blank or whose weekday is 0. */
  predicate Skipped(row: Row) {
    row.startTime.None? || row.endTime.None? || row.weekday == 0
  }

  /** The arguments a usable row passes to tao_su_kien, field for field. */
  function LessonOf(row: Row): (l: Lesson)
    requires !Skipped(row)
  {
    Lesson(row.subject, row.room, row.instructor, row.startDate, row.endDate, row.weekday,
           row.startTime.value, row.endTime.value)
  }

  /** The lessons of the rows that are not skipped, in row order. */
  function Kept(rows: seq<Row>): seq<Lesson> {
    if rows == [] then []
    else (if Skipped(rows[0]) then [] else [LessonOf(rows[0])]) + Kept(rows[1..])
  }

  lemma {:induction false} KeptAppend(a: seq<Row>, b: seq<Row>)
    ensures Kept(a + b) == Kept(a) + Kept(b)
  {
    if a == [] {
      assert a + b == b;
    } else {
      assert (a + b)[1..] == a[1..] + b;
      KeptAppend(a[1..], b);
    }
  }

  /** Every usable row has its lesson in the list the loop submits from, and every lesson in
      that list comes from a usable row; no more lessons than rows; no lesson when every row
      is skipped. */
  lemma {:induction false} KeptRows(rows: seq<Row>)
    ensures |Kept(rows)| <= |rows|
    ensures forall i :: 0 <= i < |rows| && !Skipped(rows[i]) ==> LessonOf(rows[i]) in Kept(rows)
    ensures forall l :: l in Kept(rows) ==> exists i :: 0 <= i < |rows| && !Skipped(rows[i]) && LessonOf(rows[i]) == l
    ensures (forall i :: 0 <= i < |rows| ==> Skipped(rows[i])) ==> Kept(rows) == []
  {
    if rows != [] {
      KeptRows(rows[1..]);
      var head := if Skipped(rows[0]) then [] else [LessonOf(rows[0])];
      assert Kept(rows) == head + Kept(rows[1..]);
      forall i | 0 <= i < |rows| && !Skipped(rows[i])
        ensures LessonOf(rows[i]) in Kept(rows)
      {
        if i > 0 {
          assert rows[1..][i - 1] == rows[i];
        }
      }
      forall l | l in Kept(rows)
        ensures exists i :: 0 <= i < |rows| && !Skipped(rows[i]) && LessonOf(rows[i]) == l
      {
        if l !in head {
          var i :| 0 <= i < |rows[1..]| && !Skipped(rows[1..][i]) && LessonOf(rows[1..][i]) == l;
          assert rows[i + 1] == rows[1..][i];
        }
      }
      if forall i :: 0 <= i < |rows| ==> Skipped(rows[i]) {
        assert forall i :: 0 <= i < |rows[1..]| ==> Skipped(rows[1..][i]) by {
          forall i | 0 <= i < |rows[1..]|
            ensures Skipped(rows[1..][i])
          {
            assert rows[1..][i] == rows[i + 1];
          }
        }
      }
    }
  }

  // ---------------------------------------------------------------------------
  // The creation loop
  // ---------------------------------------------------------------------------

  /** tao_su_kien up to its insert call, for the reminder list and prefix of one request. */
  function Translator(reminders: seq<Reminder>, prefix: string): Lesson -> Result<Event> {
    lesson => EventSpec(lesson, Some(reminders), prefix)
  }

  /** The event built for each lesson, or the exception raised before inserting it. */
  function Translations(lessons: seq<Lesson>, translate: Lesson -> Result<Event>): (r: seq<Result<Event>>)
    ensures |r| == |lessons|
  {
    if lessons == [] then []
    else [translate(lessons[0])] + Translations(lessons[1..], translate)
  }

  lemma {:induction false} TranslationsAt(lessons: seq<Lesson>, translate: Lesson -> Result<Event>)
    ensures forall i :: 0 <= i < |lessons| ==> Translations(lessons, translate)[i] == translate(lessons[i])
  {
    if lessons != [] {
      TranslationsAt(lessons[1..], translate);
      forall i | 1 <= i < |lessons|
        ensures Translations(lessons, translate)[i] == translate(lessons[i])
      {
        assert lessons[1..][i - 1] == lessons[i];
      }
    }
  }

  lemma {:induction false} TranslationsAppend(a: seq<Lesson>, b: seq<Lesson>, translate: Lesson -> Result<Event>)
    ensures Translations(a + b, translate) == Translations(a, translate) + Translations(b, translate)
  {
    if a == [] {
      assert a + b == b;
    } else {
      assert (a + b)[0] == a[0] && (a + b)[1..] == a[1..] + b;
      TranslationsAppend(a[1..], b, translate);
    }
  }

  /** What the loop leaves behind: the events inserted, in order, the exception that ended
      the try block (None when every lesson was created), and how many requests it made. */
  datatype Run = Run(created: seq<Event>, failure: Option<Error>, requests: nat)

  /** The loop over the translated lessons, with request numbers from `request` on: each
      event is inserted in turn, and the first exception, from a translation or from a
      refused insert, ends the loop; later lessons are never submitted. */
  function Sync(translated: seq<Result<Event>>, request: nat, refusals: set<nat>): Run {
    if translated == [] then Run([], None, 0)
    else match translated[0]
      case Err(e) => Run([], Some(e), 0)
      case Ok(event) =>
        if request in refusals then Run([], Some(GatewayError), 1)
        else
          var rest := Sync(translated[1..], request + 1, refusals);
          Run([event] + rest.created, rest.failure, rest.requests + 1)
  }

  /** The loop the handler runs over the uploaded rows. */
  function SyncRows(rows: seq<Row>, reminders: seq<Reminder>, prefix: string, request: nat, refusals: set<nat>): Run {
    Sync(Translations(Kept(rows), Translator(reminders, prefix)), request, refusals)
  }

  /** The loop creates the events of the first lessons, one per lesson and in order, each
      accepted on its own request. With no failure it created them all, one request each.
      Otherwise the lesson right after the created ones failed: either its own translation
      raised (no request made) or its insert was refused (one request made). */
  lemma {:induction false} SyncOutcome(translated: seq<Result<Event>>, request: nat, refusals: set<nat>)
    ensures
      var run := Sync(translated, request, refusals);
      |run.created| <= |translated| &&
      (forall i :: 0 <= i < |run.created| ==> translated[i] == Ok(run.created[i])) &&
      Accepted(refusals, request, |run.created|) &&
      (run.failure.None? ==> |run.created| == |translated| && run.requests == |translated|) &&
      (run.failure.Some? ==>
        |run.created| < |translated| &&
        var failing := translated[|run.created|];
        (failing.Err? ==> run.failure == Some(failing.error) && run.requests == |run.created|) &&
        (failing.Ok? ==>
          run.failure == Some(GatewayError) && request + |run.created| in refusals &&
          run.requests == |run.created| + 1))
  {
    if translated != [] && translated[0].Ok? && request !in refusals {
      var rest := Sync(translated[1..], request + 1, refusals);
      SyncOutcome(translated[1..], request + 1, refusals);
      var run := Sync(translated, request, refusals);
      assert run.created == [translated[0].value] + rest.created;
      forall i | 0 <= i < |run.created|
        ensures translated[i] == Ok(run.created[i])
      {
        if i > 0 {
          assert translated[1..][i - 1] == translated[i];
        }
      }
      if run.failure.Some? {
        assert translated[1..][|rest.created|] == translated[|run.created|];
      }
    }
  }

  /** The try block completes exactly when every lesson translates and every insert is
      accepted. */
  lemma SyncSucceeds(translated: seq<Result<Event>>, request: nat, refusals: set<nat>)
    ensures Sync(translated, request, refusals).failure.None? <==>
      (forall i :: 0 <= i < |translated| ==> translated[i].Ok?) && Accepted(refusals, request, |translated|)
  {
    SyncOutcome(translated, request, refusals);
  }

  /** Running the loop over `a + b` is running it over `a` and, if that completed, over `b`
      with the following request numbers. */
  lemma {:induction false} SyncSplit(a: seq<Result<Event>>, b: seq<Result<Event>>, request: nat, refusals: set<nat>)
    ensures
      var ra := Sync(a, request, refusals);
      var rb := Sync(b, request + ra.requests, refusals);
      Sync(a + b, request, refusals) ==
        if ra.failure.Some? then ra else Run(ra.created + rb.created, rb.failure, ra.requests + rb.requests)
  {
    if a == [] {
      assert a + b == b;
    } else {
      assert (a + b)[0] == a[0] && (a + b)[1..] == a[1..] + b;
      if a[0].Ok? && request !in refusals {
        SyncSplit(a[1..], b, request + 1, refusals);
        assert [a[0].value] + Sync(a[1..], request + 1, refusals).created + Sync(b, request + Sync(a, request, refusals).requests, refusals).created ==
               [a[0].value] + (Sync(a[1..], request + 1, refusals).created + Sync(b, request + Sync(a, request, refusals).requests, refusals).created);
      }
    }
  }

  /** Every created event is titled with the prefix and carries the form's reminder list,
      so it passes the title filter of a purge with the same prefix. */
  lemma SyncTagsEvents(rows: seq<Row>, reminders: seq<Reminder>, prefix: string, request: nat, refusals: set<nat>)
    ensures forall e :: e in SyncRows(rows, reminders, prefix, request, refusals).created ==>
      StartsWith(e.summary, prefix) && e.reminders == ReminderSettings(false, reminders)
  {
    var lessons := Kept(rows);
    var translated := Translations(lessons, Translator(reminders, prefix));
    var run := Sync(translated, request, refusals);
    SyncOutcome(translated, request, refusals);
    TranslationsAt(lessons, Translator(reminders, prefix));
    forall e | e in run.created
      ensures StartsWith(e.summary, prefix) && e.reminders == ReminderSettings(false, reminders)
    {
      var i :| 0 <= i < |run.created| && run.created[i] == e;
      EventSpecShape(lessons[i], Some(reminders), prefix);
    }
  }

  /** Two runs over the same rows that both complete create the same events: a second
      submission of the same timetable adds every event again instead of replacing it. */
  lemma SyncRepeats(rows: seq<Row>, reminders: seq<Reminder>, prefix: string, first: nat, second: nat, refusals: set<nat>)
    requires SyncRows(rows, reminders, prefix, first, refusals).failure.None?
    requires SyncRows(rows, reminders, prefix, second, refusals).failure.None?
    ensures SyncRows(rows, reminders, prefix, first, refusals).created ==
            SyncRows(rows, reminders, prefix, second, refusals).created
  {
    var translated := Translations(Kept(rows), Translator(reminders, prefix));
    var a := Sync(translated, first, refusals);
    var b := Sync(translated, second, refusals);
    SyncOutcome(translated, first, refusals);
    SyncOutcome(translated, second, refusals);
    assert |a.created| == |b.created|;
    forall i | 0 <= i < |a.created|
      ensures a.created[i] == b.created[i]
    {
      assert Ok(a.created[i]) == Ok(b.created[i]);
    }
  }

  /** The stored events the inserts of `events` add, the first getting id `first`. */
  function Inserted(first: nat, events: seq<Event>): (items: seq<Item>)
    ensures |items| == |events|
    decreases |events|
  {
    if events == [] then []
    else [Item(first, Some(events[0].summary), Some(events[0]))] + Inserted(first + 1, events[1..])
  }

  /** The i-th created event is stored under id first + i, with its title. */
  lemma {:induction false} InsertedAt(first: nat, events: seq<Event>)
    ensures forall i :: 0 <= i < |events| ==>
      Inserted(first, events)[i] == Item(first + i, Some(events[i].summary), Some(events[i]))
    decreases |events|
  {
    if events != [] {
      InsertedAt(first + 1, events[1..]);
      forall i | 1 <= i < |events|
        ensures Inserted(first, events)[i] == Item(first + i, Some(events[i].summary), Some(events[i]))
      {
        assert events[1..][i - 1] == events[i];
      }
    }
  }

  lemma {:induction false} InsertedAppend(first: nat, events: seq<Event>, e: Event)
    ensures Inserted(first, events + [e]) == Inserted(first, events) + [Item(first + |events|, Some(e.summary), Some(e))]
    decreases |events|
  {
    if events == [] {
      assert events + [e] == [e];
    } else {
      assert (events + [e])[1..] == events[1..] + [e];
      InsertedAppend(first + 1, events[1..], e);
    }
  }

  /** The events a run stores all pass the purge's title filter for the same prefix. */
  lemma InsertedMatch(first: nat, rows: seq<Row>, reminders: seq<Reminder>, prefix: string, request: nat, refusals: set<nat>)
    ensures forall item :: item in Inserted(first, SyncRows(rows, reminders, prefix, request, refusals).created) ==>
      Matches(item, prefix)
  {
    var created := SyncRows(rows, reminders, prefix, request, refusals).created;
    SyncTagsEvents(rows, reminders, prefix, request, refusals);
    InsertedAt(first, created);
    forall item | item in Inserted(first, created)
      ensures Matches(item, prefix)
    {
      var i :| 0 <= i < |Inserted(first, created)| && Inserted(first, created)[i] == item;
      assert created[i] in created;
    }
  }

  /** When the calendar before the run and the events it adds fit on one list page, a purge
      with the same prefix afterwards selects what it would have selected before, followed by
      every event the run stored, in the order they were created. Beyond that page the purge
      sees none of them (see PurgeSpares). */
  lemma PurgeSelectsRun(start: seq<Item>, first: nat, rows: seq<Row>, reminders: seq<Reminder>, prefix: string,
                        request: nat, refusals: set<nat>)
    requires |start| + |SyncRows(rows, reminders, prefix, request, refusals).created| <= MaxResults
    ensures
      var stored := Inserted(first, SyncRows(rows, reminders, prefix, request, refusals).created);
      Selected(Page(start + stored), prefix) == Selected(start, prefix) + stored
  {
    var stored := Inserted(first, SyncRows(rows, reminders, prefix, request, refusals).created);
    InsertedMatch(first, rows, reminders, prefix, request, refusals);
    SelectedAppend(start, stored, prefix);
    SelectedAllMatch(stored, prefix);
  }

  /** One more row: a skipped row adds no lesson, a usable row adds its own. */
  lemma KeptStep(rows: seq<Row>, i: nat)
    requires i < |rows|
    ensures Kept(rows[..i + 1]) == Kept(rows[..i]) + (if Skipped(rows[i]) then [] else [LessonOf(rows[i])])
  {
    var row := rows[i];
    assert rows[..i + 1] == rows[..i] + [row];
    KeptAppend(rows[..i], [row]);
    assert [row][1..] == [];
    assert Kept([row]) == (if Skipped(row) then [] else [LessonOf(row)]) + Kept([]);
  }

  lemma KeptSplit(rows: seq<Row>, k: nat)
    requires k <= |rows|
    ensures Kept(rows) == Kept(rows[..k]) + Kept(rows[k..])
  {
    var front, back := rows[..k], rows[k..];
    assert front + back == rows;
    KeptAppend(front, back);
  }

  /** Translating one more lesson appends its translation. */
  lemma TranslationsStep(lessons: seq<Lesson>, more: seq<Lesson>, translate: Lesson -> Result<Event>)
    requires |more| <= 1
    ensures Translations(lessons + more, translate) ==
      Translations(lessons, translate) + (if more == [] then [] else [translate(more[0])])
  {
    TranslationsAppend(lessons, more, translate);
    if more == [] {
      assert Translations(lessons, translate) + [] == Translations(lessons, translate);
    } else {
      assert more[1..] == [];
    }
  }

  /** One more lesson after a completed run: its failure ends the whole loop, or the run
      grows by its event. */
  lemma SyncStep(done: seq<Result<Event>>, t: Result<Event>, rest: seq<Result<Event>>, request: nat, refusals: set<nat>)
    requires Sync(done, request, refusals).failure.None?
    ensures
      var run := Sync(done, request, refusals);
      (t.Err? ==> Sync(done + [t] + rest, request, refusals) == Run(run.created, Some(t.error), run.requests)) &&
      (t.Ok? && request + run.requests in refusals ==>
        Sync(done + [t] + rest, request, refusals) == Run(run.created, Some(GatewayError), run.requests + 1)) &&
      (t.Ok? && request + run.requests !in refusals ==>
        Sync(done + [t], request, refusals) == Run(run.created + [t.value], None, run.requests + 1))
  {
    assert [t][1..] == [];
    SyncSplit(done, [t], request, refusals);
    SyncSplit(done + [t], rest, request, refusals);
  }

  /** A skipped row leaves the completed run as it is. */
  lemma RowSkipped(rows: seq<Row>, i: nat, translate: Lesson -> Result<Event>, request: nat, refusals: set<nat>,
                   created: seq<Event>, used: nat)
    requires i < |rows| && Skipped(rows[i])
    requires Sync(Translations(Kept(rows[..i]), translate), request, refusals) == Run(created, None, used)
    ensures Sync(Translations(Kept(rows[..i + 1]), translate), request, refusals) == Run(created, None, used)
  {
    KeptStep(rows, i);
    assert Kept(rows[..i]) + [] == Kept(rows[..i]);
  }

  /** A usable row whose event is built and accepted extends the completed run by it. */
  lemma RowCreated(rows: seq<Row>, i: nat, translate: Lesson -> Result<Event>, request: nat, refusals: set<nat>,
                   created: seq<Event>, used: nat)
    requires i < |rows| && !Skipped(rows[i]) && translate(LessonOf(rows[i])).Ok? && request + used !in refusals
    requires Sync(Translations(Kept(rows[..i]), translate), request, refusals) == Run(created, None, used)
    ensures Sync(Translations(Kept(rows[..i + 1]), translate), request, refusals) ==
      Run(created + [translate(LessonOf(rows[i])).value], None, used + 1)
  {
    var t := translate(LessonOf(rows[i]));
    KeptStep(rows, i);
    TranslationsStep(Kept(rows[..i]), [LessonOf(rows[i])], translate);
    SyncStep(Translations(Kept(rows[..i]), translate), t, [], request, refusals);
  }

  /** A usable row whose translation raises, or whose insert is refused, ends the loop: the
      run over all rows is the completed run with that failure. */
  lemma RowFails(rows: seq<Row>, i: nat, translate: Lesson -> Result<Event>, request: nat, refusals: set<nat>,
                 created: seq<Event>, used: nat)
    requires i < |rows| && !Skipped(rows[i])
    requires translate(LessonOf(rows[i])).Err? || request + used in refusals
    requires Sync(Translations(Kept(rows[..i]), translate), request, refusals) == Run(created, None, used)
    ensures Sync(Translations(Kept(rows), translate), request, refusals) ==
      if translate(LessonOf(rows[i])).Err? then Run(created, Some(translate(LessonOf(rows[i])).error), used)
      else Run(created, Some(GatewayError), used + 1)
  {
    var t := translate(LessonOf(rows[i]));
    KeptStep(rows, i);
    KeptSplit(rows, i + 1);
    TranslationsStep(Kept(rows[..i]), [LessonOf(rows[i])], translate);
    TranslationsAppend(Kept(rows[..i + 1]), Kept(rows[i + 1..]), translate);
    SyncStep(Translations(Kept(rows[..i]), translate), t, Translations(Kept(rows[i + 1..]), translate), request, refusals);
  }

  /** The loop's state after its first i rows, advanced one row at a time as the for loop
      runs: once an exception is raised the state no longer changes. */
  function Progress(rows: seq<Row>, i: nat, translate: Lesson -> Result<Event>, request: nat, refusals: set<nat>): Run
    requires i <= |rows|
  {
    if i == 0 then Run([], None, 0)
    else
      var prev := Progress(rows, i - 1, translate, request, refusals);
      if prev.failure.Some? || Skipped(rows[i - 1]) then prev
      else match translate(LessonOf(rows[i - 1]))
        case Err(e) => Run(prev.created, Some(e), prev.requests)
        case Ok(event) =>
          if request + prev.requests in refusals then Run(prev.created, Some(GatewayError), prev.requests + 1)
          else Run(prev.created + [event], None, prev.requests + 1)
  }

  /** The row-by-row loop computes the run over the usable rows: while it has not failed it
      agrees with the run over the rows seen so far, and once it fails with the run over all
      of them. */
  lemma {:induction false} ProgressIsSync(rows: seq<Row>, i: nat, translate: Lesson -> Result<Event>, request: nat, refusals: set<nat>)
    requires i <= |rows|
    ensures Progress(rows, i, translate, request, refusals).failure.None? ==>
      Progress(rows, i, translate, request, refusals) == Sync(Translations(Kept(rows[..i]), translate), request, refusals)
    ensures Progress(rows, i, translate, request, refusals).failure.Some? ==>
      Progress(rows, i, translate, request, refusals) == Sync(Translations(Kept(rows), translate), request, refusals)
  {
    if i == 0 {
      assert rows[..0] == [];
    } else {
      ProgressIsSync(rows, i - 1, translate, request, refusals);
      var prev := Progress(rows, i - 1, translate, request, refusals);
      if prev.failure.None? {
        var row := rows[i - 1];
        if Skipped(row) {
          RowSkipped(rows, i - 1, translate, request, refusals, prev.created, prev.requests);
        } else if translate(LessonOf(row)).Err? || request + prev.requests in refusals {
          RowFails(rows, i - 1, translate, request, refusals, prev.created, prev.requests);
        } else {
          RowCreated(rows, i - 1, translate, request, refusals, prev.created, prev.requests);
        }
      }
    }
  }

  /** Once the loop has failed, later rows change nothing. */
  lemma {:induction false} ProgressStops(rows: seq<Row>, i: nat, j: nat, translate: Lesson -> Result<Event>, request: nat, refusals: set<nat>)
    requires i <= j <= |rows| && Progress(rows, i, translate, request, refusals).failure.Some?
    ensures Progress(rows, j, translate, request, refusals) == Progress(rows, i, translate, request, refusals)
    decreases j
  {
    if j > i {
      ProgressStops(rows, i, j - 1, translate, request, refusals);
    }
  }

  /** After the last row the loop's state is the run over all usable rows. */
  lemma ProgressAll(rows: seq<Row>, translate: Lesson -> Result<Event>, request: nat, refusals: set<nat>)
    ensures Progress(rows, |rows|, translate, request, refusals) == Sync(Translations(Kept(rows), translate), request, refusals)
  {
    ProgressIsSync(rows, |rows|, translate, request, refusals);
    assert rows[..|rows|] == rows;
  }

  /** The calendar after one more insert: the stored events grow by the new one. */
  lemma StoredAppend(start: seq<Item>, first: nat, created: seq<Event>, e: Event, before: seq<Item>, after: seq<Item>)
    requires before == start + Inserted(first, created)
    requires after == before + [Item(first + |created|, Some(e.summary), Some(e))]
    ensures after == start + Inserted(first, created + [e])
  {
    InsertedAppend(first, created, e);
  }

  /** A skipped row leaves the loop's state as it was. */
  lemma ProgressSkip(rows: seq<Row>, i: nat, translate: Lesson -> Result<Event>, request: nat, refusals: set<nat>,
                     created: seq<Event>, used: nat)
    requires i < |rows| && Skipped(rows[i])
    requires Progress(rows, i, translate, request, refusals) == Run(created, None, used)
    ensures Progress(rows, i + 1, translate, request, refusals) == Run(created, None, used)
  {
  }

  /** A usable row whose event is inserted appends that event and counts one request. */
  lemma ProgressCreated(rows: seq<Row>, i: nat, translate: Lesson -> Result<Event>, request: nat, refusals: set<nat>,
                        created: seq<Event>, used: nat)
    requires i < |rows| && !Skipped(rows[i])
    requires Progress(rows, i, translate, request, refusals) == Run(created, None, used)
    requires translate(LessonOf(rows[i])).Ok? && request + used !in refusals
    ensures Progress(rows, i + 1, translate, request, refusals) ==
      Run(created + [translate(LessonOf(rows[i])).value], None, used + 1)
  {
  }

  /** A usable row whose translation or insert fails ends the loop with that error. */
  lemma ProgressFails(rows: seq<Row>, i: nat, translate: Lesson -> Result<Event>, request: nat, refusals: set<nat>,
                      created: seq<Event>, used: nat)
    requires i < |rows| && !Skipped(rows[i])
    requires Progress(rows, i, translate, request, refusals) == Run(created, None, used)
    requires translate(LessonOf(rows[i])).Err? || request + used in refusals
    ensures
      var t := translate(LessonOf(rows[i]));
      Progress(rows, |rows|, translate, request, refusals) ==
        Run(created, Some(if t.Err? then t.error else GatewayError), used + (if t.Err? then 0 else 1))
  {
    ProgressStops(rows, i + 1, |rows|, translate, request, refusals);
  }

  /** The POST handler from the try block on: read the rows, log in, build the reminder list,
      and submit the rows. */
  method Index(service: Service, form: Form, rows: Result<seq<Row>>, authenticated: bool) returns (outcome: Outcome)
    requires service.Valid()
    modifies service
    ensures service.Valid()
    ensures rows.Err? ==> outcome == Failed(rows.error) && unchanged(service)
    ensures rows.Ok? && !authenticated ==> outcome == Failed(LoginError) && unchanged(service)
    ensures rows.Ok? && authenticated ==>
      var run := SyncRows(rows.value, ReminderList(form), FormValue(form.prefix, DefaultPrefix),
                          old(service.requests), service.refusals);
      service.items == old(service.items) + Inserted(old(service.nextId), run.created) &&
      service.nextId == old(service.nextId) + |run.created| &&
      service.requests == old(service.requests) + run.requests &&
      outcome == (if run.failure.None? then Scheduled else Failed(run.failure.value))
  {
    var remindValue, remindMethod, prefix := ReadForm(form);
    if rows.Err? {
      return Failed(rows.error);
    }
    if !authenticated {
      return Failed(LoginError);
    }
    var reminders := [Reminder(remindMethod, remindValue)];
    var failure := SubmitRows(service, rows.value, reminders, prefix, Translator(reminders, prefix));
    ProgressAll(rows.value, Translator(reminders, prefix), old(service.requests), service.refusals);
    outcome := if failure.None? then Scheduled else Failed(failure.value);
  }

  /** One call of tao_su_kien from the loop: the row's fields passed one to one, with the
      request's reminder list and prefix. */
  method SubmitRow(service: Service, row: Row, reminders: seq<Reminder>, prefix: string,
                   ghost translate: Lesson -> Result<Event>)
    returns (r: Result<nat>)
    requires service.Valid() && !Skipped(row)
    requires forall lesson {:trigger EventSpec(lesson, Some(reminders), prefix)} ::
      translate(lesson) == EventSpec(lesson, Some(reminders), prefix)
    modifies service
    ensures service.Valid()
    ensures
      var t := translate(LessonOf(row));
      (r.Ok? <==> t.Ok? && old(service.requests) !in service.refusals) &&
      (r.Ok? ==>
        r.value == old(service.nextId) && service.nextId == old(service.nextId) + 1 &&
        service.requests == old(service.requests) + 1 &&
        service.items == old(service.items) + [Item(old(service.nextId), Some(t.value.summary), Some(t.value))]) &&
      (r.Err? ==>
        r.error == (if t.Err? then t.error else GatewayError) &&
        service.items == old(service.items) && service.nextId == old(service.nextId) &&
        service.requests == old(service.requests) + (if t.Err? then 0 else 1))
  {
    var lesson := LessonOf(row);
    assert translate(lesson) == EventSpec(lesson, Some(reminders), prefix);
    r := CreateWeeklyEvent(service, lesson, Some(reminders), prefix);
  }

  /** The loop of the try block: every row that is not skipped goes to tao_su_kien, in
      order, until one raises. It never deletes: the calendar afterwards is the calendar
      before with the created events appended. */
  method SubmitRows(service: Service, table: seq<Row>, reminders: seq<Reminder>, prefix: string,
                    ghost translate: Lesson -> Result<Event>)
    returns (failure: Option<Error>)
    requires service.Valid()
    requires forall lesson {:trigger EventSpec(lesson, Some(reminders), prefix)} ::
      translate(lesson) == EventSpec(lesson, Some(reminders), prefix)
    modifies service
    ensures service.Valid()
    ensures
      var run := Progress(table, |table|, translate, old(service.requests), service.refusals);
      service.items == old(service.items) + Inserted(old(service.nextId), run.created) &&
      service.nextId == old(service.nextId) + |run.created| &&
      service.requests == old(service.requests) + run.requests &&
      failure == run.failure
  {
    ghost var start := service.items;
    ghost var firstId := service.nextId;
    ghost var request := service.requests;
    ghost var created: seq<Event> := [];
    ghost var used: nat := 0;
    var i := 0;
    while i < |table|
      invariant 0 <= i <= |table| && service.Valid()
      invariant Progress(table, i, translate, request, service.refusals) == Run(created, None, used)
      invariant service.items == start + Inserted(firstId, created)
      invariant service.nextId == firstId + |created|
      invariant service.requests == request + used
    {
      var row := table[i];
      if row.startTime.None? || row.endTime.None? || row.weekday == 0 {
        ProgressSkip(table, i, translate, request, service.refusals, created, used);
        i := i + 1;
        continue;
      }
      ghost var t := translate(LessonOf(row));
      ghost var before := service.items;
      var result := SubmitRow(service, row, reminders, prefix, translate);
      if result.Err? {
        ProgressFails(table, i, translate, request, service.refusals, created, used);
        return Some(result.error);
      }
      ProgressCreated(table, i, translate, request, service.refusals, created, used);
      StoredAppend(start, firstId, created, t.value, before, service.items);
      created := created + [t.value];
      used := used + 1;
      i := i + 1;
    }
    return None;
  }
}
