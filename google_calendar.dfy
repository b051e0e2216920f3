/** google_calendar.py: turning one timetable lesson into the body of a weekly recurring
    Google Calendar event (tao_su_kien), inserting it, and deleting every listed event whose
    title carries a prefix (xoa_su_kien_tkb). The calendar service is an abstract gateway,
    the class Service. */
module GoogleCalendar {
  import opened Results
  import opened Text
  import opened Dates

  const TimeZone := "Asia/Ho_Chi_Minh"
  const DefaultPrefix := "[TKB]"
  const InstructorLabel := "Giảng viên: "
  /** maxResults of the single list request the purge makes. */
  const MaxResults := 2500
  const RuleHead := "RRULE:FREQ=WEEKLY;UNTIL="
  /** The UNTIL boundary is the end date at 23:59:59 UTC. */
  const UntilClock := "T235959Z"

  /** One entry of reminders.overrides; `kind` is its "method" key (popup or email). */
  datatype Reminder = Reminder(kind: string, minutes: int)
  datatype EventDateTime = EventDateTime(dateTime: string, timeZone: string)
  datatype ReminderSettings = ReminderSettings(useDefault: bool, overrides: seq<Reminder>)

  /** The event body handed to the insert request. */
  datatype Event = Event(
    summary: string,
    location: string,
    description: string,
    start: EventDateTime,
    end: EventDateTime,
    recurrence: seq<string>,
    reminders: ReminderSettings)

  /** The timetable arguments of tao_su_kien: mon, phong, giang_vien, start_date, end_date,
      weekday, start_time and end_time. */
  datatype Lesson = Lesson(
    subject: string,
    room: string,
    instructor: string,
    startDate: Date,
    endDate: Date,
    weekday: int,
    startTime: Time,
    endTime: Time)

  // ---------------------------------------------------------------------------
  // The weekday map
  // ---------------------------------------------------------------------------

  /** Vietnamese weekday numbering (2 is Monday ... 7 is Saturday) to Python's
      Monday-first numbering (0 is Monday ... 6 is Sunday). */
  function GoogleWeekday(weekday: int): (g: int)
    ensures weekday <= 8 ==> 0 <= g <= 6
    ensures weekday >= 9 ==> g > 6
  {
    if weekday - 2 < 0 then 6 else weekday - 2
  }

  /** 2..7 become 0..5 in order, every number below 2 and also 8 become Sunday, and the map
      agrees with (weekday - 2) mod 7 on 1..8 but not on 0 or on anything from 9 on. */
  lemma GoogleWeekdayCases(weekday: int)
    ensures 2 <= weekday <= 7 ==> GoogleWeekday(weekday) == weekday - 2
    ensures weekday < 2 || weekday == 8 ==> GoogleWeekday(weekday) == 6
    ensures 1 <= weekday <= 8 ==> GoogleWeekday(weekday) == (weekday - 2) % 7
    ensures weekday == 0 || weekday >= 9 ==> GoogleWeekday(weekday) != (weekday - 2) % 7
  {
  }

  // ---------------------------------------------------------------------------
  // The anchor date
  // ---------------------------------------------------------------------------

  /** The first date on or after `start` whose weekday is `target`, written in closed form:
      `start` plus the distance to that weekday. A target outside 0..6 is never reached, and
      the day-by-day search then runs into the end of the date range. */
  function Anchor(start: Date, target: int): (r: Result<Date>)
    requires Valid(start)
  {
    if 0 <= target <= 6 then
      match AddDays(start, DistanceTo(Ordinal(start), target))
      case Some(a) => Ok(a)
      case None => Err(DateOverflow)
    else Err(DateOverflow)
  }

  /** The anchor has the target weekday, lies within six days of `start`, no earlier day
      from `start` on has that weekday, and it is `start` itself when `start` matches. The
      search fails exactly when no date from `start` up to 31/12/9999 has the weekday. */
  lemma AnchorIsEarliestMatch(start: Date, target: int)
    requires Valid(start)
    ensures Anchor(start, target).Ok? ==>
      var a := Anchor(start, target).value;
      Valid(a) && Weekday(a) == target &&
      Ordinal(start) <= Ordinal(a) <= Ordinal(start) + 6 &&
      forall n :: Ordinal(start) <= n < Ordinal(a) ==> WeekdayOfOrdinal(n) != target
    ensures Weekday(start) == target ==> Anchor(start, target) == Ok(start)
    ensures Anchor(start, target).Err? ==> Anchor(start, target).error == DateOverflow
    ensures Anchor(start, target).Err? <==>
      forall n :: Ordinal(start) <= n <= MaxOrdinal ==> WeekdayOfOrdinal(n) != target
  {
    var o := Ordinal(start);
    OrdinalBounds(start);
    if 0 <= target <= 6 {
      var distance := DistanceTo(o, target);
      DistanceReachesTarget(o, target);
      AddDaysInRange(start, distance);
      if AddDays(start, distance).Some? {
        var a := AddDays(start, distance).value;
        OrdinalBounds(a);
        MatchIsAtDistance(o, target, distance, Ordinal(a));
      }
    }
  }

  /** The search loop of tao_su_kien: step one day at a time until the weekday matches. */
  method FindAnchor(start: Date, target: int) returns (r: Result<Date>)
    requires Valid(start)
    ensures r == Anchor(start, target)
  {
    var current := start;
    ghost var steps: nat := 0;
    while Weekday(current) != target
      invariant Valid(current)
      invariant AddDays(start, steps) == Some(current)
      invariant 0 <= target <= 6 ==> steps <= DistanceTo(Ordinal(start), target)
      decreases MaxOrdinal - Ordinal(current)
    {
      SearchContinues(start, target, steps);
      var next := NextDay(current);
      if next.None? {
        SearchOverflows(start, target, steps);
        return Err(DateOverflow);
      }
      current := next.value;
      AddDaysAppend(start, steps);
      steps := steps + 1;
    }
    SearchStops(start, target, steps);
    return Ok(current);
  }

  /** A day passed by the search that does not match lies before the anchor. */
  lemma SearchContinues(start: Date, target: int, steps: nat)
    requires Valid(start) && AddDays(start, steps).Some?
    requires Weekday(AddDays(start, steps).value) != target
    requires 0 <= target <= 6 ==> steps <= DistanceTo(Ordinal(start), target)
    ensures 0 <= target <= 6 ==> steps < DistanceTo(Ordinal(start), target)
    ensures 1 <= Ordinal(AddDays(start, steps).value) <= MaxOrdinal
  {
    var current := AddDays(start, steps).value;
    OrdinalBounds(current);
    MismatchIsBeforeDistance(Ordinal(start), target, steps, Ordinal(current));
  }

  /** A day within the distance that lacks the target weekday is not the last one. */
  lemma MismatchIsBeforeDistance(o: int, target: int, steps: nat, reached: int)
    requires reached == o + steps && WeekdayOfOrdinal(reached) != target
    requires 0 <= target <= 6 ==> steps <= DistanceTo(o, target)
    ensures 0 <= target <= 6 ==> steps < DistanceTo(o, target)
  {
    if 0 <= target <= 6 {
      DistanceReachesTarget(o, target);
    }
  }

  /** A search that stops on a matching day has found the anchor. */
  lemma SearchStops(start: Date, target: int, steps: nat)
    requires Valid(start) && AddDays(start, steps).Some?
    requires Weekday(AddDays(start, steps).value) == target
    requires 0 <= target <= 6 ==> steps <= DistanceTo(Ordinal(start), target)
    ensures Anchor(start, target) == Ok(AddDays(start, steps).value)
  {
    MatchIsAtDistance(Ordinal(start), target, steps, Ordinal(AddDays(start, steps).value));
  }

  /** The only day within the distance that has the target weekday is the last one. */
  lemma MatchIsAtDistance(o: int, target: int, steps: nat, reached: int)
    requires reached == o + steps
    requires 0 <= target <= 6 ==> steps <= DistanceTo(o, target)
    ensures WeekdayOfOrdinal(reached) == target <==> 0 <= target <= 6 && steps == DistanceTo(o, target)
  {
    if 0 <= target <= 6 {
      DistanceReachesTarget(o, target);
    }
  }

  /** A search that reaches 31/12/9999 before a matching day finds none. */
  lemma SearchOverflows(start: Date, target: int, steps: nat)
    requires Valid(start) && AddDays(start, steps).Some?
    requires NextDay(AddDays(start, steps).value).None?
    requires 0 <= target <= 6 ==> steps < DistanceTo(Ordinal(start), target)
    ensures Anchor(start, target) == Err(DateOverflow)
  {
    if 0 <= target <= 6 {
      var distance := DistanceTo(Ordinal(start), target);
      LastDayOrdinal(AddDays(start, steps).value);
      AddDaysInRange(start, distance);
    }
  }

  /** One more day after n days is n + 1 days. */
  lemma {:induction false} AddDaysAppend(d: Date, n: nat)
    requires Valid(d) && AddDays(d, n).Some? && NextDay(AddDays(d, n).value).Some?
    ensures AddDays(d, n + 1) == NextDay(AddDays(d, n).value)
    decreases n
  {
    if n > 0 {
      AddDaysAppend(NextDay(d).value, n - 1);
    }
  }

  // ---------------------------------------------------------------------------
  // The event body
  // ---------------------------------------------------------------------------

  /** RRULE:FREQ=WEEKLY;UNTIL=YYYYMMDDT235959Z for the given end date. */
  function WeeklyRule(until: Date): (rule: string)
    requires Valid(until)
    ensures |rule| == |RuleHead| + 16
  {
    RuleHead + Digits(until.year, 4) + Digits(until.month, 2) + Digits(until.day, 2) + UntilClock
  }

  /** Reads the end date back out of a weekly rule; None for any other text. */
  function RuleUntil(rule: string): Option<Date>
  {
    var h := |RuleHead|;
    if |rule| != h + 16 || rule[..h] != RuleHead || rule[h + 8..] != UntilClock then None
    else match (ParseDigits(rule[h..h + 4]), ParseDigits(rule[h + 4..h + 6]), ParseDigits(rule[h + 6..h + 8]))
      case (Some(y), Some(m), Some(d)) => if Valid(Date(d, m, y)) then Some(Date(d, m, y)) else None
      case _ => None
  }

  lemma WeeklyRuleRoundTrip(until: Date)
    requires Valid(until)
    ensures RuleUntil(WeeklyRule(until)) == Some(until)
  {
    var rule := WeeklyRule(until);
    var h := |RuleHead|;
    assert rule[..h] == RuleHead;
    assert rule[h..h + 4] == Digits(until.year, 4);
    assert rule[h + 4..h + 6] == Digits(until.month, 2);
    assert rule[h + 6..h + 8] == Digits(until.day, 2);
    assert rule[h + 8..] == UntilClock;
    DigitsRoundTrip(until.year, 4);
    DigitsRoundTrip(until.month, 2);
    DigitsRoundTrip(until.day, 2);
  }

  /** The override list: the reminders given when there are any, otherwise none. */
  function Overrides(reminders: Option<seq<Reminder>>): seq<Reminder> {
    if reminders.Some? && |reminders.value| > 0 then reminders.value else []
  }

  /** No list gives no overrides; a given list, empty or not, is used as it is. */
  lemma OverridesCases(given: seq<Reminder>)
    ensures Overrides(None) == []
    ensures Overrides(Some(given)) == given
  {
  }

  /** The dictionary tao_su_kien builds once the dates and times are parsed and the anchor
      is known. */
  function EventBody(lesson: Lesson, anchor: Date, reminders: Option<seq<Reminder>>, prefix: string): Event
    requires Valid(anchor) && Valid(lesson.endDate) && ValidTime(lesson.startTime) && ValidTime(lesson.endTime)
  {
    Event(
      prefix + " " + lesson.subject,
      lesson.room,
      InstructorLabel + lesson.instructor,
      EventDateTime(IsoFormat(LocalDateTime(anchor, lesson.startTime)), TimeZone),
      EventDateTime(IsoFormat(LocalDateTime(anchor, lesson.endTime)), TimeZone),
      [WeeklyRule(lesson.endDate)],
      ReminderSettings(false, Overrides(reminders)))
  }

  /** What tao_su_kien hands to insert, or the exception it raises first: a malformed start
      or end date, the search running past 31/12/9999, a malformed start or end time. */
  function EventSpec(lesson: Lesson, reminders: Option<seq<Reminder>>, prefix: string): (r: Result<Event>)
    ensures r.Err? ==> r.error == MalformedDate || r.error == DateOverflow || r.error == MalformedTime
  {
    if !Valid(lesson.startDate) || !Valid(lesson.endDate) then Err(MalformedDate)
    else match Anchor(lesson.startDate, GoogleWeekday(lesson.weekday))
      case Err(e) => Err(e)
      case Ok(anchor) =>
        if !ValidTime(lesson.startTime) || !ValidTime(lesson.endTime) then Err(MalformedTime)
        else Ok(EventBody(lesson, anchor, reminders, prefix))
  }

  /** A lesson becomes an event exactly when both dates and both times are well formed and
      some date from the start date up to 31/12/9999 has the mapped weekday. */
  lemma EventSpecSucceeds(lesson: Lesson, reminders: Option<seq<Reminder>>, prefix: string)
    ensures EventSpec(lesson, reminders, prefix).Ok? <==>
      Valid(lesson.startDate) && Valid(lesson.endDate) &&
      ValidTime(lesson.startTime) && ValidTime(lesson.endTime) &&
      exists n :: Ordinal(lesson.startDate) <= n <= MaxOrdinal && WeekdayOfOrdinal(n) == GoogleWeekday(lesson.weekday)
    ensures !Valid(lesson.startDate) || !Valid(lesson.endDate) ==> EventSpec(lesson, reminders, prefix) == Err(MalformedDate)
    ensures lesson.weekday >= 9 && Valid(lesson.startDate) && Valid(lesson.endDate) ==>
      EventSpec(lesson, reminders, prefix) == Err(DateOverflow)
  {
    if Valid(lesson.startDate) && Valid(lesson.endDate) {
      AnchorIsEarliestMatch(lesson.startDate, GoogleWeekday(lesson.weekday));
    }
  }

  /** The event tao_su_kien builds: title is the prefix, a space and the subject (so it starts
      with the prefix), location the room, description the instructor after a fixed label;
      start and end are on the anchor date at the lesson's start and end times, both in
      Asia/Ho_Chi_Minh; the single recurrence rule repeats weekly until the end date;
      default reminders are off and the overrides are the given non-empty list or none. */
  lemma EventSpecShape(lesson: Lesson, reminders: Option<seq<Reminder>>, prefix: string)
    requires EventSpec(lesson, reminders, prefix).Ok?
    ensures Valid(lesson.startDate) && Anchor(lesson.startDate, GoogleWeekday(lesson.weekday)).Ok?
    ensures
      var e := EventSpec(lesson, reminders, prefix).value;
      var anchor := Anchor(lesson.startDate, GoogleWeekday(lesson.weekday)).value;
      e.summary == prefix + " " + lesson.subject &&
      StartsWith(e.summary, prefix) &&
      e.location == lesson.room &&
      e.description == InstructorLabel + lesson.instructor &&
      ParseIso(e.start.dateTime) == Some(LocalDateTime(anchor, lesson.startTime)) &&
      ParseIso(e.end.dateTime) == Some(LocalDateTime(anchor, lesson.endTime)) &&
      e.start.timeZone == TimeZone && e.end.timeZone == TimeZone &&
      |e.recurrence| == 1 && RuleUntil(e.recurrence[0]) == Some(lesson.endDate) &&
      !e.reminders.useDefault &&
      e.reminders.overrides == (if reminders.Some? then reminders.value else [])
  {
    var anchor := Anchor(lesson.startDate, GoogleWeekday(lesson.weekday)).value;
    AnchorIsEarliestMatch(lesson.startDate, GoogleWeekday(lesson.weekday));
    PrefixStartsConcatenation(prefix, " " + lesson.subject);
    assert prefix + " " + lesson.subject == prefix + (" " + lesson.subject);
    IsoRoundTrip(LocalDateTime(anchor, lesson.startTime));
    IsoRoundTrip(LocalDateTime(anchor, lesson.endTime));
    WeeklyRuleRoundTrip(lesson.endDate);
  }

  /** tao_su_kien up to the insert call: parse, map the weekday, search, build. */
  method Translate(lesson: Lesson, reminders: Option<seq<Reminder>>, prefix: string) returns (r: Result<Event>)
    ensures r == EventSpec(lesson, reminders, prefix)
  {
    if !Valid(lesson.startDate) || !Valid(lesson.endDate) {
      return Err(MalformedDate);
    }
    var googleWeekday := GoogleWeekday(lesson.weekday);
    var anchor := FindAnchor(lesson.startDate, googleWeekday);
    if anchor.Err? {
      return Err(anchor.error);
    }
    if !ValidTime(lesson.startTime) || !ValidTime(lesson.endTime) {
      return Err(MalformedTime);
    }
    return Ok(EventBody(lesson, anchor.value, reminders, prefix));
  }

  // ---------------------------------------------------------------------------
  // The calendar service
  // ---------------------------------------------------------------------------

  /** A stored event as the list request reports it: its id, its title when it has one, and
      the body this model inserted (None for events that came from elsewhere). */
  datatype Item = Item(id: nat, summary: Option<string>, body: Option<Event>)

  function Ids(items: seq<Item>): set<nat> {
    if items == [] then {} else {items[0].id} + Ids(items[1..])
  }

  /** No two stored events share an id. */
  predicate Distinct(items: seq<Item>) {
    items == [] || (items[0].id !in Ids(items[1..]) && Distinct(items[1..]))
  }

  /** The stored events left after deleting every event whose id is in `ids`. */
  function Drop(items: seq<Item>, ids: set<nat>): seq<Item> {
    if items == [] then []
    else (if items[0].id in ids then [] else [items[0]]) + Drop(items[1..], ids)
  }

  /** The single page (maxResults=2500) that the purge's list request returns. */
  function Page(items: seq<Item>): (page: seq<Item>)
    ensures |page| <= MaxResults && |page| <= |items| && page == items[..|page|]
    ensures |items| <= MaxResults ==> page == items
  {
    if |items| <= MaxResults then items else items[..MaxResults]
  }

  /** The purge's filter: the listed event has a title and the title begins with the prefix. */
  predicate Matches(item: Item, prefix: string) {
    item.summary.Some? && StartsWith(item.summary.value, prefix)
  }

  /** The listed events the purge deletes, in list order. */
  function Selected(items: seq<Item>, prefix: string): seq<Item> {
    if items == [] then []
    else (if Matches(items[0], prefix) then [items[0]] else []) + Selected(items[1..], prefix)
  }

  lemma {:induction false} IdsAppend(a: seq<Item>, b: seq<Item>)
    ensures Ids(a + b) == Ids(a) + Ids(b)
  {
    if a == [] {
      assert a + b == b;
    } else {
      assert (a + b)[1..] == a[1..] + b;
      IdsAppend(a[1..], b);
    }
  }

  lemma {:induction false} IdsMembers(items: seq<Item>, id: nat)
    ensures id in Ids(items) <==> exists i :: 0 <= i < |items| && items[i].id == id
  {
    if items != [] {
      IdsMembers(items[1..], id);
      if id != items[0].id && id in Ids(items[1..]) {
        var i :| 0 <= i < |items[1..]| && items[1..][i].id == id;
        assert items[i + 1].id == id;
      }
      if exists i :: 0 <= i < |items| && items[i].id == id {
        var i :| 0 <= i < |items| && items[i].id == id;
        if i > 0 {
          assert items[1..][i - 1].id == id;
        }
      }
    }
  }

  lemma {:induction false} DistinctAppend(items: seq<Item>, x: Item)
    requires Distinct(items) && x.id !in Ids(items)
    ensures Distinct(items + [x])
  {
    if items != [] {
      assert (items + [x])[1..] == items[1..] + [x];
      IdsAppend(items[1..], [x]);
      DistinctAppend(items[1..], x);
    }
  }

  /** In a list with distinct ids, an event's id does not occur before it. */
  lemma {:induction false} DistinctBefore(items: seq<Item>, i: nat)
    requires Distinct(items) && i < |items|
    ensures items[i].id !in Ids(items[..i])
  {
    if i > 0 {
      assert items[1..][..i - 1] == items[1..i];
      assert items[..i] == [items[0]] + items[1..i];
      IdsAppend([items[0]], items[1..i]);
      IdsMembers(items[1..], items[i].id);
      DistinctBefore(items[1..], i - 1);
    }
  }

  /** Deleting by id removes exactly those ids and keeps the rest distinct. */
  lemma {:induction false} DropIds(items: seq<Item>, ids: set<nat>)
    ensures Ids(Drop(items, ids)) == Ids(items) - ids
    ensures Distinct(items) ==> Distinct(Drop(items, ids))
  {
    if items != [] {
      DropIds(items[1..], ids);
      var head := if items[0].id in ids then [] else [items[0]];
      IdsAppend(head, Drop(items[1..], ids));
      assert Ids(head) == if items[0].id in ids then {} else {items[0].id} by {
        assert [items[0]][1..] == [];
      }
      if items[0].id !in ids {
        assert Drop(items, ids)[1..] == Drop(items[1..], ids);
      } else {
        assert Drop(items, ids) == Drop(items[1..], ids);
      }
    }
  }

  /** An event survives deletion by id exactly when its id was not deleted. */
  lemma {:induction false} DropMembers(items: seq<Item>, ids: set<nat>, x: Item)
    ensures x in Drop(items, ids) <==> x in items && x.id !in ids
  {
    if items != [] {
      DropMembers(items[1..], ids, x);
      assert items == [items[0]] + items[1..];
    }
  }

  lemma {:induction false} DropNothing(items: seq<Item>)
    ensures Drop(items, {}) == items
  {
    if items != [] {
      DropNothing(items[1..]);
    }
  }

  lemma {:induction false} DropTwice(items: seq<Item>, a: set<nat>, b: set<nat>)
    ensures Drop(Drop(items, a), b) == Drop(items, a + b)
  {
    if items != [] {
      DropTwice(items[1..], a, b);
      var head := if items[0].id in a then [] else [items[0]];
      DropAppend(head, Drop(items[1..], a), b);
      assert [items[0]][1..] == [];
    }
  }

  lemma {:induction false} DropAppend(s: seq<Item>, t: seq<Item>, ids: set<nat>)
    ensures Drop(s + t, ids) == Drop(s, ids) + Drop(t, ids)
  {
    if s == [] {
      assert s + t == t;
    } else {
      assert (s + t)[1..] == s[1..] + t;
      DropAppend(s[1..], t, ids);
    }
  }

  lemma {:induction false} SelectedAppend(s: seq<Item>, t: seq<Item>, prefix: string)
    ensures Selected(s + t, prefix) == Selected(s, prefix) + Selected(t, prefix)
  {
    if s == [] {
      assert s + t == t;
    } else {
      var head := if Matches(s[0], prefix) then [s[0]] else [];
      assert (s + t)[0] == s[0] && (s + t)[1..] == s[1..] + t;
      assert Selected(s + t, prefix) == head + Selected(s[1..] + t, prefix);
      SelectedAppend(s[1..], t, prefix);
      assert Selected(s, prefix) == head + Selected(s[1..], prefix);
    }
  }

  /** A list whose events all match the prefix is selected whole. */
  lemma {:induction false} SelectedAllMatch(items: seq<Item>, prefix: string)
    requires forall x :: x in items ==> Matches(x, prefix)
    ensures Selected(items, prefix) == items
  {
    if items != [] {
      assert items[0] in items;
      assert forall x :: x in items[1..] ==> x in items;
      SelectedAllMatch(items[1..], prefix);
      assert items == [items[0]] + items[1..];
    }
  }

  /** The purge picks exactly the listed events with a title that starts with the prefix,
      keeping their list order, and only ids it was given. */
  lemma {:induction false} SelectedMembers(items: seq<Item>, prefix: string)
    ensures forall x :: x in Selected(items, prefix) <==> x in items && Matches(x, prefix)
    ensures Ids(Selected(items, prefix)) <= Ids(items)
    ensures |Selected(items, prefix)| <= |items|
  {
    if items != [] {
      SelectedMembers(items[1..], prefix);
      var head := if Matches(items[0], prefix) then [items[0]] else [];
      IdsAppend(head, Selected(items[1..], prefix));
      assert items == [items[0]] + items[1..];
    }
  }

  /** An event the purge does not select survives it: one with no title or another title,
      and one beyond the first page. */
  lemma PurgeSpares(items: seq<Item>, prefix: string, x: Item)
    requires Distinct(items) && x in items
    requires !Matches(x, prefix) || x !in Page(items)
    ensures x in Drop(items, Ids(Selected(Page(items), prefix)))
  {
    var page := Page(items);
    var selected := Selected(page, prefix);
    SelectedMembers(page, prefix);
    var j :| 0 <= j < |items| && items[j] == x;
    forall i | 0 <= i < |selected|
      ensures selected[i].id != x.id
    {
      assert selected[i] in page;
      var k :| 0 <= k < |page| && page[k] == selected[i];
      assert items[k] == selected[i];
      if k < j {
        DistinctIds(items, k, j);
      } else if j < k {
        DistinctIds(items, j, k);
      }
    }
    IdsMembers(selected, x.id);
    DropMembers(items, Ids(selected), x);
  }

  /** Distinct ids: two positions never hold the same id. */
  lemma DistinctIds(items: seq<Item>, j: nat, k: nat)
    requires Distinct(items) && j < k < |items|
    ensures items[j].id != items[k].id
  {
    DistinctBefore(items, k);
    assert items[..k][j].id == items[j].id;
    IdsMembers(items[..k], items[j].id);
  }

  /** Request numbers first .. first + n - 1 all succeed. */
  predicate Accepted(refusals: set<nat>, first: nat, n: nat) {
    forall k :: first <= k < first + n ==> k !in refusals
  }

  /** The calendar behind an authenticated service object. `items` is what a list request
      sees, in its order; `requests` numbers the requests made so far and `refusals` holds
      the numbers of those the service answers with an error. */
  class Service {
    var items: seq<Item>
    var nextId: nat
    var requests: nat
    const refusals: set<nat>

    ghost predicate Valid()
      reads this
    {
      Distinct(items) && forall id :: id in Ids(items) ==> id < nextId
    }

    constructor (items: seq<Item>, nextId: nat, refusals: set<nat>)
      requires Distinct(items) && forall id :: id in Ids(items) ==> id < nextId
      ensures Valid()
      ensures this.items == items && this.nextId == nextId && this.refusals == refusals && requests == 0
    {
      this.items := items;
      this.nextId := nextId;
      this.refusals := refusals;
      requests := 0;
    }

    /** Insert an event into the primary calendar; an accepted request answers with the new
        event's id. */
    method Insert(e: Event) returns (r: Result<nat>)
      requires Valid()
      modifies this
      ensures Valid() && requests == old(requests) + 1
      ensures old(requests) in refusals ==>
        r == Err(GatewayError) && items == old(items) && nextId == old(nextId)
      ensures old(requests) !in refusals ==>
        r == Ok(old(nextId)) && nextId == old(nextId) + 1 &&
        items == old(items) + [Item(old(nextId), Some(e.summary), Some(e))]
    {
      requests := requests + 1;
      if requests - 1 in refusals {
        return Err(GatewayError);
      }
      var item := Item(nextId, Some(e.summary), Some(e));
      IdsAppend(items, [item]);
      DistinctAppend(items, item);
      items := items + [item];
      nextId := nextId + 1;
      r := Ok(item.id);
    }

    /** One list request on the primary calendar: the stored events of its single page of at
        most 2500, or an error. */
    method List() returns (r: Result<seq<Item>>)
      modifies this`requests
      ensures requests == old(requests) + 1
      ensures r == if old(requests) in refusals then Err(GatewayError) else Ok(Page(items))
    {
      requests := requests + 1;
      if requests - 1 in refusals {
        return Err(GatewayError);
      }
      return Ok(Page(items));
    }

    /** Delete the event with the given id from the primary calendar; an id that is not
        stored is answered with an error. */
    method Delete(id: nat) returns (r: Result<()>)
      requires Valid()
      modifies this
      ensures Valid() && requests == old(requests) + 1 && nextId == old(nextId)
      ensures old(requests) in refusals || id !in Ids(old(items)) ==>
        r == Err(GatewayError) && items == old(items)
      ensures old(requests) !in refusals && id in Ids(old(items)) ==>
        r == Ok(()) && items == Drop(old(items), {id})
    {
      requests := requests + 1;
      if requests - 1 in refusals || id !in Ids(items) {
        return Err(GatewayError);
      }
      DropIds(items, {id});
      items := Drop(items, {id});
      return Ok(());
    }
  }

  // ---------------------------------------------------------------------------
  // tao_su_kien and xoa_su_kien_tkb
  // ---------------------------------------------------------------------------

  /** tao_su_kien: build the weekly event and insert it; the id of the new event. */
  method CreateWeeklyEvent(service: Service, lesson: Lesson, reminders: Option<seq<Reminder>>, prefix: string)
    returns (r: Result<nat>)
    requires service.Valid()
    modifies service
    ensures service.Valid()
    ensures EventSpec(lesson, reminders, prefix).Err? ==>
      r == Err(EventSpec(lesson, reminders, prefix).error) &&
      service.items == old(service.items) && service.nextId == old(service.nextId) &&
      service.requests == old(service.requests)
    ensures EventSpec(lesson, reminders, prefix).Ok? ==>
      var e := EventSpec(lesson, reminders, prefix).value;
      service.requests == old(service.requests) + 1 &&
      (old(service.requests) in service.refusals ==>
        r == Err(GatewayError) && service.items == old(service.items) && service.nextId == old(service.nextId)) &&
      (old(service.requests) !in service.refusals ==>
        r == Ok(old(service.nextId)) && service.nextId == old(service.nextId) + 1 &&
        service.items == old(service.items) + [Item(old(service.nextId), Some(e.summary), Some(e))])
  {
    var body := Translate(lesson, reminders, prefix);
    if body.Err? {
      return Err(body.error);
    }
    r := service.Insert(body.value);
  }

  /** xoa_su_kien_tkb: one list request, then one delete request per listed event whose title
      starts with the prefix, in list order; the number deleted. The first failing request
      ends the purge, and the events deleted before it stay deleted. */
  method PurgeByPrefix(service: Service, prefix: string) returns (r: Result<nat>)
    requires service.Valid()
    modifies service
    ensures service.Valid() && service.nextId == old(service.nextId)
    ensures
      var selected := Selected(Page(old(service.items)), prefix);
      (r.Ok? <==> Accepted(service.refusals, old(service.requests), 1 + |selected|)) &&
      (r.Ok? ==>
        r.value == |selected| &&
        service.items == Drop(old(service.items), Ids(selected)) &&
        service.requests == old(service.requests) + 1 + |selected|) &&
      (r.Err? ==>
        r.error == GatewayError &&
        ((old(service.requests) in service.refusals &&
          service.items == old(service.items) && service.requests == old(service.requests) + 1) ||
         exists j :: 0 <= j < |selected| &&
           Accepted(service.refusals, old(service.requests), 1 + j) &&
           old(service.requests) + 1 + j in service.refusals &&
           service.requests == old(service.requests) + 2 + j &&
           service.items == Drop(old(service.items), Ids(selected[..j]))))
  {
    ghost var start := service.items;
    ghost var selected := Selected(Page(start), prefix);
    var listing := service.List();
    if listing.Err? {
      DropNothing(start);
      assert selected[..0] == [];
      return Err(listing.error);
    }
    var events := listing.value;
    var count := 0;
    var i := 0;
    assert events[..0] == [];
    DropNothing(start);
    while i < |events|
      invariant 0 <= i <= |events| && events == Page(start)
      invariant service.Valid() && service.nextId == old(service.nextId)
      invariant count == |Selected(events[..i], prefix)|
      invariant service.items == Drop(start, Ids(Selected(events[..i], prefix)))
      invariant service.requests == old(service.requests) + 1 + count
      invariant Accepted(service.refusals, old(service.requests), 1 + count)
    {
      var e := events[i];
      PurgeStep(events, i, prefix);
      if e.summary.Some? && StartsWith(e.summary.value, prefix) {
        StillStored(start, events, i, prefix);
        var deleted := service.Delete(e.id);
        if deleted.Err? {
          SelectedPrefix(events, i, prefix);
          SelectedPrefix(events, i + 1, prefix);
          assert old(service.requests) + 1 + count in service.refusals;
          assert count < |selected|;
          assert selected[..count] == Selected(events[..i], prefix);
          return Err(deleted.error);
        }
        DropTwice(start, Ids(Selected(events[..i], prefix)), {e.id});
        count := count + 1;
      }
      i := i + 1;
    }
    assert events[..i] == events;
    return Ok(count);
  }

  /** The i-th listed event is still stored while the purge has deleted only earlier ones. */
  lemma StillStored(start: seq<Item>, events: seq<Item>, i: nat, prefix: string)
    requires Distinct(start) && events == Page(start) && i < |events|
    ensures events[i].id in Ids(Drop(start, Ids(Selected(events[..i], prefix))))
  {
    assert events[..i] == start[..i];
    assert events[i] == start[i];
    DistinctBefore(start, i);
    SelectedMembers(events[..i], prefix);
    IdsMembers(start, start[i].id);
    DropIds(start, Ids(Selected(events[..i], prefix)));
  }

  /** Scanning one more listed event adds it to the selection exactly when it matches. */
  lemma PurgeStep(events: seq<Item>, i: nat, prefix: string)
    requires i < |events|
    ensures Matches(events[i], prefix) ==>
      Selected(events[..i + 1], prefix) == Selected(events[..i], prefix) + [events[i]] &&
      Ids(Selected(events[..i + 1], prefix)) == Ids(Selected(events[..i], prefix)) + {events[i].id}
    ensures !Matches(events[i], prefix) ==>
      Selected(events[..i + 1], prefix) == Selected(events[..i], prefix)
  {
    var e := events[i];
    assert events[..i + 1] == events[..i] + [e];
    assert [e][1..] == [];
    SelectedAppend(events[..i], [e], prefix);
    IdsAppend(Selected(events[..i], prefix), [e]);
  }

  /** What the purge has selected after scanning i events is a prefix of the whole selection. */
  lemma SelectedPrefix(events: seq<Item>, i: nat, prefix: string)
    requires i <= |events|
    ensures |Selected(events[..i], prefix)| <= |Selected(events, prefix)|
    ensures Selected(events, prefix)[..|Selected(events[..i], prefix)|] == Selected(events[..i], prefix)
  {
    assert events == events[..i] + events[i..];
    SelectedAppend(events[..i], events[i..], prefix);
  }
}
