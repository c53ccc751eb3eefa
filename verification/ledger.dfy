/** The two usage tables, written together in one transaction, and the reports read from them. */
module Ledger {
  import opened Wrappers

  datatype Counters = Counters(requests: int, errors: int, input: int, output: int, total: int)

  const ZERO := Counters(0, 0, 0, 0, 0)

  function Plus(a: Counters, b: Counters): Counters {
    Counters(a.requests + b.requests, a.errors + b.errors, a.input + b.input, a.output + b.output, a.total + b.total)
  }

  /** One of the five counters. */
  datatype Kind = Requests | Errors | Input | Output | Total

  function Value(c: Counters, k: Kind): int {
    match k
    case Requests => c.requests
    case Errors => c.errors
    case Input => c.input
    case Output => c.output
    case Total => c.total
  }

  lemma ValueOfPlus(a: Counters, b: Counters, k: Kind)
    ensures Value(Plus(a, b), k) == Value(a, k) + Value(b, k)
    ensures Value(ZERO, k) == 0
  {
  }

  datatype ModelRow = ModelRow(model: string, sums: Counters, lastAt: int, lastStatus: int)

  datatype DayRow = DayRow(day: string, client: string, model: string, sums: Counters)

  datatype Tables = Tables(models: seq<ModelRow>, days: seq<DayRow>)

  const FRESH := Tables([], [])

  /** One finished request, with the tokens its response reported. */
  datatype Entry = Entry(at: int, day: string, client: string, model: string, status: int, input: nat, output: nat, total: nat)

  function Increment(e: Entry): Counters {
    Counters(1, if e.status >= 400 then 1 else 0, e.input, e.output, e.total)
  }

  /** How far the transaction gets. Anything but a commit rolls both tables back. */
  datatype Outcome = BeginFails | ModelFails | DayFails | CommitFails | Commits

  function UpsertModel(rows: seq<ModelRow>, e: Entry): seq<ModelRow> {
    if rows == [] then [ModelRow(e.model, Increment(e), e.at, e.status)]
    else if rows[0].model == e.model then [ModelRow(e.model, Plus(rows[0].sums, Increment(e)), e.at, e.status)] + rows[1..]
    else [rows[0]] + UpsertModel(rows[1..], e)
  }

  function UpsertDay(rows: seq<DayRow>, day: string, client: string, model: string, sums: Counters): seq<DayRow> {
    if rows == [] then [DayRow(day, client, model, sums)]
    else if rows[0].day == day && rows[0].client == client && rows[0].model == model then
      [DayRow(day, client, model, Plus(rows[0].sums, sums))] + rows[1..]
    else [rows[0]] + UpsertDay(rows[1..], day, client, model, sums)
  }

  function Recorded(t: Tables, e: Entry, outcome: Outcome): Tables {
    if outcome == Commits then Tables(UpsertModel(t.models, e), UpsertDay(t.days, e.day, e.client, e.model, Increment(e))) else t
  }

  class UsageStore {
    var models: seq<ModelRow>
    var days: seq<DayRow>

    function State(): Tables
      reads this
    {
      Tables(models, days)
    }

    constructor (existing: Tables)
      ensures State() == existing
    {
      models, days := existing.models, existing.days;
    }

    /** Both tables change or neither does. */
    method RecordAt(e: Entry, outcome: Outcome)
      modifies this
      ensures State() == Recorded(old(State()), e, outcome)
    {
      if outcome == BeginFails {
        return;
      }
      var savedModels, savedDays := models, days;
      if outcome == ModelFails {
        return;
      }
      models := UpsertModel(models, e);
      if outcome == DayFails {
        models, days := savedModels, savedDays;
        return;
      }
      days := UpsertDay(days, e.day, e.client, e.model, Increment(e));
      if outcome == CommitFails {
        models, days := savedModels, savedDays;
      }
    }
  }

  // ---------------------------------------------------------------------------------------------
  // The reports
  // ---------------------------------------------------------------------------------------------

  /** The cumulative figures of a model. */
  function ModelTotal(rows: seq<ModelRow>, model: string, k: Kind): int {
    if rows == [] then 0
    else if rows[0].model == model then Value(rows[0].sums, k)
    else ModelTotal(rows[1..], model, k)
  }

  /** The month of a day written as year-month-day. */
  function Month(day: string): string {
    if |day| <= 7 then day else day[..7]
  }

  datatype Period = Day | InMonth

  function PeriodOf(p: Period, day: string): string {
    if p.Day? then day else Month(day)
  }

  function ParsePeriod(period: string): Option<Period> {
    if period == "day" then Some(Day) else if period == "month" then Some(InMonth) else None
  }

  function ForClient(rows: seq<DayRow>, client: string): seq<DayRow> {
    if rows == [] then []
    else (if client == "" || rows[0].client == client then [rows[0]] else []) + ForClient(rows[1..], client)
  }

  /** The rows added up by period, client and model. A group is a row whose day is its period. */
  function Grouped(rows: seq<DayRow>, p: Period): seq<DayRow> {
    if rows == [] then []
    else
      var r := rows[|rows| - 1];
      UpsertDay(Grouped(rows[..|rows| - 1], p), PeriodOf(p, r.day), r.client, r.model, r.sums)
  }

  function PeriodSnapshot(t: Tables, period: string, client: string): Option<seq<DayRow>> {
    var p := ParsePeriod(period);
    if p.None? then None else Some(Grouped(ForClient(t.days, client), p.value))
  }

  // ---------------------------------------------------------------------------------------------
  // Conservation between the tables
  // ---------------------------------------------------------------------------------------------

  datatype When = Ever | OnDay(day: string) | DuringMonth(month: string)

  /** The rows to be added up: any client, or one. */
  datatype Query = Query(time: When, client: Option<string>, model: string)

  predicate Matches(q: Query, r: DayRow) {
    && r.model == q.model
    && (q.client.None? || r.client == q.client.value)
    && match q.time {
         case Ever => true
         case OnDay(day) => r.day == day
         case DuringMonth(month) => Month(r.day) == month
       }
  }

  /** A query that a report by `p` can still answer: a monthly report knows no days. */
  predicate Answers(p: Period, q: Query) {
    q.time.OnDay? ==> p.Day?
  }

  function SumRows(rows: seq<DayRow>, q: Query, k: Kind): int {
    if rows == [] then 0 else Share(rows[0], q, k) + SumRows(rows[1..], q, k)
  }

  function Share(r: DayRow, q: Query, k: Kind): int {
    if Matches(q, r) then Value(r.sums, k) else 0
  }

  lemma {:induction false} UpsertDaySum(rows: seq<DayRow>, day: string, client: string, model: string, sums: Counters, q: Query, k: Kind)
    ensures SumRows(UpsertDay(rows, day, client, model, sums), q, k)
            == SumRows(rows, q, k) + Share(DayRow(day, client, model, sums), q, k)
  {
    hide Value, Plus;
    if rows != [] {
      var after := UpsertDay(rows, day, client, model, sums);
      if rows[0].day == day && rows[0].client == client && rows[0].model == model {
        ValueOfPlus(rows[0].sums, sums, k);
        assert after[1..] == rows[1..];
      } else {
        UpsertDaySum(rows[1..], day, client, model, sums, q, k);
        assert after[1..] == UpsertDay(rows[1..], day, client, model, sums);
      }
    }
  }

  lemma {:induction false} UpsertModelTotal(rows: seq<ModelRow>, e: Entry, model: string, k: Kind)
    ensures ModelTotal(UpsertModel(rows, e), model, k) == ModelTotal(rows, model, k) + (if e.model == model then Value(Increment(e), k) else 0)
  {
    hide Value, Plus, Increment;
    if rows != [] {
      if rows[0].model == e.model {
        ValueOfPlus(rows[0].sums, Increment(e), k);
        assert UpsertModel(rows, e)[1..] == rows[1..];
      } else {
        UpsertModelTotal(rows[1..], e, model, k);
        assert UpsertModel(rows, e)[1..] == UpsertModel(rows[1..], e);
      }
    }
  }

  function AllOf(model: string): Query {
    Query(Ever, None, model)
  }

  /** What the cumulative table has that the daily rows do not: the usage from before there were daily rows. */
  function Base(t: Tables, model: string, k: Kind): int {
    ModelTotal(t.models, model, k) - SumRows(t.days, AllOf(model), k)
  }

  datatype Call = Call(entry: Entry, outcome: Outcome)

  function RecordAll(t: Tables, calls: seq<Call>): Tables {
    if calls == [] then t
    else Recorded(RecordAll(t, calls[..|calls| - 1]), calls[|calls| - 1].entry, calls[|calls| - 1].outcome)
  }

  lemma RecordedSums(t: Tables, e: Entry, outcome: Outcome, model: string, k: Kind)
    ensures var gain := if outcome == Commits && e.model == model then Value(Increment(e), k) else 0;
            && ModelTotal(Recorded(t, e, outcome).models, model, k) == ModelTotal(t.models, model, k) + gain
            && SumRows(Recorded(t, e, outcome).days, AllOf(model), k) == SumRows(t.days, AllOf(model), k) + gain
  {
    hide Value, Increment;
    UpsertModelTotal(t.models, e, model, k);
    UpsertDaySum(t.days, e.day, e.client, e.model, Increment(e), AllOf(model), k);
  }

  /** Over any sequence of committed and failed recordings, no model's base ever changes, in any counter. */
  lemma {:induction false} BaseIsKept(t: Tables, calls: seq<Call>, model: string, k: Kind)
    ensures Base(RecordAll(t, calls), model, k) == Base(t, model, k)
  {
    if calls != [] {
      var n := |calls| - 1;
      BaseIsKept(t, calls[..n], model, k);
      RecordedSums(RecordAll(t, calls[..n]), calls[n].entry, calls[n].outcome, model, k);
    }
  }

  /** The committed recordings of one model. */
  function Committed(calls: seq<Call>, model: string, k: Kind): int {
    if calls == [] then 0
    else
      var c := calls[|calls| - 1];
      Committed(calls[..|calls| - 1], model, k) + (if c.outcome == Commits && c.entry.model == model then Value(Increment(c.entry), k) else 0)
  }

  /** From a fresh database both tables hold exactly the committed recordings, to the last counter. */
  lemma {:induction false} TablesHoldTheCommitted(calls: seq<Call>, model: string, k: Kind)
    ensures var t := RecordAll(FRESH, calls);
            ModelTotal(t.models, model, k) == SumRows(t.days, AllOf(model), k) == Committed(calls, model, k)
  {
    hide Value, Increment, Recorded;
    if calls != [] {
      var n := |calls| - 1;
      TablesHoldTheCommitted(calls[..n], model, k);
      RecordedSums(RecordAll(FRESH, calls[..n]), calls[n].entry, calls[n].outcome, model, k);
    }
  }

  function FindModel(rows: seq<ModelRow>, model: string): Option<ModelRow> {
    if rows == [] then None else if rows[0].model == model then Some(rows[0]) else FindModel(rows[1..], model)
  }

  lemma {:induction false} UpsertFinds(rows: seq<ModelRow>, e: Entry, model: string)
    ensures var after := FindModel(UpsertModel(rows, e), model);
            if e.model == model then after.Some? && after.value.lastAt == e.at && after.value.lastStatus == e.status
            else after == FindModel(rows, model)
  {
    if rows != [] {
      if rows[0].model == e.model {
        assert UpsertModel(rows, e)[1..] == rows[1..];
      } else {
        UpsertFinds(rows[1..], e, model);
        assert UpsertModel(rows, e)[1..] == UpsertModel(rows[1..], e);
      }
    }
  }

  /** The last committed recording of a model. */
  function LastCommitted(calls: seq<Call>, model: string): Option<Entry> {
    if calls == [] then None
    else
      var c := calls[|calls| - 1];
      if c.outcome == Commits && c.entry.model == model then Some(c.entry) else LastCommitted(calls[..|calls| - 1], model)
  }

  /** A model has a row exactly when something was committed for it, and its last time and status are those of the last commit. */
  lemma {:induction false} LastIsTheLastCommitted(calls: seq<Call>, model: string)
    ensures var row, last := FindModel(RecordAll(FRESH, calls).models, model), LastCommitted(calls, model);
            && row.Some? == last.Some?
            && (row.Some? ==> row.value.lastAt == last.value.at && row.value.lastStatus == last.value.status)
  {
    if calls != [] {
      LastIsTheLastCommitted(calls[..|calls| - 1], model);
      UpsertFinds(RecordAll(FRESH, calls[..|calls| - 1]).models, calls[|calls| - 1].entry, model);
    }
  }

  function FindDay(rows: seq<DayRow>, day: string, client: string, model: string): Option<DayRow> {
    if rows == [] then None
    else if rows[0].day == day && rows[0].client == client && rows[0].model == model then Some(rows[0])
    else FindDay(rows[1..], day, client, model)
  }

  /** `after` is `before`, or zeros, and one request that ended like this. */
  predicate OneMore(before: Option<Counters>, after: Counters, status: int, input: nat, output: nat, total: nat) {
    var b := if before.Some? then before.value else Counters(0, 0, 0, 0, 0);
    && after.requests == b.requests + 1
    && after.errors == b.errors + (if status >= 400 then 1 else 0)
    && after.input == b.input + input && after.output == b.output + output && after.total == b.total + total
  }

  function SumsOfModel(r: Option<ModelRow>): Option<Counters> {
    if r.Some? then Some(r.value.sums) else None
  }

  function SumsOfDay(r: Option<DayRow>): Option<Counters> {
    if r.Some? then Some(r.value.sums) else None
  }

  lemma {:induction false} UpsertModelCounts(rows: seq<ModelRow>, e: Entry, model: string)
    ensures var before, after := FindModel(rows, model), FindModel(UpsertModel(rows, e), model);
            if model == e.model then after.Some? && OneMore(SumsOfModel(before), after.value.sums, e.status, e.input, e.output, e.total)
            else after == before
  {
    if rows != [] {
      if rows[0].model == e.model {
        assert UpsertModel(rows, e)[1..] == rows[1..];
      } else {
        UpsertModelCounts(rows[1..], e, model);
        assert UpsertModel(rows, e)[1..] == UpsertModel(rows[1..], e);
      }
    }
  }

  lemma {:induction false} UpsertDayCounts(rows: seq<DayRow>, e: Entry, day: string, client: string, model: string)
    ensures var before := FindDay(rows, day, client, model);
            var after := FindDay(UpsertDay(rows, e.day, e.client, e.model, Increment(e)), day, client, model);
            if day == e.day && client == e.client && model == e.model then
              after.Some? && OneMore(SumsOfDay(before), after.value.sums, e.status, e.input, e.output, e.total)
            else after == before
  {
    if rows != [] {
      var upserted := UpsertDay(rows, e.day, e.client, e.model, Increment(e));
      if rows[0].day == e.day && rows[0].client == e.client && rows[0].model == e.model {
        assert upserted[1..] == rows[1..];
      } else {
        UpsertDayCounts(rows[1..], e, day, client, model);
        assert upserted[1..] == UpsertDay(rows[1..], e.day, e.client, e.model, Increment(e));
      }
    }
  }

  /**
   A committed recording adds one request, an error if the status is 400 or more, and its own token counts, to the row
   of its model and to the row of its day, client and model, and leaves every other row alone. A failed one leaves all.
   */
  lemma RecordingCounts(t: Tables, e: Entry, outcome: Outcome, day: string, client: string, model: string)
    ensures var after := Recorded(t, e, outcome);
            if outcome.Commits? then
              && (if model == e.model then
                    FindModel(after.models, model).Some?
                    && OneMore(SumsOfModel(FindModel(t.models, model)), FindModel(after.models, model).value.sums, e.status, e.input, e.output, e.total)
                    && FindModel(after.models, model).value.lastAt == e.at && FindModel(after.models, model).value.lastStatus == e.status
                  else FindModel(after.models, model) == FindModel(t.models, model))
              && (if day == e.day && client == e.client && model == e.model then
                    FindDay(after.days, day, client, model).Some?
                    && OneMore(SumsOfDay(FindDay(t.days, day, client, model)), FindDay(after.days, day, client, model).value.sums,
                               e.status, e.input, e.output, e.total)
                  else FindDay(after.days, day, client, model) == FindDay(t.days, day, client, model))
            else after == t
  {
    hide Increment, OneMore, UpsertModel, UpsertDay;
    UpsertModelCounts(t.models, e, model);
    UpsertFinds(t.models, e, model);
    UpsertDayCounts(t.days, e, day, client, model);
  }

  // ---------------------------------------------------------------------------------------------
  // Agreement between the reports
  // ---------------------------------------------------------------------------------------------

  /** Grouping keeps every sum: a day's month is the month of its group, whether the group is a day or a month. */
  lemma {:induction false} GroupingKeepsSums(rows: seq<DayRow>, p: Period, q: Query, k: Kind)
    requires Answers(p, q)
    ensures SumRows(Grouped(rows, p), q, k) == SumRows(rows, q, k)
  {
    hide Value;
    if rows != [] {
      var n := |rows| - 1;
      var r := rows[n];
      GroupingKeepsSums(rows[..n], p, q, k);
      UpsertDaySum(Grouped(rows[..n], p), PeriodOf(p, r.day), r.client, r.model, r.sums, q, k);
      SumRowsAppend(rows[..n], r, q, k);
      assert rows == rows[..n] + [r];
    }
  }

  lemma {:induction false} SumRowsAppend(a: seq<DayRow>, r: DayRow, q: Query, k: Kind)
    ensures SumRows(a + [r], q, k) == SumRows(a, q, k) + Share(r, q, k)
  {
    hide Share;
    if a != [] {
      SumRowsAppend(a[1..], r, q, k);
      assert (a + [r])[1..] == a[1..] + [r];
    }
  }

  /** The reports by day list a date as it is, those by month under its year and month; there are no others. */
  lemma DatesByPeriod(t: Tables, client: string, period: string, year: string, month: string, date: string)
    requires |year| == 4 && |month| == 2
    ensures PeriodOf(Day, year + "-" + month + "-" + date) == year + "-" + month + "-" + date
    ensures PeriodOf(InMonth, year + "-" + month + "-" + date) == year + "-" + month
    ensures PeriodSnapshot(t, "day", client) == Some(Grouped(ForClient(t.days, client), Day))
    ensures PeriodSnapshot(t, "month", client) == Some(Grouped(ForClient(t.days, client), InMonth))
    ensures PeriodSnapshot(t, period, client).None? <==> period != "day" && period != "month"
  {
    assert |year + "-" + month| == 7;
  }

  /** No two report lines share a period, a client and a model. */
  predicate DistinctGroups(rows: seq<DayRow>) {
    forall i, j :: 0 <= i < j < |rows| ==> !(rows[i].day == rows[j].day && rows[i].client == rows[j].client && rows[i].model == rows[j].model)
  }

  predicate Holds(rows: seq<DayRow>, day: string, client: string, model: string) {
    exists i :: 0 <= i < |rows| && rows[i].day == day && rows[i].client == client && rows[i].model == model
  }

  lemma {:induction false} UpsertKeepsDistinct(rows: seq<DayRow>, day: string, client: string, model: string, sums: Counters)
    requires DistinctGroups(rows)
    ensures DistinctGroups(UpsertDay(rows, day, client, model, sums))
    ensures forall d, c, m :: Holds(UpsertDay(rows, day, client, model, sums), d, c, m) <==>
                              Holds(rows, d, c, m) || (d == day && c == client && m == model)
  {
    var after := UpsertDay(rows, day, client, model, sums);
    if rows == [] {
      assert after[0].day == day;
    } else if rows[0].day == day && rows[0].client == client && rows[0].model == model {
      assert forall i :: 0 <= i < |rows| ==> after[i].day == rows[i].day && after[i].client == rows[i].client && after[i].model == rows[i].model;
    } else {
      var rest := UpsertDay(rows[1..], day, client, model, sums);
      UpsertKeepsDistinct(rows[1..], day, client, model, sums);
      assert after == [rows[0]] + rest;
      HoldsCons(rows[0], rows[1..]);
      HoldsCons(rows[0], rest);
      assert rows == [rows[0]] + rows[1..];
      assert !Holds(rows[1..], rows[0].day, rows[0].client, rows[0].model);
      assert !Holds(rest, rows[0].day, rows[0].client, rows[0].model);
      forall i, j | 0 <= i < j < |after|
        ensures !(after[i].day == after[j].day && after[i].client == after[j].client && after[i].model == after[j].model)
      {
        assert after[j] == rest[j - 1];
        if i > 0 {
          assert after[i] == rest[i - 1];
        }
      }
    }
  }

  lemma HoldsCons(r: DayRow, rest: seq<DayRow>)
    ensures forall d, c, m :: Holds([r] + rest, d, c, m) <==> (r.day == d && r.client == c && r.model == m) || Holds(rest, d, c, m)
  {
    var all := [r] + rest;
    assert forall i :: 0 <= i < |rest| ==> all[i + 1] == rest[i];
    assert all[0] == r;
  }

  lemma {:induction false} GroupsAreDistinct(rows: seq<DayRow>, p: Period)
    ensures DistinctGroups(Grouped(rows, p))
  {
    if rows != [] {
      var r := rows[|rows| - 1];
      GroupsAreDistinct(rows[..|rows| - 1], p);
      UpsertKeepsDistinct(Grouped(rows[..|rows| - 1], p), PeriodOf(p, r.day), r.client, r.model, r.sums);
    }
  }

  /**
   The monthly report is the daily report added up: for every client filter, month, client, model and
   counter the two agree, and within each report a line appears once.
   */
  lemma MonthsAddUpDays(t: Tables, filter: string, q: Query, k: Kind)
    requires !q.time.OnDay?
    ensures var days, months := PeriodSnapshot(t, "day", filter), PeriodSnapshot(t, "month", filter);
            && days.Some? && months.Some?
            && SumRows(months.value, q, k) == SumRows(days.value, q, k)
            && DistinctGroups(days.value) && DistinctGroups(months.value) && Periodic(months.value, InMonth)
  {
    var rows := ForClient(t.days, filter);
    GroupingKeepsSums(rows, Day, q, k);
    GroupingKeepsSums(rows, InMonth, q, k);
    GroupsAreDistinct(rows, Day);
    GroupsAreDistinct(rows, InMonth);
    GroupsArePeriods(rows, InMonth);
  }

  /** Every line is written by its period. */
  predicate Periodic(report: seq<DayRow>, p: Period) {
    forall r :: r in report ==> PeriodOf(p, r.day) == r.day
  }

  lemma {:induction false} GroupsArePeriods(rows: seq<DayRow>, p: Period)
    ensures Periodic(Grouped(rows, p), p)
  {
    if rows != [] {
      var r := rows[|rows| - 1];
      GroupsArePeriods(rows[..|rows| - 1], p);
      UpsertKeepsPeriods(Grouped(rows[..|rows| - 1], p), PeriodOf(p, r.day), r.client, r.model, r.sums, p);
    }
  }

  lemma {:induction false} UpsertKeepsPeriods(rows: seq<DayRow>, day: string, client: string, model: string, sums: Counters, p: Period)
    requires PeriodOf(p, day) == day && Periodic(rows, p)
    ensures Periodic(UpsertDay(rows, day, client, model, sums), p)
  {
    if rows != [] {
      assert rows == [rows[0]] + rows[1..];
      UpsertKeepsPeriods(rows[1..], day, client, model, sums, p);
    }
  }

  /** The query that a report line answers. */
  function LineQuery(p: Period, line: DayRow): Query {
    Query(if p.Day? then OnDay(line.day) else DuringMonth(line.day), Some(line.client), line.model)
  }

  lemma {:induction false} OneLineMatches(report: seq<DayRow>, p: Period, i: nat, k: Kind)
    requires i < |report| && DistinctGroups(report)
    requires Periodic(report, p)
    ensures SumRows(report, LineQuery(p, report[i]), k) == Value(report[i].sums, k)
  {
    hide Value;
    if i == 0 {
      NoLineMatches(report[1..], p, report[0], k);
    } else {
      OneLineMatches(report[1..], p, i - 1, k);
    }
  }

  lemma {:induction false} NoLineMatches(rest: seq<DayRow>, p: Period, line: DayRow, k: Kind)
    requires Periodic(rest, p)
    requires forall j :: 0 <= j < |rest| ==> !(rest[j].day == line.day && rest[j].client == line.client && rest[j].model == line.model)
    ensures SumRows(rest, LineQuery(p, line), k) == 0
  {
    hide Value;
    if rest != [] {
      NoLineMatches(rest[1..], p, line, k);
    }
  }

  /** Each line of a report is the sum of the daily rows of its period, client and model that pass the filter. */
  lemma EachLineIsItsSum(t: Tables, p: Period, filter: string, i: nat, k: Kind)
    requires i < |Grouped(ForClient(t.days, filter), p)|
    ensures var line := Grouped(ForClient(t.days, filter), p)[i];
            Value(line.sums, k) == SumRows(ForClient(t.days, filter), LineQuery(p, line), k)
  {
    var rows := ForClient(t.days, filter);
    var report := Grouped(rows, p);
    GroupsAreDistinct(rows, p);
    GroupsArePeriods(rows, p);
    OneLineMatches(report, p, i, k);
    GroupingKeepsSums(rows, p, LineQuery(p, report[i]), k);
  }

  lemma {:induction false} NoFilter(rows: seq<DayRow>)
    ensures ForClient(rows, "") == rows
  {
    if rows != [] {
      NoFilter(rows[1..]);
    }
  }

  lemma {:induction false} FilterIsQuery(rows: seq<DayRow>, client: string, q: Query, k: Kind)
    requires client != "" && (q.client.None? || q.client.value == client)
    ensures SumRows(ForClient(rows, client), q, k) == SumRows(rows, q.(client := Some(client)), k)
  {
    hide Value;
    if rows != [] {
      FilterIsQuery(rows[1..], client, q, k);
      if rows[0].client == client {
        assert ForClient(rows, client)[1..] == ForClient(rows[1..], client);
      } else {
        assert ForClient(rows, client) == ForClient(rows[1..], client);
      }
    }
  }

  /** Filtering the report by client picks out that client's lines of the full report. */
  lemma FilteredReportIsTheClientsPart(t: Tables, period: string, client: string, q: Query, k: Kind)
    requires period in {"day", "month"} && Answers(ParsePeriod(period).value, q)
    requires client != "" && (q.client.None? || q.client.value == client)
    ensures SumRows(PeriodSnapshot(t, period, client).value, q, k)
            == SumRows(PeriodSnapshot(t, period, "").value, q.(client := Some(client)), k)
  {
    var p := ParsePeriod(period).value;
    NoFilter(t.days);
    GroupingKeepsSums(ForClient(t.days, client), p, q, k);
    GroupingKeepsSums(t.days, p, q.(client := Some(client)), k);
    FilterIsQuery(t.days, client, q, k);
  }

  /** The cumulative report of a model is its base plus everything either period report lists for it, after any run. */
  lemma ReportsAgree(t: Tables, calls: seq<Call>, period: string, model: string, k: Kind)
    requires period in {"day", "month"}
    ensures var after := RecordAll(t, calls);
            ModelTotal(after.models, model, k) == Base(t, model, k) + SumRows(PeriodSnapshot(after, period, "").value, AllOf(model), k)
  {
    hide Value, RecordAll, Grouped, Matches;
    var after := RecordAll(t, calls);
    BaseIsKept(t, calls, model, k);
    NoFilter(after.days);
    GroupingKeepsSums(after.days, ParsePeriod(period).value, AllOf(model), k);
  }
}
