/**
 * The control panel of main.py: the editor of the daily run times
 * (`ScheduleWindow`) and the application state that starts and stops the
 * automation and the scheduler (`App`).
 *
 * The file `agendamentos.json` is a field of the application holding the
 * list last saved; the `schedule` library is the list of times registered
 * with it, one daily job each. Widgets, dialogs, the log and the threads are
 * replaced by parameters and results.
 */
module ControlPanel {
  import opened Wrappers
  import opened PyText
  import opened PyList

  /** A text the `%H` directive accepts on its own: one or two digits, at most 23. */
  predicate HourField(t: string) {
    1 <= |t| <= 2 && AllDigits(t) && DigitsValue(t) < 24
  }

  /** A text the `%M` directive accepts on its own: one or two digits, at most 59. */
  predicate MinuteField(t: string) {
    1 <= |t| <= 2 && AllDigits(t) && DigitsValue(t) < 60
  }

  /** `s` is an hour field, a colon at position `i`, and a minute field. */
  predicate SplitsAt(s: string, i: int) {
    0 <= i < |s| && s[i] == ':' && HourField(s[..i]) && MinuteField(s[i + 1..])
  }

  /**
   * The lengths the group `(2[0-3]|[0-1]\d|\d)` of `%H` can match at the front
   * of `s`, in the order the regular expression tries its alternatives.
   */
  function HourMatches(s: string): seq<nat> {
    var two := |s| >= 2 && ((s[0] == '2' && '0' <= s[1] <= '3') || ((s[0] == '0' || s[0] == '1') && IsDigit(s[1])));
    (if two then [2] else []) + (if |s| >= 1 && IsDigit(s[0]) then [1] else [])
  }

  /** The length the group `([0-5]\d|\d)` of `%M` matches at the front of `t`: its first alternative that applies. */
  function MinuteMatch(t: string): Option<nat> {
    if |t| >= 2 && '0' <= t[0] <= '5' && IsDigit(t[1]) then Some(2)
    else if |t| >= 1 && IsDigit(t[0]) then Some(1)
    else None
  }

  /** Where the match ends when the hour group takes `h` characters; `None` when no colon and minute follow. */
  function MatchAfterHour(s: string, h: nat): Option<nat> {
    if h < |s| && s[h] == ':' then
      match MinuteMatch(s[h + 1..])
      case Some(m) => Some(h + 1 + m)
      case None => None
    else None
  }

  /** `re.match` of the pattern for `"%H:%M"`: the hour group's length and the end of the match. */
  function TimeMatch(s: string): Option<(nat, nat)> {
    var hs := HourMatches(s);
    if |hs| > 0 && MatchAfterHour(s, hs[0]).Some? then Some((hs[0], MatchAfterHour(s, hs[0]).value))
    else if |hs| > 1 && MatchAfterHour(s, hs[1]).Some? then Some((hs[1], MatchAfterHour(s, hs[1]).value))
    else None
  }

  /**
   * `datetime.strptime(s, "%H:%M")`: `None` where it raises `ValueError`,
   * either because the pattern does not match or because text is left over
   * after the match; otherwise the hour and the minute.
   */
  function ParseTime(s: string): (r: Option<(nat, nat)>)
    ensures r.Some? ==> r.value.0 < 24 && r.value.1 < 60
  {
    match TimeMatch(s)
    case None => None
    case Some((h, end)) =>
      if end != |s| then None
      else
        var r := (DigitsValue(s[..h]), DigitsValue(s[h + 1..]));
        HourMatchIsField(s, h);
        MinuteMatchIsField(s[h + 1..]);
        Some(r)
  }

  /** An hour match followed by a colon is an hour field. */
  lemma HourMatchIsField(s: string, h: nat)
    requires h in HourMatches(s) && h < |s| && s[h] == ':'
    ensures HourField(s[..h])
  {
    var t := s[..h];
    if h == 2 {
      assert t[0] == s[0] && t[1] == s[1];
      TwoDigitValue(t);
    } else {
      assert t[0] == s[0];
      OneDigitValue(t);
    }
  }

  /** A minute match that runs to the end of the text is a minute field. */
  lemma MinuteMatchIsField(t: string)
    requires MinuteMatch(t).Some? && MinuteMatch(t).value == |t|
    ensures MinuteField(t)
  {
    if |t| == 2 { TwoDigitValue(t); } else { OneDigitValue(t); }
  }

  /** A minute field is matched by the minute group in full. */
  lemma MinuteFieldMatches(t: string)
    requires MinuteField(t)
    ensures MinuteMatch(t) == Some(|t|)
  {
    if |t| == 2 { TwoDigitValue(t); }
  }

  /** A colon splitting `s` into an hour and a minute field is where the match of the pattern splits it. */
  lemma SplitIsMatched(s: string, i: int)
    requires SplitsAt(s, i)
    ensures TimeMatch(s) == Some((i, |s|))
  {
    MinuteFieldMatches(s[i + 1..]);
    assert MatchAfterHour(s, i) == Some(|s|);
    var t := s[..i];
    assert t[0] == s[0] && IsDigit(t[0]);
    if i == 2 {
      TwoDigitValue(t);
      assert t[1] == s[1] && IsDigit(t[1]);
      assert HourMatches(s)[0] == 2;
    } else {
      assert !IsDigit(s[1]);
      assert HourMatches(s) == [1];
    }
  }

  /** No colon before position `j` when `s[..j]` is a field of digits. */
  lemma DigitsHaveNoColon(s: string, j: int)
    requires 0 <= j <= |s| && AllDigits(s[..j])
    ensures forall k :: 0 <= k < j ==> s[k] != ':'
  {
    forall k | 0 <= k < j ensures s[k] != ':' {
      assert s[..j][k] == s[k];
    }
  }

  /** Two colons that both split `s` into fields are the same colon: the fields hold no colon. */
  lemma SplitUnique(s: string, i: int, j: int)
    requires SplitsAt(s, i) && SplitsAt(s, j)
    ensures i == j
  {
    DigitsHaveNoColon(s, i);
    DigitsHaveNoColon(s, j);
  }

  /**
   * `strptime` accepts exactly the texts made of an hour (one or two digits,
   * up to 23), a colon and a minute (one or two digits, up to 59); it reads
   * those two numbers.
   */
  lemma ParseTimeAccepts(s: string)
    ensures ParseTime(s).Some? <==> exists i :: SplitsAt(s, i)
    ensures forall i :: SplitsAt(s, i) ==> ParseTime(s) == Some((DigitsValue(s[..i]), DigitsValue(s[i + 1..])))
  {
    if ParseTime(s).Some? {
      var (h, end) := TimeMatch(s).value;
      HourMatchIsField(s, h);
      MinuteMatchIsField(s[h + 1..]);
      assert SplitsAt(s, h);
    }
    forall i | SplitsAt(s, i) ensures ParseTime(s) == Some((DigitsValue(s[..i]), DigitsValue(s[i + 1..]))) {
      SplitIsMatched(s, i);
    }
  }

  /** A time written with zero padding, `HH:MM`, is read back as the hour and minute it was written from. */
  lemma ParsePadded(h: nat, m: nat)
    requires h < 24 && m < 60
    ensures ParseTime(Pad2(h) + ":" + Pad2(m)) == Some((h, m))
  {
    var s := Pad2(h) + ":" + Pad2(m);
    assert s[..2] == Pad2(h) && s[3..] == Pad2(m);
    assert SplitsAt(s, 2);
    ParseTimeAccepts(s);
  }

  /** An unpadded hour is accepted. */
  lemma ParseUnpaddedHour()
    ensures ParseTime("9:30") == Some((9, 30))
  {
    var s := "9:30";
    assert s[..1] == "9" && s[2..] == "30";
    OneDigitValue("9");
    TwoDigitValue("30");
    assert SplitsAt(s, 1);
    ParseTimeAccepts(s);
  }

  /** An unpadded minute is accepted. */
  lemma ParseUnpaddedMinute()
    ensures ParseTime("09:5") == Some((9, 5))
  {
    var s := "09:5";
    assert s[..2] == "09" && s[3..] == "5";
    TwoDigitValue("09");
    OneDigitValue("5");
    assert SplitsAt(s, 2);
    ParseTimeAccepts(s);
  }

  /** Hour 24 is refused. */
  lemma ParseRejectsHour24()
    ensures ParseTime("24:00").None?
  {
    var s := "24:00";
    assert HourMatches(s) == [1];
  }

  /** A three-digit minute leaves text over, which is refused. */
  lemma ParseRejectsLongMinute()
    ensures ParseTime("12:345").None?
  {
    var s := "12:345";
    assert HourMatches(s) == [2, 1];
    assert s[3..] == "345";
    assert MatchAfterHour(s, 2) == Some(5);
  }

  /** Leading white space is refused: the entry is stripped before it is parsed. */
  lemma ParseRejectsLeadingSpace()
    ensures ParseTime(" 9:30").None?
  {
    assert HourMatches(" 9:30") == [];
  }

  /**
   * The same time of day can be scheduled twice under two texts: the test
   * for an existing entry compares the texts, not the times they denote.
   */
  lemma SameTimeTwoTexts()
    ensures ParseTime("9:30") == ParseTime("09:30") && "9:30" != "09:30"
  {
    ParseUnpaddedHour();
    var s := "09:30";
    assert s[..2] == "09" && s[3..] == "30";
    TwoDigitValue("09");
    TwoDigitValue("30");
    assert SplitsAt(s, 2);
    ParseTimeAccepts(s);
  }

  /** Every entry of the list is a time `strptime` accepts. */
  ghost predicate AllTimes(xs: seq<string>) {
    forall k :: 0 <= k < |xs| ==> ParseTime(xs[k]).Some?
  }

  /** The schedule list as the editor keeps it: in Python's string order, without repeats, every entry a time. */
  ghost predicate Tidy(xs: seq<string>) {
    Increasing(xs) && AllTimes(xs)
  }

  lemma IncreasingTail(ys: seq<string>)
    requires Increasing(ys) && ys != []
    ensures Increasing(ys[1..])
  {
    assert forall k :: 0 <= k < |ys| - 1 ==> ys[1..][k] == ys[k + 1];
  }

  /** Every element of `rest` is above `y`: then `[y] + rest` is increasing when `rest` is. */
  lemma ConsIncreasing(y: string, rest: seq<string>)
    requires Increasing(rest)
    requires forall k :: 0 <= k < |rest| ==> Below(y, rest[k])
    ensures Increasing([y] + rest)
  {
    var r := [y] + rest;
    forall a, b | 0 <= a < b < |r| ensures Below(r[a], r[b]) {
      assert r[b] == rest[b - 1];
      if a > 0 { assert r[a] == rest[a - 1]; }
    }
  }

  /** Inserting a new element into an increasing list keeps it increasing. */
  lemma {:induction false} InsertIncreasing(t: string, ys: seq<string>)
    requires Sorted(ys) && Increasing(ys) && t !in ys
    ensures Increasing(Insert(t, ys))
  {
    if ys == [] {
    } else if Below(ys[0], t) {
      IncreasingTail(ys);
      assert Sorted(ys[1..]) by { assert forall k :: 0 <= k < |ys| - 1 ==> ys[1..][k] == ys[k + 1]; }
      assert t !in ys[1..];
      InsertIncreasing(t, ys[1..]);
      var rest := Insert(t, ys[1..]);
      forall k | 0 <= k < |rest| ensures Below(ys[0], rest[k]) {
        assert rest[k] in multiset(rest);
        if rest[k] != t {
          assert rest[k] in multiset(ys[1..]);
          var m :| 0 <= m < |ys[1..]| && ys[1..][m] == rest[k];
          assert ys[m + 1] == rest[k];
        }
      }
      ConsIncreasing(ys[0], rest);
    } else {
      assert t != ys[0];
      BelowTotal(ys[0], t);
      forall k | 0 <= k < |ys| ensures Below(t, ys[k]) {
        if k > 0 { BelowTransitive(t, ys[0], ys[k]); }
      }
      ConsIncreasing(t, ys);
    }
  }

  /**
   * `append` then `sort` of a new time: the list grows by exactly that time,
   * stays in order without repeats, and gives the same list as inserting the
   * time at its place.
   */
  lemma AddKeepsTidy(xs: seq<string>, t: string)
    requires Tidy(xs) && ParseTime(t).Some? && t !in xs
    ensures Tidy(Sort(xs + [t]))
    ensures multiset(Sort(xs + [t])) == multiset(xs) + multiset{t}
    ensures |Sort(xs + [t])| == |xs| + 1
    ensures forall y :: y in Sort(xs + [t]) <==> y in xs || y == t
  {
    var r := Sort(xs + [t]);
    IncreasingIsSortedAndDistinct(xs);
    InsertIncreasing(t, xs);
    assert multiset(xs + [t]) == multiset(xs) + multiset{t};
    IncreasingIsSortedAndDistinct(Insert(t, xs));
    SortedPermutationsAreEqual(r, Insert(t, xs));
    assert |r| == |xs| + 1 by { assert |multiset(r)| == |multiset(xs + [t])|; }
    forall y ensures y in r <==> y in xs || y == t {
      assert y in r <==> y in multiset(r);
      assert y in xs <==> y in multiset(xs);
    }
    forall k | 0 <= k < |r| ensures ParseTime(r[k]).Some? {
      assert r[k] in r;
      if r[k] != t { var m :| 0 <= m < |xs| && xs[m] == r[k]; }
    }
  }

  /** What `AcceptTime` needs of the sorted list: it holds the new time, and it is tidy when the old list was. */
  lemma AddedFacts(xs: seq<string>, t: string)
    requires ParseTime(t).Some? && t !in xs
    ensures t in Sort(xs + [t])
    ensures Tidy(xs) ==> Tidy(Sort(xs + [t])) && |Sort(xs + [t])| == |xs| + 1
  {
    assert t in multiset(Sort(xs + [t])) by { assert (xs + [t])[|xs|] == t; }
    if Tidy(xs) {
      AddKeepsTidy(xs, t);
    }
  }

  /** `remove` keeps the list tidy and takes out exactly the removed time. */
  lemma RemoveKeepsTidy(xs: seq<string>, t: string)
    requires Tidy(xs) && t in xs
    ensures Tidy(RemoveFirst(xs, t))
    ensures forall y :: y in RemoveFirst(xs, t) <==> y in xs && y != t
    ensures |RemoveFirst(xs, t)| == |xs| - 1
  {
    RemoveFirstFromIncreasing(xs, t);
    var r := RemoveFirst(xs, t);
    forall k | 0 <= k < |r| ensures ParseTime(r[k]).Some? {
      assert r[k] in r;
      var m :| 0 <= m < |xs| && xs[m] == r[k];
    }
  }

  /** How `ScheduleWindow.add_schedule` can refuse a time. */
  datatype AddError =
    | EmptyEntry  // "Por favor, insira um horário"
    | BadFormat   // "Formato inválido. Use HH:MM (ex: 09:30)"
    | Duplicate   // "Este horário já está agendado"

  datatype AddOutcome = Rejected(error: AddError) | Added(time: string)

  /** How `ScheduleWindow.clear_all_schedules` ends. */
  datatype ClearOutcome =
    | NothingToClear  // "Não há agendamentos para remover"
    | NotConfirmed    // the dialog's answer was not "CONFIRMAR"
    | Cleared

  /** What `_automation_worker` reports once `main` returns or raises. */
  datatype RunReport =
    | StoppedByUser   // "Automação interrompida com sucesso."
    | Completed       // "Automação concluída com sucesso!"
    | CrashedRun      // "ERRO CRÍTICO NA AUTOMAÇÃO"

  /** The answer "Limpar Todos" asks for. */
  const ConfirmWord := "CONFIRMAR"

  /** The application window's state (`App`). */
  class App {
    /** `agendamentos.json`: `None` when it is missing or cannot be read. */
    var file: Option<seq<string>>
    /** `is_schedule_running`. */
    var schedulerRunning: bool
    /** The daily jobs registered with `schedule`, by time, in registration order. */
    var jobs: seq<string>
    /** `automation_thread` exists and is alive. */
    var runAlive: bool
    /** `stop_event`: `None` until the first run, then whether the run's event is set. */
    var stopEvent: Option<bool>

    /** `load_schedules_from_file`: the saved list, or `[]` when there is none. */
    function Loaded(): seq<string>
      reads this
    {
      if file.Some? then file.value else []
    }

    /**
     * A live run always has its stop event, jobs are registered exactly while
     * the scheduler runs, they are the saved times, and the scheduler runs
     * only with something saved.
     */
    ghost predicate Valid()
      reads this
    {
      && (runAlive ==> stopEvent.Some?)
      && jobs == (if schedulerRunning then Loaded() else [])
      && (schedulerRunning ==> Loaded() != [])
    }

    /** `App.__init__` with `saved` in the file: nothing runs yet, then `update_schedules`. */
    constructor (saved: Option<seq<string>>)
      ensures file == saved && !runAlive && stopEvent.None?
      ensures schedulerRunning <==> Loaded() != []
      ensures jobs == Loaded()
      ensures Valid()
    {
      file := saved;
      schedulerRunning := false;
      jobs := [];
      runAlive := false;
      stopEvent := None;
      new;
      UpdateSchedules();
    }

    /** `for time_str in schedules: schedule.every().day.at(time_str).do(...)`. */
    method RegisterJobs(times: seq<string>)
      modifies this
      ensures jobs == old(jobs) + times
      ensures file == old(file) && schedulerRunning == old(schedulerRunning)
      ensures runAlive == old(runAlive) && stopEvent == old(stopEvent)
    {
      var i := 0;
      while i < |times|
        invariant 0 <= i <= |times|
        invariant jobs == old(jobs) + times[..i]
        invariant file == old(file) && schedulerRunning == old(schedulerRunning)
        invariant runAlive == old(runAlive) && stopEvent == old(stopEvent)
      {
        jobs := jobs + [times[i]];
        i := i + 1;
      }
    }

    /**
     * `update_schedules`: registers the saved times afresh; a non-empty list
     * leaves the scheduler running and an empty one leaves it stopped.
     */
    method UpdateSchedules()
      modifies this
      ensures Loaded() != [] ==> schedulerRunning && jobs == Loaded()
      ensures Loaded() == [] ==> !schedulerRunning && jobs == []
      ensures file == old(file) && runAlive == old(runAlive) && stopEvent == old(stopEvent)
    {
      var schedules := Loaded();
      jobs := [];
      if schedules != [] {
        RegisterJobs(schedules);
        if !schedulerRunning {
          StartScheduler();
        }
      } else if schedulerRunning {
        StopScheduler();
      }
    }

    /**
     * `start_scheduler`: nothing happens when the scheduler already runs or
     * nothing is saved; otherwise the saved times are registered afresh and
     * the scheduler runs.
     */
    method StartScheduler()
      modifies this
      ensures old(schedulerRunning) || Loaded() == [] ==> unchanged(this)
      ensures !old(schedulerRunning) && Loaded() != [] ==> schedulerRunning && jobs == Loaded()
      ensures file == old(file) && runAlive == old(runAlive) && stopEvent == old(stopEvent)
    {
      if !schedulerRunning {
        var schedules := Loaded();
        if schedules == [] {
          return;
        }
        jobs := [];
        RegisterJobs(schedules);
        schedulerRunning := true;
      }
    }

    /** `stop_scheduler`: always leaves the scheduler stopped and no job registered. */
    method StopScheduler()
      modifies this
      ensures !schedulerRunning && jobs == []
      ensures file == old(file) && runAlive == old(runAlive) && stopEvent == old(stopEvent)
    {
      schedulerRunning := false;
      jobs := [];
    }

    /** The "Iniciar/Parar Agendador" button: stop when running, otherwise start if anything is saved. */
    method ToggleScheduler()
      requires Valid()
      modifies this
      ensures Valid()
      ensures old(schedulerRunning) ==> !schedulerRunning
      ensures !old(schedulerRunning) ==> (schedulerRunning <==> Loaded() != [])
      ensures file == old(file) && runAlive == old(runAlive) && stopEvent == old(stopEvent)
    {
      if schedulerRunning {
        StopScheduler();
      } else {
        var schedules := Loaded();
        if schedules != [] {
          StartScheduler();
        }
      }
    }

    /**
     * `start_automation`: while a run is alive nothing changes; otherwise a
     * fresh, clear stop event is installed and a run starts.
     */
    method StartAutomation() returns (started: bool)
      modifies this
      ensures started <==> !old(runAlive)
      ensures !started ==> unchanged(this)
      ensures started ==> runAlive && stopEvent == Some(false)
      ensures file == old(file) && schedulerRunning == old(schedulerRunning) && jobs == old(jobs)
    {
      if runAlive {
        return false;
      }
      stopEvent := Some(false);
      runAlive := true;
      started := true;
    }

    /** `stop_automation`: sets the stop event if there is one, and does nothing otherwise. */
    method StopAutomation()
      modifies this
      ensures stopEvent == if old(stopEvent).Some? then Some(true) else None
      ensures file == old(file) && schedulerRunning == old(schedulerRunning) && jobs == old(jobs)
      ensures runAlive == old(runAlive)
    {
      if stopEvent.Some? {
        stopEvent := Some(true);
      }
    }

    /**
     * `_automation_worker`, run by the thread `start_automation` creates;
     * `raised` says whether `main` raised. However it ends, the run slot is
     * free afterwards.
     */
    method AutomationWorker(raised: bool) returns (report: RunReport)
      requires stopEvent.Some?
      modifies this
      ensures !runAlive
      ensures report == CrashedRun <==> raised
      ensures report == StoppedByUser <==> !raised && stopEvent == Some(true)
      ensures stopEvent == old(stopEvent) && file == old(file)
      ensures schedulerRunning == old(schedulerRunning) && jobs == old(jobs)
    {
      if raised {
        report := CrashedRun;
      } else if stopEvent.value {
        report := StoppedByUser;
      } else {
        report := Completed;
      }
      // finally: the buttons return to idle and the thread ends
      runAlive := false;
    }
  }

  /** The schedule editor (`ScheduleWindow`). */
  class ScheduleWindow {
    const parent: App
    /** `self.schedules`. */
    var schedules: seq<string>
    /** The text in the `HH:MM` entry. */
    var entry: string

    /** The window's list is the saved one, and the application is in a consistent state. */
    ghost predicate Valid()
      reads this, parent
    {
      parent.Valid() && schedules == parent.Loaded()
    }

    /** `ScheduleWindow.__init__`: `load_schedules` reads the saved list; the entry starts empty. */
    constructor (parent: App)
      requires parent.Valid()
      ensures this.parent == parent && schedules == parent.Loaded() && entry == []
      ensures Valid()
    {
      this.parent := parent;
      schedules := parent.Loaded();
      entry := [];
    }

    /** `save_schedules` followed by `parent.update_schedules()`. */
    method SaveAndRefresh()
      requires parent.Valid()
      modifies parent
      ensures parent.file == Some(schedules)
      ensures schedules != [] ==> parent.schedulerRunning && parent.jobs == schedules
      ensures schedules == [] ==> !parent.schedulerRunning && parent.jobs == []
      ensures parent.runAlive == old(parent.runAlive) && parent.stopEvent == old(parent.stopEvent)
      ensures Valid()
    {
      parent.file := Some(schedules);
      parent.UpdateSchedules();
    }

    /**
     * `add_schedule`: the stripped entry must be non-empty, a time
     * `strptime` accepts, and not already in the list; then it is appended,
     * the list sorted and saved, the jobs re-registered, and the entry cleared.
     */
    method AddSchedule() returns (o: AddOutcome)
      requires Valid()
      modifies this, parent
      ensures Valid()
      ensures var t := Strip(old(entry));
              && (o == Rejected(EmptyEntry) <==> t == [])
              && (o == Rejected(BadFormat) <==> t != [] && ParseTime(t).None?)
              && (o == Rejected(Duplicate) <==> ParseTime(t).Some? && t in old(schedules))
              && (o.Added? <==> ParseTime(t).Some? && t !in old(schedules))
              && (o.Added? ==> o.time == t)
      ensures o.Rejected? ==> unchanged(this) && unchanged(parent)
      ensures o.Added? ==> && schedules == Sort(old(schedules) + [o.time]) && entry == []
                           && parent.schedulerRunning && parent.jobs == schedules
      ensures parent.runAlive == old(parent.runAlive) && parent.stopEvent == old(parent.stopEvent)
      ensures Tidy(old(schedules)) && o.Added? ==> Tidy(schedules) && |schedules| == |old(schedules)| + 1
    {
      var t := Strip(entry);
      if t == [] {
        return Rejected(EmptyEntry);
      }
      if ParseTime(t).None? {
        return Rejected(BadFormat);
      }
      if t in schedules {
        return Rejected(Duplicate);
      }
      AcceptTime(t);
      o := Added(t);
    }

    /** The part of `add_schedule` after the checks: append, sort, save, refresh the jobs, clear the entry. */
    method AcceptTime(t: string)
      requires Valid() && ParseTime(t).Some? && t !in schedules
      modifies this, parent
      ensures Valid()
      ensures schedules == Sort(old(schedules) + [t]) && entry == []
      ensures parent.schedulerRunning && parent.jobs == schedules
      ensures parent.runAlive == old(parent.runAlive) && parent.stopEvent == old(parent.stopEvent)
      ensures Tidy(old(schedules)) ==> Tidy(schedules) && |schedules| == |old(schedules)| + 1
    {
      AddedFacts(schedules, t);
      schedules := Sort(schedules + [t]);
      SaveAndRefresh();
      entry := [];
    }

    /** `remove_schedule(time_str)`: a listed time is taken out and the rest saved; any other text changes nothing. */
    method RemoveSchedule(t: string)
      requires Valid()
      modifies this, parent
      ensures Valid()
      ensures t !in old(schedules) ==> unchanged(this) && unchanged(parent)
      ensures t in old(schedules) ==> && schedules == RemoveFirst(old(schedules), t)
                                      && (schedules != [] ==> parent.schedulerRunning && parent.jobs == schedules)
                                      && (schedules == [] ==> !parent.schedulerRunning && parent.jobs == [])
      ensures entry == old(entry)
      ensures parent.runAlive == old(parent.runAlive) && parent.stopEvent == old(parent.stopEvent)
      ensures Tidy(old(schedules)) && t in old(schedules) ==> Tidy(schedules) && t !in schedules
    {
      if t in schedules {
        if Tidy(schedules) {
          RemoveKeepsTidy(schedules, t);
        }
        schedules := RemoveFirst(schedules, t);
        SaveAndRefresh();
      }
    }

    /**
     * `clear_all_schedules`, with `answer` what the confirmation dialog
     * returns (`None` when it is cancelled); the dialog appears only when the
     * list is not empty.
     */
    method ClearAllSchedules(answer: Option<string>) returns (o: ClearOutcome)
      requires Valid()
      modifies this, parent
      ensures Valid()
      ensures o == NothingToClear <==> old(schedules) == []
      ensures o == Cleared <==> old(schedules) != [] && answer == Some(ConfirmWord)
      ensures o != Cleared ==> unchanged(this) && unchanged(parent)
      ensures o == Cleared ==> schedules == [] && parent.file == Some([]) && !parent.schedulerRunning && parent.jobs == []
      ensures entry == old(entry)
      ensures parent.runAlive == old(parent.runAlive) && parent.stopEvent == old(parent.stopEvent)
    {
      if schedules == [] {
        return NothingToClear;
      }
      if answer != Some(ConfirmWord) {
        return NotConfirmed;
      }
      schedules := [];
      SaveAndRefresh();
      o := Cleared;
    }
  }
}
