/**
 * The loop of `main` in auto_455.py (lines 228-283): for the current month
 * and the two before it, one browser session that logs in, fills the search
 * form, takes the request number, waits for the report and renames the
 * download; a stop flag read before each period and after each stage ends
 * the run early, a general error ends only the period, and the browser
 * opened for a period is always closed.
 *
 * The browser is replaced by what each stage would do (`Portal`, supplied
 * by the caller for each period), the stop flag by the first reading that
 * sees it set (`StopRequest`). What happens is recorded as a trace of
 * flag readings, stage starts and browser shutdowns.
 */
module RunLoop {
  import opened Wrappers
  import opened PyText
  import opened Periods
  import opened ResultsTable

  /**
   * The stop flag is set once and never cleared, so it is described by the
   * number of the first reading that finds it set; `NeverStopped` also covers
   * `main()` called without a flag.
   */
  datatype StopRequest = NeverStopped | StopBefore(reading: nat)

  /** What reading number `k` of `stop_event.is_set()` returns (readings are numbered from 0). */
  predicate IsStopped(stop: StopRequest, k: int) {
    stop.StopBefore? && stop.reading <= k
  }

  /** What each stage of one period would do in the browser. */
  datatype Portal = Portal(
    browserStarts: bool,           // `webdriver.Edge(...)` returns a driver
    loginCompletes: bool,          // `realizar_login` gets through without raising
    formCompletes: bool,           // `preencher_formulario` gets through without raising
    table: Option<seq<Row>>,       // the request table as `capturar_seq` finds it
    refreshed: Option<seq<Row>>)   // the rows after the refresh click; `None` when the button is not clickable

  datatype Stage = Launch | Login | FillForm | Capture | Update | Rename

  datatype Event =
    | Look(isSet: bool)   // one reading of the stop flag
    | Begin(stage: Stage)
    | Quit              // `driver.quit()` in the `finally`

  /** How one turn of the loop ends. */
  datatype Ending =
    | Finished      // "Finalizada extração"
    | Interrupted   // `InterruptedError`: the loop is left with `break`
    | Failed        // any other exception: logged, and the loop goes on

  /** One turn of the loop. */
  datatype PeriodRun = PeriodRun(
    period: Option<Period>,         // `None` where `datetime` raises on the computed month
    events: seq<Event>,
    driverOpened: bool,                // a driver was created
    captured: Option<string>,       // what `capturar_seq` returned, when it was called
    update: Option<UpdateOutcome>,  // how `atualizar_relatorio` ended, when it was called
    renamed: Option<string>,        // the base name handed to the rename, when it was called
    ending: Ending)

  predicate SawStop(events: seq<Event>) {
    Look(true) in events
  }

  /** The order of the stages in the body of the loop. */
  const Plan: seq<Stage> := [Launch, Login, FillForm, Capture, Update, Rename]

  /** The stages begun in `events`, in the order they began. */
  function Started(events: seq<Event>): seq<Stage> {
    if events == [] then []
    else Started(events[..|events| - 1]) + (if events[|events| - 1].Begin? then [events[|events| - 1].stage] else [])
  }

  lemma StartedSnoc(events: seq<Event>, e: Event)
    ensures Started(events + [e]) == Started(events) + (if e.Begin? then [e.stage] else [])
  {
    assert (events + [e])[..|events|] == events;
  }

  /** After a reading that finds the flag set, no stage starts. */
  ghost predicate NoWorkAfterStop(events: seq<Event>) {
    forall i, j :: 0 <= i < j < |events| && events[i] == Look(true) ==> !events[j].Begin?
  }

  /**
   * The trace so far agrees with the flag: no work after a set reading, and
   * a set reading was seen exactly when the last of the `looks` readings made
   * so far finds the flag set.
   */
  ghost predicate Tracks(stop: StopRequest, looks: nat, events: seq<Event>) {
    NoWorkAfterStop(events) && (SawStop(events) <==> IsStopped(stop, looks - 1))
  }

  /** The readings from number `from` on, `n` of them, as events. */
  function Looks(stop: StopRequest, from: nat, n: nat): (r: seq<Event>)
    ensures |r| == n
    ensures forall t :: 0 <= t < n ==> r[t] == Look(IsStopped(stop, from + t))
  {
    seq(n, t => Look(IsStopped(stop, from + t)))
  }

  lemma Observe(stop: StopRequest, looks: nat, events: seq<Event>)
    requires Tracks(stop, looks, events)
    ensures Tracks(stop, looks + 1, events + [Look(IsStopped(stop, looks))])
  {
    var e := events + [Look(IsStopped(stop, looks))];
    assert forall j :: 0 <= j < |events| ==> e[j] == events[j];
  }

  lemma {:induction false} ObserveMany(stop: StopRequest, looks: nat, events: seq<Event>, n: nat)
    requires Tracks(stop, looks, events)
    ensures Tracks(stop, looks + n, events + Looks(stop, looks, n))
  {
    if n > 0 {
      ObserveMany(stop, looks, events, n - 1);
      Observe(stop, looks + n - 1, events + Looks(stop, looks, n - 1));
      assert events + Looks(stop, looks, n) == events + Looks(stop, looks, n - 1) + [Look(IsStopped(stop, looks + n - 1))];
    }
  }

  /** Flag readings begin no stage. */
  lemma {:induction false} StartedLooks(stop: StopRequest, events: seq<Event>, from: nat, n: nat)
    ensures Started(events + Looks(stop, from, n)) == Started(events)
  {
    if n == 0 {
      assert events + Looks(stop, from, n) == events;
    } else {
      StartedLooks(stop, events, from, n - 1);
      assert events + Looks(stop, from, n) == events + Looks(stop, from, n - 1) + [Look(IsStopped(stop, from + n - 1))];
      StartedSnoc(events + Looks(stop, from, n - 1), Look(IsStopped(stop, from + n - 1)));
    }
  }

  lemma Proceed(stop: StopRequest, looks: nat, events: seq<Event>, e: Event)
    requires Tracks(stop, looks, events)
    requires !e.Look?
    requires e.Begin? ==> !SawStop(events)
    ensures Tracks(stop, looks, events + [e])
  {
    var es := events + [e];
    assert forall j :: 0 <= j < |events| ==> es[j] == events[j];
  }

  /** A trace without a set reading, followed by one that agrees with the flag, agrees with the flag. */
  lemma Concat(stop: StopRequest, looks: nat, a: seq<Event>, b: seq<Event>)
    requires NoWorkAfterStop(a) && !SawStop(a)
    requires Tracks(stop, looks, b)
    ensures Tracks(stop, looks, a + b)
  {
    var e := a + b;
    assert forall j :: 0 <= j < |a| ==> e[j] == a[j];
    assert forall j :: 0 <= j < |b| ==> e[|a| + j] == b[j];
  }

  /** What `atualizar_relatorio`'s outcome says about the refreshed table. */
  ghost predicate UpdateAgrees(o: UpdateOutcome, wanted: string, refreshed: Option<seq<Row>>) {
    match o
    case Cancelled => true
    case RefreshUnavailable => refreshed.None?
    case NoMatch => refreshed.Some? && Describes(refreshed.value, wanted, Absent)
    case RowUnreadable(k) => refreshed.Some? && Describes(refreshed.value, wanted, Unreadable(k))
    case LinkMissing(k) => refreshed.Some? && Describes(refreshed.value, wanted, Found(k)) && !refreshed.value[k].hasLink
    case Triggered(k) => refreshed.Some? && Describes(refreshed.value, wanted, Found(k)) && refreshed.value[k].hasLink
  }

  /** After the refresh, a row after the header carries `wanted`, the search reaches it, and it holds the download link. */
  ghost predicate Downloadable(wanted: string, refreshed: Option<seq<Row>>) {
    refreshed.Some? && exists k: nat :: Describes(refreshed.value, wanted, Found(k)) && refreshed.value[k].hasLink
  }

  /**
   * A portal on which every stage of a turn succeeds: the browser starts,
   * login and form go through, the table shows a request number, and after
   * the refresh that request has its link.
   */
  ghost predicate Delivers(portal: Portal) {
    && portal.browserStarts && portal.loginCompletes && portal.formCompletes
    && CaptureSeq(false, portal.table).Some? && CaptureSeq(false, portal.table).value != []
    && Downloadable(CaptureSeq(false, portal.table).value, portal.refreshed)
  }

  /** An uncancelled report search on a table where the request has its link clicks that link. */
  lemma UpdateTriggers(o: UpdateOutcome, wanted: string, refreshed: Option<seq<Row>>)
    requires UpdateAgrees(o, wanted, refreshed) && !o.Cancelled?
    requires Downloadable(wanted, refreshed)
    ensures o.Triggered?
  {
    var k: nat :| Describes(refreshed.value, wanted, Found(k)) && refreshed.value[k].hasLink;
    if o.LinkMissing? {
      DescribesUnique(refreshed.value, wanted, Found(o.row), Found(k));
    }
  }

  /**
   * What the `try` block guarantees once a driver exists: the request number
   * is the one in the table and was read only by a capture that ran, the
   * report is sought only for a non-empty one and exactly when that stage
   * ran, it is cancelled only after a reading that saw the flag set,
   * the rename is asked for exactly when the download was triggered, and the
   * turn ends as its stages dictate.
   */
  ghost predicate StageFacts(r: PeriodRun, portal: Portal) {
    && (r.captured.Some? ==> r.captured == CaptureSeq(false, portal.table))
    && (r.captured.Some? ==> Capture in Started(r.events))
    && (r.update.Some? <==> Update in Started(r.events))
    && (r.update.Some? && r.update.value.Cancelled? ==> SawStop(r.events))
    && (r.update.Some? ==> r.captured.Some? && r.captured.value != [])
    && (r.update.Some? ==> UpdateAgrees(r.update.value, r.captured.value, portal.refreshed))
    && (r.ending == Finished && r.captured.Some? && r.captured.value != [] ==> r.update.Some?)
    && (r.renamed.Some? <==> r.update.Some? && Returned(r.update.value) == Some(true))
    && (r.renamed.Some? ==> r.period.Some? && r.renamed.value == r.period.value.baseName && r.ending == Finished)
    && (Begin(Rename) in r.events <==> r.renamed.Some?)
    && (r.ending == Interrupted ==> SawStop(r.events))
    && (r.ending == Failed ==>
          || !portal.loginCompletes || !portal.formCompletes
          || (r.update.Some? && r.update.value.RowUnreadable?))
    && (r.update.Some? && Returned(r.update.value).None? ==> r.ending == Failed)
    && (r.ending == Finished ==> portal.loginCompletes && portal.formCompletes)
    && (r.ending == Finished ==> r.captured == CaptureSeq(false, portal.table))
  }

  /**
   * What the body of the loop guarantees about one turn: a driver is created
   * only once the period is computed and the browser starts, and one that was
   * created is quit exactly once, last, and the stages begin in the order
   * of the body, each at most once.
   */
  ghost predicate WellFormed(r: PeriodRun, portal: Portal) {
    && (r.driverOpened <==> r.period.Some? && portal.browserStarts)
    && (r.period.None? ==> r.events == [])
    && Started(r.events) <= Plan
    && (r.driverOpened ==>
          && r.events != [] && r.events[|r.events| - 1] == Quit
          && Quit !in r.events[..|r.events| - 1]
          && StageFacts(r.(events := r.events[..|r.events| - 1]), portal))
    && (!r.driverOpened ==>
          && Quit !in r.events && Begin(Rename) !in r.events && r.ending == Failed
          && r.captured.None? && r.update.None? && r.renamed.None?)
  }

  /** How a stage followed by a check of the flag ends. */
  datatype StageResult = Proceeded | Raised | Stopped

  /**
   * `realizar_login` or `preencher_formulario`, each of which returns at once
   * when it finds the flag set and may otherwise raise, followed by
   * `if stop_event and stop_event.is_set(): raise InterruptedError`.
   */
  method GuardedStage(stop: StopRequest, looks: nat, events: seq<Event>, stage: Stage, completes: bool)
      returns (res: StageResult, next: nat, events2: seq<Event>)
    requires Tracks(stop, looks, events) && !SawStop(events)
    requires stage != Rename
    ensures next >= looks && Tracks(stop, next, events2)
    ensures Quit in events2 <==> Quit in events
    ensures Begin(Rename) in events2 <==> Begin(Rename) in events
    ensures res == Raised <==> !completes && !IsStopped(stop, looks)
    ensures res == Proceeded <==> completes && !IsStopped(stop, looks + 1)
    ensures next == if res == Raised then looks + 1 else looks + 2
    ensures res == Stopped ==> SawStop(events2)
    ensures res == Proceeded ==> !SawStop(events2)
    ensures Started(events2) == Started(events) + [stage]
  {
    next := looks;
    Proceed(stop, next, events, Begin(stage));
    StartedSnoc(events, Begin(stage));
    events2 := events + [Begin(stage)];
    var s := IsStopped(stop, next);
    Observe(stop, next, events2);
    StartedSnoc(events2, Look(s));
    events2, next := events2 + [Look(s)], next + 1;
    if !s && !completes {
      return Raised, next, events2;
    }
    s := IsStopped(stop, next);
    Observe(stop, next, events2);
    StartedSnoc(events2, Look(s));
    events2, next := events2 + [Look(s)], next + 1;
    res := if s then Stopped else Proceeded;
  }

  /** `if seq:`, `atualizar_relatorio`, and the rename when it returned `True`. */
  method UpdateAndRename(period: Period, captured: string, stop: StopRequest, looks: nat,
                         events: seq<Event>, portal: Portal)
      returns (update: UpdateOutcome, renamed: Option<string>, next: nat, events2: seq<Event>)
    requires Tracks(stop, looks, events) && !SawStop(events)
    requires Quit !in events && Begin(Rename) !in events
    ensures next >= looks && Tracks(stop, next, events2)
    ensures Quit !in events2
    ensures UpdateAgrees(update, captured, portal.refreshed)
    ensures update.Cancelled? <==> IsStopped(stop, looks + WaitTicks)
    ensures !update.Cancelled? ==> next == looks + 1 + WaitTicks
    ensures !update.Cancelled? && Downloadable(captured, portal.refreshed) ==> update.Triggered?
    ensures renamed.Some? <==> Returned(update) == Some(true)
    ensures renamed.Some? ==> renamed.value == period.baseName
    ensures Begin(Rename) in events2 <==> renamed.Some?
    ensures update.Cancelled? <==> SawStop(events2)
    ensures Started(events2) == Started(events) + [Update] + (if renamed.Some? then [Rename] else [])
  {
    Proceed(stop, looks, events, Begin(Update));
    StartedSnoc(events, Begin(Update));
    events2 := events + [Begin(Update)];
    var readings := seq(1 + WaitTicks, t => IsStopped(stop, looks + t));
    var n;
    update, n := UpdateReport(captured, readings, portal.refreshed);
    assert readings[n - 1] == IsStopped(stop, looks + n - 1);
    assert readings[WaitTicks] == IsStopped(stop, looks + WaitTicks);
    if !update.Cancelled? && Downloadable(captured, portal.refreshed) {
      UpdateTriggers(update, captured, portal.refreshed);
    }
    ObserveMany(stop, looks, events2, n);
    StartedLooks(stop, events2, looks, n);
    events2, next := events2 + Looks(stop, looks, n), looks + n;
    renamed := None;
    if update.Triggered? {
      Proceed(stop, next, events2, Begin(Rename));
      StartedSnoc(events2, Begin(Rename));
      events2 := events2 + [Begin(Rename)];
      renamed := Some(period.baseName);
    }
  }

  /** `realizar_login` and `preencher_formulario`, each followed by its flag test. */
  method LoginAndForm(stop: StopRequest, looks: nat, events: seq<Event>, portal: Portal)
      returns (res: StageResult, next: nat, events2: seq<Event>)
    requires Tracks(stop, looks, events) && !SawStop(events)
    requires Quit !in events && Begin(Rename) !in events
    requires Started(events) == [Launch]
    ensures next >= looks && Tracks(stop, next, events2)
    ensures Quit !in events2 && Begin(Rename) !in events2
    ensures res == Raised <==> || (!portal.loginCompletes && !IsStopped(stop, looks))
                               || (portal.loginCompletes && !IsStopped(stop, looks + 1)
                                   && !portal.formCompletes && !IsStopped(stop, looks + 2))
    ensures res == Proceeded <==> portal.loginCompletes && portal.formCompletes && !IsStopped(stop, looks + 3)
    ensures res == Stopped ==> SawStop(events2)
    ensures res == Proceeded ==> next == looks + 4 && !SawStop(events2) && Started(events2) == [Launch, Login, FillForm]
    ensures Started(events2) <= [Launch, Login, FillForm]
  {
    res, next, events2 := GuardedStage(stop, looks, events, Login, portal.loginCompletes);
    if res == Proceeded {
      res, next, events2 := GuardedStage(stop, next, events2, FillForm, portal.formCompletes);
    }
  }

  /** `capturar_seq`, which reads the flag on entry, followed by its flag test. */
  method CaptureStage(stop: StopRequest, looks: nat, events: seq<Event>, portal: Portal)
      returns (captured: Option<string>, stopped: bool, next: nat, events2: seq<Event>)
    requires Tracks(stop, looks, events) && !SawStop(events)
    requires Quit !in events && Begin(Rename) !in events
    ensures next == looks + 2 && Tracks(stop, next, events2)
    ensures Quit !in events2 && Begin(Rename) !in events2
    ensures Started(events2) == Started(events) + [Capture]
    ensures stopped <==> IsStopped(stop, looks + 1)
    ensures stopped <==> SawStop(events2)
    ensures captured.Some? ==> captured == CaptureSeq(false, portal.table)
    ensures !stopped ==> captured == CaptureSeq(false, portal.table)
  {
    next := looks;
    Proceed(stop, next, events, Begin(Capture));
    StartedSnoc(events, Begin(Capture));
    events2 := events + [Begin(Capture)];
    var s := IsStopped(stop, next);
    Observe(stop, next, events2);
    StartedSnoc(events2, Look(s));
    events2, next := events2 + [Look(s)], next + 1;
    captured := CaptureSeq(s, portal.table);
    stopped := IsStopped(stop, next);
    Observe(stop, next, events2);
    StartedSnoc(events2, Look(stopped));
    events2, next := events2 + [Look(stopped)], next + 1;
  }

  /** The `try` block once the driver exists, up to (not including) the `finally`. */
  method Attempt(period: Period, stop: StopRequest, looks: nat, events: seq<Event>, portal: Portal)
      returns (r: PeriodRun, next: nat)
    requires Tracks(stop, looks, events) && !SawStop(events)
    requires Quit !in events && Begin(Rename) !in events
    requires Started(events) == [Launch]
    ensures next >= looks && Tracks(stop, next, r.events)
    ensures r.period == Some(period) && r.driverOpened
    ensures Quit !in r.events
    ensures StageFacts(r, portal)
    ensures Started(r.events) <= Plan
    // a login that fails with the flag clear ends the turn as failed, before the table is read
    ensures !IsStopped(stop, looks) && !portal.loginCompletes ==>
              r.ending == Failed && r.captured.None? && r.update.None?
    // likewise the form, whose entry test is the third reading
    ensures portal.loginCompletes && !IsStopped(stop, looks + 2) && !portal.formCompletes ==>
              r.ending == Failed && r.captured.None? && r.update.None?
    // with both through and the flag clear up to the sixth reading, the table is read and the report sought
    ensures portal.loginCompletes && portal.formCompletes && !IsStopped(stop, looks + 5) ==>
              && r.captured == CaptureSeq(false, portal.table) && r.ending != Interrupted
              && (r.captured.Some? && r.captured.value != [] ==> r.update.Some?)
    // a set reading at a stage check ends the turn interrupted, unless login or form raised first
    ensures r.ending == Interrupted <==>
              && IsStopped(stop, looks + 5)
              && !(!IsStopped(stop, looks) && !portal.loginCompletes)
              && !(portal.loginCompletes && !IsStopped(stop, looks + 2) && !portal.formCompletes)
    // a set flag read by the sixth reading, after the capture, keeps the turn from finishing
    ensures IsStopped(stop, looks + 5) ==> r.ending != Finished
    // past that point, a flag set during the wait cancels the search, and the turn finishes without a rename
    ensures !IsStopped(stop, looks + 5) && IsStopped(stop, looks + 6 + WaitTicks) && r.update.Some? ==>
              r.update.value.Cancelled?
    ensures r.update.Some? && r.update.value.Cancelled? ==> r.ending == Finished && r.renamed.None?
    ensures r.update.Some? && r.update.value.Cancelled? ==> IsStopped(stop, looks + 6 + WaitTicks)
    // with every stage succeeding and the flag clear through the wait, the download is renamed
    ensures Delivers(portal) && !IsStopped(stop, looks + 6 + WaitTicks) ==>
              r.renamed == Some(period.baseName) && r.ending == Finished
  {
    var res, events1;
    res, next, events1 := LoginAndForm(stop, looks, events, portal);
    if res != Proceeded {
      return PeriodRun(Some(period), events1, true, None, None, None, if res == Raised then Failed else Interrupted), next;
    }
    var captured, stopped;
    captured, stopped, next, events1 := CaptureStage(stop, next, events1, portal);
    if stopped {
      return PeriodRun(Some(period), events1, true, captured, None, None, Interrupted), next;
    }
    if captured.Some? && captured.value != [] {
      var update, renamed;
      update, renamed, next, events1 := UpdateAndRename(period, captured.value, stop, next, events1, portal);
      r := PeriodRun(Some(period), events1, true, captured, Some(update), renamed,
                     if update.RowUnreadable? then Failed else Finished);
    } else {
      r := PeriodRun(Some(period), events1, true, captured, None, None, Finished);
    }
  }

  /**
   * The body of the loop for `i` months back. `looks` readings of the flag
   * have been made, the last of them (at the top of the loop) finding it
   * clear.
   */
  method RunPeriod(year: int, month: int, i: nat, abbreviations: seq<string>,
                   stop: StopRequest, looks: nat, portal: Portal)
      returns (r: PeriodRun, next: nat)
    requires MinYear <= year <= MaxYear && 1 <= month <= 12 && |abbreviations| == 12
    requires !IsStopped(stop, looks - 1)
    ensures next >= looks
    ensures r.period == PeriodFor(year, month, i, abbreviations)
    ensures WellFormed(r, portal)
    ensures Tracks(stop, next, r.events)
    ensures Delivers(portal) && r.period.Some? && !IsStopped(stop, looks + 6 + WaitTicks) ==>
              r.renamed == Some(r.period.value.baseName) && r.ending == Finished
    ensures r.ending == Interrupted <==>
              && r.driverOpened && IsStopped(stop, looks + 5)
              && !(!IsStopped(stop, looks) && !portal.loginCompletes)
              && !(portal.loginCompletes && !IsStopped(stop, looks + 2) && !portal.formCompletes)
  {
    next := looks;
    var period := PeriodFor(year, month, i, abbreviations);
    if period.None? {
      r := PeriodRun(period, [], false, None, None, None, Failed);
      NoDriverTurn(r, portal);
      return r, next;
    }
    Proceed(stop, next, [], Begin(Launch));
    var events := [Begin(Launch)];
    if !portal.browserStarts {
      r := PeriodRun(period, events, false, None, None, None, Failed);
      NoDriverTurn(r, portal);
      return r, next;
    }
    var attempt;
    attempt, next := Attempt(period.value, stop, next, events, portal);
    // finally: driver.quit()
    Proceed(stop, next, attempt.events, Quit);
    r := attempt.(events := attempt.events + [Quit]);
    QuitClosesTurn(attempt, portal);
  }

  /** A turn that ends before a driver exists, having at most asked for one, is well formed. */
  lemma NoDriverTurn(r: PeriodRun, portal: Portal)
    requires r.period.None? ==> r.events == []
    requires r.period.Some? ==> !portal.browserStarts && r.events == [Begin(Launch)]
    requires !r.driverOpened && r.ending == Failed
    requires r.captured.None? && r.update.None? && r.renamed.None?
    ensures WellFormed(r, portal)
  {
  }

  /** Adding the `finally`'s `driver.quit()` to a turn whose driver was created makes a well-formed turn. */
  lemma QuitClosesTurn(attempt: PeriodRun, portal: Portal)
    requires attempt.driverOpened && attempt.period.Some? && portal.browserStarts
    requires Quit !in attempt.events && StageFacts(attempt, portal)
    requires Started(attempt.events) <= Plan
    ensures WellFormed(attempt.(events := attempt.events + [Quit]), portal)
  {
    var r := attempt.(events := attempt.events + [Quit]);
    StartedSnoc(attempt.events, Quit);
    assert r.events[..|r.events| - 1] == attempt.events;
    assert r.(events := r.events[..|r.events| - 1]) == attempt;
  }

  /** The trace of the turns that ran, each after the reading at the top of the loop that let it start. */
  function Flatten(runs: seq<PeriodRun>): seq<Event> {
    if runs == [] then [] else Flatten(runs[..|runs| - 1]) + [Look(false)] + runs[|runs| - 1].events
  }

  /** The flag test at the top of the loop and, when it finds the flag clear, the body. */
  method Turn(year: int, month: int, i: nat, abbreviations: seq<string>,
              stop: StopRequest, looks: nat, trace: seq<Event>, portal: Portal)
      returns (stopped: bool, r: PeriodRun, next: nat, trace2: seq<Event>)
    requires MinYear <= year <= MaxYear && 1 <= month <= 12 && |abbreviations| == 12
    requires Tracks(stop, looks, trace)
    ensures next > looks && Tracks(stop, next, trace2)
    ensures stopped <==> IsStopped(stop, looks)
    ensures stopped ==> trace2 == trace + [Look(true)]
    ensures !stopped ==> && !SawStop(trace)
                         && trace2 == trace + [Look(false)] + r.events
                         && r.period == PeriodFor(year, month, i, abbreviations)
                         && WellFormed(r, portal)
    ensures !stopped && Delivers(portal) && r.period.Some? && !IsStopped(stop, looks + 7 + WaitTicks) ==>
              r.renamed == Some(r.period.value.baseName) && r.ending == Finished
  {
    stopped := IsStopped(stop, looks);
    Observe(stop, looks, trace);
    next := looks + 1;
    if stopped {
      return true, PeriodRun(None, [], false, None, None, None, Failed), next, trace + [Look(true)];
    }
    r, next := RunPeriod(year, month, i, abbreviations, stop, next, portal);
    Concat(stop, next, trace + [Look(false)], r.events);
    trace2 := trace + [Look(false)] + r.events;
  }

  /** Turn `k` ran for `k` months back and kept the loop body's guarantees. */
  ghost predicate TurnOk(runs: seq<PeriodRun>, k: int, year: int, month: int, abbreviations: seq<string>,
                         portals: seq<Portal>)
    requires MinYear <= year <= MaxYear && 1 <= month <= 12 && |abbreviations| == 12
  {
    && 0 <= k < |runs| && k < |portals|
    && runs[k].period == PeriodFor(year, month, k, abbreviations)
    && WellFormed(runs[k], portals[k])
  }

  ghost predicate TurnsAgree(runs: seq<PeriodRun>, year: int, month: int, abbreviations: seq<string>,
                             portals: seq<Portal>)
    requires MinYear <= year <= MaxYear && 1 <= month <= 12 && |abbreviations| == 12
  {
    forall k :: 0 <= k < |runs| ==> TurnOk(runs, k, year, month, abbreviations, portals)
  }

  lemma TurnsAgreeExtend(runs: seq<PeriodRun>, r: PeriodRun, year: int, month: int,
                         abbreviations: seq<string>, portals: seq<Portal>)
    requires MinYear <= year <= MaxYear && 1 <= month <= 12 && |abbreviations| == 12
    requires TurnsAgree(runs, year, month, abbreviations, portals)
    requires |runs| < |portals|
    requires r.period == PeriodFor(year, month, |runs|, abbreviations) && WellFormed(r, portals[|runs|])
    ensures TurnsAgree(runs + [r], year, month, abbreviations, portals)
  {
    forall k | 0 <= k < |runs| + 1 ensures TurnOk(runs + [r], k, year, month, abbreviations, portals) {
      if k < |runs| {
        TurnOkSnoc(runs, r, k, year, month, abbreviations, portals);
      }
    }
  }

  lemma TurnOkSnoc(runs: seq<PeriodRun>, r: PeriodRun, k: int, year: int, month: int,
                   abbreviations: seq<string>, portals: seq<Portal>)
    requires MinYear <= year <= MaxYear && 1 <= month <= 12 && |abbreviations| == 12
    requires TurnOk(runs, k, year, month, abbreviations, portals)
    ensures TurnOk(runs + [r], k, year, month, abbreviations, portals)
  {
    assert (runs + [r])[k] == runs[k];
  }

  lemma FlattenSnoc(runs: seq<PeriodRun>, r: PeriodRun)
    ensures Flatten(runs + [r]) == Flatten(runs) + [Look(false)] + r.events
  {
    assert (runs + [r])[..|runs|] == runs;
  }

  /** Every turn whose month exists and whose portal lets every stage succeed renamed that month's download. */
  ghost predicate DeliveredRenamed(runs: seq<PeriodRun>, portals: seq<Portal>) {
    forall k :: 0 <= k < |runs| && k < |portals| && Delivers(portals[k]) && runs[k].period.Some? ==>
      runs[k].renamed == Some(runs[k].period.value.baseName) && runs[k].ending == Finished
  }

  lemma DeliveredRenamedSnoc(runs: seq<PeriodRun>, r: PeriodRun, portals: seq<Portal>)
    requires DeliveredRenamed(runs, portals)
    requires |runs| < |portals| && Delivers(portals[|runs|]) && r.period.Some? ==>
               r.renamed == Some(r.period.value.baseName) && r.ending == Finished
    ensures DeliveredRenamed(runs + [r], portals)
  {
    var rs := runs + [r];
    assert forall k :: 0 <= k < |runs| ==> rs[k] == runs[k];
  }

  /** From year 2 on every month of the loop exists, so a run of three delivering turns renames all three downloads. */
  lemma AllDelivered(year: int, month: int, abbreviations: seq<string>, portals: seq<Portal>, runs: seq<PeriodRun>)
    requires MinYear < year <= MaxYear && 1 <= month <= 12 && |abbreviations| == 12
    requires |runs| == PeriodCount <= |portals|
    requires TurnsAgree(runs, year, month, abbreviations, portals)
    requires DeliveredRenamed(runs, portals)
    requires forall k :: 0 <= k < PeriodCount ==> Delivers(portals[k])
    ensures forall k :: 0 <= k < PeriodCount ==>
              runs[k].renamed == Some(PeriodFor(year, month, k, abbreviations).value.baseName)
  {
    forall k | 0 <= k < PeriodCount
      ensures runs[k].renamed == Some(PeriodFor(year, month, k, abbreviations).value.baseName)
    {
      LoopPeriodsDefined(year, month, k, abbreviations);
      assert TurnOk(runs, k, year, month, abbreviations, portals);
    }
  }

  /** The trace of the loop after the turns in `runs` and `looks` readings of the flag. */
  ghost predicate Progress(stop: StopRequest, looks: nat, runs: seq<PeriodRun>, trace: seq<Event>) {
    && Tracks(stop, looks, trace)
    && trace == Flatten(runs)
    && (looks == 0 <==> runs == [])
    && (runs != [] ==> !IsStopped(stop, 0))
    && (forall k :: 0 <= k < |runs| - 1 ==> !SawStop(runs[k].events) && runs[k].ending != Interrupted)
    && (SawStop(trace) <==> runs != [] && SawStop(runs[|runs| - 1].events))
  }

  lemma ProgressStep(stop: StopRequest, looks: nat, runs: seq<PeriodRun>, trace: seq<Event>,
                     r: PeriodRun, next: nat, trace2: seq<Event>)
    requires Progress(stop, looks, runs, trace)
    requires runs != [] ==> runs[|runs| - 1].ending != Interrupted
    requires !IsStopped(stop, looks) && !SawStop(trace)
    requires next > looks && Tracks(stop, next, trace2) && trace2 == trace + [Look(false)] + r.events
    ensures Progress(stop, next, runs + [r], trace2)
  {
    FlattenSnoc(runs, r);
    var rs := runs + [r];
    assert forall k :: 0 <= k < |runs| ==> rs[k] == runs[k];
  }

  /** One turn of the loop, with its bookkeeping: the loop's summary of the turns so far is kept. */
  method Iteration(year: int, month: int, abbreviations: seq<string>, stop: StopRequest, portals: seq<Portal>,
                   runs: seq<PeriodRun>, trace: seq<Event>, looks: nat)
      returns (stopped: bool, runs2: seq<PeriodRun>, trace2: seq<Event>, looks2: nat)
    requires MinYear <= year <= MaxYear && 1 <= month <= 12 && |abbreviations| == 12
    requires |runs| < |portals|
    requires Progress(stop, looks, runs, trace) && TurnsAgree(runs, year, month, abbreviations, portals)
    requires runs != [] ==> runs[|runs| - 1].ending != Interrupted
    ensures stopped ==> IsStopped(stop, looks) && runs2 == runs && trace2 == trace && looks2 == looks
    ensures !stopped ==> && |runs2| == |runs| + 1 && runs2[..|runs|] == runs
                         && Progress(stop, looks2, runs2, trace2)
                         && TurnsAgree(runs2, year, month, abbreviations, portals)
                         && (runs2[|runs|].ending == Interrupted ==> SawStop(runs2[|runs|].events))
    ensures !stopped && stop.NeverStopped? && DeliveredRenamed(runs, portals) ==> DeliveredRenamed(runs2, portals)
  {
    var r, next;
    stopped, r, next, trace2 := Turn(year, month, |runs|, abbreviations, stop, looks, trace, portals[|runs|]);
    if stopped {
      return true, runs, trace, looks;
    }
    ProgressStep(stop, looks, runs, trace, r, next, trace2);
    TurnsAgreeExtend(runs, r, year, month, abbreviations, portals);
    if r.ending == Interrupted {
      InterruptedSawStop(r, portals[|runs|]);
    }
    runs2, looks2 := runs + [r], next;
    assert runs2[..|runs|] == runs;
    if stop.NeverStopped? && DeliveredRenamed(runs, portals) {
      DeliveredRenamedSnoc(runs, r, portals);
    }
  }

  /**
   * `main(stop_event)`, with today's year and month, the locale's month
   * abbreviations and what the portal does in each of the three turns.
   * `stoppedBefore` is set when the flag test at the top of the loop ends it.
   */
  method RunAutomation(year: int, month: int, abbreviations: seq<string>,
                       stop: StopRequest, portals: seq<Portal>)
      returns (runs: seq<PeriodRun>, trace: seq<Event>, stoppedBefore: bool)
    requires MinYear <= year <= MaxYear && 1 <= month <= 12 && |abbreviations| == 12
    requires |portals| == PeriodCount
    ensures |runs| <= PeriodCount
    ensures TurnsAgree(runs, year, month, abbreviations, portals)
    ensures trace == Flatten(runs) + (if stoppedBefore then [Look(true)] else [])
    ensures NoWorkAfterStop(trace)
    ensures forall k :: 0 <= k < |runs| - 1 ==> !SawStop(runs[k].events) && runs[k].ending != Interrupted
    ensures stoppedBefore ==> |runs| < PeriodCount && forall k :: 0 <= k < |runs| ==> runs[k].ending != Interrupted
    ensures |runs| < PeriodCount && !stoppedBefore ==> runs != [] && runs[|runs| - 1].ending == Interrupted
    ensures SawStop(trace) ==> stop.StopBefore?
    ensures IsStopped(stop, 0) ==> runs == [] && trace == [Look(true)]
    ensures stop.NeverStopped? ==> |runs| == PeriodCount && !SawStop(trace) && !stoppedBefore
    ensures stop.NeverStopped? ==> DeliveredRenamed(runs, portals)
    // undisturbed, from year 2 on, with every stage succeeding each month: all three downloads renamed
    ensures stop.NeverStopped? && year > MinYear && (forall k :: 0 <= k < PeriodCount ==> Delivers(portals[k])) ==>
              forall k :: 0 <= k < PeriodCount ==>
                runs[k].renamed == Some(PeriodFor(year, month, k, abbreviations).value.baseName)
  {
    var looks;
    runs, trace, looks, stoppedBefore := RunTurns(year, month, abbreviations, stop, portals);
    Conclude(stop, looks, runs, trace, stoppedBefore);
    trace := trace + (if stoppedBefore then [Look(true)] else []);
    if stop.NeverStopped? && year > MinYear && forall k :: 0 <= k < PeriodCount ==> Delivers(portals[k]) {
      AllDelivered(year, month, abbreviations, portals, runs);
    }
  }

  /**
   * The `for i in range(3)` loop of `main`: it ends after three turns, at a
   * top-of-loop reading that finds the flag set, or after an interrupted turn.
   */
  method RunTurns(year: int, month: int, abbreviations: seq<string>, stop: StopRequest, portals: seq<Portal>)
      returns (runs: seq<PeriodRun>, trace: seq<Event>, looks: nat, stoppedBefore: bool)
    requires MinYear <= year <= MaxYear && 1 <= month <= 12 && |abbreviations| == 12
    requires |portals| == PeriodCount
    ensures Progress(stop, looks, runs, trace) && |runs| <= PeriodCount
    ensures TurnsAgree(runs, year, month, abbreviations, portals)
    ensures stoppedBefore ==> && IsStopped(stop, looks) && |runs| < PeriodCount
                              && (runs != [] ==> runs[|runs| - 1].ending != Interrupted)
    ensures !stoppedBefore && |runs| < PeriodCount ==> runs != [] && runs[|runs| - 1].ending == Interrupted
    ensures runs != [] && runs[|runs| - 1].ending == Interrupted ==> SawStop(runs[|runs| - 1].events)
    ensures stop.NeverStopped? ==> DeliveredRenamed(runs, portals)
  {
    runs, trace, looks, stoppedBefore := [], [], 0, false;
    var i := 0;
    while i < PeriodCount
      invariant 0 <= i <= PeriodCount && |runs| == i
      invariant Progress(stop, looks, runs, trace)
      invariant TurnsAgree(runs, year, month, abbreviations, portals)
      invariant i > 0 ==> runs[i - 1].ending != Interrupted
      invariant !stoppedBefore
      invariant stop.NeverStopped? ==> DeliveredRenamed(runs, portals)
    {
      var s, runs2, trace2, looks2 := Iteration(year, month, abbreviations, stop, portals, runs, trace, looks);
      if s {
        stoppedBefore := true;
        break;
      }
      runs, trace, looks := runs2, trace2, looks2;
      if runs[i].ending == Interrupted {
        break;
      }
      i := i + 1;
    }
  }

  /** What the loop's three ways out (all turns done, stopped at the top, interrupted) leave behind. */
  lemma Conclude(stop: StopRequest, looks: nat, runs: seq<PeriodRun>, trace: seq<Event>, stoppedBefore: bool)
    requires Progress(stop, looks, runs, trace) && |runs| <= PeriodCount
    requires stoppedBefore ==> && IsStopped(stop, looks) && |runs| < PeriodCount
                               && (runs != [] ==> runs[|runs| - 1].ending != Interrupted)
    requires !stoppedBefore && |runs| < PeriodCount ==> runs != [] && runs[|runs| - 1].ending == Interrupted
    requires runs != [] && runs[|runs| - 1].ending == Interrupted ==> SawStop(runs[|runs| - 1].events)
    ensures var t := trace + (if stoppedBefore then [Look(true)] else []);
            && NoWorkAfterStop(t)
            && (stoppedBefore ==> forall k :: 0 <= k < |runs| ==> runs[k].ending != Interrupted)
            && (SawStop(t) ==> stop.StopBefore?)
            && (IsStopped(stop, 0) ==> runs == [] && t == [Look(true)])
            && (stop.NeverStopped? ==> |runs| == PeriodCount && !SawStop(t) && !stoppedBefore)
  {
    var t := trace + (if stoppedBefore then [Look(true)] else []);
    if stoppedBefore {
      Observe(stop, looks, trace);
      assert Look(true) in t;
    } else {
      assert t == trace;
    }
  }

  /** A turn that ends interrupted has seen the flag set. */
  lemma InterruptedSawStop(r: PeriodRun, portal: Portal)
    requires WellFormed(r, portal) && r.ending == Interrupted
    ensures SawStop(r.events)
  {
    var before := r.events[..|r.events| - 1];
    assert SawStop(before);
    assert Look(true) in r.events by {
      var k :| 0 <= k < |before| && before[k] == Look(true);
      assert r.events[k] == Look(true);
    }
  }
}
