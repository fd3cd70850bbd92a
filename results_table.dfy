/**
 * The two readers of the portal's request table `tblsr`: `capturar_seq`,
 * which takes the request number of the newest request, and
 * `atualizar_relatorio`, which waits, refreshes the table and clicks the
 * download link of the row carrying that number (auto_455.py:120-195).
 *
 * The browser is replaced by what it would show: the rows of the table, each
 * with the texts of its `<td>` cells and whether it holds a `<u>` link, and
 * the successive readings of the stop flag.
 */
module ResultsTable {
  import opened Wrappers

  /** One `<tr>` of the table: the texts of its `<td>` cells, and whether a `<u>` element is inside it. */
  datatype Row = Row(cells: seq<string>, hasLink: bool)

  /** `range(150)`: the one-second ticks of the cancellable wait before the refresh. */
  const WaitTicks := 150

  /**
   * `capturar_seq`. `stopSet` is the flag read at entry; `table` is `None`
   * when no element with id `tblsr` appears within the wait (the exception
   * the function catches), and otherwise the table's rows, header first.
   */
  function CaptureSeq(stopSet: bool, table: Option<seq<Row>>): (r: Option<string>)
    ensures stopSet || table.None? ==> r.None?
    ensures table.Some? && |table.value| <= 1 ==> r.None?
    ensures r.Some? <==> !stopSet && table.Some? && |table.value| > 1 && table.value[1].cells != []
    ensures r.Some? ==> r.value == table.value[1].cells[0]
  {
    if stopSet then None
    else match table
      case None => None
      case Some(rows) =>
        if |rows| > 1 then
          if rows[1].cells == [] then None  // `find_element` raises, caught below the `try`
          else Some(rows[1].cells[0])
        else None
  }

  /**
   * The 150-tick wait: the flag is read once per tick and a set reading ends
   * the wait. `readings[t]` is what the read at tick `t` would see; `looks`
   * is how many reads were made.
   */
  method CancellableWait(readings: seq<bool>) returns (cancelled: bool, looks: nat)
    requires |readings| == WaitTicks
    ensures looks <= |readings|
    ensures cancelled <==> exists t :: 0 <= t < |readings| && readings[t]
    ensures cancelled ==> 1 <= looks && readings[looks - 1]
    ensures forall t :: 0 <= t < looks - 1 ==> !readings[t]
    ensures !cancelled ==> looks == |readings|
  {
    var t := 0;
    while t < WaitTicks
      invariant 0 <= t <= WaitTicks
      invariant forall u :: 0 <= u < t ==> !readings[u]
    {
      if readings[t] {
        return true, t + 1;
      }
      t := t + 1;
    }
    return false, WaitTicks;
  }

  /** Result of the search loop over `rows[1:]`. */
  datatype Lookup =
    | Found(row: nat)       // `relatorio_encontrado` is the row with this index
    | Absent                // the loop ran to the end
    | Unreadable(row: nat)  // this row has no `<td>`: `find_element` raises out of the function

  /** Every row from 1 up to (not including) `k` has a first cell, and it is not `wanted`. */
  ghost predicate PassedOver(rows: seq<Row>, wanted: string, k: int) {
    forall j :: 1 <= j < k && j < |rows| ==> rows[j].cells != [] && rows[j].cells[0] != wanted
  }

  /** What the linear search over the rows after the header finds. */
  ghost predicate Describes(rows: seq<Row>, wanted: string, l: Lookup) {
    match l
    case Found(k) =>
      1 <= k < |rows| && PassedOver(rows, wanted, k) && rows[k].cells != [] && rows[k].cells[0] == wanted
    case Unreadable(k) =>
      1 <= k < |rows| && PassedOver(rows, wanted, k) && rows[k].cells == []
    case Absent =>
      PassedOver(rows, wanted, |rows|)
  }

  /** The rows after the header describe at most one outcome: the search result is determined by the table. */
  lemma DescribesUnique(rows: seq<Row>, wanted: string, l1: Lookup, l2: Lookup)
    requires Describes(rows, wanted, l1) && Describes(rows, wanted, l2)
    ensures l1 == l2
  {
  }

  /** `for relatorio in rows[1:]: ... if seq_atual == seq: ... break`. */
  method FindRow(rows: seq<Row>, wanted: string) returns (l: Lookup)
    ensures Describes(rows, wanted, l)
  {
    var rest := if |rows| == 0 then [] else rows[1..];
    var i := 0;
    while i < |rest|
      invariant 0 <= i <= |rest|
      invariant |rest| == 0 || |rest| == |rows| - 1
      invariant PassedOver(rows, wanted, i + 1)
    {
      if rest[i].cells == [] {
        return Unreadable(i + 1);
      }
      if rest[i].cells[0] == wanted {
        return Found(i + 1);
      }
      i := i + 1;
    }
    return Absent;
  }

  /** The row `capturar_seq` read its number from is the row the search stops at, as long as the table is unchanged. */
  lemma CapturedRowIsFound(rows: seq<Row>, wanted: string, l: Lookup)
    requires CaptureSeq(false, Some(rows)) == Some(wanted)
    requires Describes(rows, wanted, l)
    ensures l == Found(1)
  {
    DescribesUnique(rows, wanted, l, Found(1));
  }

  /** How `atualizar_relatorio` ends. */
  datatype UpdateOutcome =
    | Cancelled               // a reading of the flag was set: `return False`
    | RefreshUnavailable      // the refresh button did not become clickable: `return False`
    | NoMatch                 // no row after the header carries the number: `return False`
    | LinkMissing(row: nat)   // the matching row has no `<u>`: `return False`
    | RowUnreadable(row: nat) // a row without `<td>` was reached: the exception leaves the function
    | Triggered(row: nat)     // the link of the matching row was clicked: `return True`

  /** The function's return value; `None` where it raises instead of returning. */
  function Returned(o: UpdateOutcome): (r: Option<bool>)
    ensures r == Some(true) <==> o.Triggered?
    ensures r.None? <==> o.RowUnreadable?
  {
    match o
    case Triggered(_) => Some(true)
    case RowUnreadable(_) => None
    case _ => Some(false)
  }

  /**
   * `atualizar_relatorio(driver, seq, stop_event)`. `readings[0]` is the read
   * at entry and `readings[1 + t]` the read at tick `t`; `refreshed` is `None`
   * when the refresh button cannot be clicked, and otherwise the rows shown
   * after the refresh.
   */
  method UpdateReport(wanted: string, readings: seq<bool>, refreshed: Option<seq<Row>>)
      returns (o: UpdateOutcome, looks: nat)
    requires |readings| == 1 + WaitTicks
    ensures 1 <= looks <= |readings|
    ensures o.Cancelled? <==> exists t :: 0 <= t < |readings| && readings[t]
    ensures o.Cancelled? ==> readings[looks - 1]
    ensures forall t :: 0 <= t < looks - 1 ==> !readings[t]
    ensures !o.Cancelled? ==> looks == |readings|
    ensures !o.Cancelled? ==> (o.RefreshUnavailable? <==> refreshed.None?)
    ensures o.NoMatch? ==> refreshed.Some? && Describes(refreshed.value, wanted, Absent)
    ensures o.RowUnreadable? ==> refreshed.Some? && Describes(refreshed.value, wanted, Unreadable(o.row))
    ensures o.LinkMissing? ==> refreshed.Some? && Describes(refreshed.value, wanted, Found(o.row))
                               && !refreshed.value[o.row].hasLink
    ensures o.Triggered? ==> refreshed.Some? && Describes(refreshed.value, wanted, Found(o.row))
                             && refreshed.value[o.row].hasLink
  {
    if readings[0] {
      return Cancelled, 1;
    }
    var cancelled, ticks := CancellableWait(readings[1..]);
    looks := 1 + ticks;
    assert forall t :: 1 <= t < |readings| ==> readings[t] == readings[1..][t - 1];
    if cancelled {
      return Cancelled, looks;
    }
    if refreshed.None? {
      return RefreshUnavailable, looks;
    }
    var l := FindRow(refreshed.value, wanted);
    match l
    case Found(k) =>
      if refreshed.value[k].hasLink {
        o := Triggered(k);
      } else {
        o := LinkMissing(k);
      }
    case Absent =>
      o := NoMatch;
    case Unreadable(k) =>
      o := RowUnreadable(k);
  }
}
