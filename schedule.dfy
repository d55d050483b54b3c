/** The schedule table of the "View All Bookings" page: a `reduce` that turns
    the ordered slot list into one row per date, with a First Aarti and a
    Second Aarti column each holding a slot's bookings. The reduce looks up
    the row of the slot's date with `find` and overwrites one of its columns
    in place, or pushes a new row. */
module Schedule {
  import opened Types
  import opened Grouping

  /** The value of a row, for stating what the table holds. */
  datatype RowValue = RowValue(date: string, firstAarti: seq<Booking>, secondAarti: seq<Booking>)

  /** A row object of the accumulator; the reduce mutates its two columns. */
  class ScheduleRow {
    const date: string
    var firstAarti: seq<Booking>
    var secondAarti: seq<Booking>

    constructor(date: string, firstAarti: seq<Booking>, secondAarti: seq<Booking>)
      ensures Value() == RowValue(date, firstAarti, secondAarti)
    {
      this.date := date;
      this.firstAarti := firstAarti;
      this.secondAarti := secondAarti;
    }

    function Value(): RowValue
      reads this
    {
      RowValue(date, firstAarti, secondAarti)
    }
  }

  /** The row a new date starts with: each column holds the slot's bookings
      only if the slot carries that column's label. */
  function NewRow(v: SlotView): (r: RowValue)
    ensures r.date == v.date
    ensures r.firstAarti == (if v.time == FirstAarti then v.bookings else [])
    ensures r.secondAarti == (if v.time == SecondAarti then v.bookings else [])
  {
    RowValue(v.date, if v.time == FirstAarti then v.bookings else [], if v.time == SecondAarti then v.bookings else [])
  }

  /** A later slot on the row's date overwrites "First Aarti" for that label and
      "Second Aarti" for any other label. */
  function Overwrite(row: RowValue, v: SlotView): (r: RowValue)
    ensures r.date == row.date
    ensures v.time == FirstAarti ==> r == row.(firstAarti := v.bookings)
    ensures v.time != FirstAarti ==> r == row.(secondAarti := v.bookings)
  {
    if v.time == FirstAarti then row.(firstAarti := v.bookings) else row.(secondAarti := v.bookings)
  }

  /** The row of `date` after the slots have been folded in, one date at a time. */
  function RowAfter(slots: seq<SlotView>, date: string): (r: Option<RowValue>)
    ensures r.Some? <==> date in DistinctDates(slots)
    ensures r.Some? ==> r.value.date == date
  {
    if slots == [] then None
    else
      var init, last := slots[..|slots| - 1], slots[|slots| - 1];
      var prev := RowAfter(init, date);
      if last.date != date then prev
      else if prev.None? then Some(NewRow(last))
      else Some(Overwrite(prev.value, last))
  }

  /** The bookings of the last slot on `date` with label `time`, if any. */
  function LastWith(slots: seq<SlotView>, date: string, time: string): (r: Option<SlotView>)
    ensures r.Some? ==> r.value in slots && r.value.date == date && r.value.time == time
    ensures r.None? ==> forall v :: v in slots ==> v.date != date || v.time != time
  {
    if slots == [] then None
    else
      var init, last := slots[..|slots| - 1], slots[|slots| - 1];
      assert slots == init + [last];
      if last.date == date && last.time == time then Some(last) else LastWith(init, date, time)
  }

  function Cell(v: Option<SlotView>): seq<Booking> {
    if v.Some? then v.value.bookings else []
  }

  /** When every slot of a date carries one of the two labels the seed creates,
      the row of that date shows, in each column, the bookings of the last slot
      with that column's label, and nothing if there is none. */
  lemma {:induction false} WellLabelledRow(slots: seq<SlotView>, date: string)
    requires forall v :: v in slots && v.date == date ==> v.time == FirstAarti || v.time == SecondAarti
    requires date in DistinctDates(slots)
    ensures RowAfter(slots, date) ==
      Some(RowValue(date, Cell(LastWith(slots, date, FirstAarti)), Cell(LastWith(slots, date, SecondAarti))))
  {
    var init, last := slots[..|slots| - 1], slots[|slots| - 1];
    assert slots == init + [last];
    if date in DistinctDates(init) {
      WellLabelledRow(init, date);
    } else {
      DistinctDatesMembers(init, date);
      assert forall v :: v in init ==> v.date != date by {
        forall v | v in init ensures v.date != date {
          var k :| 0 <= k < |init| && init[k] == v;
        }
      }
    }
  }

  /** Folding in one more slot changes the row of its date only. */
  lemma RowStep(slots: seq<SlotView>, i: nat, d: string)
    requires i < |slots|
    ensures slots[i].date != d ==> RowAfter(slots[..i + 1], d) == RowAfter(slots[..i], d)
    ensures slots[i].date == d && RowAfter(slots[..i], d).None? ==> RowAfter(slots[..i + 1], d) == Some(NewRow(slots[i]))
    ensures slots[i].date == d && RowAfter(slots[..i], d).Some? ==>
      RowAfter(slots[..i + 1], d) == Some(Overwrite(RowAfter(slots[..i], d).value, slots[i]))
  {
    assert slots[..i + 1][..i] == slots[..i];
  }

  /** The position of the row of `date` among the row values, if any. */
  function DateIndex(values: seq<RowValue>, date: string): (r: Option<nat>)
    ensures r.Some? ==> r.value < |values| && values[r.value].date == date
    ensures r.None? <==> forall k :: 0 <= k < |values| ==> values[k].date != date
  {
    if values == [] then None
    else if values[0].date == date then Some(0)
    else match DateIndex(values[1..], date)
      case None => None
      case Some(k) => Some(k + 1)
  }

  /** What the reducer does to the table's values for one slot. */
  function FoldValues(values: seq<RowValue>, slot: SlotView): seq<RowValue> {
    match DateIndex(values, slot.date)
    case Some(j) => values[j := Overwrite(values[j], slot)]
    case None => values + [NewRow(slot)]
  }

  /** The table's values after the whole `reduce`. */
  function Pivot(slots: seq<SlotView>): seq<RowValue> {
    if slots == [] then [] else FoldValues(Pivot(slots[..|slots| - 1]), slots[|slots| - 1])
  }

  /** `values` is the table after the first `i` slots: one row per distinct
      date in first-appearance order, each as the per-date fold leaves it. */
  ghost predicate Folded(slots: seq<SlotView>, i: nat, values: seq<RowValue>)
    requires i <= |slots|
  {
    && |values| == |DistinctDates(slots[..i])|
    && (forall k :: 0 <= k < |values| ==> values[k].date == DistinctDates(slots[..i])[k])
    && (forall k :: 0 <= k < |values| ==> RowAfter(slots[..i], values[k].date) == Some(values[k]))
  }

  /** A slot whose date already has a row overwrites one column of that row. */
  lemma OverwriteStep(slots: seq<SlotView>, i: nat, values: seq<RowValue>, j: nat)
    requires i < |slots| && Folded(slots, i, values)
    requires j < |values| && values[j].date == slots[i].date
    ensures Folded(slots, i + 1, values[j := Overwrite(values[j], slots[i])])
  {
    DatesStep(slots, i);
    var next := values[j := Overwrite(values[j], slots[i])];
    forall k | 0 <= k < |next| ensures RowAfter(slots[..i + 1], next[k].date) == Some(next[k]) {
      RowStep(slots, i, next[k].date);
      if k != j {
        assert values[k].date != values[j].date;
      }
    }
  }

  /** A slot whose date has no row yet starts a new row at the end. */
  lemma NewRowStep(slots: seq<SlotView>, i: nat, values: seq<RowValue>)
    requires i < |slots| && Folded(slots, i, values)
    requires forall k :: 0 <= k < |values| ==> values[k].date != slots[i].date
    ensures Folded(slots, i + 1, values + [NewRow(slots[i])])
  {
    var date := slots[i].date;
    var dates := DistinctDates(slots[..i]);
    assert date !in dates by {
      forall k | 0 <= k < |dates| ensures dates[k] != date {
        assert values[k].date == dates[k];
      }
    }
    assert RowAfter(slots[..i], date).None?;
    DatesStep(slots, i);
    assert DistinctDates(slots[..i + 1]) == dates + [date];
    var next := values + [NewRow(slots[i])];
    forall k | 0 <= k < |next| ensures RowAfter(slots[..i + 1], next[k].date) == Some(next[k]) {
      RowStep(slots, i, next[k].date);
      if k < |values| {
        assert next[k] == values[k];
      }
    }
  }

  /** The table holds one row per distinct date, in order of first appearance,
      and each row holds what the per-date fold gives for its date. */
  lemma {:induction false} PivotCharacterised(slots: seq<SlotView>)
    ensures Folded(slots, |slots|, Pivot(slots))
  {
    if slots != [] {
      var n := |slots| - 1;
      var init := slots[..n];
      PivotCharacterised(init);
      assert init[..n] == init && slots[..n + 1] == slots;
      assert Folded(slots, n, Pivot(init));
      var values := Pivot(init);
      match DateIndex(values, slots[n].date)
      case Some(j) => OverwriteStep(slots, n, values, j);
      case None => NewRowStep(slots, n, values);
    }
  }

  /** `acc.find(row => row.date === date)`: the position of the first row of
      that date, or `|rows|` when there is none. */
  method FindRow(rows: seq<ScheduleRow>, date: string) returns (j: nat)
    ensures j <= |rows|
    ensures j < |rows| ==> rows[j].date == date
    ensures forall k :: 0 <= k < j ==> rows[k].date != date
  {
    j := 0;
    while j < |rows| && rows[j].date != date
      invariant 0 <= j <= |rows|
      invariant forall k :: 0 <= k < j ==> rows[k].date != date
    {
      j := j + 1;
    }
  }

  /** The reducer's body for one slot: overwrite a column of the row of the
      slot's date if there is one, otherwise push a new row. */
  method FoldSlot(rows: seq<ScheduleRow>, slot: SlotView, ghost values: seq<RowValue>) returns (next: seq<ScheduleRow>)
    requires |rows| == |values|
    requires forall k :: 0 <= k < |rows| ==> rows[k].Value() == values[k]
    requires forall a, b :: 0 <= a < b < |rows| ==> rows[a] != rows[b]
    modifies set k | 0 <= k < |rows| :: rows[k]
    ensures |next| == |FoldValues(values, slot)|
    ensures forall k :: 0 <= k < |next| ==> next[k].Value() == FoldValues(values, slot)[k]
    ensures forall k :: 0 <= k < |next| ==> next[k] in rows || fresh(next[k])
    ensures forall a, b :: 0 <= a < b < |next| ==> next[a] != next[b]
  {
    var j := FindRow(rows, slot.date);
    if j < |rows| {
      assert DateIndex(values, slot.date) == Some(j) by {
        DateIndexFirst(values, slot.date, j);
      }
      var row := rows[j];
      if slot.time == FirstAarti {
        row.firstAarti := slot.bookings;
      } else {
        row.secondAarti := slot.bookings;
      }
      next := rows;
      forall k | 0 <= k < |next| ensures next[k].Value() == FoldValues(values, slot)[k] {
        if k != j {
          assert rows[k] != row;
        }
      }
    } else {
      var row := new ScheduleRow(slot.date,
        if slot.time == FirstAarti then slot.bookings else [],
        if slot.time == SecondAarti then slot.bookings else []);
      next := rows + [row];
    }
  }

  lemma {:induction false} DateIndexFirst(values: seq<RowValue>, date: string, j: nat)
    requires j < |values| && values[j].date == date
    requires forall k :: 0 <= k < j ==> values[k].date != date
    ensures DateIndex(values, date) == Some(j)
  {
    if j > 0 {
      DateIndexFirst(values[1..], date, j - 1);
    }
  }

  /** The page's `reduce`: row objects whose values are the table `Pivot`
      describes, each a new object and no object twice. */
  method PivotRows(slots: seq<SlotView>) returns (rows: seq<ScheduleRow>)
    ensures |rows| == |Pivot(slots)|
    ensures forall k :: 0 <= k < |rows| ==> rows[k].Value() == Pivot(slots)[k]
    ensures forall k :: 0 <= k < |rows| ==> fresh(rows[k])
    ensures forall a, b :: 0 <= a < b < |rows| ==> rows[a] != rows[b]
  {
    rows := [];
    for i := 0 to |slots|
      invariant |rows| == |Pivot(slots[..i])|
      invariant forall k :: 0 <= k < |rows| ==> rows[k].Value() == Pivot(slots[..i])[k]
      invariant forall k :: 0 <= k < |rows| ==> fresh(rows[k])
      invariant forall a, b :: 0 <= a < b < |rows| ==> rows[a] != rows[b]
    {
      assert slots[..i + 1][..i] == slots[..i];
      rows := FoldSlot(rows, slots[i], Pivot(slots[..i]));
    }
    assert slots[..|slots|] == slots;
  }

  const AvailableCell: string := "Available"

  /** A column cell: "Available" when it holds no booking, otherwise one
      "flat - name" line per booking. */
  function CellLines(bookings: seq<Booking>): (r: seq<string>)
    ensures bookings == [] <==> r == [AvailableCell]
    ensures bookings != [] ==> |r| == |bookings| && forall k :: 0 <= k < |r| ==> r[k] == bookings[k].flat + " - " + bookings[k].name
  {
    if bookings == [] then [AvailableCell]
    else
      var r := seq(|bookings|, k requires 0 <= k < |bookings| => bookings[k].flat + " - " + bookings[k].name);
      var line := r[0];
      assert line[|bookings[0].flat|] == ' ';
      assert forall k :: 0 <= k < |AvailableCell| ==> AvailableCell[k] != ' ';
      r
  }
}
