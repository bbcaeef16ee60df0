/** The snapshot rows and their optimistic guard (src/state/store.py). Event times are compared
    as strings, as the table's condition does. */
module StateStore {
  import opened Templates
  import opened Snapshots
  import opened Diffs

  /** The `eventTime` attribute of a row: missing in rows that were never timed, an explicit null in
      rows written by a save without a time, otherwise a string. */
  datatype Time = Missing | NullTime | At(stamp: string)

  /** A stored row; an empty token stands for an absent one. A row that was only ever retired has
      no content. */
  datatype Item = Item(content: Snapshot, time: Time, token: string, retired: bool)

  /** A snapshot to store; an empty event time stands for none, and `fits` is false when it exceeds
      the item size even compressed. */
  datatype Save = Save(content: Snapshot, eventTime: string, token: string, fits: bool)

  type Row = Option<Item>

  /** attribute_not_exists(pk) OR attribute_not_exists(eventTime) OR eventTime <= :eventTime. An
      explicit null exists, and compares with no string. */
  predicate Admits(row: Row, eventTime: string) {
    row.None? || row.value.time.Missing? || (row.value.time.At? && LexLeq(row.value.time.stamp, eventTime))
  }

  function ItemOf(s: Save): Item {
    Item(s.content, if s.eventTime == "" then NullTime else At(s.eventTime), s.token, false)
  }

  /** A snapshot that does not fit discards the history; one without a time is stored in any case. */
  function ApplySave(row: Row, s: Save): Row {
    if !s.fits then None
    else if s.eventTime == "" || Admits(row, s.eventTime) then Some(ItemOf(s))
    else row
  }

  /** The guard is only there when the event has a time. */
  predicate Guarded(row: Row, eventTime: string) {
    eventTime == "" || Admits(row, eventTime)
  }

  /** update_item creates the row when it is missing. */
  function ApplyRetire(row: Row, eventTime: string): Row {
    if !Guarded(row, eventTime) then row
    else
      var time := if eventTime != "" then At(eventTime) else if row.Some? then row.value.time else Missing;
      Some(if row.Some? then row.value.(time := time, retired := true) else Item([], time, "", true))
  }

  /** What is left of a row after its stack was deleted: nothing, when nothing is retained. */
  function Retired(retentionDays: int, row: Row, eventTime: string): Row {
    if retentionDays > 0 then ApplyRetire(row, eventTime)
    else if Guarded(row, eventTime) then None
    else row
  }

  // -- string order is time order ------------------------------------------------------------

  function Pad(n: nat, width: nat): string {
    if width == 0 then "" else Pad(n / 10, width - 1) + [Digit(n % 10)]
  }

  function Pow10(width: nat): nat {
    if width == 0 then 1 else 10 * Pow10(width - 1)
  }

  lemma {:induction false} PadLength(n: nat, width: nat)
    ensures |Pad(n, width)| == width
  {
    if width > 0 {
      PadLength(n / 10, width - 1);
    }
  }

  /** Comparing strings with prefixes of the same length. */
  lemma {:induction false} LexConcat(a: string, b: string, x: string, y: string)
    requires |a| == |b|
    ensures LexLeq(a + x, b + y) <==> if a == b then LexLeq(x, y) else LexLeq(a, b)
  {
    if a == "" {
      assert a + x == x && b + y == y;
    } else {
      assert (a + x)[1..] == a[1..] + x && (b + y)[1..] == b[1..] + y;
      LexConcat(a[1..], b[1..], x, y);
      assert a == [a[0]] + a[1..] && b == [b[0]] + b[1..];
    }
  }

  lemma {:induction false} LexAntisymmetric(a: string, b: string)
    requires LexLeq(a, b) && LexLeq(b, a)
    ensures a == b
  {
    if a != "" && b != "" {
      LexAntisymmetric(a[1..], b[1..]);
      assert a == [a[0]] + a[1..] && b == [b[0]] + b[1..];
    }
  }

  lemma DigitOrder(m: nat, n: nat)
    requires m < 10 && n < 10
    ensures LexLeq([Digit(m)], [Digit(n)]) <==> m <= n
    ensures [Digit(m)] == [Digit(n)] <==> m == n
  {
    assert [Digit(m)][0] == "0123456789"[m] && [Digit(n)][0] == "0123456789"[n];
  }

  lemma SameEnds(a: string, b: string, x: string, y: string)
    requires |a| == |b|
    ensures a + x == b + y <==> a == b && x == y
  {
    assert (a + x)[..|a|] == a && (b + y)[..|b|] == b && (a + x)[|a|..] == x && (b + y)[|b|..] == y;
  }

  lemma {:induction false} PadOrder(m: nat, n: nat, width: nat)
    requires m < Pow10(width) && n < Pow10(width)
    ensures LexLeq(Pad(m, width), Pad(n, width)) <==> m <= n
    ensures Pad(m, width) == Pad(n, width) <==> m == n
  {
    if width > 0 {
      PadOrder(m / 10, n / 10, width - 1);
      PadLength(m / 10, width - 1);
      PadLength(n / 10, width - 1);
      var a, b := Pad(m / 10, width - 1), Pad(n / 10, width - 1);
      LexConcat(a, b, [Digit(m % 10)], [Digit(n % 10)]);
      DigitOrder(m % 10, n % 10);
      SameEnds(a, b, [Digit(m % 10)], [Digit(n % 10)]);
    }
  }

  /** The numbers of a timestamp written field by field, each padded to its width and followed by
      its separator, as in section 5.1 of RFC 3339. */
  function Stamp(fields: seq<nat>, widths: seq<nat>, separators: seq<string>): string
    requires |fields| == |widths| == |separators|
  {
    if fields == [] then ""
    else Pad(fields[0], widths[0]) + separators[0] + Stamp(fields[1..], widths[1..], separators[1..])
  }

  predicate InRange(fields: seq<nat>, widths: seq<nat>) {
    |fields| == |widths| && forall i :: 0 <= i < |fields| ==> fields[i] < Pow10(widths[i])
  }

  /** Year first: the order of points in time. */
  predicate Earlier(a: seq<nat>, b: seq<nat>)
    requires |a| == |b|
  {
    a == [] || a[0] < b[0] || (a[0] == b[0] && Earlier(a[1..], b[1..]))
  }

  lemma {:induction false} StampOrder(a: seq<nat>, b: seq<nat>, widths: seq<nat>, separators: seq<string>)
    requires InRange(a, widths) && InRange(b, widths) && |separators| == |widths|
    ensures LexLeq(Stamp(a, widths, separators), Stamp(b, widths, separators)) <==> Earlier(a, b)
  {
    if a != [] {
      StampOrder(a[1..], b[1..], widths[1..], separators[1..]);
      var p, q := Pad(a[0], widths[0]), Pad(b[0], widths[0]);
      var x, y := Stamp(a[1..], widths[1..], separators[1..]), Stamp(b[1..], widths[1..], separators[1..]);
      PadOrder(a[0], b[0], widths[0]);
      PadLength(a[0], widths[0]);
      PadLength(b[0], widths[0]);
      LexConcat(p, q, separators[0] + x, separators[0] + y);
      LexConcat(separators[0], separators[0], x, y);
      assert Stamp(a, widths, separators) == p + (separators[0] + x);
      assert Stamp(b, widths, separators) == q + (separators[0] + y);
    }
  }

  // -- deliveries in any order -----------------------------------------------------------------

  datatype Op = SaveOp(save: Save) | RetireOp(eventTime: string)

  function TimeOf(op: Op): string {
    if op.SaveOp? then op.save.eventTime else op.eventTime
  }

  function Apply(row: Row, op: Op): Row {
    match op
    case SaveOp(s) => ApplySave(row, s)
    case RetireOp(t) => ApplyRetire(row, t)
  }

  function ApplyAll(row: Row, ops: seq<Op>): Row {
    if ops == [] then row else Apply(ApplyAll(row, ops[..|ops| - 1]), ops[|ops| - 1])
  }

  /** Operations that the guard orders: each has a time, and no snapshot is oversized. */
  predicate Timed(ops: seq<Op>) {
    forall op :: op in ops ==> TimeOf(op) != "" && (op.SaveOp? ==> op.save.fits)
  }

  /** The row was last changed under an event time that orders before, or is, t. */
  predicate NotAfter(row: Row, t: string) {
    row.Some? ==> !row.value.time.NullTime? && (row.value.time.At? ==> LexLeq(row.value.time.stamp, t))
  }

  predicate NotBefore(row: Row, t: string) {
    row.Some? && row.value.time.At? && LexLeq(t, row.value.time.stamp)
  }

  /** The event time of a row never goes back. */
  lemma {:induction false} TimeNeverDecreases(row: Row, ops: seq<Op>, t: string)
    requires Timed(ops) && NotBefore(row, t)
    ensures NotBefore(ApplyAll(row, ops), t)
  {
    if ops != [] {
      TimeNeverDecreases(row, ops[..|ops| - 1], t);
      var before, last := ApplyAll(row, ops[..|ops| - 1]), ops[|ops| - 1];
      assert last in ops;
      if Admits(before, TimeOf(last)) {
        LexTransitive(t, before.value.time.stamp, TimeOf(last));
      }
    }
  }

  /** The row is the outcome of this operation: its time, its flag and, for a save, its content. */
  predicate Reflects(row: Row, op: Op) {
    && row.Some? && row.value.time == At(TimeOf(op)) && row.value.retired == op.RetireOp?
    && (op.SaveOp? ==> row.value == ItemOf(op.save))
  }

  lemma {:induction false} StaysNotAfter(row: Row, ops: seq<Op>, t: string)
    requires Timed(ops) && NotAfter(row, t) && forall op :: op in ops ==> LexLeq(TimeOf(op), t)
    ensures NotAfter(ApplyAll(row, ops), t)
  {
    if ops != [] {
      StaysNotAfter(row, ops[..|ops| - 1], t);
      assert ops[|ops| - 1] in ops;
    }
  }

  /** Whatever the order of delivery, the row ends with the operation of the greatest event time. */
  lemma {:induction false} GreatestWins(row: Row, ops: seq<Op>, i: nat)
    requires Timed(ops) && i < |ops| && NotAfter(row, TimeOf(ops[i]))
    requires forall j :: 0 <= j < |ops| && j != i ==>
        LexLeq(TimeOf(ops[j]), TimeOf(ops[i])) && TimeOf(ops[j]) != TimeOf(ops[i])
    ensures Reflects(ApplyAll(row, ops), ops[i])
    decreases |ops|
  {
    var front, last := ops[..|ops| - 1], ops[|ops| - 1];
    assert last in ops && ops[i] in ops;
    if i == |ops| - 1 {
      forall op | op in front
        ensures LexLeq(TimeOf(op), TimeOf(last))
      {
        var j :| 0 <= j < |front| && front[j] == op;
        assert ops[j] == op;
      }
      StaysNotAfter(row, front, TimeOf(last));
    } else {
      GreatestWins(row, front, i);
      if Admits(ApplyAll(row, front), TimeOf(last)) {
        LexAntisymmetric(TimeOf(ops[i]), TimeOf(last));
      }
    }
  }

  // -- saves that are repeated, and saves that are not seen -----------------------------------------

  /** A row on which saving s again has no effect: it holds s, or something later, or nothing timed
      is ever stored in it. */
  predicate Past(row: Row, s: Save) {
    && row.Some?
    && (row.value == ItemOf(s) || row.value.time.NullTime?
        || (row.value.time.At? && !LexLeq(row.value.time.stamp, s.eventTime)))
  }

  lemma {:induction false} StaysPast(row: Row, s: Save, ops: seq<Op>)
    requires s.eventTime != "" && Past(row, s)
    requires Timed(ops) && forall op :: op in ops ==> TimeOf(op) != s.eventTime
    ensures Past(ApplyAll(row, ops), s)
  {
    if ops != [] {
      var before, last := ApplyAll(row, ops[..|ops| - 1]), ops[|ops| - 1];
      StaysPast(row, s, ops[..|ops| - 1]);
      assert last in ops;
      if Admits(before, TimeOf(last)) && LexLeq(TimeOf(last), s.eventTime) {
        LexTransitive(before.value.time.stamp, TimeOf(last), s.eventTime);
        LexAntisymmetric(TimeOf(last), s.eventTime);
      }
    }
  }

  /** Repeating a save changes nothing, whatever else was delivered since. */
  lemma RepeatedSaveIsSafe(row: Row, s: Save, ops: seq<Op>)
    requires s.eventTime != "" && s.fits
    requires Timed(ops) && forall op :: op in ops ==> TimeOf(op) != s.eventTime
    ensures ApplySave(ApplyAll(ApplySave(row, s), ops), s) == ApplyAll(ApplySave(row, s), ops)
  {
    StaysPast(ApplySave(row, s), s, ops);
  }

  /** A timed save leaves the row at least as recent exactly when the row it finds was not saved
      without a time: that writes a null, which no later guard gets past. */
  lemma SavedIff(row: Row, s: Save)
    requires s.fits && s.eventTime != ""
    ensures NotBefore(ApplySave(row, s), s.eventTime) <==> row.None? || !row.value.time.NullTime?
  {
    LexTotal(s.eventTime, s.eventTime);
    if row.Some? && row.value.time.At? {
      LexTotal(row.value.time.stamp, s.eventTime);
    }
  }

  /** After a save without a time, nothing timed changes the row any more. */
  lemma {:induction false} UntimedSaveBlocks(row: Row, s: Save, ops: seq<Op>)
    requires s.fits && s.eventTime == "" && Timed(ops)
    ensures ApplyAll(ApplySave(row, s), ops) == Some(ItemOf(s))
  {
    if ops != [] {
      UntimedSaveBlocks(row, s, ops[..|ops| - 1]);
      assert ops[|ops| - 1] in ops;
    }
  }

  // -- the code ----------------------------------------------------------------------------------

  /** What a table call did: it worked, it was lost, or it was applied and reported as failed. */
  datatype Fault = NoFault | Lost | Ambiguous

  class DynamoStateStore {
    var table: map<string, Item>
    const retentionDays: int
    var loadFailures: nat
    var oversizedSnapshots: nat

    constructor (retentionDays: int)
      ensures table == map[] && this.retentionDays == retentionDays && loadFailures == 0 && oversizedSnapshots == 0
    {
      this.retentionDays := retentionDays;
      table := map[];
      loadFailures, oversizedSnapshots := 0, 0;
    }

    function RowOf(key: string): Row
      reads this
    {
      if key in table then Some(table[key]) else None
    }

    /** A missing row is no history; a failed read is an error, never "no history". */
    method Load(key: string) returns (r: Row, raised: bool)
      modifies this`loadFailures
      ensures raised || r == RowOf(key)
      ensures loadFailures == old(loadFailures) + if raised then 1 else 0
    {
      var failed: bool := *;
      if failed {
        loadFailures := loadFailures + 1;
        return None, true;
      }
      return RowOf(key), false;
    }

    /** Whatever the table did with the write, a normal return means that the snapshot is stored, or
        discarded with its history when it does not fit, or that its guard refused it. Only this row
        can change. `others` is what other workers do to it between a write of unknown outcome and the
        read that verifies it. */
    method Save(key: string, s: Save, others: seq<Op>) returns (raised: bool)
      modifies this`table, this`oversizedSnapshots
      ensures forall k :: k != key ==> RowOf(k) == old(RowOf(k))
      ensures var row := old(RowOf(key));
              || RowOf(key) in {row, ApplySave(row, s)}
              || (s.fits && s.eventTime != ""
                  && RowOf(key) in {ApplyAll(row, others), ApplyAll(ApplySave(row, s), others)})
      ensures s.fits && s.eventTime != "" && !raised ==>
                || NotBefore(RowOf(key), s.eventTime)
                || (RowOf(key) == old(RowOf(key)) && RowOf(key).Some? && RowOf(key).value.time.NullTime?)
      ensures !raised && (!s.fits || s.eventTime == "") ==> RowOf(key) == ApplySave(old(RowOf(key)), s)
      ensures oversizedSnapshots == old(oversizedSnapshots) + if s.fits then 0 else 1
    {
      if !s.fits {
        raised := Invalidate(key);
        return;
      }
      var item := ItemOf(s);
      var fault: Fault := *;
      if s.eventTime == "" {
        if fault != Lost {
          table := table[key := item];
        }
        return fault != NoFault;
      }
      SavedIff(RowOf(key), s);
      LexTotal(s.eventTime, s.eventTime);
      var admitted := Admits(RowOf(key), s.eventTime);
      if admitted && fault != Lost {
        table := table[key := item];
      }
      if fault == NoFault {
        // Stored, or a newer snapshot was already there and the stale write is ignored.
        return false;
      }
      // The write may have happened: verify before asking for a replay.
      var meanwhile := ApplyAll(RowOf(key), others);
      table := if meanwhile.Some? then table[key := meanwhile.value] else table - {key};
      var verifyFailed: bool := *;
      if !verifyFailed && key in table && table[key].time == At(s.eventTime) && table[key].token == s.token {
        return false;
      }
      return true;
    }

    /** A snapshot that cannot be stored invalidates the history instead of leaving it stale. */
    method Invalidate(key: string) returns (raised: bool)
      modifies this`table, this`oversizedSnapshots
      ensures oversizedSnapshots == old(oversizedSnapshots) + 1
      ensures RowOf(key) == None || (raised && RowOf(key) == old(RowOf(key)))
      ensures forall k :: k != key ==> RowOf(k) == old(RowOf(k))
    {
      oversizedSnapshots := oversizedSnapshots + 1;
      var fault: Fault := *;
      if fault != Lost {
        table := table - {key};
      }
      raised := fault != NoFault;
    }

    /** Retires a row, or deletes it when nothing is retained; never on behalf of an older event. */
    method Delete(key: string, eventTime: string) returns (raised: bool)
      modifies this`table
      ensures RowOf(key) == Retired(retentionDays, old(RowOf(key)), eventTime)
          || (raised && RowOf(key) == old(RowOf(key)))
      ensures forall k :: k != key ==> RowOf(k) == old(RowOf(k))
    {
      var fault: Fault := *;
      if Guarded(RowOf(key), eventTime) && fault != Lost {
        if retentionDays <= 0 {
          table := table - {key};
        } else {
          table := table[key := ApplyRetire(RowOf(key), eventTime).value];
        }
      }
      raised := fault != NoFault;
    }
  }
}
