/**
  What the metrics queries answer: the buckets are the table grouped by time slot, coarse buckets
  are the roll-up of fine ones, and pruning is invisible exactly when it stays behind the window.
*/
module MetricsTheorems {
  import opened Text
  import opened IsoClock
  import opened MetricsHistory

  // ---------- The groups are the rows, label by label ----------

  lemma {:induction false} AboveLacks(key: string, groups: seq<Group>)
    requires Above(key, groups)
    ensures MembersOf(groups, key) == []
  {
    if groups != [] {
      StrLessTotal(key, groups[0].key);
      AboveLacks(key, groups[1..]);
    }
  }

  lemma {:induction false} InsertMembers(groups: seq<Group>, key: string, row: Snapshot, k: string)
    requires Ascending(groups)
    ensures MembersOf(Insert(groups, key, row), k) == MembersOf(groups, k) + if k == key then [row] else []
  {
    if groups != [] {
      StrLessTotal(key, groups[0].key);
      if StrLess(key, groups[0].key) {
        AboveTransitive(key, groups[0].key, groups[1..]);
        AboveLacks(key, groups);
        assert Insert(groups, key, row)[1..] == groups;
      } else if groups[0].key == key {
        assert Insert(groups, key, row)[1..] == groups[1..];
      } else {
        InsertMembers(groups[1..], key, row, k);
        assert Insert(groups, key, row)[1..] == Insert(groups[1..], key, row);
      }
    }
  }

  lemma {:induction false} GroupMembers(rows: seq<Snapshot>, w: Window, key: string)
    ensures MembersOf(Groups(rows, w), key) == Labelled(rows, w, key)
  {
    if rows != [] {
      var (init, row) := (rows[..|rows| - 1], rows[|rows| - 1]);
      GroupMembers(init, w, key);
      GroupsOk(init, w);
      InsertMembers(Groups(init, w), Label(row.timestamp, w), row, key);
    }
  }

  // Ascending keys and the rows of each key leave no freedom
  lemma {:induction false} SameGroups(a: seq<Group>, b: seq<Group>)
    requires Ascending(a) && NoneEmpty(a) && Ascending(b) && NoneEmpty(b)
    requires forall key :: MembersOf(a, key) == MembersOf(b, key)
    ensures a == b
  {
    assert a != [] ==> MembersOf(a, a[0].key) == MembersOf(b, a[0].key);
    assert b != [] ==> MembersOf(a, b[0].key) == MembersOf(b, b[0].key);
    if a != [] && b != [] {
      var (x, y) := (a[0].key, b[0].key);
      StrLessTotal(x, y);
      assert MembersOf(a, x) == MembersOf(b, x) && MembersOf(a, y) == MembersOf(b, y);
      if StrLess(x, y) {
        AboveTransitive(x, y, b[1..]);
        AboveLacks(x, b);
      } else if StrLess(y, x) {
        AboveTransitive(y, x, a[1..]);
        AboveLacks(y, a);
      } else {
        AboveLacks(x, a[1..]);
        AboveLacks(x, b[1..]);
        forall key ensures MembersOf(a[1..], key) == MembersOf(b[1..], key) {
          assert MembersOf(a, key) == MembersOf(b, key);
        }
        SameGroups(a[1..], b[1..]);
        assert a == [a[0]] + a[1..] && b == [b[0]] + b[1..];
      }
    }
  }

  // Under each key exactly the rows of that key, in table order
  ghost predicate SortedOut(rows: seq<Snapshot>, w: Window, groups: seq<Group>) {
    Ascending(groups) && NoneEmpty(groups) && forall key :: MembersOf(groups, key) == Labelled(rows, w, key)
  }

  // The grouping is the only ascending list without empty groups that sorts the rows out; no row is
  // lost or counted twice
  lemma GroupingCharacterised(rows: seq<Snapshot>, w: Window, groups: seq<Group>)
    ensures groups == Groups(rows, w) <==> SortedOut(rows, w, groups)
    ensures CountAll(Groups(rows, w)) == |rows|
  {
    GroupsOk(rows, w);
    forall key ensures MembersOf(Groups(rows, w), key) == Labelled(rows, w, key) { GroupMembers(rows, w, key); }
    if SortedOut(rows, w, groups) {
      SameGroups(groups, Groups(rows, w));
    }
  }

  // ---------- A bucket is a slot of time ----------

  function SlotMicros(w: Window): nat {
    match w case Hour => 60_000_000 case Day => 600_000_000 case Week => MICROS_PER_HOUR case Month => MICROS_PER_DAY
  }

  // The fields of the time that the label of a window keeps
  predicate SameSlot(a: DateTime, b: DateTime, w: Window) {
    && SameDate(a, b)
    && match w
       case Month => true
       case Week => a.hour == b.hour
       case Day => a.hour == b.hour && a.minute / 10 == b.minute / 10
       case Hour => a.hour == b.hour && a.minute == b.minute
  }

  lemma SlotFields(a: DateTime, b: DateTime, w: Window)
    requires Valid(a) && Valid(b)
    ensures SameSlot(a, b, w) <==> Micros(a) / SlotMicros(w) == Micros(b) / SlotMicros(w)
  {
    hide Ordinal, Micros;
    SlotOf(a, w);
    SlotOf(b, w);
    if !SameDate(a, b) { DatesDiffer(a, b); }
  }

  lemma DatesDiffer(a: DateTime, b: DateTime)
    requires Valid(a) && Valid(b) && !SameDate(a, b)
    ensures Ordinal(a.year, a.month, a.day) != Ordinal(b.year, b.month, b.day)
  {
    hide Ordinal;
    if DateBefore(a, b) { OrdinalAscends(a, b); } else { OrdinalAscends(b, a); }
  }

  // The number of the slot, by fields
  lemma SlotOf(t: DateTime, w: Window)
    requires Valid(t)
    ensures var day := Ordinal(t.year, t.month, t.day);
      Micros(t) / SlotMicros(w) == match w
        case Month => day
        case Week => day * 24 + t.hour
        case Day => (day * 24 + t.hour) * 6 + t.minute / 10
        case Hour => (day * 24 + t.hour) * 60 + t.minute
  {
    hide Ordinal;
    var day := Ordinal(t.year, t.month, t.day);
    var low := (t.second * 1_000_000) + t.micro;
    assert low < 60_000_000;
    match w {
      case Month => Quotient(day, MICROS_PER_DAY, DayMicros(t));
      case Week => Quotient(day * 24 + t.hour, MICROS_PER_HOUR, t.minute * 60_000_000 + low);
      case Day => Quotient((day * 24 + t.hour) * 6 + t.minute / 10, 600_000_000, t.minute % 10 * 60_000_000 + low);
      case Hour => Quotient((day * 24 + t.hour) * 60 + t.minute, 60_000_000, low);
    }
  }

  // Padded numerals are read back
  lemma PadSame(a: nat, b: nat, width: nat)
    requires a < Pow10(width) && b < Pow10(width)
    ensures PadDigits(a, width) == PadDigits(b, width) <==> a == b
  {
    PadDigitsValue(a, width);
    PadDigitsValue(b, width);
  }

  lemma DateTextSame(a: DateTime, b: DateTime)
    requires Valid(a) && Valid(b)
    ensures DateText(a) == DateText(b) <==> SameDate(a, b)
  {
    StrLessTotal(DateText(a), DateText(b));
    if DateBefore(a, b) { DateTextOrder(a, b); }
    if DateBefore(b, a) { DateTextOrder(b, a); }
  }

  lemma TwoDigits(n: nat)
    requires n < 100
    ensures PadDigits(n, 2) == [DigitChar(n / 10), DigitChar(n % 10)]
  {
    assert PadDigits(n / 10, 1) == PadDigits(n / 10 / 10, 0) + [DigitChar(n / 10 % 10)];
  }

  // What the prefix keeps of a timestamp
  lemma IsoPrefix(t: DateTime, w: Window)
    requires Valid(t)
    ensures Prefix(IsoFormat(t), PrefixLength(w)) == match w
      case Month => DateText(t)
      case Week => DateText(t) + "T" + PadDigits(t.hour, 2)
      case Day => DateText(t) + "T" + PadDigits(t.hour, 2) + ":" + [DigitChar(t.minute / 10)]
      case Hour => DateText(t) + "T" + PadDigits(t.hour, 2) + ":" + PadDigits(t.minute, 2)
  {
    TwoDigits(t.minute);
    var (d, h, m, s) := (DateText(t), PadDigits(t.hour, 2), PadDigits(t.minute, 2), PadDigits(t.second, 2));
    assert IsoFormat(t) == d + "T" + h + ":" + m + (":" + s + TailText(t));
  }

  lemma SlotPrefix(a: DateTime, b: DateTime, w: Window)
    requires Valid(a) && Valid(b)
    ensures Prefix(IsoFormat(a), PrefixLength(w)) == Prefix(IsoFormat(b), PrefixLength(w)) <==> SameSlot(a, b, w)
  {
    hide IsoFormat, DateText;
    IsoPrefix(a, w);
    IsoPrefix(b, w);
    DateTextSame(a, b);
    assert Pow10(2) == 10 * Pow10(1) == 100;
    PadSame(a.hour, b.hour, 2);
    PadSame(a.minute, b.minute, 2);
    ConcatSame(DateText(a), DateText(b), "T");
    var (x, y) := (PadDigits(a.hour, 2), PadDigits(b.hour, 2));
    if w != Month {
      ConcatEqual(DateText(a) + "T", x, DateText(b) + "T", y);
      var (p, q) := (DateText(a) + "T" + x, DateText(b) + "T" + y);
      ConcatSame(p, q, ":");
      ConcatEqual(p + ":", [DigitChar(a.minute / 10)], q + ":", [DigitChar(b.minute / 10)]);
      ConcatEqual(p + ":", PadDigits(a.minute, 2), q + ":", PadDigits(b.minute, 2));
      assert [DigitChar(a.minute / 10)][0] == DigitChar(a.minute / 10);
    }
  }

  lemma ConcatEqual(a: string, x: string, b: string, y: string)
    requires |a| == |b|
    ensures a + x == b + y <==> a == b && x == y
  {
    assert (a + x)[..|a|] == a && (a + x)[|a|..] == x;
    assert (b + y)[..|b|] == b && (b + y)[|b|..] == y;
  }

  lemma ConcatSame(a: string, b: string, s: string)
    requires |a| == |b|
    ensures a + s == b + s <==> a == b
  {
    ConcatEqual(a, s, b, s);
  }

  lemma {:induction false} PrefixOrder(a: string, b: string, n: nat)
    requires StrLess(a, b)
    ensures Prefix(a, n) == Prefix(b, n) || StrLess(Prefix(a, n), Prefix(b, n))
    decreases n
  {
    if n > 0 && a != "" && a[0] == b[0] {
      PrefixOrder(a[1..], b[1..], n - 1);
      assert Prefix(a, n) == [a[0]] + Prefix(a[1..], n - 1) && Prefix(b, n) == [b[0]] + Prefix(b[1..], n - 1);
    }
  }

  // Two samples share a bucket exactly when they fall into the same minute, ten minutes, hour or
  // day of UTC, and the buckets come in the order of time
  lemma BucketsAreSlots(a: DateTime, b: DateTime, w: Window)
    requires Valid(a) && Valid(b)
    ensures var (x, y) := (Micros(a) / SlotMicros(w), Micros(b) / SlotMicros(w));
      && (Label(IsoFormat(a), w) == Label(IsoFormat(b), w) <==> x == y)
      && (StrLess(Label(IsoFormat(a), w), Label(IsoFormat(b), w)) <==> x < y)
  {
    SlotFields(a, b, w);
    SlotPrefix(a, b, w);
    if SameSlot(a, b, w) {
      StrLessTotal(Label(IsoFormat(a), w), Label(IsoFormat(b), w));
    } else if Micros(a) < Micros(b) {
      EarlierSlot(a, b, w);
    } else {
      TextOrderIsTimeOrder(a, b);
      EarlierSlot(b, a, w);
    }
  }

  lemma EarlierSlot(a: DateTime, b: DateTime, w: Window)
    requires Valid(a) && Valid(b) && Micros(a) < Micros(b)
    requires !SameSlot(a, b, w)
    ensures StrLess(Label(IsoFormat(a), w), Label(IsoFormat(b), w))
    ensures !StrLess(Label(IsoFormat(b), w), Label(IsoFormat(a), w)) && Label(IsoFormat(a), w) != Label(IsoFormat(b), w)
    ensures Micros(a) / SlotMicros(w) < Micros(b) / SlotMicros(w)
  {
    hide IsoFormat, Micros, SameSlot;
    SlotFields(a, b, w);
    SlotPrefix(a, b, w);
    TextOrderIsTimeOrder(a, b);
    var n := PrefixLength(w);
    PrefixOrder(IsoFormat(a), IsoFormat(b), n);
    PrefixLong(a, w);
    PrefixLong(b, w);
    StrLessFirst(Prefix(IsoFormat(a), n), Prefix(IsoFormat(b), n), Suffix(w), Suffix(w));
    StrLessTotal(Label(IsoFormat(a), w), Label(IsoFormat(b), w));
    DivOrder(Micros(a), Micros(b), SlotMicros(w));
  }

  lemma PrefixLong(t: DateTime, w: Window)
    requires Valid(t)
    ensures |Prefix(IsoFormat(t), PrefixLength(w))| == PrefixLength(w)
  {
    assert |IsoFormat(t)| >= 19;
  }

  lemma DivOrder(a: nat, b: nat, d: nat)
    requires d > 0 && a <= b
    ensures a / d <= b / d
  {
    if a / d > b / d { Times(b / d + 1, a / d, d); }
  }

  // ---------- Coarse buckets roll up fine ones ----------

  // A fine label tells the coarse one
  lemma LabelNest(timestamp: string, fine: Window, coarse: Window)
    requires PrefixLength(coarse) <= PrefixLength(fine) && PrefixLength(coarse) <= |timestamp|
    ensures Label(Label(timestamp, fine), coarse) == Label(timestamp, coarse)
  {
    var n := PrefixLength(coarse);
    assert Prefix(Label(timestamp, fine), n) == Prefix(timestamp, n);
  }

  // Count and sum over the fine groups that lie in the coarse bucket key
  function CountWithin(groups: seq<Group>, coarse: Window, key: string): nat {
    if groups == [] then 0
    else (if Label(groups[0].key, coarse) == key then |groups[0].members| else 0) + CountWithin(groups[1..], coarse, key)
  }

  function SumWithin(groups: seq<Group>, coarse: Window, key: string, col: Column): real {
    if groups == [] then 0.0
    else (if Label(groups[0].key, coarse) == key then Sum(groups[0].members, col) else 0.0)
         + SumWithin(groups[1..], coarse, key, col)
  }

  lemma SumAppend(rows: seq<Snapshot>, row: Snapshot, col: Column)
    ensures Sum(rows + [row], col) == Sum(rows, col) + Cell(row, col) && Sum([], col) == 0.0 && [] + [row] == [row]
  {
    assert (rows + [row])[..|rows|] == rows;
  }

  lemma {:induction false} InsertWithin(groups: seq<Group>, k: string, row: Snapshot, coarse: Window, key: string, col: Column)
    ensures var r := Insert(groups, k, row);
      var within := Label(k, coarse) == key;
      && CountWithin(r, coarse, key) == CountWithin(groups, coarse, key) + (if within then 1 else 0)
      && SumWithin(r, coarse, key, col) == SumWithin(groups, coarse, key, col) + (if within then Cell(row, col) else 0.0)
  {
    hide Label, Sum;
    SumAppend([], row, col);
    if groups == [] || StrLess(k, groups[0].key) {
      assert Insert(groups, k, row)[1..] == groups;
    } else if groups[0].key == k {
      assert Insert(groups, k, row)[1..] == groups[1..];
      SumAppend(groups[0].members, row, col);
    } else {
      InsertWithin(groups[1..], k, row, coarse, key, col);
      assert Insert(groups, k, row)[1..] == Insert(groups[1..], k, row);
    }
  }

  ghost predicate Stamped(rows: seq<Snapshot>) { forall i :: 0 <= i < |rows| ==> |rows[i].timestamp| >= 16 }

  lemma {:induction false} RollUpTotals(rows: seq<Snapshot>, fine: Window, coarse: Window, key: string, col: Column)
    requires Stamped(rows) && PrefixLength(coarse) <= PrefixLength(fine)
    ensures |Labelled(rows, coarse, key)| == CountWithin(Groups(rows, fine), coarse, key)
    ensures Sum(Labelled(rows, coarse, key), col) == SumWithin(Groups(rows, fine), coarse, key, col)
  {
    if rows != [] {
      var (init, row) := (rows[..|rows| - 1], rows[|rows| - 1]);
      RollUpTotals(init, fine, coarse, key, col);
      LabelNest(row.timestamp, fine, coarse);
      InsertWithin(Groups(init, fine), Label(row.timestamp, fine), row, coarse, key, col);
      SumAppend(Labelled(init, coarse, key), row, col);
      assert Labelled(init, coarse, key) + [] == Labelled(init, coarse, key);
    }
  }

  lemma {:induction false} LabelledRow(rows: seq<Snapshot>, w: Window, key: string, row: Snapshot)
    ensures row in Labelled(rows, w, key) <==> row in rows && Label(row.timestamp, w) == key
  {
    if rows != [] {
      LabelledRow(rows[..|rows| - 1], w, key, row);
      assert rows == rows[..|rows| - 1] + [rows[|rows| - 1]];
    }
  }

  lemma {:induction false} MinMaxBounds(rows: seq<Snapshot>, col: Column, row: Snapshot)
    requires row in rows
    ensures Min(rows, col) <= Cell(row, col) <= Max(rows, col)
  {
    var (init, last) := (rows[..|rows| - 1], rows[|rows| - 1]);
    assert rows == init + [last];
    if row in init { MinMaxBounds(init, col, row); }
  }

  // The rows with the smallest and the largest value
  lemma {:induction false} MinMaxRows(rows: seq<Snapshot>, col: Column) returns (lo: Snapshot, hi: Snapshot)
    requires rows != []
    ensures lo in rows && Cell(lo, col) == Min(rows, col)
    ensures hi in rows && Cell(hi, col) == Max(rows, col)
  {
    hide Cell;
    var (init, last) := (rows[..|rows| - 1], rows[|rows| - 1]);
    assert rows == init + [last] && last in rows;
    if init == [] {
      return last, last;
    }
    lo, hi := MinMaxRows(init, col);
    if Cell(last, col) < Min(init, col) { lo := last; }
    if Cell(last, col) > Max(init, col) { hi := last; }
  }

  // The key is that of a fine bucket of these rows, inside the coarse bucket
  predicate Within(rows: seq<Snapshot>, fine: Window, k: string, coarse: Window, key: string) {
    Labelled(rows, fine, k) != [] && Label(k, coarse) == key
  }

  // Minimum and maximum of a coarse bucket are the smallest and the largest of those of the fine
  // buckets inside it; RollUpTotals says the same of counts and sums
  lemma RollUpExtremes(rows: seq<Snapshot>, fine: Window, coarse: Window, key: string, col: Column)
    requires Stamped(rows) && PrefixLength(coarse) <= PrefixLength(fine) && Labelled(rows, coarse, key) != []
    ensures var c := Labelled(rows, coarse, key);
      && (forall k :: Within(rows, fine, k, coarse, key) ==>
            Min(c, col) <= Min(Labelled(rows, fine, k), col) && Max(Labelled(rows, fine, k), col) <= Max(c, col))
      && (exists k :: Within(rows, fine, k, coarse, key) && Min(c, col) == Min(Labelled(rows, fine, k), col))
      && (exists k :: Within(rows, fine, k, coarse, key) && Max(c, col) == Max(Labelled(rows, fine, k), col))
  {
    hide Min, Max, Labelled, Label, Cell, Stamped;
    var c := Labelled(rows, coarse, key);
    forall k | Within(rows, fine, k, coarse, key)
      ensures Min(c, col) <= Min(Labelled(rows, fine, k), col) && Max(Labelled(rows, fine, k), col) <= Max(c, col)
    {
      FineInside(rows, fine, k, coarse, key, col);
    }
    var lo, hi := MinMaxRows(c, col);
    FineOf(rows, fine, lo, coarse, key, col);
    FineOf(rows, fine, hi, coarse, key, col);
  }

  lemma InCoarse(rows: seq<Snapshot>, fine: Window, k: string, coarse: Window, key: string, row: Snapshot)
    requires Stamped(rows) && PrefixLength(coarse) <= PrefixLength(fine) && Label(k, coarse) == key
    requires row in Labelled(rows, fine, k)
    ensures row in Labelled(rows, coarse, key)
  {
    LabelledRow(rows, fine, k, row);
    LabelledRow(rows, coarse, key, row);
    LabelNest(row.timestamp, fine, coarse);
  }

  lemma FineInside(rows: seq<Snapshot>, fine: Window, k: string, coarse: Window, key: string, col: Column)
    requires Stamped(rows) && PrefixLength(coarse) <= PrefixLength(fine) && Within(rows, fine, k, coarse, key)
    ensures Labelled(rows, coarse, key) != []
    ensures Min(Labelled(rows, coarse, key), col) <= Min(Labelled(rows, fine, k), col)
    ensures Max(Labelled(rows, fine, k), col) <= Max(Labelled(rows, coarse, key), col)
  {
    var (f, c) := (Labelled(rows, fine, k), Labelled(rows, coarse, key));
    var lo, hi := MinMaxRows(f, col);
    InCoarse(rows, fine, k, coarse, key, lo);
    InCoarse(rows, fine, k, coarse, key, hi);
    MinMaxBounds(c, col, lo);
    MinMaxBounds(c, col, hi);
  }

  // The fine bucket of a row of the coarse bucket
  lemma FineOf(rows: seq<Snapshot>, fine: Window, row: Snapshot, coarse: Window, key: string, col: Column)
    requires Stamped(rows) && PrefixLength(coarse) <= PrefixLength(fine) && row in Labelled(rows, coarse, key)
    ensures var k := Label(row.timestamp, fine);
      Within(rows, fine, k, coarse, key) && Min(Labelled(rows, fine, k), col) <= Cell(row, col) <= Max(Labelled(rows, fine, k), col)
  {
    var k := Label(row.timestamp, fine);
    LabelledRow(rows, coarse, key, row);
    LabelledRow(rows, fine, k, row);
    LabelNest(row.timestamp, fine, coarse);
    MinMaxBounds(Labelled(rows, fine, k), col, row);
  }

  // ---------- Minimum, mean and maximum ----------

  lemma {:induction false} SumAtLeast(rows: seq<Snapshot>, col: Column)
    requires rows != []
    ensures |rows| as real * Min(rows, col) <= Sum(rows, col)
  {
    hide Cell;
    var (init, x) := (rows[..|rows| - 1], Cell(rows[|rows| - 1], col));
    if init != [] {
      SumAtLeast(init, col);
      Step(|init| as real, Min(rows, col), Min(init, col), Sum(init, col), x);
    } else {
      assert Sum(init, col) == 0.0;
    }
  }

  lemma {:induction false} SumAtMost(rows: seq<Snapshot>, col: Column)
    requires rows != []
    ensures Sum(rows, col) <= |rows| as real * Max(rows, col)
  {
    hide Cell;
    var (init, x) := (rows[..|rows| - 1], Cell(rows[|rows| - 1], col));
    if init != [] {
      SumAtMost(init, col);
      Step(|init| as real, -Max(rows, col), -Max(init, col), -Sum(init, col), -x);
    } else {
      assert Sum(init, col) == 0.0;
    }
  }

  // A lower bound per row carries over to one row more
  lemma Step(n: real, lo: real, before: real, sum: real, x: real)
    requires n >= 0.0 && lo <= before && lo <= x && n * before <= sum
    ensures (n + 1.0) * lo <= sum + x
  {
    if lo < before { Strictly(n + 1.0, lo, before); }
    assert (n + 1.0) * lo == n * lo + lo;
    assert (n + 1.0) * before == n * before + before;
  }

  lemma MeanOf(n: real, lo: real, sum: real, hi: real)
    requires n > 0.0 && n * lo <= sum <= n * hi
    ensures lo <= sum / n <= hi
  {
    var mean := sum / n;
    assert mean * n == sum;
    if mean < lo { Strictly(n, mean, lo); }
    if mean > hi { Strictly(n, hi, mean); }
  }

  lemma Strictly(n: real, a: real, b: real)
    requires n > 0.0 && a < b
    ensures n * a < n * b
  {
  }

  lemma MeanBetween(rows: seq<Snapshot>, col: Column)
    requires rows != []
    ensures Min(rows, col) <= Avg(rows, col) <= Max(rows, col)
  {
    hide Min, Max, Sum;
    SumAtLeast(rows, col);
    SumAtMost(rows, col);
    MeanOf(|rows| as real, Min(rows, col), Sum(rows, col), Max(rows, col));
  }

  lemma HundredthsOrder(x: real, y: real)
    requires x <= y
    ensures Hundredths(x) <= Hundredths(y)
  {
  }

  lemma RoundOrder(x: real, y: real)
    requires x <= y
    ensures Round2(x) <= Round2(y)
  {
    HundredthsOrder(x, y);
    Shrink(Hundredths(x) as real, Hundredths(y) as real);
  }

  lemma Shrink(a: real, b: real)
    requires a <= b
    ensures a / 100.0 <= b / 100.0
  {
  }

  lemma RoundWhole(n: int)
    ensures Round2(n as real) == n as real
  {
    if n >= 0 {
      assert n as real * 100.0 + 0.5 == (n * 100) as real + 0.5;
    } else {
      assert -(n as real) * 100.0 + 0.5 == (-n * 100) as real + 0.5;
    }
    assert Hundredths(n as real) == n * 100;
    assert (n * 100) as real == n as real * 100.0;
  }

  // Rounding keeps the order, and every figure of a bucket is within half a cent of the exact one
  lemma BucketOrdered(g: Group)
    requires g.members != []
    ensures var b := BucketOf(g);
      && b.minFps <= b.avgFps <= b.maxFps
      && b.avgPlayers <= b.maxPlayers && b.avgCpuPct <= b.maxCpuPct && b.avgRamPct <= b.maxRamPct
  {
    hide Round2, Avg, Min, Max;
    var m := g.members;
    forall col ensures Round2(Min(m, col)) <= Round2(Avg(m, col)) <= Round2(Max(m, col)) {
      MeanBetween(m, col);
      RoundOrder(Min(m, col), Avg(m, col));
      RoundOrder(Avg(m, col), Max(m, col));
    }
    var _, hi := MinMaxRows(m, Players);
    RoundWhole(hi.activePlayers);
  }

  // ---------- Pruning ----------

  lemma {:induction false} SinceRow(rows: seq<Snapshot>, cutoff: string, row: Snapshot)
    ensures row in Since(rows, cutoff) <==> row in rows && !StrLess(row.timestamp, cutoff)
  {
    if rows != [] {
      SinceRow(rows[..|rows| - 1], cutoff, row);
      assert rows == rows[..|rows| - 1] + [rows[|rows| - 1]];
    }
  }

  lemma {:induction false} SinceConcat(a: seq<Snapshot>, b: seq<Snapshot>, cutoff: string)
    ensures Since(a + b, cutoff) == Since(a, cutoff) + Since(b, cutoff)
  {
    if b == [] {
      assert a + b == a;
    } else {
      SinceConcat(a, b[..|b| - 1], cutoff);
      assert (a + b)[..|a + b| - 1] == a + b[..|b| - 1];
    }
  }

  // An earlier cutoff before a later one changes nothing
  lemma {:induction false} SinceTwice(rows: seq<Snapshot>, early: string, late: string)
    requires !StrLess(late, early)
    ensures Since(Since(rows, early), late) == Since(rows, late)
  {
    if rows != [] {
      var (init, row) := (rows[..|rows| - 1], rows[|rows| - 1]);
      SinceTwice(init, early, late);
      if StrLess(row.timestamp, early) {
        StrLessTotal(late, early);
        if late != early { StrLessTransitive(row.timestamp, early, late); }
        assert Since(init, early) + [] == Since(init, early);
      } else {
        var kept := Since(init, early);
        assert (kept + [row])[..|kept|] == kept;
      }
    }
  }

  // Pruning never shows in a query, whatever the table holds, exactly when its cutoff is not later
  // than the start of the query's window
  lemma PruneHiddenIff(w: Window, pruned: DateTime, start: DateTime)
    requires Valid(pruned) && Valid(start)
    ensures (forall rows :: History(Since(rows, IsoFormat(pruned)), w, IsoFormat(start)) == History(rows, w, IsoFormat(start)))
            <==> Micros(pruned) <= Micros(start)
    ensures (forall rows :: SummaryOf(Since(Since(rows, IsoFormat(pruned)), IsoFormat(start))) == SummaryOf(Since(rows, IsoFormat(start))))
            <==> Micros(pruned) <= Micros(start)
  {
    hide IsoFormat, Micros, Groups, Label, Since, SummaryOf;
    var (p, c) := (IsoFormat(pruned), IsoFormat(start));
    TextOrderIsTimeOrder(start, pruned);
    if Micros(pruned) <= Micros(start) {
      forall rows ensures Since(Since(rows, p), c) == Since(rows, c) { SinceTwice(rows, p, c); }
    } else {
      var rows := [Snapshot(c, 0.0, 0.0, 0, 0.0, 0.0)];
      PruneShows(rows, w, p, c);
      assert History(Since(rows, p), w, c) != History(rows, w, c);
      assert SummaryOf(Since(Since(rows, p), c)) != SummaryOf(Since(rows, c));
    }
  }

  // The sample taken just at the start of the window is lost by a later cutoff
  lemma {:induction false} PruneShows(rows: seq<Snapshot>, w: Window, p: string, c: string)
    requires |rows| == 1 && rows[0].timestamp == c && StrLess(c, p)
    ensures History(Since(rows, p), w, c) != History(rows, w, c)
    ensures SummaryOf(Since(Since(rows, p), c)) != SummaryOf(Since(rows, c))
  {
    hide Label, Round2, Avg, Min, Max, FirstTime, LastTime, Buckets, History, Groups;
    assert rows[..0] == [];
    StrLessTotal(c, c);
    assert Since(rows[..0], p) == [] && Since(rows[..0], c) == [];
    assert Since(rows, p) == [] + [] && Since(rows, c) == [] + [rows[0]];
    assert [] + [rows[0]] == rows;
    BucketTotal(rows, w, c);
    BucketTotal([], w, c);
  }

  // The sample counts add up to the rows in the window
  lemma {:induction false} SampleTotal(groups: seq<Group>)
    requires NoneEmpty(groups)
    ensures SampleCount(Buckets(groups)) == CountAll(groups)
  {
    if groups != [] {
      SampleTotal(groups[1..]);
      assert Buckets(groups)[1..] == Buckets(groups[1..]);
    }
  }

  function SampleCount(buckets: seq<Bucket>): nat {
    if buckets == [] then 0 else buckets[0].sampleCount + SampleCount(buckets[1..])
  }

  lemma BucketTotal(rows: seq<Snapshot>, w: Window, cutoff: string)
    ensures SampleCount(History(rows, w, cutoff)) == |Since(rows, cutoff)|
  {
    GroupsOk(Since(rows, cutoff), w);
    SampleTotal(Groups(Since(rows, cutoff), w));
  }

  // A prune at one time, seen from a query at another: with a retention of at least the window it is
  // never seen from then on
  lemma PruneNeverSeenLater(w: Window, at: DateTime, days: int, now: DateTime, rows: seq<Snapshot>)
    requires Valid(at) && Valid(now) && MinusDays(at, days).Some? && WindowStart(now, w).Some?
    requires Micros(at) <= Micros(now) && WindowMicros(w) <= days * MICROS_PER_DAY
    ensures var (p, c) := (IsoFormat(MinusDays(at, days).value), IsoFormat(WindowStart(now, w).value));
      History(Since(rows, p), w, c) == History(rows, w, c) && Since(Since(rows, p), c) == Since(rows, c)
  {
    WindowStartMicros(now, w);
    MinusDaysMicros(at, days);
    var (pruned, start) := (MinusDays(at, days).value, WindowStart(now, w).value);
    TextOrderIsTimeOrder(start, pruned);
    SinceTwice(rows, IsoFormat(pruned), IsoFormat(start));
  }

  lemma WindowStartMicros(now: DateTime, w: Window)
    requires Valid(now) && WindowStart(now, w).Some?
    ensures Micros(WindowStart(now, w).value) == Micros(now) - WindowMicros(w)
  {
    hide Micros, MinusDays, MinusHour;
    match w
    case Hour => MinusHourMicros(now);
    case Day => MinusDaysMicros(now, 1);
    case Week => MinusDaysMicros(now, 7);
    case Month => MinusDaysMicros(now, 30);
  }
}
