/** The integer figures on the statistics screen. The calendar tests are abstracted: "today" is a
    predicate on timestamps, and "a week ago" is a cutoff timestamp. */
module Statistics {
  import opened KotlinInt
  import opened Options
  import opened Entries

  /** The entries whose timestamp falls on today's date (`isToday` stands for the comparison of
      day of year and year), in history order. */
  function TodayEntries(history: seq<WaterEntry>, isToday: int -> bool): (r: seq<WaterEntry>)
    ensures |r| <= |history|
    ensures forall e :: e in r <==> e in history && isToday(e.timestamp)
    ensures forall e :: multiset(r)[e] == if isToday(e.timestamp) then multiset(history)[e] else 0
  {
    if |history| == 0 then []
    else
      assert history == [history[0]] + history[1..];
      (if isToday(history[0].timestamp) then [history[0]] else []) + TodayEntries(history[1..], isToday)
  }

  /** The entries strictly after the cutoff (`entryDate.after(weekAgo)`), in history order. */
  function EntriesAfter(history: seq<WaterEntry>, weekAgo: int): (r: seq<WaterEntry>)
    ensures |r| <= |history|
    ensures forall e :: e in r <==> e in history && e.timestamp > weekAgo
    ensures forall e :: multiset(r)[e] == if e.timestamp > weekAgo then multiset(history)[e] else 0
  {
    if |history| == 0 then []
    else
      assert history == [history[0]] + history[1..];
      (if history[0].timestamp > weekAgo then [history[0]] else []) + EntriesAfter(history[1..], weekAgo)
  }

  /** The entries at or before the cutoff: the ones the weekly total leaves out. */
  function EntriesNotAfter(history: seq<WaterEntry>, weekAgo: int): seq<WaterEntry> {
    if |history| == 0 then []
    else (if history[0].timestamp <= weekAgo then [history[0]] else []) + EntriesNotAfter(history[1..], weekAgo)
  }

  /** Every entry counts on exactly one side of the cutoff. */
  lemma {:induction false} CutoffSplitsTotal(history: seq<WaterEntry>, weekAgo: int)
    ensures TotalAmount(EntriesAfter(history, weekAgo)) + TotalAmount(EntriesNotAfter(history, weekAgo))
            == TotalAmount(history)
  {
    if |history| > 0 {
      var e, rest := history[0], history[1..];
      var after, notAfter := EntriesAfter(rest, weekAgo), EntriesNotAfter(rest, weekAgo);
      CutoffSplitsTotal(rest, weekAgo);
      assert ([e] + after)[1..] == after && ([e] + notAfter)[1..] == notAfter;
      if e.timestamp > weekAgo {
        assert EntriesAfter(history, weekAgo) == [e] + after;
        assert TotalAmount([e] + after) == e.amount + TotalAmount(after);
        assert EntriesNotAfter(history, weekAgo) == notAfter;
      } else {
        assert EntriesAfter(history, weekAgo) == after;
        assert EntriesNotAfter(history, weekAgo) == [e] + notAfter;
        assert TotalAmount([e] + notAfter) == e.amount + TotalAmount(notAfter);
      }
    }
  }

  /** Two values that differ by a multiple of 2^32 wrap to the same `Int`. */
  lemma WrapCongruent(x: int, y: int)
    requires (x - y) % Modulus == 0
    ensures Wrap(x) == Wrap(y)
  {
    var k := (x - y) / Modulus;
    assert x - y == Modulus * k;
    var wx, wy := Wrap(x), Wrap(y);
    assert (wx - wy) % Modulus == 0 by {
      assert x - wx == Modulus * ((x - wx) / Modulus);
      assert y - wy == Modulus * ((y - wy) / Modulus);
      assert wx - wy == Modulus * (k - (x - wx) / Modulus + (y - wy) / Modulus);
    }
    assert -Modulus < wx - wy < Modulus;
  }

  /** `sumOf { it.amount }` continued from `acc`: every addition is an `Int` addition. */
  function SumOfFrom(acc: int, entries: seq<WaterEntry>): int
    decreases |entries|
  {
    if |entries| == 0 then acc else SumOfFrom(Wrap(acc + entries[0].amount), entries[1..])
  }

  /** Wrapping at every step gives the wrapped exact total. */
  lemma {:induction false} SumOfFromIsWrappedTotal(acc: int, entries: seq<WaterEntry>)
    requires IsInt(acc)
    ensures SumOfFrom(acc, entries) == Wrap(acc + TotalAmount(entries))
    decreases |entries|
  {
    if |entries| > 0 {
      var next := Wrap(acc + entries[0].amount);
      SumOfFromIsWrappedTotal(next, entries[1..]);
      WrapCongruent(next + TotalAmount(entries[1..]), acc + TotalAmount(entries));
    }
  }

  /** `sumOf { it.amount }` on `Int`s. */
  function SumOfAmounts(entries: seq<WaterEntry>): (r: int)
    ensures IsInt(r)
    ensures (r - TotalAmount(entries)) % Modulus == 0
    ensures IsInt(TotalAmount(entries)) ==> r == TotalAmount(entries)
  {
    SumOfFromIsWrappedTotal(0, entries);
    SumOfFrom(0, entries)
  }

  /** The weekly total: the amounts of the entries strictly after the cutoff, summed as `Int`s. */
  function WeeklyTotal(history: seq<WaterEntry>, weekAgo: int): int {
    SumOfAmounts(EntriesAfter(history, weekAgo))
  }

  /** With no negative amounts and a history total that fits in an `Int`, the weekly total is
      the exact sum of the amounts after the cutoff, between zero and the history total. */
  lemma WeeklyTotalIsExact(history: seq<WaterEntry>, weekAgo: int)
    requires AllAmountsNonNegative(history)
    requires TotalAmount(history) <= MaxValue
    ensures WeeklyTotal(history, weekAgo) == TotalAmount(EntriesAfter(history, weekAgo))
    ensures 0 <= WeeklyTotal(history, weekAgo) <= TotalAmount(history)
  {
    var after := EntriesAfter(history, weekAgo);
    var notAfter := EntriesNotAfter(history, weekAgo);
    CutoffSplitsTotal(history, weekAgo);
    AfterNonNegative(history, weekAgo);
    NotAfterNonNegative(history, weekAgo);
    TotalAmountNonNegative(after);
    TotalAmountNonNegative(notAfter);
  }

  lemma AfterNonNegative(history: seq<WaterEntry>, weekAgo: int)
    requires AllAmountsNonNegative(history)
    ensures AllAmountsNonNegative(EntriesAfter(history, weekAgo))
  {
    var after := EntriesAfter(history, weekAgo);
    forall i | 0 <= i < |after| ensures after[i].amount >= 0 {
      assert after[i] in history;
    }
  }

  lemma {:induction false} NotAfterFromHistory(history: seq<WaterEntry>, weekAgo: int)
    ensures forall e :: e in EntriesNotAfter(history, weekAgo) ==> e in history
  {
    if |history| > 0 {
      NotAfterFromHistory(history[1..], weekAgo);
    }
  }

  lemma NotAfterNonNegative(history: seq<WaterEntry>, weekAgo: int)
    requires AllAmountsNonNegative(history)
    ensures AllAmountsNonNegative(EntriesNotAfter(history, weekAgo))
  {
    var notAfter := EntriesNotAfter(history, weekAgo);
    NotAfterFromHistory(history, weekAgo);
    forall i | 0 <= i < |notAfter| ensures notAfter[i].amount >= 0 {
      assert notAfter[i] in history;
    }
  }

  /** The shown daily average: the weekly total divided by 7, rounded toward zero. */
  function DailyAverage(weeklyTotal: int): (r: int)
    ensures weeklyTotal >= 0 ==> 0 <= weeklyTotal - 7 * r < 7
    ensures weeklyTotal < 0 ==> -7 < weeklyTotal - 7 * r <= 0
  {
    Div(weeklyTotal, 7)
  }

  /** The smallest and largest amount among some entries. */
  function MinAmount(s: seq<WaterEntry>): (m: int)
    requires |s| > 0
    ensures forall i :: 0 <= i < |s| ==> m <= s[i].amount
    ensures exists i :: 0 <= i < |s| && m == s[i].amount
  {
    if |s| == 1 then s[0].amount
    else
      var rest := MinAmount(s[1..]);
      assert forall i :: 1 <= i < |s| ==> s[i] == s[1..][i - 1];
      if s[0].amount <= rest then s[0].amount else rest
  }

  function MaxAmount(s: seq<WaterEntry>): (m: int)
    requires |s| > 0
    ensures forall i :: 0 <= i < |s| ==> s[i].amount <= m
    ensures exists i :: 0 <= i < |s| && m == s[i].amount
  {
    if |s| == 1 then s[0].amount
    else
      var rest := MaxAmount(s[1..]);
      assert forall i :: 1 <= i < |s| ==> s[i] == s[1..][i - 1];
      if s[0].amount >= rest then s[0].amount else rest
  }

  /** Amounts between `lo` and `hi` make a total between `|s| * lo` and `|s| * hi`. */
  lemma {:induction false} TotalBetween(s: seq<WaterEntry>, lo: int, hi: int)
    requires forall i :: 0 <= i < |s| ==> lo <= s[i].amount <= hi
    ensures |s| * lo <= TotalAmount(s) <= |s| * hi
  {
    if |s| > 0 {
      var rest := s[1..];
      assert forall i :: 0 <= i < |rest| ==> rest[i] == s[i + 1];
      TotalBetween(rest, lo, hi);
      assert |s| * lo == lo + |rest| * lo;
      assert |s| * hi == hi + |rest| * hi;
    }
  }

  /** `n` copies of a smaller number fall at least `n` short of `n` copies of a larger one. */
  lemma {:induction false} MultipleGap(n: nat, a: int, b: int)
    requires a < b
    ensures n * a <= n * b - n
  {
    if n > 0 {
      MultipleGap(n - 1, a, b);
      assert n * a == (n - 1) * a + a;
      assert n * b == (n - 1) * b + b;
    }
  }

  /** The average amount per intake today, shown only when there was an intake today. */
  function AveragePerIntake(today: seq<WaterEntry>): (r: Option<int>)
    ensures r.Some? <==> |today| > 0
  {
    if |today| == 0 then None else Some(Div(SumOfAmounts(today), |today|))
  }

  /** A quotient rounded toward zero of a total between `n * lo` and `n * hi` lies between
      `lo` and `hi`. */
  lemma QuotientBetween(total: int, n: int, lo: int, hi: int)
    requires n > 0
    requires n * lo <= total <= n * hi
    ensures lo <= Div(total, n) <= hi
  {
    var q := Div(total, n);
    assert -n < total - q * n < n;
    if q < lo {
      MultipleGap(n, q, lo);
      assert false;
    }
    if q > hi {
      MultipleGap(n, hi, q);
      assert false;
    }
  }

  /** When the total fits in an `Int`, the average per intake lies between the smallest and the
      largest amount of the day. */
  lemma AverageWithinAmounts(today: seq<WaterEntry>)
    requires |today| > 0
    requires IsInt(TotalAmount(today))
    ensures MinAmount(today) <= AveragePerIntake(today).value <= MaxAmount(today)
  {
    var lo, hi := MinAmount(today), MaxAmount(today);
    TotalBetween(today, lo, hi);
    QuotientBetween(TotalAmount(today), |today|, lo, hi);
  }
}
