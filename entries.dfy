/** Intake entries and the list operations the app applies to its history. */
module Entries {

  /** One logged drink (`data class WaterEntry`): `amount` millilitres at `timestamp` epoch
      milliseconds. Equality is structural, as for a Kotlin data class. */
  datatype WaterEntry = WaterEntry(amount: int, timestamp: int)

  /** Sum of the amounts, in exact arithmetic. */
  function TotalAmount(entries: seq<WaterEntry>): int {
    if |entries| == 0 then 0 else entries[0].amount + TotalAmount(entries[1..])
  }

  lemma {:induction false} TotalAmountAppend(a: seq<WaterEntry>, b: seq<WaterEntry>)
    ensures TotalAmount(a + b) == TotalAmount(a) + TotalAmount(b)
  {
    if |a| == 0 {
      assert a + b == b;
    } else {
      assert (a + b)[1..] == a[1..] + b;
      TotalAmountAppend(a[1..], b);
    }
  }

  predicate AllAmountsNonNegative(entries: seq<WaterEntry>) {
    forall i :: 0 <= i < |entries| ==> entries[i].amount >= 0
  }

  lemma {:induction false} TotalAmountNonNegative(entries: seq<WaterEntry>)
    requires AllAmountsNonNegative(entries)
    ensures TotalAmount(entries) >= 0
  {
    if |entries| > 0 {
      TotalAmountNonNegative(entries[1..]);
    }
  }

  // ----- `remove(element)` on the history list

  /** `indexOf(element)`: the position of the first entry equal to `e`, or -1 when there is none. */
  function IndexOf(h: seq<WaterEntry>, e: WaterEntry): (k: int)
    ensures -1 <= k < |h|
    ensures k == -1 <==> e !in h
    ensures k >= 0 ==> h[k] == e && e !in h[..k]
  {
    if |h| == 0 then -1
    else if h[0] == e then 0
    else
      var k := IndexOf(h[1..], e);
      if k < 0 then -1
      else
        assert h[..k + 1] == [h[0]] + h[1..][..k];
        k + 1
  }

  /** `remove(element)`: drops the first entry equal to `e` and keeps the rest in order;
      the list is unchanged when no entry equals `e`. */
  function RemoveFirst(h: seq<WaterEntry>, e: WaterEntry): seq<WaterEntry> {
    var k := IndexOf(h, e);
    if k < 0 then h else h[..k] + h[k + 1..]
  }

  /** Removal takes away exactly one copy of `e` when there is one, and nothing otherwise. */
  lemma RemoveFirstRemovesOneCopy(h: seq<WaterEntry>, e: WaterEntry)
    ensures e in h ==> |RemoveFirst(h, e)| == |h| - 1
    ensures e !in h ==> RemoveFirst(h, e) == h
    ensures multiset(RemoveFirst(h, e)) == multiset(h) - multiset{e}
  {
    var k := IndexOf(h, e);
    if k >= 0 {
      assert h == h[..k] + [e] + h[k + 1..];
    } else {
      assert multiset(h)[e] == 0;
    }
  }

  /** The entries before the first copy of `e` stay where they are, and every later entry
      moves up by one place. */
  lemma RemoveFirstShifts(h: seq<WaterEntry>, e: WaterEntry, i: nat)
    requires e in h && i < |h| - 1
    ensures var k := IndexOf(h, e);
            RemoveFirst(h, e)[i] == if i < k then h[i] else h[i + 1]
  {
  }

  lemma RemoveFirstTotal(h: seq<WaterEntry>, e: WaterEntry)
    requires e in h
    ensures TotalAmount(RemoveFirst(h, e)) == TotalAmount(h) - e.amount
  {
    var k := IndexOf(h, e);
    assert h == h[..k] + ([e] + h[k + 1..]);
    TotalAmountAppend(h[..k], [e] + h[k + 1..]);
    TotalAmountAppend(h[..k], h[k + 1..]);
  }

  // ----- `sortByDescending { it.timestamp }`

  /** Newest first: timestamps never increase along the list. */
  predicate NewestFirst(s: seq<WaterEntry>) {
    forall i, j :: 0 <= i < j < |s| ==> s[i].timestamp >= s[j].timestamp
  }

  lemma RemoveFirstKeepsNewestFirst(h: seq<WaterEntry>, e: WaterEntry)
    requires NewestFirst(h)
    ensures NewestFirst(RemoveFirst(h, e))
  {
    if e in h {
      var r := RemoveFirst(h, e);
      forall i, j | 0 <= i < j < |r| ensures r[i].timestamp >= r[j].timestamp {
        RemoveFirstShifts(h, e, i);
        RemoveFirstShifts(h, e, j);
      }
    }
  }

  /** Puts `e` in front of the first entry whose timestamp is not larger than its own. */
  function InsertByTimestamp(e: WaterEntry, r: seq<WaterEntry>): (out: seq<WaterEntry>)
    ensures multiset(out) == multiset(r) + multiset{e}
  {
    if |r| == 0 then [e]
    else if e.timestamp >= r[0].timestamp then [e] + r
    else
      assert r == [r[0]] + r[1..];
      [r[0]] + InsertByTimestamp(e, r[1..])
  }

  lemma {:induction false} InsertKeepsNewestFirst(e: WaterEntry, r: seq<WaterEntry>)
    requires NewestFirst(r)
    ensures NewestFirst(InsertByTimestamp(e, r))
  {
    if |r| > 0 && e.timestamp < r[0].timestamp {
      var rest := InsertByTimestamp(e, r[1..]);
      InsertKeepsNewestFirst(e, r[1..]);
      forall x | x in rest ensures x.timestamp <= r[0].timestamp {
        assert x in multiset(rest);
        if x != e {
          assert x in multiset(r[1..]);
        }
      }
      var out := [r[0]] + rest;
      forall i, j | 0 <= i < j < |out| ensures out[i].timestamp >= out[j].timestamp {
        assert out[j] == rest[j - 1];
        if i > 0 {
          assert out[i] == rest[i - 1];
        }
      }
    }
  }

  /** `sortByDescending { it.timestamp }`: a stable sort, newest first (an insertion sort here;
      `SortIsTheStableOrdering` shows every stable newest-first sort gives the same list). */
  function SortByDescendingTimestamp(s: seq<WaterEntry>): (r: seq<WaterEntry>)
    ensures NewestFirst(r)
    ensures multiset(r) == multiset(s)
  {
    if |s| == 0 then []
    else
      assert s == [s[0]] + s[1..];
      InsertKeepsNewestFirst(s[0], SortByDescendingTimestamp(s[1..]));
      InsertByTimestamp(s[0], SortByDescendingTimestamp(s[1..]))
  }

  /** The entries of `s` stamped `t`, in their order in `s`. */
  function StampedAt(s: seq<WaterEntry>, t: int): (r: seq<WaterEntry>)
    ensures forall x :: x in r ==> x in s && x.timestamp == t
  {
    if |s| == 0 then [] else (if s[0].timestamp == t then [s[0]] else []) + StampedAt(s[1..], t)
  }

  lemma {:induction false} InsertStampedAt(e: WaterEntry, r: seq<WaterEntry>, t: int)
    ensures StampedAt(InsertByTimestamp(e, r), t) == (if e.timestamp == t then [e] else []) + StampedAt(r, t)
  {
    var ePart := if e.timestamp == t then [e] else [];
    if |r| == 0 {
      assert StampedAt([e], t) == ePart + StampedAt([e][1..], t);
    } else if e.timestamp >= r[0].timestamp {
      assert ([e] + r)[1..] == r;
      assert StampedAt([e] + r, t) == ePart + StampedAt(r, t);
    } else {
      var rest := InsertByTimestamp(e, r[1..]);
      var headPart := if r[0].timestamp == t then [r[0]] else [];
      assert ([r[0]] + rest)[1..] == rest;
      assert StampedAt([r[0]] + rest, t) == headPart + StampedAt(rest, t);
      InsertStampedAt(e, r[1..], t);
      assert StampedAt(r, t) == headPart + StampedAt(r[1..], t);
      assert headPart == [] || ePart == [];
    }
  }

  /** Stability: entries with equal timestamps keep their relative order. */
  lemma {:induction false} SortIsStable(s: seq<WaterEntry>, t: int)
    ensures StampedAt(SortByDescendingTimestamp(s), t) == StampedAt(s, t)
  {
    if |s| > 0 {
      SortIsStable(s[1..], t);
      InsertStampedAt(s[0], SortByDescendingTimestamp(s[1..]), t);
    }
  }

  /** A list that is already newest first comes out of the sort unchanged. */
  lemma {:induction false} SortKeepsNewestFirst(s: seq<WaterEntry>)
    requires NewestFirst(s)
    ensures SortByDescendingTimestamp(s) == s
  {
    if |s| > 0 {
      assert NewestFirst(s[1..]);
      SortKeepsNewestFirst(s[1..]);
      assert s == [s[0]] + s[1..];
    }
  }

  lemma FirstIsStamped(s: seq<WaterEntry>)
    ensures |s| > 0 ==> StampedAt(s, s[0].timestamp) != []
  {
  }

  /** Two newest-first lists that hold, for every timestamp, the same entries in the same order
      are equal. */
  lemma {:induction false} StableNewestFirstIsUnique(r: seq<WaterEntry>, q: seq<WaterEntry>)
    requires NewestFirst(r) && NewestFirst(q)
    requires forall t :: StampedAt(r, t) == StampedAt(q, t)
    ensures r == q
  {
    if |r| == 0 && |q| == 0 {
    } else if |r| == 0 || |q| == 0 {
      FirstIsStamped(r);
      FirstIsStamped(q);
      assert false;
    } else {
      var T, U := r[0].timestamp, q[0].timestamp;
      assert StampedAt(r, T)[0] == r[0];
      assert StampedAt(q, U)[0] == q[0];
      var x := StampedAt(q, T)[0];
      assert x in q;
      var y := StampedAt(r, U)[0];
      assert y in r;
      assert T == U;
      assert r[0] == q[0];
      forall t ensures StampedAt(r[1..], t) == StampedAt(q[1..], t) {
        var part := if t == T then [r[0]] else [];
        assert StampedAt(r, t) == part + StampedAt(r[1..], t);
        assert StampedAt(q, t) == part + StampedAt(q[1..], t);
        assert (part + StampedAt(r[1..], t))[|part|..] == StampedAt(r[1..], t);
        assert (part + StampedAt(q[1..], t))[|part|..] == StampedAt(q[1..], t);
      }
      assert NewestFirst(r[1..]) && NewestFirst(q[1..]);
      StableNewestFirstIsUnique(r[1..], q[1..]);
      assert r == [r[0]] + r[1..] && q == [q[0]] + q[1..];
    }
  }

  /** The sort is determined by what the source asks of it: its result is the only newest-first
      list that keeps, for every timestamp, the entries stamped with it in their original order. */
  lemma SortIsTheStableOrdering(s: seq<WaterEntry>, r: seq<WaterEntry>)
    requires NewestFirst(r)
    requires forall t :: StampedAt(r, t) == StampedAt(s, t)
    ensures r == SortByDescendingTimestamp(s)
  {
    forall t ensures StampedAt(r, t) == StampedAt(SortByDescendingTimestamp(s), t) {
      SortIsStable(s, t);
    }
    StableNewestFirstIsUnique(r, SortByDescendingTimestamp(s));
  }
}
