/**
  Expiring the entries of one runtime cache, in the service worker.

  The timestamps of all caches share one store.  A cursor walks it by timestamp, newest first, and
  for the rows of its own cache deletes those that are too old or too many.
 */
module CacheExpiration {

  datatype Row = Row(cacheName: string, url: string, timestamp: nat)

  // The order in which the cursor meets the rows.
  ghost predicate NewestFirst(rows: seq<Row>) {
    forall i, j :: 0 <= i < j < |rows| ==> rows[i].timestamp >= rows[j].timestamp
  }

  // How many rows of the cache the cursor meets before row `i`.
  function OwnBefore(rows: seq<Row>, own: string, i: nat): (n: nat)
    requires i <= |rows|
    ensures n <= i
  {
    if i == 0 then 0
    else OwnBefore(rows, own, i - 1) + if rows[i - 1].cacheName == own then 1 else 0
  }

  // Zero stands for "no cutoff" and "no limit", as in the source.
  predicate TooOld(r: Row, minTimestamp: nat) { minTimestamp != 0 && r.timestamp < minTimestamp }

  /** The rows that stay: those of other caches, and of this one the `maxEntries` newest as far as
      they are not older than the cutoff. */
  predicate Stays(rows: seq<Row>, own: string, minTimestamp: nat, maxEntries: nat, i: nat)
    requires i < |rows|
  {
    rows[i].cacheName != own
    || (!TooOld(rows[i], minTimestamp) && (maxEntries == 0 || OwnBefore(rows, own, i) < maxEntries))
  }

  // The rows before `i` that stay, and the urls of those that go, both in cursor order.
  function Kept(rows: seq<Row>, own: string, minTimestamp: nat, maxEntries: nat, i: nat): seq<Row>
    requires i <= |rows|
  {
    if i == 0 then []
    else Kept(rows, own, minTimestamp, maxEntries, i - 1) +
         if Stays(rows, own, minTimestamp, maxEntries, i - 1) then [rows[i - 1]] else []
  }

  function Dropped(rows: seq<Row>, own: string, minTimestamp: nat, maxEntries: nat, i: nat): seq<string>
    requires i <= |rows|
  {
    if i == 0 then []
    else Dropped(rows, own, minTimestamp, maxEntries, i - 1) +
         if Stays(rows, own, minTimestamp, maxEntries, i - 1) then [] else [rows[i - 1].url]
  }

  function CountOwn(rows: seq<Row>, own: string): nat
    decreases |rows|
  {
    if rows == [] then 0
    else CountOwn(rows[..|rows| - 1], own) + if rows[|rows| - 1].cacheName == own then 1 else 0
  }

  // Own rows before a row that is not too old are not too old either, so all of them counted.
  lemma {:induction false} CounterCountsOwnRows(rows: seq<Row>, own: string, minTimestamp: nat, maxEntries: nat, i: nat)
    requires NewestFirst(rows) && i <= |rows|
    ensures var n := CountOwn(Kept(rows, own, minTimestamp, maxEntries, i), own);
      && n <= OwnBefore(rows, own, i)
      && (maxEntries != 0 ==> n <= maxEntries)
      && (i < |rows| && !TooOld(rows[i], minTimestamp) ==>
            var all := OwnBefore(rows, own, i);
            n == if maxEntries != 0 && all > maxEntries then maxEntries else all)
  {
    if i > 0 {
      CounterCountsOwnRows(rows, own, minTimestamp, maxEntries, i - 1);
      var before := Kept(rows, own, minTimestamp, maxEntries, i - 1);
      var kept := Kept(rows, own, minTimestamp, maxEntries, i);
      if kept != before {
        assert kept[..|kept| - 1] == before;
      }
    }
  }

  // Young enough, but not kept.
  predicate GoesForRoom(rows: seq<Row>, own: string, minTimestamp: nat, maxEntries: nat, i: nat)
    requires i < |rows|
  {
    !Stays(rows, own, minTimestamp, maxEntries, i) && (minTimestamp == 0 || rows[i].timestamp >= minTimestamp)
  }

  /** What is left has at most `maxEntries` rows of the cache, none older than the cutoff, and a row
      that is young enough goes only when there is a limit and exactly that many stay. */
  lemma LimitsHold(rows: seq<Row>, own: string, minTimestamp: nat, maxEntries: nat)
    requires NewestFirst(rows)
    ensures var kept := Kept(rows, own, minTimestamp, maxEntries, |rows|);
      && (maxEntries != 0 ==> CountOwn(kept, own) <= maxEntries)
      && (forall r :: r in kept && r.cacheName == own ==> minTimestamp == 0 || r.timestamp >= minTimestamp)
      && (forall i :: 0 <= i < |rows| && GoesForRoom(rows, own, minTimestamp, maxEntries, i) ==>
            maxEntries != 0 && rows[i].cacheName == own && CountOwn(kept, own) == maxEntries)
  {
    CounterCountsOwnRows(rows, own, minTimestamp, maxEntries, |rows|);
    KeptAreOwnAndYoung(rows, own, minTimestamp, maxEntries, |rows|);
    forall i | 0 <= i < |rows| && GoesForRoom(rows, own, minTimestamp, maxEntries, i)
      ensures maxEntries != 0 && rows[i].cacheName == own
      ensures CountOwn(Kept(rows, own, minTimestamp, maxEntries, |rows|), own) == maxEntries
    {
      CounterCountsOwnRows(rows, own, minTimestamp, maxEntries, i);
      KeptOwnGrow(rows, own, minTimestamp, maxEntries, i, |rows|);
    }
  }

  lemma {:induction false} KeptOwnGrow(rows: seq<Row>, own: string, minTimestamp: nat, maxEntries: nat, i: nat, j: nat)
    requires i <= j <= |rows|
    ensures CountOwn(Kept(rows, own, minTimestamp, maxEntries, i), own)
         <= CountOwn(Kept(rows, own, minTimestamp, maxEntries, j), own)
    decreases j
  {
    if i < j {
      KeptOwnGrow(rows, own, minTimestamp, maxEntries, i, j - 1);
      var before := Kept(rows, own, minTimestamp, maxEntries, j - 1);
      if Stays(rows, own, minTimestamp, maxEntries, j - 1) {
        CountOwnSnoc(before, rows[j - 1], own);
      } else {
        assert before + [] == before;
      }
    }
  }

  lemma {:induction false} KeptAreOwnAndYoung(rows: seq<Row>, own: string, minTimestamp: nat, maxEntries: nat, i: nat)
    requires i <= |rows|
    ensures forall r :: r in Kept(rows, own, minTimestamp, maxEntries, i) ==>
      r in rows && (r.cacheName == own ==> !TooOld(r, minTimestamp))
  {
    if i > 0 {
      KeptAreOwnAndYoung(rows, own, minTimestamp, maxEntries, i - 1);
    }
  }

  lemma {:induction false} OwnBeforeGrows(rows: seq<Row>, own: string, i: nat, j: nat)
    requires i < j <= |rows|
    ensures OwnBefore(rows, own, j) >= OwnBefore(rows, own, i) + if rows[i].cacheName == own then 1 else 0
    decreases j
  {
    if j > i + 1 { OwnBeforeGrows(rows, own, i, j - 1); }
  }

  /** Of two rows of the cache the one met later never stays when the earlier, newer one goes. */
  lemma NewerRowsStayFirst(rows: seq<Row>, own: string, minTimestamp: nat, maxEntries: nat, i: nat, j: nat)
    requires NewestFirst(rows) && i < j < |rows|
    requires rows[i].cacheName == own && rows[j].cacheName == own
    requires Stays(rows, own, minTimestamp, maxEntries, j)
    ensures Stays(rows, own, minTimestamp, maxEntries, i)
  {
    OwnBeforeGrows(rows, own, i, j);
  }

  function Others(rows: seq<Row>, own: string): seq<Row>
    decreases |rows|
  {
    if rows == [] then []
    else Others(rows[..|rows| - 1], own) + if rows[|rows| - 1].cacheName == own then [] else [rows[|rows| - 1]]
  }

  /** The rows of every other cache stay, in the order they had. */
  lemma {:induction false} OtherCachesUntouched(rows: seq<Row>, own: string, minTimestamp: nat, maxEntries: nat, i: nat)
    requires i <= |rows|
    ensures Others(Kept(rows, own, minTimestamp, maxEntries, i), own) == Others(rows[..i], own)
  {
    if i > 0 {
      OtherCachesUntouched(rows, own, minTimestamp, maxEntries, i - 1);
      var before := Kept(rows, own, minTimestamp, maxEntries, i - 1);
      var kept := Kept(rows, own, minTimestamp, maxEntries, i);
      assert rows[..i][..i - 1] == rows[..i - 1];
      if kept != before { assert kept[..|kept| - 1] == before; }
    }
  }

  /** Every row is kept or its url reported, never both, and nothing else is reported. */
  lemma {:induction false} KeptOrReported(rows: seq<Row>, own: string, minTimestamp: nat, maxEntries: nat, i: nat)
    requires i <= |rows|
    ensures |Kept(rows, own, minTimestamp, maxEntries, i)| + |Dropped(rows, own, minTimestamp, maxEntries, i)| == i
    ensures forall j :: 0 <= j < i ==>
      if Stays(rows, own, minTimestamp, maxEntries, j) then rows[j] in Kept(rows, own, minTimestamp, maxEntries, i)
      else rows[j].url in Dropped(rows, own, minTimestamp, maxEntries, i)
    ensures forall u :: u in Dropped(rows, own, minTimestamp, maxEntries, i) ==>
      exists j :: 0 <= j < i && rows[j].url == u && rows[j].cacheName == own
                  && !Stays(rows, own, minTimestamp, maxEntries, j)
  {
    if i > 0 { KeptOrReported(rows, own, minTimestamp, maxEntries, i - 1); }
  }

  /** A second sweep with the same limits finds nothing to do. */
  lemma SweepIsIdempotent(rows: seq<Row>, own: string, minTimestamp: nat, maxEntries: nat)
    requires NewestFirst(rows)
    ensures var kept := Kept(rows, own, minTimestamp, maxEntries, |rows|);
      && NewestFirst(kept)
      && Dropped(kept, own, minTimestamp, maxEntries, |kept|) == []
  {
    var kept := Kept(rows, own, minTimestamp, maxEntries, |rows|);
    KeptStaysOrdered(rows, own, minTimestamp, maxEntries, |rows|);
    LimitsHold(rows, own, minTimestamp, maxEntries);
    NothingToDrop(kept, own, minTimestamp, maxEntries, |kept|);
  }

  lemma {:induction false} KeptStaysOrdered(rows: seq<Row>, own: string, minTimestamp: nat, maxEntries: nat, i: nat)
    requires NewestFirst(rows) && i <= |rows|
    ensures NewestFirst(Kept(rows, own, minTimestamp, maxEntries, i))
    ensures forall r :: r in Kept(rows, own, minTimestamp, maxEntries, i) ==>
      i > 0 && r.timestamp >= rows[i - 1].timestamp
  {
    if i > 0 { KeptStaysOrdered(rows, own, minTimestamp, maxEntries, i - 1); }
  }

  lemma {:induction false} CountOwnIsOwnBefore(rows: seq<Row>, own: string, i: nat)
    requires i <= |rows|
    ensures OwnBefore(rows, own, i) == CountOwn(rows[..i], own)
  {
    if i > 0 {
      CountOwnIsOwnBefore(rows, own, i - 1);
      assert rows[..i][..i - 1] == rows[..i - 1];
    }
  }

  lemma {:induction false} NothingToDrop(rows: seq<Row>, own: string, minTimestamp: nat, maxEntries: nat, i: nat)
    requires maxEntries != 0 ==> CountOwn(rows, own) <= maxEntries
    requires forall r :: r in rows && r.cacheName == own ==> !TooOld(r, minTimestamp)
    requires i <= |rows|
    ensures Dropped(rows, own, minTimestamp, maxEntries, i) == []
  {
    if i > 0 {
      NothingToDrop(rows, own, minTimestamp, maxEntries, i - 1);
      OwnBeforeGrows(rows, own, i - 1, |rows|);
      CountOwnIsOwnBefore(rows, own, |rows|);
      assert rows[..|rows|] == rows && rows[i - 1] in rows;
    }
  }

  // ---------- the store ----------

  // Passing or deleting the row under the cursor.
  lemma Splice(rows: seq<Row>, cursor: nat)
    requires cursor < |rows|
    ensures rows[cursor..][0] == rows[cursor] && rows[cursor..][1..] == rows[cursor + 1..]
    ensures rows[..cursor + 1] == rows[..cursor] + [rows[cursor]]
    ensures var less := rows[..cursor] + rows[cursor + 1..];
      less[..cursor] == rows[..cursor] && less[cursor..] == rows[cursor + 1..]
  {
  }

  lemma CountOwnSnoc(rows: seq<Row>, r: Row, own: string)
    ensures CountOwn(rows + [r], own) == CountOwn(rows, own) + if r.cacheName == own then 1 else 0
  {
  }

  // What the loop has done when it has met `met` rows and counted `n`.
  ghost predicate Swept(was: seq<Row>, own: string, minTimestamp: nat, maxEntries: nat, met: nat,
                        rows: seq<Row>, cursor: nat, n: nat, urls: seq<string>)
  {
    && met <= |was|
    && cursor <= |rows| && rows[cursor..] == was[met..]
    && var kept := Kept(was, own, minTimestamp, maxEntries, met);
       && rows[..cursor] == kept && n == CountOwn(kept, own)
       && urls == Dropped(was, own, minTimestamp, maxEntries, met)
  }

  predicate Expires(row: Row, own: string, minTimestamp: nat, maxEntries: nat, n: nat) {
    row.cacheName == own
    && ((minTimestamp != 0 && row.timestamp < minTimestamp) || (maxEntries != 0 && n >= maxEntries))
  }

  lemma SweepRow(was: seq<Row>, own: string, minTimestamp: nat, maxEntries: nat, met: nat,
                 rows: seq<Row>, cursor: nat, n: nat, urls: seq<string>)
    requires NewestFirst(was) && met < |was| && Swept(was, own, minTimestamp, maxEntries, met, rows, cursor, n, urls)
    ensures cursor < |rows|
    ensures if Expires(rows[cursor], own, minTimestamp, maxEntries, n)
            then Swept(was, own, minTimestamp, maxEntries, met + 1,
                       rows[..cursor] + rows[cursor + 1..], cursor, n, urls + [rows[cursor].url])
            else Swept(was, own, minTimestamp, maxEntries, met + 1,
                       rows, cursor + 1, n + (if rows[cursor].cacheName == own then 1 else 0), urls)
  {
    var kept := Kept(was, own, minTimestamp, maxEntries, met);
    assert was[met..][1..] == was[met + 1..];
    assert |rows[cursor..]| == |was[met..]|;
    Splice(rows, cursor);
    CountOwnSnoc(kept, was[met], own);
    CounterCountsOwnRows(was, own, minTimestamp, maxEntries, met);
    assert Expires(was[met], own, minTimestamp, maxEntries, n) <==> !Stays(was, own, minTimestamp, maxEntries, met);
    assert kept + [] == kept && urls + [] == urls;
  }

  // The outcome of a whole sweep.
  ghost predicate SweptAll(was: seq<Row>, own: string, minTimestamp: nat, maxEntries: nat, rows: seq<Row>,
      urls: seq<string>) {
    && rows == Kept(was, own, minTimestamp, maxEntries, |was|)
    && urls == Dropped(was, own, minTimestamp, maxEntries, |was|)
  }

  lemma SweepEnds(was: seq<Row>, own: string, minTimestamp: nat, maxEntries: nat, met: nat,
                  rows: seq<Row>, cursor: nat, n: nat, urls: seq<string>)
    requires Swept(was, own, minTimestamp, maxEntries, met, rows, cursor, n, urls)
    ensures |rows| - cursor == |was| - met
    ensures met == |was| ==> SweptAll(was, own, minTimestamp, maxEntries, rows, urls)
  {
  }

  class TimestampStore {
    var rows: seq<Row>
    const cacheName: string

    method ExpireEntries(minTimestamp: nat, maxEntries: nat) returns (urls: seq<string>)
      requires NewestFirst(rows)
      modifies this
      ensures SweptAll(old(rows), cacheName, minTimestamp, maxEntries, rows, urls)
    {
      ghost var was, met := rows, 0;
      var cursor: nat, n: nat := 0, 0;
      urls := [];
      while cursor < |rows|
        invariant Swept(was, cacheName, minTimestamp, maxEntries, met, rows, cursor, n, urls)
        decreases |was| - met
      {
        SweepEnds(was, cacheName, minTimestamp, maxEntries, met, rows, cursor, n, urls);
        SweepRow(was, cacheName, minTimestamp, maxEntries, met, rows, cursor, n, urls);
        var row := rows[cursor];
        if row.cacheName == cacheName {
          if (minTimestamp != 0 && row.timestamp < minTimestamp) || (maxEntries != 0 && n >= maxEntries) {
            rows := rows[..cursor] + rows[cursor + 1..];
            urls := urls + [row.url];
          } else {
            n := n + 1;
            cursor := cursor + 1;
          }
        } else {
          cursor := cursor + 1;
        }
        met := met + 1;
      }
      SweepEnds(was, cacheName, minTimestamp, maxEntries, met, rows, cursor, n, urls);
    }
  }
}
