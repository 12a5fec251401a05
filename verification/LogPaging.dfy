/** From raw sandbox output to the pages the API serves (worker/worker.py, api/routers/executions.py). */
module LogPaging {
  import opened Base
  import opened WorkerTransactions
  import opened ResultWire

  /** The query's ORDER BY sequence: some arrangement of the stored rows, unordered among equal sequences. */
  ghost predicate OrderedListing(listing: seq<LogRow>, stored: multiset<LogRow>)
  {
    && multiset(listing) == stored
    && forall i, j | 0 <= i < j < |listing| :: listing[i].sequence <= listing[j].sequence
  }

  /** OFFSET and LIMIT. */
  function Page(listing: seq<LogRow>, offset: nat, limit: nat): seq<LogRow>
  {
    var from := if offset < |listing| then offset else |listing|;
    var to := if from + limit < |listing| then from + limit else |listing|;
    listing[from..to]
  }

  /** Reading at offsets 0, limit, 2 * limit, ... until the total is reached. */
  method ReadAllPages(listing: seq<LogRow>, limit: nat) returns (rows: seq<LogRow>)
    requires limit >= 1
    ensures rows == listing
  {
    rows := [];
    var offset := 0;
    while offset < |listing|
      invariant rows == listing[..if offset < |listing| then offset else |listing|]
      decreases |listing| - offset
    {
      rows := rows + Page(listing, offset, limit);
      offset := offset + limit;
    }
  }

  lemma SameWithoutLast<T>(a: seq<T>, b: seq<T>, x: T)
    requires multiset(a + [x]) == multiset(b + [x])
    ensures multiset(a) == multiset(b)
  {
    assert multiset(a) == multiset(a + [x]) - multiset{x};
    assert multiset(b) == multiset(b + [x]) - multiset{x};
  }

  /** The row with the highest sequence number is listed last. */
  lemma LastRowComesLast(rows: seq<LogRow>, listing: seq<LogRow>)
    requires OrderedListing(listing, multiset(rows)) && rows != []
    requires forall i | 0 <= i < |rows| :: rows[i].sequence == i
    ensures |listing| == |rows| && listing[|rows| - 1] == rows[|rows| - 1]
  {
    assert |listing| == |multiset(listing)| == |rows|;
    var n := |rows| - 1;
    assert rows[n] in multiset(listing);
    var k :| 0 <= k < |listing| && listing[k] == rows[n];
    assert listing[n] in multiset(rows);
    var m :| 0 <= m < |rows| && rows[m] == listing[n];
    assert k < n ==> listing[k].sequence <= listing[n].sequence;
  }

  /** Rows numbered 0, 1, 2, ... have only one ordered listing. */
  lemma {:induction false} OneListing(rows: seq<LogRow>, listing: seq<LogRow>)
    requires OrderedListing(listing, multiset(rows))
    requires forall i | 0 <= i < |rows| :: rows[i].sequence == i
    ensures listing == rows
    decreases |rows|
  {
    if rows == [] {
      assert |multiset(listing)| == 0;
    } else {
      var n := |rows| - 1;
      LastRowComesLast(rows, listing);
      assert rows == rows[..n] + [rows[n]] && listing == listing[..n] + [rows[n]];
      SameWithoutLast(listing[..n], rows[..n], rows[n]);
      OneListing(rows[..n], listing[..n]);
    }
  }

  /** End to end: the pages of an execution whose only log rows are its worker's concatenate to exactly the lines it
      printed that carry no result, in order, however the database arranges the rows. */
  lemma PagesAreTheUserLines(id: nat, raw: Text, listing: seq<LogRow>) returns (at: seq<nat>)
    requires OrderedListing(listing, multiset(NumberedLogs(id, Entries(UserLines(SplitLines(raw))))))
    ensures |at| == |listing| && Places(at, |SplitLines(raw)|)
    ensures forall k | 0 <= k < |at| :: listing[k].entry.message == SplitLines(raw)[at[k]]
    ensures forall i | 0 <= i < |SplitLines(raw)| :: i in at <==> !(FromAscii("SOPM_RESULT:") <= SplitLines(raw)[i])
  {
    OneListing(NumberedLogs(id, Entries(UserLines(SplitLines(raw)))), listing);
    at := UserLinesAre(SplitLines(raw));
  }
}
