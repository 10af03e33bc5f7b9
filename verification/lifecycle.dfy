/**
  Correlation of a batch of timelock rows, newest first: the fingerprint-to-hash map of the
  rows that are not queue transactions, the fingerprint lists of the executed and the
  cancelled rows, the status every queue row is given, and the numbering of the rows.
*/
module Lifecycle {
  import opened Wrappers
  import opened Seqs
  import opened Text
  import opened History

  /** Kinds of row, compared after lower-casing the function name. */
  predicate IsQueue(row: Row)
  {
    Lower(row.txType) == "queuetransaction"
  }

  predicate IsExecute(row: Row)
  {
    Lower(row.txType) == "executetransaction"
  }

  predicate IsCancel(row: Row)
  {
    Lower(row.txType) == "canceltransaction"
  }

  const NotQueued: Row -> bool := row => !IsQueue(row)
  const Executes: Row -> bool := row => IsExecute(row)
  const Cancels: Row -> bool := row => IsCancel(row)

  /**
    The reduction that builds the map: each row's entry is spread UNDER the accumulator, so a
    fingerprint already present keeps its hash.
  */
  function Fold(acc: map<string, string>, rows: seq<Row>): map<string, string>
    decreases |rows|
  {
    if rows == [] then acc
    else Fold(map[rows[0].fingerprint := rows[0].hash] + acc, rows[1..])
  }

  /** Fingerprint to hash, over the rows that are not queue transactions. */
  function NonQueuedKV(rows: seq<Row>): map<string, string>
  {
    Fold(map[], Filter(NotQueued, rows))
  }

  /** Row `i` is the first non-queue row of the batch with its fingerprint. */
  predicate FirstOfItsFingerprint(rows: seq<Row>, i: int)
    requires 0 <= i < |rows|
  {
    forall j :: 0 <= j < i && !IsQueue(rows[j]) ==> rows[j].fingerprint != rows[i].fingerprint
  }

  /** Some non-queue row of the batch has fingerprint `k`. */
  predicate HasNonQueued(rows: seq<Row>, k: string)
  {
    exists i :: 0 <= i < |rows| && !IsQueue(rows[i]) && rows[i].fingerprint == k
  }

  /** Some row of `xs` has fingerprint `k`. */
  predicate HasFingerprint(xs: seq<Row>, k: string)
  {
    exists i :: 0 <= i < |xs| && xs[i].fingerprint == k
  }

  /** No row of `xs` before position `i` has the fingerprint of row `i`. */
  predicate FirstIn(xs: seq<Row>, i: int)
    requires 0 <= i < |xs|
  {
    forall j :: 0 <= j < i ==> xs[j].fingerprint != xs[i].fingerprint
  }

  /**
    The fold keeps every key of the accumulator with its value, adds a key for each row, and
    maps a new key to the hash of the first row that has it.
  */
  lemma {:induction false} FoldFirstWins(acc: map<string, string>, xs: seq<Row>)
    ensures forall k :: k in Fold(acc, xs) <==> k in acc || HasFingerprint(xs, k)
    ensures forall k :: k in acc ==> Fold(acc, xs)[k] == acc[k]
    ensures forall i :: 0 <= i < |xs| && xs[i].fingerprint !in acc && FirstIn(xs, i) ==>
      xs[i].fingerprint in Fold(acc, xs) && Fold(acc, xs)[xs[i].fingerprint] == xs[i].hash
    decreases |xs|
  {
    if xs != [] {
      var x, tail := xs[0], xs[1..];
      var acc' := map[x.fingerprint := x.hash] + acc;
      FoldFirstWins(acc', tail);
      assert HasFingerprint(xs, x.fingerprint);
      forall k | HasFingerprint(xs, k) ensures k in acc' || HasFingerprint(tail, k) {
        var i :| 0 <= i < |xs| && xs[i].fingerprint == k;
        if i > 0 {
          assert tail[i - 1] == xs[i];
        }
      }
      forall k | HasFingerprint(tail, k) ensures HasFingerprint(xs, k) {
        var i :| 0 <= i < |tail| && tail[i].fingerprint == k;
        assert xs[i + 1] == tail[i];
      }
      forall i | 1 <= i < |xs| && xs[i].fingerprint !in acc && FirstIn(xs, i)
        ensures xs[i].fingerprint !in acc' && FirstIn(tail, i - 1)
      {
        assert xs[0].fingerprint != xs[i].fingerprint;
        forall j | 0 <= j < i - 1 ensures tail[j].fingerprint != tail[i - 1].fingerprint {
          assert tail[j] == xs[j + 1];
        }
      }
    }
  }

  /** The non-queue rows, as `Filter` lists them, have the fingerprints and first occurrences of the batch's non-queue rows. */
  lemma NonQueuedRows(rows: seq<Row>)
    ensures forall k :: HasFingerprint(Filter(NotQueued, rows), k) <==> HasNonQueued(rows, k)
    ensures forall i :: 0 <= i < |rows| && !IsQueue(rows[i]) && FirstOfItsFingerprint(rows, i) ==>
      exists m :: 0 <= m < |Filter(NotQueued, rows)| && Filter(NotQueued, rows)[m] == rows[i] &&
        FirstIn(Filter(NotQueued, rows), m)
  {
    var f, ps := Filter(NotQueued, rows), Positions(NotQueued, rows);
    FilterIsSubsequence(NotQueued, rows);
    forall k | HasFingerprint(f, k) ensures HasNonQueued(rows, k) {
      var m :| 0 <= m < |f| && f[m].fingerprint == k;
      assert NotQueued(rows[ps[m]]) by {
        assert ps[m] in ps;
      }
    }
    forall k | HasNonQueued(rows, k) ensures HasFingerprint(f, k) {
      var i :| 0 <= i < |rows| && !IsQueue(rows[i]) && rows[i].fingerprint == k;
      assert NotQueued(rows[i]);
      var m :| 0 <= m < |ps| && ps[m] == i;
      assert f[m].fingerprint == k;
    }
    forall i | 0 <= i < |rows| && !IsQueue(rows[i]) && FirstOfItsFingerprint(rows, i)
      ensures exists m :: 0 <= m < |f| && f[m] == rows[i] && FirstIn(f, m)
    {
      assert NotQueued(rows[i]);
      var m :| 0 <= m < |ps| && ps[m] == i;
      forall j | 0 <= j < m ensures f[j].fingerprint != f[m].fingerprint {
        assert ps[j] < ps[m];
        assert NotQueued(rows[ps[j]]) by {
          assert ps[j] in ps;
        }
      }
      assert f[m] == rows[i];
    }
  }

  /**
    The map has a key for exactly the fingerprints of the non-queue rows, and each key holds
    the hash of the first such row in the batch: with the batch newest first, the latest one.
  */
  lemma NonQueuedKVFirstWins(rows: seq<Row>)
    ensures forall k :: k in NonQueuedKV(rows) <==> HasNonQueued(rows, k)
    ensures forall i :: 0 <= i < |rows| && !IsQueue(rows[i]) && FirstOfItsFingerprint(rows, i) ==>
      rows[i].fingerprint in NonQueuedKV(rows) && NonQueuedKV(rows)[rows[i].fingerprint] == rows[i].hash
  {
    var f := Filter(NotQueued, rows);
    FoldFirstWins(map[], f);
    NonQueuedRows(rows);
  }

  /** A cancel or execute row is never a queue row. */
  lemma TerminatorIsNotQueue(row: Row)
    ensures IsCancel(row) || IsExecute(row) ==> !IsQueue(row)
  {
    if IsCancel(row) || IsExecute(row) {
      assert Lower(row.txType)[0] != 'q';
    }
  }

  /** Every fingerprint of a cancel or an execute row is a key of the map. */
  lemma TerminatorsAreKeys(rows: seq<Row>)
    ensures forall i :: 0 <= i < |rows| && (IsCancel(rows[i]) || IsExecute(rows[i])) ==>
      rows[i].fingerprint in NonQueuedKV(rows)
  {
    NonQueuedKVFirstWins(rows);
    forall i | 0 <= i < |rows| && (IsCancel(rows[i]) || IsExecute(rows[i]))
      ensures HasNonQueued(rows, rows[i].fingerprint)
    {
      TerminatorIsNotQueue(rows[i]);
    }
  }

  /**
    The three governance function names are recognised as the three kinds of row, whatever
    the case of the name the decoder reports.
  */
  lemma GovernanceKinds(row: Row)
    ensures Lower(row.txType) == Lower(SpecialFunctionNames[0]) <==> IsQueue(row)
    ensures Lower(row.txType) == Lower(SpecialFunctionNames[1]) <==> IsCancel(row)
    ensures Lower(row.txType) == Lower(SpecialFunctionNames[2]) <==> IsExecute(row)
  {
    assert Lower("queueTransaction") == "queuetransaction";
    assert Lower("cancelTransaction") == "canceltransaction";
    assert Lower("executeTransaction") == "executetransaction";
  }

  /** The fingerprints of the rows that satisfy `p`, in order: `rows.filter(p).map(x => x.decodedFunctionRaw)`. */
  function FingerprintsOf(p: Row -> bool, rows: seq<Row>): (fps: seq<string>)
    ensures forall k :: k in fps <==> exists i :: 0 <= i < |rows| && p(rows[i]) && rows[i].fingerprint == k
  {
    var kept := Filter(p, rows);
    var fps := seq(|kept|, j requires 0 <= j < |kept| => kept[j].fingerprint);
    assert forall k :: k in fps ==> exists i :: 0 <= i < |rows| && p(rows[i]) && rows[i].fingerprint == k by {
      forall k | k in fps ensures exists i :: 0 <= i < |rows| && p(rows[i]) && rows[i].fingerprint == k {
        var j :| 0 <= j < |kept| && fps[j] == k;
        assert kept[j] in rows;
      }
    }
    assert forall i :: 0 <= i < |rows| && p(rows[i]) ==> rows[i].fingerprint in fps by {
      forall i | 0 <= i < |rows| && p(rows[i]) ensures rows[i].fingerprint in fps {
        var j :| 0 <= j < |kept| && kept[j] == rows[i];
        assert fps[j] == rows[i].fingerprint;
      }
    }
    fps
  }

  function ExecutedFingerprints(rows: seq<Row>): seq<string>
  {
    FingerprintsOf(Executes, rows)
  }

  function CancelledFingerprints(rows: seq<Row>): seq<string>
  {
    FingerprintsOf(Cancels, rows)
  }

  /** The status dot of a queue row; the link is the map entry for its fingerprint, when there is one. */
  datatype Status = Cancelled(link: Option<string>) | Executed(link: Option<string>) | Queued

  /** A row of the table: its position, the status of a queue row, and the row itself. */
  datatype Entry = Entry(index: nat, queue: Option<Status>, row: Row)

  function Lookup(kv: map<string, string>, k: string): Option<string>
  {
    if k in kv then Some(kv[k]) else None
  }

  /** Cancelled takes precedence over executed; a queue row with neither stays queued. */
  function StatusOf(kv: map<string, string>, executed: seq<string>, cancelled: seq<string>, row: Row): Option<Status>
  {
    if !IsQueue(row) then None
    else if row.fingerprint in cancelled then Some(Cancelled(Lookup(kv, row.fingerprint)))
    else if row.fingerprint in executed then Some(Executed(Lookup(kv, row.fingerprint)))
    else Some(Queued)
  }

  /** The table of a batch: one entry per row, numbered from 0 in batch order, the row unchanged. */
  function Correlate(rows: seq<Row>): (entries: seq<Entry>)
    ensures |entries| == |rows|
    ensures forall i :: 0 <= i < |rows| ==> entries[i].index == i && entries[i].row == rows[i]
  {
    var kv, executed, cancelled := NonQueuedKV(rows), ExecutedFingerprints(rows), CancelledFingerprints(rows);
    seq(|rows|, i requires 0 <= i < |rows| => Entry(i, StatusOf(kv, executed, cancelled, rows[i]), rows[i]))
  }

  /** Some row of the batch satisfies `p` and has the fingerprint of row `i`. */
  predicate Witnessed(p: Row -> bool, rows: seq<Row>, i: int)
    requires 0 <= i < |rows|
  {
    exists j :: 0 <= j < |rows| && p(rows[j]) && rows[j].fingerprint == rows[i].fingerprint
  }

  /** The hash the map holds for row `i`'s fingerprint: that of the first non-queue row with it. */
  predicate LinksFirst(rows: seq<Row>, i: int, link: Option<string>)
    requires 0 <= i < |rows|
  {
    exists j :: 0 <= j < |rows| && !IsQueue(rows[j]) && rows[j].fingerprint == rows[i].fingerprint &&
      FirstOfItsFingerprint(rows, j) && link == Some(rows[j].hash)
  }

  /** Every non-queue row has a first non-queue row with its fingerprint, at or before it. */
  lemma {:induction false} FirstNonQueued(rows: seq<Row>, i: int) returns (j: int)
    requires 0 <= i < |rows| && !IsQueue(rows[i])
    ensures 0 <= j <= i && !IsQueue(rows[j]) && rows[j].fingerprint == rows[i].fingerprint
    ensures FirstOfItsFingerprint(rows, j)
    decreases i
  {
    if FirstOfItsFingerprint(rows, i) {
      j := i;
    } else {
      var j0 :| 0 <= j0 < i && !IsQueue(rows[j0]) && rows[j0].fingerprint == rows[i].fingerprint;
      j := FirstNonQueued(rows, j0);
    }
  }

  /** Entry `i` carries the status of row `i` computed against the whole batch. */
  lemma EntryStatus(rows: seq<Row>, i: int)
    requires 0 <= i < |rows|
    ensures Correlate(rows)[i].queue ==
      StatusOf(NonQueuedKV(rows), ExecutedFingerprints(rows), CancelledFingerprints(rows), rows[i])
  {
  }

  /**
    The status of every entry. Only queue rows get one. A queue row whose action some cancel
    row carries is Cancelled; otherwise, one whose action some execute row carries is
    Executed; otherwise it is Queued.
  */
  lemma CorrelateStatus(rows: seq<Row>, i: int)
    requires 0 <= i < |rows|
    ensures Correlate(rows)[i].queue.None? <==> !IsQueue(rows[i])
    ensures Correlate(rows)[i].queue.Some? && Correlate(rows)[i].queue.value.Cancelled? <==>
      IsQueue(rows[i]) && Witnessed(Cancels, rows, i)
    ensures Correlate(rows)[i].queue.Some? && Correlate(rows)[i].queue.value.Executed? <==>
      IsQueue(rows[i]) && !Witnessed(Cancels, rows, i) && Witnessed(Executes, rows, i)
    ensures Correlate(rows)[i].queue == Some(Queued) <==>
      IsQueue(rows[i]) && !Witnessed(Cancels, rows, i) && !Witnessed(Executes, rows, i)
  {
    EntryStatus(rows, i);
    assert rows[i].fingerprint in CancelledFingerprints(rows) <==> Witnessed(Cancels, rows, i);
    assert rows[i].fingerprint in ExecutedFingerprints(rows) <==> Witnessed(Executes, rows, i);
  }

  /**
    A Cancelled or Executed status always links to a hash: that of the first non-queue row of
    the batch with the same fingerprint, which need not be the row that decided the status.
  */
  lemma CorrelateLink(rows: seq<Row>, i: int)
    requires 0 <= i < |rows|
    ensures Correlate(rows)[i].queue.Some? && !Correlate(rows)[i].queue.value.Queued? ==>
      LinksFirst(rows, i, Correlate(rows)[i].queue.value.link)
  {
    EntryStatus(rows, i);
    var row := rows[i];
    if Correlate(rows)[i].queue.Some? && !Correlate(rows)[i].queue.value.Queued? {
      assert row.fingerprint in CancelledFingerprints(rows) || row.fingerprint in ExecutedFingerprints(rows);
      var t :| 0 <= t < |rows| && (IsCancel(rows[t]) || IsExecute(rows[t])) && rows[t].fingerprint == row.fingerprint;
      var j := FirstNonQueued(rows, t);
      NonQueuedKVFirstWins(rows);
      assert Lookup(NonQueuedKV(rows), row.fingerprint) == Some(rows[j].hash);
    }
  }

  /** Two queue rows that carry the same action always show the same status. */
  lemma SameActionSameStatus(rows: seq<Row>, i: int, j: int)
    requires 0 <= i < |rows| && 0 <= j < |rows|
    requires IsQueue(rows[i]) && IsQueue(rows[j]) && rows[i].fingerprint == rows[j].fingerprint
    ensures Correlate(rows)[i].queue == Correlate(rows)[j].queue
  {
  }

  /**
    Newest first: an execution, a cancellation, then the queueing of one action. The queue row
    is Cancelled, since cancellation wins, and its link is the execution's hash, since the
    execution is the first non-queue row with that fingerprint.
  */
  lemma ExecutedAfterCancelShowsCancelled(e: Row, c: Row, q: Row)
    requires IsExecute(e) && IsCancel(c) && IsQueue(q)
    requires e.fingerprint == c.fingerprint == q.fingerprint
    ensures Correlate([e, c, q])[2].queue == Some(Cancelled(Some(e.hash)))
  {
    var rows := [e, c, q];
    CorrelateStatus(rows, 2);
    CorrelateLink(rows, 2);
    assert Witnessed(Cancels, rows, 2) by {
      assert Cancels(rows[1]);
    }
    var j :| 0 <= j < |rows| && !IsQueue(rows[j]) && rows[j].fingerprint == q.fingerprint &&
      FirstOfItsFingerprint(rows, j) && Correlate(rows)[2].queue.value.link == Some(rows[j].hash);
    TerminatorIsNotQueue(e);
    assert j == 0;
  }

  /**
    Newest first: a cancellation, another cancellation of the same action, then its queueing.
    The link is the newer cancellation's hash.
  */
  lemma LinkIsLatestCancel(c1: Row, c2: Row, q: Row)
    requires IsCancel(c1) && IsCancel(c2) && IsQueue(q)
    requires c1.fingerprint == c2.fingerprint == q.fingerprint
    ensures Correlate([c1, c2, q])[2].queue == Some(Cancelled(Some(c1.hash)))
  {
    var rows := [c1, c2, q];
    CorrelateStatus(rows, 2);
    CorrelateLink(rows, 2);
    assert Witnessed(Cancels, rows, 2) by {
      assert Cancels(rows[0]);
    }
    var j :| 0 <= j < |rows| && !IsQueue(rows[j]) && rows[j].fingerprint == q.fingerprint &&
      FirstOfItsFingerprint(rows, j) && Correlate(rows)[2].queue.value.link == Some(rows[j].hash);
    TerminatorIsNotQueue(c1);
    assert j == 0;
  }

  /**
    The whole history: the fetched list, oldest first, reversed to newest first, decoded and
    filtered, then correlated and numbered.
  */
  function GetHistory(env: Collaborators, fetched: seq<RawRecord>): Result<seq<Entry>, Failure>
  {
    match DecodeBatch(env, Reverse(fetched))
    case Err(e) => Err(e)
    case Ok(rows) => Ok(Correlate(rows))
  }

  /**
    The history fails exactly when some fetched record fails to shape; otherwise entry `k` is
    numbered `k` and holds the row of the `k`-th record, newest first, that goes to the timelock.
  */
  lemma GetHistoryRows(env: Collaborators, fetched: seq<RawRecord>)
    ensures GetHistory(env, fetched).Err? <==> exists i :: 0 <= i < |fetched| && ShapeRecord(env, fetched[i]).Err?
    ensures GetHistory(env, fetched).Ok? ==>
      var newest, entries := Reverse(fetched), GetHistory(env, fetched).value;
      && |entries| == |Kept(env, newest)|
      && forall k :: 0 <= k < |entries| ==>
           entries[k].index == k && Kept(env, newest)[k] < |newest| &&
           ShapeRecord(env, newest[Kept(env, newest)[k]]) == Ok(Some(entries[k].row))
  {
    var newest := Reverse(fetched);
    DecodeBatchFails(env, newest);
    if exists i :: 0 <= i < |fetched| && ShapeRecord(env, fetched[i]).Err? {
      var i :| 0 <= i < |fetched| && ShapeRecord(env, fetched[i]).Err?;
      assert newest[|fetched| - 1 - i] == fetched[i];
    }
    if exists i :: 0 <= i < |newest| && ShapeRecord(env, newest[i]).Err? {
      var i :| 0 <= i < |newest| && ShapeRecord(env, newest[i]).Err?;
      assert newest[i] == fetched[|fetched| - 1 - i];
    }
    if DecodeBatch(env, newest).Ok? {
      DecodeBatchKeepsOrder(env, newest);
    }
  }
}
