/**
  The table the page renders from the numbered history: two checkboxes swap the decoded data
  and the named target for their raw forms, and two text filters keep the rows whose
  signature and function name contain them, ignoring case.
*/
module TableView {
  import opened Wrappers
  import opened Seqs
  import opened Text
  import opened History
  import opened Lifecycle

  /** An entry as shown: raw data bytes in the data cell and the raw address in the target cell when asked. */
  function ShowRaw(e: Entry, showRawData: bool, showRawTarget: bool): (shown: Entry)
    ensures shown.row.data == (if showRawData then e.row.rawData else e.row.data)
    ensures shown.row.target == (if showRawTarget then Address(e.row.rawTarget) else e.row.target)
    ensures shown.(row := shown.row.(data := e.row.data, target := e.row.target)) == e
  {
    var e1 := if showRawData then e.(row := e.row.(data := e.row.rawData)) else e;
    if showRawTarget then e1.(row := e1.row.(target := Address(e.row.rawTarget))) else e1
  }

  /** The filter on one row: each non-empty filter must occur, lower-cased, in the lower-cased cell. */
  function Passes(e: Entry, signatureFilter: string, txTypeFilter: string): bool
  {
    var passed := if signatureFilter != "" then Includes(Lower(e.row.signature), Lower(signatureFilter)) else true;
    if txTypeFilter != "" then passed && Includes(Lower(e.row.txType), Lower(txTypeFilter)) else passed
  }

  function PassesFilters(signatureFilter: string, txTypeFilter: string): Entry -> bool
  {
    e => Passes(e, signatureFilter, txTypeFilter)
  }

  /** Every entry of the history, as shown. */
  function Shown(history: seq<Entry>, showRawData: bool, showRawTarget: bool): (shown: seq<Entry>)
    ensures |shown| == |history|
  {
    seq(|history|, i requires 0 <= i < |history| => ShowRaw(history[i], showRawData, showRawTarget))
  }

  /** The rows of the table: the shown entries that pass the filters. */
  function Visible(history: seq<Entry>, showRawData: bool, showRawTarget: bool,
                   signatureFilter: string, txTypeFilter: string): seq<Entry>
  {
    Filter(PassesFilters(signatureFilter, txTypeFilter), Shown(history, showRawData, showRawTarget))
  }

  /** `sub` occurs in `s` once both are lower-cased. */
  ghost predicate Contains(s: string, sub: string)
  {
    exists i :: OccursAt(Lower(s), Lower(sub), i)
  }

  /**
    A row passes exactly when the signature filter is empty or occurs in its signature, and the
    function filter is empty or occurs in its function name, both ignoring case.
  */
  lemma PassesIff(e: Entry, signatureFilter: string, txTypeFilter: string)
    ensures Passes(e, signatureFilter, txTypeFilter) <==>
      (signatureFilter == "" || Contains(e.row.signature, signatureFilter)) &&
      (txTypeFilter == "" || Contains(e.row.txType, txTypeFilter))
  {
    IncludesIff(Lower(e.row.signature), Lower(signatureFilter));
    IncludesIff(Lower(e.row.txType), Lower(txTypeFilter));
  }

  /** The filters ignore case: a filter and its lower-case form select the same rows. */
  lemma FiltersIgnoreCase(e: Entry, signatureFilter: string, txTypeFilter: string)
    ensures Passes(e, signatureFilter, txTypeFilter) == Passes(e, Lower(signatureFilter), Lower(txTypeFilter))
  {
    LowerIdempotent(signatureFilter);
    LowerIdempotent(txTypeFilter);
  }

  lemma LowerAppend(a: string, b: string)
    ensures Lower(a + b) == Lower(a) + Lower(b)
  {
  }

  /** Typing more characters into a filter never brings a row back. */
  lemma {:induction false} LongerFilterNarrows(e: Entry, signatureFilter: string, txTypeFilter: string, more: string, moreType: string)
    requires Passes(e, signatureFilter + more, txTypeFilter + moreType)
    ensures Passes(e, signatureFilter, txTypeFilter)
  {
    PassesIff(e, signatureFilter + more, txTypeFilter + moreType);
    PassesIff(e, signatureFilter, txTypeFilter);
    LowerAppend(signatureFilter, more);
    LowerAppend(txTypeFilter, moreType);
    if signatureFilter != "" {
      var i :| OccursAt(Lower(e.row.signature), Lower(signatureFilter + more), i);
      assert Lower(e.row.signature)[i..i + |signatureFilter|] == Lower(signatureFilter + more)[..|signatureFilter|];
      assert OccursAt(Lower(e.row.signature), Lower(signatureFilter), i);
    }
    if txTypeFilter != "" {
      var i :| OccursAt(Lower(e.row.txType), Lower(txTypeFilter + moreType), i);
      assert Lower(e.row.txType)[i..i + |txTypeFilter|] == Lower(txTypeFilter + moreType)[..|txTypeFilter|];
      assert OccursAt(Lower(e.row.txType), Lower(txTypeFilter), i);
    }
  }

  /**
    The table is the subsequence of the history, in order, at the positions of the entries that
    pass the filters, each shown with the toggles applied; which positions these are does not
    depend on the toggles.
  */
  lemma {:induction false} VisibleIsFilteredHistory(history: seq<Entry>, showRawData: bool, showRawTarget: bool,
                                                    signatureFilter: string, txTypeFilter: string)
    ensures var visible, at := Visible(history, showRawData, showRawTarget, signatureFilter, txTypeFilter),
                               Positions(PassesFilters(signatureFilter, txTypeFilter), history);
      && |visible| == |at|
      && Increasing(at)
      && (forall k :: 0 <= k < |at| ==> at[k] < |history| && visible[k] == ShowRaw(history[at[k]], showRawData, showRawTarget))
      && (forall i :: 0 <= i < |history| ==> (i in at <==> Passes(history[i], signatureFilter, txTypeFilter)))
  {
    var pass := PassesFilters(signatureFilter, txTypeFilter);
    var shown := Shown(history, showRawData, showRawTarget);
    PositionsPointwise(pass, shown, pass, history);
    FilterIsSubsequence(pass, shown);
    FilterIsSubsequence(pass, history);
  }

  /** With both filters empty, the table shows every entry of the history. */
  lemma NoFilterShowsAll(history: seq<Entry>, showRawData: bool, showRawTarget: bool)
    ensures Visible(history, showRawData, showRawTarget, "", "") == Shown(history, showRawData, showRawTarget)
  {
    FilterAll(PassesFilters("", ""), Shown(history, showRawData, showRawTarget));
  }

  /** Turning both toggles off shows the history as it is. */
  lemma TogglesOffShowHistory(history: seq<Entry>)
    ensures Shown(history, false, false) == history
  {
  }

  /** Case is ignored on both sides: the filter "QUEUE" keeps a `queueTransaction` row. */
  lemma UpperCaseFilterMatches(e: Entry)
    requires e.row.txType == "queueTransaction"
    ensures Passes(e, "", "QUEUE")
  {
    assert Lower("QUEUE") == "queue";
    assert Lower(e.row.txType)[0..5] == "queue";
    assert OccursAt(Lower(e.row.txType), Lower("QUEUE"), 0);
    PassesIff(e, "", "QUEUE");
  }
}
