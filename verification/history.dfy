/**
  The first pass of the history loader. Every transaction of the executor account is decoded;
  it is kept only when the call it forwards goes to the timelock, and it is then shaped into a
  table row: governance calls get their `data` argument decoded, `eta` gets a relative-time
  label, and the row is fingerprinted by its parameters.
*/
module History {
  import opened Wrappers
  import opened Seqs
  import opened Text
  import Fingerprint

  /** The timelock contracts whose calls are kept, lower-cased. */
  const TimelockAddresses: seq<string> := [Lower("0xAFa2c40DF28768eaB8aDD6f2572B32A7F8c86a5E")]

  /** The timelock functions whose `data` argument is decoded a second time. */
  const SpecialFunctionNames: seq<string> := ["queueTransaction", "cancelTransaction", "executeTransaction"]

  /** Display names of known call targets, keyed by lower-cased address. */
  const TargetAddressNames: map<string, string> := map[
    "0xdb9daa0a50b33e4fe9d0ac16a1df1d335f96595e" := "Masterchef",
    "0x0309c98b1bffa350bcb3f9fb9780970ca32a5060" := "BDPI"]

  /** A decoded argument: its declared name and its value as the decoder renders it. */
  datatype Arg = Arg(name: string, value: string)

  /** A decoded call: the function name and its arguments in declaration order. */
  datatype Call = Call(name: string, args: seq<Arg>)

  /** One transaction of the executor account as the history provider returns it; `data` is the calldata. */
  datatype RawRecord = RawRecord(hash: string, from: string, blockNumber: int, timestamp: int, data: string)

  /**
    What the core calls but cannot see: the ABI decoder over every registered contract ABI
    (None where it knows no function for the selector), the positional decoder for an ad-hoc
    type list (None where it throws; the values rendered by `toString`), and the relative-time
    labels of an `eta` value and of a block timestamp. Each label is one function for the whole
    batch, so the clock is read once per batch here.
  */
  datatype Collaborators = Collaborators(
    decodeMethod: string -> Option<Call>,
    decodeData: (seq<string>, string) -> Option<seq<string>>,
    etaLabel: string -> string,
    timestampLabel: int -> string)

  /** A parameter after processing; `rawValue` is set on the re-decoded `data` argument only. */
  datatype Param = Param(name: string, value: string, rawValue: Option<string>)

  /** The target cell: a known contract's name, or the lower-cased address. */
  datatype Target = Named(name: string) | Address(address: string)

  /** One row of the history table, before correlation. */
  datatype Row = Row(
    hash: string,
    fingerprint: string,
    txType: string,
    to: string,
    timestamp: string,
    rawTarget: string,
    target: Target,
    value: string,
    signature: string,
    data: Option<string>,
    rawData: Option<string>,
    eta: string)

  /** Why the batch stops: every one of these is an exception that rejects the whole load. */
  datatype Failure =
    | UnknownCall      // the decoder returned nothing, and `.params` or `.name` of it was read
    | MissingArgument  // a parameter position that the call does not have was read
    | NoTypeList       // the signature has no "(", so `split("(")[1]` is undefined
    | UndecodableData  // the positional decoder threw on the data bytes

  /** `signature.split("(")[1].split(")")[0].split(",")`, or None where `[1]` is undefined. */
  function TypeList(signature: string): Option<seq<string>>
  {
    var byOpen := Split(signature, '(');
    if |byOpen| < 2 then None else Some(Split(Split(byOpen[1], ')')[0], ','))
  }

  /** `i` is the position of the first "(" of `s`. */
  predicate FirstOpen(s: string, i: int)
  {
    0 <= i < |s| && s[i] == '(' && '(' !in s[..i]
  }

  /** `args` starts `rest` and runs up to the first "(" or ")" of `rest`, or to its end. */
  predicate ArgumentText(rest: string, args: string)
  {
    |args| <= |rest| && rest[..|args|] == args && '(' !in args && ')' !in args &&
    (|args| == |rest| || rest[|args|] == '(' || rest[|args|] == ')')
  }

  /**
    The type list exists exactly when the signature has a "(". Its entries hold no comma, and
    joined with commas they give the text after the first "(" up to the next parenthesis.
  */
  lemma TypeListSpec(signature: string)
    ensures TypeList(signature).Some? <==> '(' in signature
    ensures TypeList(signature).Some? ==>
      var types := TypeList(signature).value;
      && |types| >= 1
      && (forall k :: 0 <= k < |types| ==> ',' !in types[k])
      && exists i :: FirstOpen(signature, i) && ArgumentText(signature[i + 1..], Join(types, ","))
  {
    var byOpen := Split(signature, '(');
    SplitCount(signature, '(');
    assert '(' in signature <==> multiset(signature)['('] > 0;
    if '(' in signature {
      var head := byOpen[0];
      SplitHead(signature, '(');
      var i := |head|;
      assert signature[..i] == head;
      SplitTail(signature, '(');
      var rest := signature[i + 1..];
      var a1 := byOpen[1];
      assert a1 == Split(rest, '(')[0];
      SplitHead(rest, '(');
      var inner := Split(a1, ')')[0];
      SplitHead(a1, ')');
      assert '(' !in inner by {
        assert inner == a1[..|inner|];
        forall j | 0 <= j < |inner| ensures inner[j] != '(' {
          assert inner[j] == a1[j];
        }
      }
      assert rest[..|inner|] == inner by {
        assert a1 == rest[..|a1|];
      }
      if |inner| < |a1| {
        assert rest[|inner|] == a1[|inner|];
      }
      JoinSplit(inner, ',');
      assert FirstOpen(signature, i);
      assert ArgumentText(rest, inner);
    }
  }

  /** A prototype `name(args)rest`: the type list is `args` split at its commas. */
  lemma TypeListOfPrototype(name: string, args: string, rest: string)
    requires '(' !in name && '(' !in args && ')' !in args
    ensures TypeList(name + ("(" + (args + (")" + rest)))) == Some(Split(args, ','))
  {
    var afterOpen := args + (")" + rest);
    SplitAtSeparator(name, afterOpen, '(');
    var tail := Split(rest, '(');
    FirstPieceOfArguments(args, rest);
    SplitAtSeparator(args, tail[0], ')');
  }

  lemma FirstPieceOfArguments(args: string, rest: string)
    requires '(' !in args
    ensures Split(args + (")" + rest), '(')[0] == args + (")" + Split(rest, '(')[0])
  {
    assert '(' !in args + ")";
    SplitPrefix(args + ")", rest, '(');
    assert args + ")" + rest == args + (")" + rest);
  }

  /** A prototype with two argument types. */
  lemma TypeListOfTwoArguments()
    ensures TypeList("f(a,b)") == Some(["a", "b"])
  {
    TypeListOfPrototype("f", "a,b", "");
    assert "f" + ("(" + ("a,b" + (")" + ""))) == "f(a,b)";
    SplitJoin(["a", "b"], ',');
    assert Join(["a", "b"], ",") == "a,b";
  }

  /** A prototype without arguments yields one empty type. */
  lemma TypeListOfNoArguments()
    ensures TypeList("f()") == Some([""])
  {
  }

  /** A signature without "(" has no type list. */
  lemma TypeListOfEmptySignature()
    ensures TypeList("") == None
  {
  }

  function Params(call: Call): seq<Param>
  {
    seq(|call.args|, i requires 0 <= i < |call.args| => Param(call.args[i].name, call.args[i].value, None))
  }

  /**
    For the three governance functions, `data` (position 3) is decoded against the types named
    in `signature` (position 2), shown as a bracketed list, and its raw bytes kept beside it.
    Every other call keeps its parameters as they are.
  */
  function DecodeGovernanceData(env: Collaborators, call: Call): Result<seq<Param>, Failure>
  {
    var ps := Params(call);
    if call.name !in SpecialFunctionNames then Ok(ps)
    else if |ps| < 4 then Err(MissingArgument)
    else
      match TypeList(ps[2].value)
      case None => Err(NoTypeList)
      case Some(types) =>
        match env.decodeData(types, ps[3].value)
        case None => Err(UndecodableData)
        case Some(values) =>
          Ok(ps[3 := ps[3].(value := "[" + Join(values, ", ") + "]", rawValue := Some(ps[3].value))])
  }

  /** Every parameter named `eta` gets its relative-time label appended in parentheses. */
  function LabelEta(env: Collaborators, ps: seq<Param>): seq<Param>
  {
    seq(|ps|, i requires 0 <= i < |ps| =>
      if ps[i].name == "eta" then ps[i].(value := ps[i].value + " (" + env.etaLabel(ps[i].value) + ")")
      else ps[i])
  }

  /** The `{k: name, v: value}` view of the parameters that the fingerprint serialises. */
  function Pairs(ps: seq<Param>): seq<Fingerprint.Pair>
  {
    seq(|ps|, i requires 0 <= i < |ps| => (ps[i].name, ps[i].value))
  }

  /** The target cell: the display name of a known target, otherwise the lower-cased address. */
  function TargetCell(rawTarget: string): (cell: Target)
    ensures cell.Named? <==> Lower(rawTarget) in TargetAddressNames
    ensures cell.Named? ==> cell.name == TargetAddressNames[Lower(rawTarget)]
    ensures cell.Address? ==> cell.address == Lower(rawTarget)
  {
    var t := Lower(rawTarget);
    if t in TargetAddressNames then Named(TargetAddressNames[t]) else Address(t)
  }

  /** The row built from processed parameters; positions 0 to 4 are target, value, signature, data, eta. */
  function RowOf(hash: string, txType: string, to: string, timestamp: string, ps: seq<Param>): Row
    requires |ps| >= 5
  {
    Row(hash := hash, fingerprint := Fingerprint.Stringify(Pairs(ps)), txType := txType, to := to,
        timestamp := timestamp, rawTarget := ps[0].value, target := TargetCell(ps[0].value),
        value := ps[1].value, signature := ps[2].value, data := Some(ps[3].value),
        rawData := ps[3].rawValue, eta := ps[4].value)
  }

  /** The outer call decodes and names a forwarding target. */
  predicate OuterDecodes(env: Collaborators, r: RawRecord)
  {
    env.decodeMethod(r.data).Some? && |env.decodeMethod(r.data).value.args| > 0
  }

  /** The outer call forwards to a timelock address (compared lower-cased). */
  predicate TargetsTimelock(env: Collaborators, r: RawRecord)
  {
    OuterDecodes(env, r) && Lower(env.decodeMethod(r.data).value.args[0].value) in TimelockAddresses
  }

  /**
    The decoded inner call of a timelock-bound record and its processed parameters, None for a
    record that does not go to the timelock.
  */
  function Process(env: Collaborators, r: RawRecord): Result<Option<(string, Call, seq<Param>)>, Failure>
  {
    match env.decodeMethod(r.data)
    case None => Err(UnknownCall)
    case Some(tx) =>
      if |tx.args| == 0 then Err(MissingArgument)
      else
        var to := Lower(tx.args[0].value);
        if to !in TimelockAddresses then Ok(None)
        else if |tx.args| < 3 then Err(MissingArgument)
        else
          match env.decodeMethod(tx.args[2].value)
          case None => Err(UnknownCall)
          case Some(inner) =>
            match DecodeGovernanceData(env, inner)
            case Err(e) => Err(e)
            case Ok(ps) => Ok(Some((to, inner, LabelEta(env, ps))))
  }

  /** One record of the first pass: a row, None for noise, or the failure that aborts the batch. */
  function ShapeRecord(env: Collaborators, r: RawRecord): Result<Option<Row>, Failure>
  {
    match Process(env, r)
    case Err(e) => Err(e)
    case Ok(None) => Ok(None)
    case Ok(Some((to, inner, ps))) =>
      if |ps| < 5 then Err(MissingArgument)
      else Ok(Some(RowOf(r.hash, inner.name, to, env.timestampLabel(r.timestamp), ps)))
  }

  /** The first pass over the batch, in input order; the first failing record rejects the batch. */
  function DecodeBatch(env: Collaborators, records: seq<RawRecord>): Result<seq<Row>, Failure>
  {
    if records == [] then Ok([])
    else
      match ShapeRecord(env, records[0])
      case Err(e) => Err(e)
      case Ok(head) =>
        match DecodeBatch(env, records[1..])
        case Err(e) => Err(e)
        case Ok(rows) => Ok((if head.Some? then [head.value] else []) + rows)
  }

  /** The keep condition of the first pass, as a value. */
  function Keep(env: Collaborators): RawRecord -> bool
  {
    r => TargetsTimelock(env, r)
  }

  /** The positions of the records that the first pass keeps. */
  function Kept(env: Collaborators, records: seq<RawRecord>): seq<nat>
  {
    Positions(Keep(env), records)
  }

  /** The argument names of the three governance functions of the timelock ABI. */
  predicate TimelockArgs(call: Call)
  {
    |call.args| == 5 &&
    call.args[0].name == "target" && call.args[1].name == "value" && call.args[2].name == "signature" &&
    call.args[3].name == "data" && call.args[4].name == "eta"
  }

  /**
    The noise filter: a record whose outer call does not decode aborts the batch; one that
    decodes is dropped exactly when its forwarded target, lower-cased, is not a timelock address;
    a kept record's row carries its hash and that timelock address.
  */
  lemma ShapeKeepsTimelockCalls(env: Collaborators, r: RawRecord)
    ensures !OuterDecodes(env, r) ==> ShapeRecord(env, r).Err?
    ensures OuterDecodes(env, r) && !TargetsTimelock(env, r) ==> ShapeRecord(env, r) == Ok(None)
    ensures TargetsTimelock(env, r) ==> ShapeRecord(env, r) != Ok(None)
    ensures ShapeRecord(env, r).Ok? && ShapeRecord(env, r).value.Some? ==>
      var row := ShapeRecord(env, r).value.value;
      && TargetsTimelock(env, r)
      && row.hash == r.hash
      && row.to == Lower(env.decodeMethod(r.data).value.args[0].value)
      && row.to in TimelockAddresses
  {
  }

  /**
    A governance call forwarded to the timelock: the batch aborts when the signature has no
    type list or the data bytes do not decode; otherwise the row shows the decoded values as a
    bracketed list, keeps the raw bytes, and labels the eta.
  */
  lemma ShapeGovernanceCall(env: Collaborators, r: RawRecord, tx: Call, inner: Call)
    requires env.decodeMethod(r.data) == Some(tx) && |tx.args| >= 3
    requires Lower(tx.args[0].value) in TimelockAddresses
    requires env.decodeMethod(tx.args[2].value) == Some(inner)
    requires inner.name in SpecialFunctionNames && TimelockArgs(inner)
    ensures TypeList(inner.args[2].value).None? ==> ShapeRecord(env, r) == Err(NoTypeList)
    ensures TypeList(inner.args[2].value).Some? ==>
      var types := TypeList(inner.args[2].value).value;
      match env.decodeData(types, inner.args[3].value)
      case None => ShapeRecord(env, r) == Err(UndecodableData)
      case Some(values) =>
        && ShapeRecord(env, r).Ok? && ShapeRecord(env, r).value.Some?
        && var row := ShapeRecord(env, r).value.value;
        && row.hash == r.hash
        && row.txType == inner.name
        && row.rawTarget == inner.args[0].value
        && row.value == inner.args[1].value
        && row.signature == inner.args[2].value
        && row.data == Some("[" + Join(values, ", ") + "]")
        && row.rawData == Some(inner.args[3].value)
        && row.eta == inner.args[4].value + " (" + env.etaLabel(inner.args[4].value) + ")"
  {
  }

  /**
    Any other call forwarded to the timelock is kept, not dropped, when it has the five
    positions the row reads, with its `data` position shown as decoded the first time and no
    raw bytes; with fewer positions, reading the missing one aborts the batch.
  */
  lemma ShapeOtherCall(env: Collaborators, r: RawRecord, tx: Call, inner: Call)
    requires env.decodeMethod(r.data) == Some(tx) && |tx.args| >= 3
    requires Lower(tx.args[0].value) in TimelockAddresses
    requires env.decodeMethod(tx.args[2].value) == Some(inner)
    requires inner.name !in SpecialFunctionNames
    ensures |inner.args| < 5 ==> ShapeRecord(env, r) == Err(MissingArgument)
    ensures |inner.args| >= 5 ==>
      && ShapeRecord(env, r).Ok? && ShapeRecord(env, r).value.Some?
      && var row := ShapeRecord(env, r).value.value;
      && row.txType == inner.name
      && row.rawData == None
      && (inner.args[2].name != "eta" ==> row.signature == inner.args[2].value)
      && (inner.args[3].name != "eta" ==> row.data == Some(inner.args[3].value))
  {
  }

  /**
    The fingerprint of a row depends on its processed parameters only, whatever its hash,
    function name or timestamp; and rows with equal fingerprints have equal parameters, so
    equal target, value, signature, data and eta.
  */
  lemma FingerprintIdentifiesParams(
    h1: string, n1: string, to1: string, t1: string, ps1: seq<Param>,
    h2: string, n2: string, to2: string, t2: string, ps2: seq<Param>)
    requires |ps1| >= 5 && |ps2| >= 5
    ensures RowOf(h1, n1, to1, t1, ps1).fingerprint == RowOf(h2, n2, to2, t2, ps2).fingerprint
            <==> Pairs(ps1) == Pairs(ps2)
    ensures RowOf(h1, n1, to1, t1, ps1).fingerprint == RowOf(h2, n2, to2, t2, ps2).fingerprint ==>
      var row1, row2 := RowOf(h1, n1, to1, t1, ps1), RowOf(h2, n2, to2, t2, ps2);
      && row1.rawTarget == row2.rawTarget && row1.value == row2.value
      && row1.signature == row2.signature && row1.data == row2.data && row1.eta == row2.eta
  {
    Fingerprint.StringifyInjective(Pairs(ps1), Pairs(ps2));
    if Pairs(ps1) == Pairs(ps2) {
      assert forall i :: 0 <= i < 5 ==> Pairs(ps1)[i].1 == ps1[i].value && Pairs(ps2)[i].1 == ps2[i].value;
    }
  }

  /** The same, for two records of the batch: equal fingerprints exactly when equal processed parameters. */
  lemma SameFingerprintSameAction(env: Collaborators, r1: RawRecord, r2: RawRecord)
    requires ShapeRecord(env, r1).Ok? && ShapeRecord(env, r1).value.Some?
    requires ShapeRecord(env, r2).Ok? && ShapeRecord(env, r2).value.Some?
    ensures Process(env, r1).Ok? && Process(env, r1).value.Some?
    ensures Process(env, r2).Ok? && Process(env, r2).value.Some?
    ensures var row1, row2 := ShapeRecord(env, r1).value.value, ShapeRecord(env, r2).value.value;
      && (row1.fingerprint == row2.fingerprint <==>
            Pairs(Process(env, r1).value.value.2) == Pairs(Process(env, r2).value.value.2))
      && (row1.fingerprint == row2.fingerprint ==>
            row1.rawTarget == row2.rawTarget && row1.value == row2.value &&
            row1.signature == row2.signature && row1.data == row2.data && row1.eta == row2.eta)
  {
    var (to1, c1, ps1) := Process(env, r1).value.value;
    var (to2, c2, ps2) := Process(env, r2).value.value;
    FingerprintIdentifiesParams(r1.hash, c1.name, to1, env.timestampLabel(r1.timestamp), ps1,
                                r2.hash, c2.name, to2, env.timestampLabel(r2.timestamp), ps2);
  }

  /**
    There is no per-record recovery: the batch fails exactly when some record fails, and then
    with the failure of the first failing record.
  */
  lemma {:induction false} DecodeBatchFails(env: Collaborators, records: seq<RawRecord>)
    ensures DecodeBatch(env, records).Err? <==>
      exists i :: 0 <= i < |records| && ShapeRecord(env, records[i]).Err?
    ensures DecodeBatch(env, records).Err? ==>
      exists i :: 0 <= i < |records| && ShapeRecord(env, records[i]) == Err(DecodeBatch(env, records).error) &&
        forall j :: 0 <= j < i ==> ShapeRecord(env, records[j]).Ok?
  {
    if records != [] {
      DecodeBatchFails(env, records[1..]);
      assert forall i :: 1 <= i < |records| ==> records[i] == records[1..][i - 1];
      if ShapeRecord(env, records[0]).Ok? && DecodeBatch(env, records[1..]).Err? {
        var i :| 0 <= i < |records[1..]| && ShapeRecord(env, records[1..][i]) == Err(DecodeBatch(env, records[1..]).error) &&
          forall j :: 0 <= j < i ==> ShapeRecord(env, records[1..][j]).Ok?;
        assert ShapeRecord(env, records[i + 1]) == Err(DecodeBatch(env, records).error);
        assert forall j :: 0 <= j < i + 1 ==> ShapeRecord(env, records[j]).Ok? by {
          assert forall j :: 1 <= j < i + 1 ==> records[j] == records[1..][j - 1];
        }
      }
      if exists i :: 0 <= i < |records| && ShapeRecord(env, records[i]).Err? {
        var i :| 0 <= i < |records| && ShapeRecord(env, records[i]).Err?;
        if i > 0 {
          assert ShapeRecord(env, records[1..][i - 1]).Err?;
        }
      }
    }
  }

  /** A successful batch holds, in order, the rows of the records that the keep condition selects. */
  lemma {:induction false} DecodeBatchFilters(env: Collaborators, records: seq<RawRecord>)
    requires DecodeBatch(env, records).Ok?
    ensures |DecodeBatch(env, records).value| == |Filter(Keep(env), records)|
    ensures forall k :: 0 <= k < |Filter(Keep(env), records)| ==>
      ShapeRecord(env, Filter(Keep(env), records)[k]) == Ok(Some(DecodeBatch(env, records).value[k]))
  {
    if records != [] {
      var r := records[0];
      DecodeBatchFilters(env, records[1..]);
      ShapeKeepsTimelockCalls(env, r);
      var rows, rest := DecodeBatch(env, records).value, DecodeBatch(env, records[1..]).value;
      var kept, keptRest := Filter(Keep(env), records), Filter(Keep(env), records[1..]);
      assert Keep(env)(r) == TargetsTimelock(env, r);
      if TargetsTimelock(env, r) {
        assert rows == [ShapeRecord(env, r).value.value] + rest;
        assert kept == [r] + keptRest;
        assert forall k :: 1 <= k < |kept| ==> kept[k] == keptRest[k - 1] && rows[k] == rest[k - 1];
      } else {
        assert rows == rest && kept == keptRest;
      }
    }
  }

  /**
    A successful batch keeps exactly the records that go to the timelock, in their input order:
    row `k` is the row of the record at position `Kept[k]`, and the positions increase.
  */
  lemma DecodeBatchKeepsOrder(env: Collaborators, records: seq<RawRecord>)
    requires DecodeBatch(env, records).Ok?
    ensures |DecodeBatch(env, records).value| == |Kept(env, records)|
    ensures Increasing(Kept(env, records))
    ensures forall k :: 0 <= k < |Kept(env, records)| ==>
      Kept(env, records)[k] < |records| &&
      ShapeRecord(env, records[Kept(env, records)[k]]) == Ok(Some(DecodeBatch(env, records).value[k]))
    ensures forall i :: 0 <= i < |records| ==> (i in Kept(env, records) <==> TargetsTimelock(env, records[i]))
  {
    DecodeBatchFilters(env, records);
    FilterIsSubsequence(Keep(env), records);
  }

  /** The target lookup ignores the case of the address: an address and its lower case get the same cell. */
  lemma TargetCellIgnoresCase(rawTarget: string)
    ensures TargetCell(rawTarget) == TargetCell(Lower(rawTarget))
  {
    LowerIdempotent(rawTarget);
  }

  /** The two known targets are shown by their own names, whatever the case of the address. */
  lemma KnownTargetsNamed(rawTarget: string)
    ensures Lower(rawTarget) == "0xdb9daa0a50b33e4fe9d0ac16a1df1d335f96595e" ==> TargetCell(rawTarget) == Named("Masterchef")
    ensures Lower(rawTarget) == "0x0309c98b1bffa350bcb3f9fb9780970ca32a5060" ==> TargetCell(rawTarget) == Named("BDPI")
  {
  }
}
