/**
 * The ledger build: every configured account, every file of the account,
 * every row of the file, tagged with the account name and with `Amount`
 * sign-normalised, concatenated into one ledger (src/build.ts).
 */
module Ledger {
  import opened Seqs

  /** The `type` of an account: it decides the sign convention of `Amount`. */
  datatype AccountType = Debit | Credit

  /** An account as declared in the configuration. */
  datatype Account = Account(kind: AccountType, files: seq<string>)

  /** A JavaScript number, as far as the ledger needs one. */
  datatype JsNumber = NaN | Num(value: real)

  /** A field of a record: a cell kept as text, or a number from a column parser. */
  datatype Value = Text(text: string) | Number(number: JsNumber)

  /** A CSV row as the reader yields it: header name to cell text. */
  type RawRow = map<string, string>

  /** A ledger record: field name to value. */
  type Record = map<string, Value>

  datatype Error =
    | Unreadable(path: string)  // a configured file that cannot be read or parsed
    | NoFiles                   // no file is configured at all: `file` is undefined at `file.concat`

  datatype Result<T> = Ok(value: T) | Err(error: Error)

  const AccountField: string := "Account"
  const AmountField: string := "Amount"

  /** Unary minus on a number. */
  function Negate(x: JsNumber): JsNumber
  {
    match x
    case NaN => NaN
    case Num(v) => Num(-v)
  }

  /** The column parser for `Amount`: `-x` for credit accounts, `Number` otherwise. */
  function ParseAmount(kind: AccountType, cell: string, toNumber: string -> JsNumber): JsNumber
  {
    if kind == Credit then Negate(toNumber(cell)) else toNumber(cell)
  }

  /** A row after the column parsers: only `Amount` is parsed, every other cell stays text. */
  function ParseRow(kind: AccountType, raw: RawRow, toNumber: string -> JsNumber): Record
  {
    map k | k in raw :: if k == AmountField then Number(ParseAmount(kind, raw[k], toNumber)) else Text(raw[k])
  }

  /** `{ Account: name, ...row }`: the row's own fields are spread after the tag. */
  function Tag(name: string, row: Record): Record
  {
    map[AccountField := Text(name)] + row
  }

  /** One output record for one raw row of a file of account `name`. */
  function Normalize(name: string, kind: AccountType, raw: RawRow, toNumber: string -> JsNumber): Record
  {
    Tag(name, ParseRow(kind, raw, toNumber))
  }

  /** What the tagging and the column parser make of one row. */
  lemma NormalizeFields(name: string, kind: AccountType, raw: RawRow, toNumber: string -> JsNumber)
    ensures Normalize(name, kind, raw, toNumber).Keys == raw.Keys + {AccountField}
    ensures Normalize(name, kind, raw, toNumber)[AccountField]
            == if AccountField in raw then Text(raw[AccountField]) else Text(name)
    ensures AmountField in raw ==>
              Normalize(name, kind, raw, toNumber)[AmountField]
              == Number(if kind == Credit then Negate(toNumber(raw[AmountField])) else toNumber(raw[AmountField]))
    ensures forall k :: k in raw && k != AmountField ==> Normalize(name, kind, raw, toNumber)[k] == Text(raw[k])
  {
  }

  /**
   * The sign rule depends on the account type alone: two accounts of the same
   * type make the same record of a row except for the `Account` tag, and a
   * credit account's `Amount` is the negation of a debit account's.
   */
  lemma SignRule(name1: string, name2: string, kind: AccountType, raw: RawRow, toNumber: string -> JsNumber)
    ensures Normalize(name1, kind, raw, toNumber) - {AccountField} == Normalize(name2, kind, raw, toNumber) - {AccountField}
    ensures AmountField in raw ==>
              && Normalize(name1, Debit, raw, toNumber)[AmountField] == Number(toNumber(raw[AmountField]))
              && Normalize(name1, Credit, raw, toNumber)[AmountField]
                 == Number(Negate(Normalize(name2, Debit, raw, toNumber)[AmountField].number))
  {
  }

  /** `csv(...).fromFile(path).then(file => file.map(...))` for a file that was read. */
  function FileRecords(name: string, kind: AccountType, rows: seq<RawRow>, toNumber: string -> JsNumber): (records: seq<Record>)
    ensures |records| == |rows|
    ensures forall r :: 0 <= r < |rows| ==> records[r] == Normalize(name, kind, rows[r], toNumber)
  {
    if rows == [] then [] else [Normalize(name, kind, rows[0], toNumber)] + FileRecords(name, kind, rows[1..], toNumber)
  }

  /** The promise for one file; `parsed` holds the rows of every file that can be read. */
  function FileJob(name: string, kind: AccountType, path: string, parsed: map<string, seq<RawRow>>,
                   toNumber: string -> JsNumber): Result<seq<Record>>
  {
    if path in parsed then Ok(FileRecords(name, kind, parsed[path], toNumber)) else Err(Unreadable(path))
  }

  /** `account.files.map(...)`: one promise per file, in file order. */
  function PathJobs(name: string, kind: AccountType, paths: seq<string>, parsed: map<string, seq<RawRow>>,
                    toNumber: string -> JsNumber): seq<Result<seq<Record>>>
  {
    seq(|paths|, j requires 0 <= j < |paths| => FileJob(name, kind, paths[j], parsed, toNumber))
  }

  /** `Object.entries(config.accounts).flatMap(...)`: every account's promises, in declaration order. */
  function Jobs(accounts: seq<(string, Account)>, parsed: map<string, seq<RawRow>>,
                toNumber: string -> JsNumber): seq<Result<seq<Record>>>
  {
    if accounts == [] then []
    else PathJobs(accounts[0].0, accounts[0].1.kind, accounts[0].1.files, parsed, toNumber)
         + Jobs(accounts[1..], parsed, toNumber)
  }

  /** `Promise.all`: every value in input order, or a failure of one of the inputs. */
  function All<T>(jobs: seq<Result<T>>): (r: Result<seq<T>>)
    ensures r.Ok? <==> forall m :: 0 <= m < |jobs| ==> jobs[m].Ok?
    ensures r.Ok? ==> |r.value| == |jobs| && forall m :: 0 <= m < |jobs| ==> r.value[m] == jobs[m].value
    ensures r.Err? ==> exists m :: 0 <= m < |jobs| && jobs[m].Err? && jobs[m].error == r.error
  {
    if jobs == [] then Ok([])
    else
      match jobs[0]
      case Err(e) => Err(e)
      case Ok(v) =>
        match All(jobs[1..])
        case Err(e) => Err(e)
        case Ok(vs) => Ok([v] + vs)
  }

  /**
   * `receiver.concat(...args)` for array arguments: each argument's elements
   * are appended to the receiver in turn.
   */
  function ConcatArgs(receiver: seq<Record>, args: seq<seq<Record>>): (r: seq<Record>)
    ensures r == receiver + Flatten(args)
    decreases |args|
  {
    if args == [] then receiver
    else
      assert receiver + Flatten(args) == (receiver + args[0]) + Flatten(args[1..]);
      ConcatArgs(receiver + args[0], args[1..])
  }

  /** `([file, ...files]) => file.concat(...files)`, which fails when there is no first file. */
  function ConcatFiles(results: seq<seq<Record>>): (r: Result<seq<Record>>)
    ensures r.Ok? <==> |results| > 0
    ensures r.Ok? ==> r.value == Flatten(results)
    ensures r.Err? ==> r.error == NoFiles
  {
    if |results| == 0 then Err(NoFiles) else Ok(ConcatArgs(results[0], results[1..]))
  }

  /** The whole build, up to the value that would be written out. */
  function Build(accounts: seq<(string, Account)>, parsed: map<string, seq<RawRow>>,
                 toNumber: string -> JsNumber): Result<seq<Record>>
  {
    match All(Jobs(accounts, parsed, toNumber))
    case Err(e) => Err(e)
    case Ok(results) => ConcatFiles(results)
  }

  // ----- The reference: rows in account order, then file order, then row order -----

  /** Every configured file can be read. */
  predicate Readable(accounts: seq<(string, Account)>, parsed: map<string, seq<RawRow>>)
  {
    forall i, j :: 0 <= i < |accounts| && 0 <= j < |accounts[i].1.files| ==> accounts[i].1.files[j] in parsed
  }

  predicate PathsReadable(paths: seq<string>, parsed: map<string, seq<RawRow>>)
  {
    forall j :: 0 <= j < |paths| ==> paths[j] in parsed
  }

  /** The number of configured files over all accounts. */
  function FileCount(accounts: seq<(string, Account)>): nat
  {
    if accounts == [] then 0 else |accounts[0].1.files| + FileCount(accounts[1..])
  }

  /** The number of rows over the given files (a file that cannot be read has none). */
  function PathRows(paths: seq<string>, parsed: map<string, seq<RawRow>>): nat
  {
    if paths == [] then 0
    else (if paths[0] in parsed then |parsed[paths[0]]| else 0) + PathRows(paths[1..], parsed)
  }

  /** The number of rows over every file of every account. */
  function RowCount(accounts: seq<(string, Account)>, parsed: map<string, seq<RawRow>>): nat
  {
    if accounts == [] then 0 else PathRows(accounts[0].1.files, parsed) + RowCount(accounts[1..], parsed)
  }

  /** The records of one account: its files in order, each file's rows in order. */
  function AccountLedger(name: string, kind: AccountType, paths: seq<string>, parsed: map<string, seq<RawRow>>,
                         toNumber: string -> JsNumber): seq<Record>
    requires PathsReadable(paths, parsed)
  {
    if paths == [] then []
    else FileRecords(name, kind, parsed[paths[0]], toNumber) + AccountLedger(name, kind, paths[1..], parsed, toNumber)
  }

  /** The expected ledger: the accounts in declaration order. */
  function ExpectedLedger(accounts: seq<(string, Account)>, parsed: map<string, seq<RawRow>>,
                  toNumber: string -> JsNumber): seq<Record>
    requires Readable(accounts, parsed)
  {
    if accounts == [] then []
    else
      assert PathsReadable(accounts[0].1.files, parsed);
      AccountLedger(accounts[0].0, accounts[0].1.kind, accounts[0].1.files, parsed, toNumber)
      + ExpectedLedger(accounts[1..], parsed, toNumber)
  }

  /** Where the rows of file j of account i start in the ledger. */
  function Offset(accounts: seq<(string, Account)>, parsed: map<string, seq<RawRow>>, i: nat, j: nat): nat
    requires i < |accounts| && j <= |accounts[i].1.files|
  {
    RowCount(accounts[..i], parsed) + PathRows(accounts[i].1.files[..j], parsed)
  }

  // ----- The build against the reference -----

  lemma AllAppend<T>(x: seq<Result<T>>, y: seq<Result<T>>)
    requires All(x).Ok? && All(y).Ok?
    ensures All(x + y) == Ok(All(x).value + All(y).value)
  {
    var xy := x + y;
    assert forall m :: 0 <= m < |xy| ==> xy[m] == if m < |x| then x[m] else y[m - |x|];
    assert All(xy).Ok?;
    assert All(xy).value == All(x).value + All(y).value;
  }

  lemma {:induction false} PathJobsResult(name: string, kind: AccountType, paths: seq<string>,
                                          parsed: map<string, seq<RawRow>>, toNumber: string -> JsNumber)
    ensures var r := All(PathJobs(name, kind, paths, parsed, toNumber));
            && (r.Ok? <==> PathsReadable(paths, parsed))
            && (r.Ok? ==> |r.value| == |paths| && Flatten(r.value) == AccountLedger(name, kind, paths, parsed, toNumber))
            && (r.Err? ==> r.error.Unreadable? && r.error.path in paths && r.error.path !in parsed)
  {
    var jobs := PathJobs(name, kind, paths, parsed, toNumber);
    var r := All(jobs);
    if r.Err? {
      var m :| 0 <= m < |jobs| && jobs[m].Err? && jobs[m].error == r.error;
      assert paths[m] in paths;
    }
    if paths != [] && r.Ok? {
      var rest := PathJobs(name, kind, paths[1..], parsed, toNumber);
      assert jobs == [jobs[0]] + rest;
      PathJobsResult(name, kind, paths[1..], parsed, toNumber);
      AllAppend([jobs[0]], rest);
      assert r.value == [r.value[0]] + All(rest).value;
    }
  }

  lemma ReadableCons(accounts: seq<(string, Account)>, parsed: map<string, seq<RawRow>>)
    requires accounts != []
    ensures Readable(accounts, parsed)
            <==> PathsReadable(accounts[0].1.files, parsed) && Readable(accounts[1..], parsed)
  {
  }

  lemma AllConcatOk<T>(x: seq<Result<T>>, y: seq<Result<T>>)
    ensures All(x + y).Ok? <==> All(x).Ok? && All(y).Ok?
  {
    var xy := x + y;
    assert forall m :: 0 <= m < |x| ==> xy[m] == x[m];
    assert forall m :: 0 <= m < |y| ==> xy[m + |x|] == y[m];
    if !All(xy).Ok? {
      var m :| 0 <= m < |xy| && xy[m].Err?;
      if m < |x| {
        assert x[m].Err?;
      } else {
        assert y[m - |x|].Err?;
      }
    }
  }

  lemma {:induction false} JobsReadable(accounts: seq<(string, Account)>, parsed: map<string, seq<RawRow>>,
                                        toNumber: string -> JsNumber)
    ensures All(Jobs(accounts, parsed, toNumber)).Ok? <==> Readable(accounts, parsed)
  {
    if accounts != [] {
      var head := PathJobs(accounts[0].0, accounts[0].1.kind, accounts[0].1.files, parsed, toNumber);
      var rest := Jobs(accounts[1..], parsed, toNumber);
      PathJobsResult(accounts[0].0, accounts[0].1.kind, accounts[0].1.files, parsed, toNumber);
      JobsReadable(accounts[1..], parsed, toNumber);
      ReadableCons(accounts, parsed);
      AllConcatOk(head, rest);
    }
  }

  lemma {:induction false} JobsLedger(accounts: seq<(string, Account)>, parsed: map<string, seq<RawRow>>,
                                      toNumber: string -> JsNumber)
    requires Readable(accounts, parsed)
    ensures All(Jobs(accounts, parsed, toNumber)).Ok?
    ensures |All(Jobs(accounts, parsed, toNumber)).value| == FileCount(accounts)
    ensures Flatten(All(Jobs(accounts, parsed, toNumber)).value) == ExpectedLedger(accounts, parsed, toNumber)
  {
    JobsReadable(accounts, parsed, toNumber);
    if accounts != [] {
      var head := PathJobs(accounts[0].0, accounts[0].1.kind, accounts[0].1.files, parsed, toNumber);
      var rest := Jobs(accounts[1..], parsed, toNumber);
      ReadableCons(accounts, parsed);
      PathJobsResult(accounts[0].0, accounts[0].1.kind, accounts[0].1.files, parsed, toNumber);
      JobsLedger(accounts[1..], parsed, toNumber);
      AllAppend(head, rest);
      FlattenAppend(All(head).value, All(rest).value);
    }
  }

  /** A failing promise names a configured file that cannot be read. */
  lemma {:induction false} JobFailure(accounts: seq<(string, Account)>, parsed: map<string, seq<RawRow>>,
                                      toNumber: string -> JsNumber, m: nat)
    requires m < |Jobs(accounts, parsed, toNumber)| && Jobs(accounts, parsed, toNumber)[m].Err?
    ensures var e := Jobs(accounts, parsed, toNumber)[m].error;
            && e.Unreadable? && e.path !in parsed
            && exists i, j :: 0 <= i < |accounts| && 0 <= j < |accounts[i].1.files| && accounts[i].1.files[j] == e.path
  {
    var jobs := Jobs(accounts, parsed, toNumber);
    var e := jobs[m].error;
    var head := PathJobs(accounts[0].0, accounts[0].1.kind, accounts[0].1.files, parsed, toNumber);
    var rest := Jobs(accounts[1..], parsed, toNumber);
    assert jobs == head + rest;
    if m < |head| {
      assert head[m] == jobs[m];
      assert accounts[0].1.files[m] == e.path;
    } else {
      assert rest[m - |head|] == jobs[m];
      JobFailure(accounts[1..], parsed, toNumber, m - |head|);
      var i, j :| 0 <= i < |accounts[1..]| && 0 <= j < |accounts[1..][i].1.files| && accounts[1..][i].1.files[j] == e.path;
      assert accounts[i + 1].1.files[j] == e.path;
    }
  }

  /**
   * The build succeeds exactly when every configured file can be read and at
   * least one file is configured, and then yields the expected ledger; with
   * no file at all it fails at the concatenation, and with a file that cannot
   * be read it fails naming one such configured file.
   */
  lemma BuildResult(accounts: seq<(string, Account)>, parsed: map<string, seq<RawRow>>, toNumber: string -> JsNumber)
    ensures Build(accounts, parsed, toNumber).Ok? <==> Readable(accounts, parsed) && FileCount(accounts) > 0
    ensures Build(accounts, parsed, toNumber).Ok? ==> Build(accounts, parsed, toNumber).value == ExpectedLedger(accounts, parsed, toNumber)
    ensures Readable(accounts, parsed) && FileCount(accounts) == 0 ==> Build(accounts, parsed, toNumber) == Err(NoFiles)
    ensures !Readable(accounts, parsed) ==>
              var e := Build(accounts, parsed, toNumber);
              && e.Err? && e.error.Unreadable? && e.error.path !in parsed
              && exists i, j :: 0 <= i < |accounts| && 0 <= j < |accounts[i].1.files| && accounts[i].1.files[j] == e.error.path
  {
    var r := All(Jobs(accounts, parsed, toNumber));
    JobsReadable(accounts, parsed, toNumber);
    if Readable(accounts, parsed) {
      JobsLedger(accounts, parsed, toNumber);
    } else {
      var m :| 0 <= m < |Jobs(accounts, parsed, toNumber)| && Jobs(accounts, parsed, toNumber)[m].Err?
               && Jobs(accounts, parsed, toNumber)[m].error == r.error;
      JobFailure(accounts, parsed, toNumber, m);
    }
  }

  // ----- Properties of the expected ledger -----

  lemma {:induction false} AccountLedgerLength(name: string, kind: AccountType, paths: seq<string>,
                                               parsed: map<string, seq<RawRow>>, toNumber: string -> JsNumber)
    requires PathsReadable(paths, parsed)
    ensures |AccountLedger(name, kind, paths, parsed, toNumber)| == PathRows(paths, parsed)
  {
    if paths != [] {
      AccountLedgerLength(name, kind, paths[1..], parsed, toNumber);
    }
  }

  /** The ledger holds exactly one record per row of every configured file. */
  lemma {:induction false} LedgerLength(accounts: seq<(string, Account)>, parsed: map<string, seq<RawRow>>,
                                        toNumber: string -> JsNumber)
    requires Readable(accounts, parsed)
    ensures |ExpectedLedger(accounts, parsed, toNumber)| == RowCount(accounts, parsed)
  {
    if accounts != [] {
      assert PathsReadable(accounts[0].1.files, parsed);
      AccountLedgerLength(accounts[0].0, accounts[0].1.kind, accounts[0].1.files, parsed, toNumber);
      LedgerLength(accounts[1..], parsed, toNumber);
    }
  }

  lemma {:induction false} AccountLedgerAt(name: string, kind: AccountType, paths: seq<string>,
                                           parsed: map<string, seq<RawRow>>, toNumber: string -> JsNumber, j: nat, r: nat)
    requires PathsReadable(paths, parsed)
    requires j < |paths| && r < |parsed[paths[j]]|
    ensures PathRows(paths[..j], parsed) + r < |AccountLedger(name, kind, paths, parsed, toNumber)|
    ensures AccountLedger(name, kind, paths, parsed, toNumber)[PathRows(paths[..j], parsed) + r]
            == Normalize(name, kind, parsed[paths[j]][r], toNumber)
  {
    if j == 0 {
      assert paths[..0] == [];
    } else {
      AccountLedgerAt(name, kind, paths[1..], parsed, toNumber, j - 1, r);
      assert paths[..j][1..] == paths[1..][..j - 1];
    }
  }

  lemma {:induction false} AccountLedgerOrigin(name: string, kind: AccountType, paths: seq<string>,
                                               parsed: map<string, seq<RawRow>>, toNumber: string -> JsNumber, k: nat)
    returns (j: nat, r: nat)
    requires PathsReadable(paths, parsed)
    requires k < |AccountLedger(name, kind, paths, parsed, toNumber)|
    ensures j < |paths| && r < |parsed[paths[j]]|
    ensures k == PathRows(paths[..j], parsed) + r
  {
    var first := |parsed[paths[0]]|;
    if k < first {
      j, r := 0, k;
      assert paths[..0] == [];
    } else {
      var j', r' := AccountLedgerOrigin(name, kind, paths[1..], parsed, toNumber, k - first);
      j, r := j' + 1, r';
      assert paths[..j][1..] == paths[1..][..j'];
    }
  }

  /**
   * Order of the ledger: the rows of file j of account i sit, in their own
   * order, at that file's offset, which counts the rows of every earlier
   * account and of every earlier file of the same account.
   */
  lemma {:induction false} LedgerAt(accounts: seq<(string, Account)>, parsed: map<string, seq<RawRow>>,
                                    toNumber: string -> JsNumber, i: nat, j: nat, r: nat)
    requires Readable(accounts, parsed)
    requires i < |accounts| && j < |accounts[i].1.files|
    requires r < |parsed[accounts[i].1.files[j]]|
    ensures Offset(accounts, parsed, i, j) + r < |ExpectedLedger(accounts, parsed, toNumber)|
    ensures ExpectedLedger(accounts, parsed, toNumber)[Offset(accounts, parsed, i, j) + r]
            == Normalize(accounts[i].0, accounts[i].1.kind, parsed[accounts[i].1.files[j]][r], toNumber)
  {
    ReadableCons(accounts, parsed);
    var head := AccountLedger(accounts[0].0, accounts[0].1.kind, accounts[0].1.files, parsed, toNumber);
    var tail := ExpectedLedger(accounts[1..], parsed, toNumber);
    assert ExpectedLedger(accounts, parsed, toNumber) == head + tail;
    if i == 0 {
      assert accounts[..0] == [];
      AccountLedgerAt(accounts[0].0, accounts[0].1.kind, accounts[0].1.files, parsed, toNumber, j, r);
      assert Offset(accounts, parsed, 0, j) == PathRows(accounts[0].1.files[..j], parsed);
    } else {
      LedgerAt(accounts[1..], parsed, toNumber, i - 1, j, r);
      OffsetCons(accounts, parsed, toNumber, i, j);
      var k := Offset(accounts[1..], parsed, i - 1, j) + r;
      assert (head + tail)[|head| + k] == tail[k];
    }
  }

  /** The offset of a file of a later account counts the first account's records first. */
  lemma OffsetCons(accounts: seq<(string, Account)>, parsed: map<string, seq<RawRow>>,
                   toNumber: string -> JsNumber, i: nat, j: nat)
    requires Readable(accounts, parsed)
    requires 0 < i < |accounts| && j <= |accounts[i].1.files|
    ensures PathsReadable(accounts[0].1.files, parsed)
    ensures Offset(accounts, parsed, i, j)
            == |AccountLedger(accounts[0].0, accounts[0].1.kind, accounts[0].1.files, parsed, toNumber)|
               + Offset(accounts[1..], parsed, i - 1, j)
  {
    ReadableCons(accounts, parsed);
    AccountLedgerLength(accounts[0].0, accounts[0].1.kind, accounts[0].1.files, parsed, toNumber);
    assert accounts[..i][1..] == accounts[1..][..i - 1];
  }

  /** Every record of the ledger comes from one row of one configured file, at that row's place. */
  lemma {:induction false} LedgerOrigin(accounts: seq<(string, Account)>, parsed: map<string, seq<RawRow>>,
                                        toNumber: string -> JsNumber, k: nat)
    returns (i: nat, j: nat, r: nat)
    requires Readable(accounts, parsed)
    requires k < |ExpectedLedger(accounts, parsed, toNumber)|
    ensures i < |accounts| && j < |accounts[i].1.files| && r < |parsed[accounts[i].1.files[j]]|
    ensures k == Offset(accounts, parsed, i, j) + r
    ensures ExpectedLedger(accounts, parsed, toNumber)[k]
            == Normalize(accounts[i].0, accounts[i].1.kind, parsed[accounts[i].1.files[j]][r], toNumber)
  {
    ReadableCons(accounts, parsed);
    var (name, account) := accounts[0];
    var first := |AccountLedger(name, account.kind, account.files, parsed, toNumber)|;
    if k < first {
      i := 0;
      j, r := AccountLedgerOrigin(name, account.kind, account.files, parsed, toNumber, k);
      assert accounts[..0] == [];
    } else {
      var i';
      i', j, r := LedgerOrigin(accounts[1..], parsed, toNumber, k - first);
      i := i' + 1;
      AccountLedgerLength(name, account.kind, account.files, parsed, toNumber);
      assert accounts[..i][1..] == accounts[1..][..i'];
    }
    LedgerAt(accounts, parsed, toNumber, i, j, r);
  }
}
