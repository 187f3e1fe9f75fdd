/**
 * The display-side logic of the dashboard (src/index.tsx): category icons,
 * exclusion and opacity, the payee display form, and the grouping of the
 * ledger by date for the transaction list.
 */
module Dashboard {
  import opened Seqs
  import opened StringOrder

  /** One ledger entry as the dashboard reads it. */
  datatype Transaction = Transaction(Account: string, Date: string, Payee: string, Category: string, Amount: real)

  /** The two configuration entries the dashboard reads: `icons` and `exclude`. */
  datatype Config = Config(icons: map<string, string>, exclude: seq<string>)

  // ----- Icons -----

  /** `getCategoryIcon`: the configured icon, or else the first character of the category. */
  function CategoryIcon(icons: map<string, string>, category: string): (icon: string)
    ensures category in icons ==> icon == icons[category]
    ensures category !in icons ==> |icon| <= 1 && |icon| <= |category| && icon == category[..|icon|]
    ensures category !in icons ==> (icon == "" <==> category == "")
  {
    if category in icons then icons[category]
    else if category == "" then ""
    else [category[0]]
  }

  /** With no empty icon configured, every non-empty category shows a non-empty icon. */
  lemma IconShown(icons: map<string, string>, category: string)
    requires forall c :: c in icons ==> icons[c] != ""
    ensures CategoryIcon(icons, category) != "" <==> (category in icons || category != "")
  {
  }

  // ----- Exclusion and opacity -----

  /** `Array.prototype.includes` on a list of strings. */
  function Includes(xs: seq<string>, x: string): (found: bool)
    ensures found <==> x in xs
  {
    if xs == [] then false
    else
      assert xs == [xs[0]] + xs[1..];
      xs[0] == x || Includes(xs[1..], x)
  }

  /** `isExcluded`: the transaction's category is listed under `exclude`. */
  function IsExcluded(config: Config, t: Transaction): (excluded: bool)
    ensures excluded <==> t.Category in config.exclude
  {
    Includes(config.exclude, t.Category)
  }

  /** Exclusion looks at the category alone. */
  lemma ExcludedByCategory(config: Config, t: Transaction, u: Transaction)
    requires t.Category == u.Category
    ensures IsExcluded(config, t) == IsExcluded(config, u)
  {
  }

  /** The opacity of a transaction line: dimmed for excluded transactions. */
  function Opacity(config: Config, t: Transaction): (opacity: string)
    ensures opacity == "0.3" <==> t.Category in config.exclude
    ensures opacity == "1" <==> t.Category !in config.exclude
  {
    if IsExcluded(config, t) then "0.3" else "1"
  }

  // ----- Payee display form -----

  predicate IsLower(c: char) { 'a' <= c <= 'z' }
  predicate IsUpper(c: char) { 'A' <= c <= 'Z' }
  predicate IsDigit(c: char) { '0' <= c <= '9' }

  /** `toLowerCase` on one character, for ASCII letters. */
  function LowerChar(c: char): char
  {
    if IsUpper(c) then (c as int - 'A' as int + 'a' as int) as char else c
  }

  /** `toLowerCase` on a string, character by character. */
  function ToLower(s: string): (r: string)
    ensures |r| == |s|
    ensures forall i :: 0 <= i < |s| ==> r[i] == LowerChar(s[i])
  {
    if s == [] then [] else [LowerChar(s[0])] + ToLower(s[1..])
  }

  /** `replace(/[^a-z0-9]/g, " ")`: every character outside `a-z` and `0-9` becomes a space. */
  function BlankOthers(s: string): (r: string)
    ensures |r| == |s|
    ensures forall i :: 0 <= i < |s| ==> r[i] == if IsLower(s[i]) || IsDigit(s[i]) then s[i] else ' '
  {
    if s == [] then []
    else [if IsLower(s[0]) || IsDigit(s[0]) then s[0] else ' '] + BlankOthers(s[1..])
  }

  /** The payee as a transaction line shows it. */
  function DisplayPayee(payee: string): string
  {
    BlankOthers(ToLower(payee))
  }

  /** Each character of the display form, stated per character class. */
  lemma DisplayPayeeAt(payee: string, i: nat)
    requires i < |payee|
    ensures |DisplayPayee(payee)| == |payee|
    ensures IsLower(payee[i]) || IsDigit(payee[i]) ==> DisplayPayee(payee)[i] == payee[i]
    ensures IsUpper(payee[i]) ==> DisplayPayee(payee)[i] == (payee[i] as int + 32) as char
    ensures !(IsLower(payee[i]) || IsDigit(payee[i]) || IsUpper(payee[i])) ==> DisplayPayee(payee)[i] == ' '
  {
  }

  /** The display form keeps the length and uses only `a-z`, `0-9` and space. */
  lemma DisplayPayeeAlphabet(payee: string)
    ensures |DisplayPayee(payee)| == |payee|
    ensures forall i :: 0 <= i < |payee| ==>
              IsLower(DisplayPayee(payee)[i]) || IsDigit(DisplayPayee(payee)[i]) || DisplayPayee(payee)[i] == ' '
  {
  }

  /** Applying the display form twice gives the display form. */
  lemma DisplayPayeeIdempotent(payee: string)
    ensures DisplayPayee(DisplayPayee(payee)) == DisplayPayee(payee)
  {
  }

  // ----- Grouping by date -----

  /** The dates that occur in the transactions. */
  ghost function DateSet(ts: seq<Transaction>): set<string>
  {
    set i | 0 <= i < |ts| :: ts[i].Date
  }

  lemma DateSetSnoc(ts: seq<Transaction>)
    requires ts != []
    ensures DateSet(ts) == DateSet(ts[..|ts| - 1]) + {ts[|ts| - 1].Date}
  {
  }

  /** The transactions of one date, in their input order. */
  function WithDate(ts: seq<Transaction>, date: string): seq<Transaction>
  {
    if ts == [] then []
    else WithDate(ts[..|ts| - 1], date) + (if ts[|ts| - 1].Date == date then [ts[|ts| - 1]] else [])
  }

  /** `_.groupBy(transactions, "Date")`: each transaction appended to the group of its date. */
  function GroupByDate(ts: seq<Transaction>): (groups: map<string, seq<Transaction>>)
    ensures groups.Keys == DateSet(ts)
    ensures forall d :: d in groups ==> groups[d] == WithDate(ts, d)
  {
    if ts == [] then map[]
    else
      var groups := GroupByDate(ts[..|ts| - 1]);
      var t := ts[|ts| - 1];
      DateSetSnoc(ts);
      assert forall d :: d !in groups ==> WithDate(ts[..|ts| - 1], d) == [] by {
        forall d | d !in groups
          ensures WithDate(ts[..|ts| - 1], d) == []
        {
          WithDateAbsent(ts[..|ts| - 1], d);
        }
      }
      groups[t.Date := (if t.Date in groups then groups[t.Date] else []) + [t]]
  }

  lemma {:induction false} WithDateAbsent(ts: seq<Transaction>, date: string)
    requires date !in DateSet(ts)
    ensures WithDate(ts, date) == []
    decreases |ts|
  {
    if ts != [] {
      DateSetSnoc(ts);
      WithDateAbsent(ts[..|ts| - 1], date);
    }
  }

  /** A transaction is in the filtered group exactly when it occurs with that date. */
  lemma {:induction false} WithDateMembers(ts: seq<Transaction>, date: string)
    ensures forall t :: t in WithDate(ts, date) <==> t in ts && t.Date == date
    decreases |ts|
  {
    if ts != [] {
      var init := ts[..|ts| - 1];
      WithDateMembers(init, date);
      assert ts == init + [ts[|ts| - 1]];
    }
  }

  /**
   * Grouping partitions the transactions: every date key has a non-empty
   * group, every transaction is in the group of its own date, and every
   * member of a group carries that group's date.
   */
  lemma GroupsPartition(ts: seq<Transaction>)
    ensures forall d :: d in GroupByDate(ts) ==> |GroupByDate(ts)[d]| > 0
    ensures forall i :: 0 <= i < |ts| ==> ts[i].Date in GroupByDate(ts) && ts[i] in GroupByDate(ts)[ts[i].Date]
    ensures forall d, t :: d in GroupByDate(ts) && t in GroupByDate(ts)[d] ==> t.Date == d
  {
    var groups := GroupByDate(ts);
    forall d | d in groups
      ensures |groups[d]| > 0
    {
      var i :| 0 <= i < |ts| && ts[i].Date == d;
      WithDateMembers(ts, d);
      assert ts[i] in groups[d];
    }
    forall i | 0 <= i < |ts|
      ensures ts[i].Date in groups && ts[i] in groups[ts[i].Date]
    {
      WithDateMembers(ts, ts[i].Date);
    }
    forall d, t: Transaction | d in groups && t in groups[d]
      ensures t.Date == d
    {
      WithDateMembers(ts, d);
    }
  }

  /** `Object.keys` of the grouping: each date once; the order is left open, since the dates are sorted next. */
  function DateKeys(ts: seq<Transaction>): (keys: seq<string>)
    ensures Distinct(keys)
    ensures forall d :: d in keys <==> d in DateSet(ts)
  {
    if ts == [] then []
    else
      var keys := DateKeys(ts[..|ts| - 1]);
      var d := ts[|ts| - 1].Date;
      DateSetSnoc(ts);
      if d in keys then keys else keys + [d]
  }

  /**
   * `Object.keys(byDate).sort().reverse()`: the dates shown, in decreasing
   * string order (newest first for `YYYY-MM-DD` dates).
   */
  function Dates(ts: seq<Transaction>): (dates: seq<string>)
    ensures Descending(dates)
    ensures Distinct(dates)
    ensures forall d :: d in dates <==> d in DateSet(ts)
  {
    var keys := DateKeys(ts);
    var sorted := Sort(keys);
    SortAscending(keys);
    ReverseDescending(sorted);
    DescendingDistinct(Reverse(sorted));
    assert forall d :: d in sorted <==> d in multiset(keys);
    ReverseMultiset(sorted);
    Reverse(sorted)
  }

  /** The date list is the only strictly decreasing arrangement of the dates that occur. */
  lemma DatesUnique(ts: seq<Transaction>, dates: seq<string>)
    requires Descending(dates)
    requires forall d :: d in dates <==> d in DateSet(ts)
    ensures dates == Dates(ts)
  {
    DescendingUnique(dates, Dates(ts));
  }

  /** The transaction list: each shown date with its group, in the order of `Dates`. */
  function Sections(ts: seq<Transaction>): seq<(string, seq<Transaction>)>
  {
    var groups := GroupByDate(ts);
    var dates := Dates(ts);
    seq(|dates|, i requires 0 <= i < |dates| => (dates[i], groups[dates[i]]))
  }

  /** The transaction lines in the order the list shows them. */
  function Shown(ts: seq<Transaction>): seq<Transaction>
  {
    var sections := Sections(ts);
    Flatten(seq(|sections|, i requires 0 <= i < |sections| => sections[i].1))
  }

  /**
   * The sections of the list: one per distinct date, in decreasing string order
   * (newest first for `YYYY-MM-DD` dates), each
   * holding that date's transactions, at least one, in input order.
   */
  lemma SectionsShape(ts: seq<Transaction>)
    ensures |Sections(ts)| == |Dates(ts)|
    ensures forall i :: 0 <= i < |Sections(ts)| ==>
              && Sections(ts)[i].0 == Dates(ts)[i]
              && Sections(ts)[i].1 == WithDate(ts, Dates(ts)[i])
              && |Sections(ts)[i].1| > 0
  {
    GroupsPartition(ts);
  }

  /** The transactions whose date is in the given set, in input order. */
  function WithDates(ts: seq<Transaction>, dates: set<string>): seq<Transaction>
  {
    if ts == [] then []
    else WithDates(ts[..|ts| - 1], dates) + (if ts[|ts| - 1].Date in dates then [ts[|ts| - 1]] else [])
  }

  lemma {:induction false} WithDatesSplit(ts: seq<Transaction>, date: string, dates: set<string>)
    requires date !in dates
    ensures multiset(WithDates(ts, {date} + dates)) == multiset(WithDate(ts, date)) + multiset(WithDates(ts, dates))
    decreases |ts|
  {
    if ts != [] {
      WithDatesSplit(ts[..|ts| - 1], date, dates);
    }
  }

  lemma {:induction false} WithDatesAll(ts: seq<Transaction>, dates: set<string>)
    requires forall i :: 0 <= i < |ts| ==> ts[i].Date in dates
    ensures WithDates(ts, dates) == ts
    decreases |ts|
  {
    if ts != [] {
      WithDatesAll(ts[..|ts| - 1], dates);
    }
  }

  /** The group of each of the given dates, in the order of the dates. */
  function DateGroups(ts: seq<Transaction>, dates: seq<string>): (groups: seq<seq<Transaction>>)
    ensures |groups| == |dates|
    ensures forall i :: 0 <= i < |dates| ==> groups[i] == WithDate(ts, dates[i])
  {
    if dates == [] then [] else [WithDate(ts, dates[0])] + DateGroups(ts, dates[1..])
  }

  lemma {:induction false} FlattenGroups(ts: seq<Transaction>, dates: seq<string>)
    requires Distinct(dates)
    ensures multiset(Flatten(DateGroups(ts, dates))) == multiset(WithDates(ts, set d | d in dates))
    decreases |dates|
  {
    if dates == [] {
      assert (set d | d in dates) == {};
      WithDatesEmpty(ts);
    } else {
      var rest := dates[1..];
      var restSet := set d | d in rest;
      FlattenGroups(ts, rest);
      assert dates[0] !in rest;
      assert (set d | d in dates) == {dates[0]} + restSet;
      WithDatesSplit(ts, dates[0], restSet);
      assert Flatten(DateGroups(ts, dates)) == WithDate(ts, dates[0]) + Flatten(DateGroups(ts, rest));
    }
  }

  lemma {:induction false} WithDatesEmpty(ts: seq<Transaction>)
    ensures WithDates(ts, {}) == []
    decreases |ts|
  {
    if ts != [] {
      WithDatesEmpty(ts[..|ts| - 1]);
    }
  }

  /** The list shows every transaction exactly as often as it occurs in the ledger. */
  lemma ShownPermutation(ts: seq<Transaction>)
    ensures multiset(Shown(ts)) == multiset(ts)
  {
    var dates := Dates(ts);
    var sections := Sections(ts);
    var groups := seq(|sections|, i requires 0 <= i < |sections| => sections[i].1);
    SectionsShape(ts);
    assert groups == DateGroups(ts, dates);
    FlattenGroups(ts, dates);
    assert forall i :: 0 <= i < |ts| ==> ts[i].Date in (set d | d in dates);
    WithDatesAll(ts, set d | d in dates);
  }
}
