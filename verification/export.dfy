/** The CSV the editor's export button builds (src/App.tsx lines
    439-448): a fixed header, then one line per record, latest month
    first; fields are joined with commas and lines with newlines, with no
    quoting. The download plumbing around it is not modelled. */
module Export {
  import opened Wrappers
  import opened Text
  import opened Records
  import opened Order
  import opened Seqs

  function IncomeLabel(c: string): string {
    c + " (Income)"
  }

  function ExpenseLabel(c: string): string {
    c + " (Expense)"
  }

  /** `['Month', ...CONTRIBUTORS.map(...), ...EXPENSE_CATEGORIES.map(...)]`. */
  function HeaderFields(): seq<string> {
    ["Month"] + MapSeq(Contributors, IncomeLabel) + MapSeq(ExpenseCategories, ExpenseLabel)
  }

  lemma IncomeLabels()
    ensures MapSeq(Contributors, IncomeLabel)
      == ["YR (Income)", "HJ (Income)", "HC (Income)", "YH (Income)", "MY (Income)"]
  {
    var inc := MapSeq(Contributors, IncomeLabel);
    assert inc[0] == "YR (Income)" && inc[1] == "HJ (Income)" && inc[2] == "HC (Income)";
    assert inc[3] == "YH (Income)" && inc[4] == "MY (Income)";
  }

  lemma ExpenseLabels()
    ensures MapSeq(ExpenseCategories, ExpenseLabel)
      == ["Pocket Money (Expense)", "Health Expense (Expense)", "Durian Farm (Expense)", "Others (Expense)"]
  {
    var exp := MapSeq(ExpenseCategories, ExpenseLabel);
    assert exp[0] == "Pocket Money (Expense)" && exp[1] == "Health Expense (Expense)";
    assert exp[2] == "Durian Farm (Expense)" && exp[3] == "Others (Expense)";
  }

  /** The header row, spelled out. */
  lemma HeaderText()
    ensures HeaderFields() == ["Month",
      "YR (Income)", "HJ (Income)", "HC (Income)", "YH (Income)", "MY (Income)",
      "Pocket Money (Expense)", "Health Expense (Expense)", "Durian Farm (Expense)", "Others (Expense)"]
  {
    IncomeLabels();
    ExpenseLabels();
  }

  /** `names.map(c => a[c] || 0)`, each rendered by `join` as `String(v)`. */
  function ValueFields(a: Amounts, names: seq<string>): (r: seq<string>)
    ensures |r| == |names|
    ensures forall j :: 0 <= j < |names| ==> r[j] == IntToDecimal(AmountOr0(a, names[j]))
  {
    if |names| == 0 then [] else [IntToDecimal(AmountOr0(a, names[0]))] + ValueFields(a, names[1..])
  }

  /** `[row.month, ...incomeValues, ...expenseValues]`. */
  function RowFields(r: Record): seq<string> {
    [r.month] + ValueFields(r.incomes, Contributors) + ValueFields(r.expenses, ExpenseCategories)
  }

  /** The data lines of the export, as fields: each record's row in
      descending month order, month first. Every row has one field for
      the month, one per contributor and one per category; a contributor
      or category the record lacks reads as 0. */
  function DataRows(data: seq<Record>): (rows: seq<seq<string>>)
    ensures |rows| == |data|
    ensures forall k :: 0 <= k < |rows| ==> |rows[k]| == 1 + |Contributors| + |ExpenseCategories|
    ensures forall k :: 0 <= k < |rows| ==> rows[k] == RowFields(SortBy(data, MonthOf, Descending)[k])
    ensures forall k, l :: 0 <= k < l < |rows| ==> LexLe(rows[l][0], rows[k][0])
  {
    var sorted := SortBy(data, MonthOf, Descending);
    RowsDescend(sorted);
    MapSeq(sorted, RowFields)
  }

  /** Rows built from records sorted latest first start with descending months. */
  lemma RowsDescend(sorted: seq<Record>)
    requires Sorted(sorted, MonthOf, Descending)
    ensures var rows := MapSeq(sorted, RowFields);
      && (forall k :: 0 <= k < |rows| ==> |rows[k]| == 1 + |Contributors| + |ExpenseCategories|)
      && forall k, l :: 0 <= k < l < |rows| ==> LexLe(rows[l][0], rows[k][0])
  {
    var rows := MapSeq(sorted, RowFields);
    FieldCounts(sorted);
    forall k, l | 0 <= k < l < |rows| ensures LexLe(rows[l][0], rows[k][0]) {
      assert Precedes(Descending, MonthOf(sorted[k]), MonthOf(sorted[l]));
    }
  }

  lemma FieldCounts(rows: seq<Record>)
    ensures forall k :: 0 <= k < |rows| ==> |RowFields(rows[k])| == 1 + |Contributors| + |ExpenseCategories|
  {
  }

  /** The whole export as a table: the header, then the data rows. */
  function Table(data: seq<Record>): seq<seq<string>> {
    [HeaderFields()] + DataRows(data)
  }

  /** Value fields read back as the stored amounts, "0" for missing ones. */
  lemma ValueFieldsReadBack(a: Amounts, names: seq<string>)
    ensures var v := ValueFields(a, names);
      && (forall j :: 0 <= j < |names| ==> ParseInt(v[j]) == Some(AmountOr0(a, names[j])))
      && (forall j :: 0 <= j < |names| && Lookup(a, names[j]).None? ==> v[j] == "0")
  {
    var v := ValueFields(a, names);
    forall j | 0 <= j < |names| ensures ParseInt(v[j]) == Some(AmountOr0(a, names[j])) {
      IntToDecimalRoundTrip(AmountOr0(a, names[j]));
    }
  }

  /** Each data row carries the month and, read back as numbers, exactly
      the amounts the record stores, 0 where it stores none. */
  lemma RowFieldsReadBack(r: Record)
    ensures var f := RowFields(r);
      f[0] == r.month
      && (forall j :: 0 <= j < |Contributors| ==>
            ParseInt(f[1 + j]) == Some(AmountOr0(r.incomes, Contributors[j])))
      && (forall j :: 0 <= j < |ExpenseCategories| ==>
            ParseInt(f[1 + |Contributors| + j]) == Some(AmountOr0(r.expenses, ExpenseCategories[j])))
      && (forall j :: 0 <= j < |Contributors| && Lookup(r.incomes, Contributors[j]).None? ==> f[1 + j] == "0")
      && (forall j :: 0 <= j < |ExpenseCategories| && Lookup(r.expenses, ExpenseCategories[j]).None? ==>
            f[1 + |Contributors| + j] == "0")
  {
    ValueFieldsReadBack(r.incomes, Contributors);
    ValueFieldsReadBack(r.expenses, ExpenseCategories);
    RowLayout(r.month, ValueFields(r.incomes, Contributors), ValueFields(r.expenses, ExpenseCategories));
  }

  /** Where each part of `[month, ...inc, ...exp]` lands. */
  lemma RowLayout(month: string, inc: seq<string>, exp: seq<string>)
    ensures var f := [month] + inc + exp;
      && f[0] == month
      && (forall j :: 0 <= j < |inc| ==> f[1 + j] == inc[j])
      && (forall j :: 0 <= j < |exp| ==> f[1 + |inc| + j] == exp[j])
  {
  }

  function JoinComma(fields: seq<string>): string {
    JoinWith(fields, ',')
  }

  function SplitComma(line: string): seq<string> {
    SplitOn(line, ',')
  }

  /** `csvContent`: the table's rows joined with commas, then with
      newlines. Read back, it is exactly the table, as long as no month key
      holds a separator. */
  function CsvContent(data: seq<Record>): (content: string)
    ensures PlainMonths(data) ==> ReadCsv(content) == Table(data)
  {
    if PlainMonths(data) then
      TablePlain(data);
      TableShape(data);
      ReadJoined(Table(data));
      JoinWith(MapSeq(Table(data), JoinComma), '\n')
    else
      JoinWith(MapSeq(Table(data), JoinComma), '\n')
  }

  /** Splitting the file into lines and the lines into fields. */
  function ReadCsv(content: string): seq<seq<string>> {
    MapSeq(SplitOn(content, '\n'), SplitComma)
  }

  /** No month key holds a comma or a newline: the export does not quote. */
  predicate PlainMonths(data: seq<Record>) {
    forall i :: 0 <= i < |data| ==> ',' !in data[i].month && '\n' !in data[i].month
  }

  lemma {:induction false} JoinAvoids(fields: seq<string>, sep: char, c: char)
    requires c != sep && NoneContains(fields, c)
    ensures c !in JoinWith(fields, sep)
    decreases |fields|
  {
    if |fields| > 1 {
      JoinAvoids(fields[1..], sep, c);
    }
  }

  lemma ValueFieldsPlain(a: Amounts, names: seq<string>)
    ensures NoneContains(ValueFields(a, names), ',') && NoneContains(ValueFields(a, names), '\n')
  {
    var v := ValueFields(a, names);
    forall j | 0 <= j < |v| ensures ',' !in v[j] && '\n' !in v[j] {
      IntToDecimalHasNoSeparator(AmountOr0(a, names[j]), ',');
      IntToDecimalHasNoSeparator(AmountOr0(a, names[j]), '\n');
    }
  }

  lemma AppendPlain(a: seq<string>, b: seq<string>, c: char)
    requires NoneContains(a, c) && NoneContains(b, c)
    ensures NoneContains(a + b, c)
  {
    forall j | 0 <= j < |a + b| ensures c !in (a + b)[j] {
      if j >= |a| {
        assert (a + b)[j] == b[j - |a|];
      }
    }
  }

  lemma RowPlain(r: Record)
    requires ',' !in r.month && '\n' !in r.month
    ensures NoneContains(RowFields(r), ',') && NoneContains(RowFields(r), '\n')
  {
    var inc := ValueFields(r.incomes, Contributors);
    var exp := ValueFields(r.expenses, ExpenseCategories);
    ValueFieldsPlain(r.incomes, Contributors);
    ValueFieldsPlain(r.expenses, ExpenseCategories);
    AppendPlain([r.month], inc, ',');
    AppendPlain([r.month] + inc, exp, ',');
    AppendPlain([r.month], inc, '\n');
    AppendPlain([r.month] + inc, exp, '\n');
  }

  lemma LabelsPlain(names: seq<string>, labelOf: string -> string, suffix: string)
    requires NoneContains(names, ',') && NoneContains(names, '\n')
    requires ',' !in suffix && '\n' !in suffix
    requires forall c :: labelOf(c) == c + suffix
    ensures NoneContains(MapSeq(names, labelOf), ',') && NoneContains(MapSeq(names, labelOf), '\n')
  {
  }

  lemma ContributorsPlain()
    ensures NoneContains(Contributors, ',') && NoneContains(Contributors, '\n')
  {
  }

  lemma CategoriesPlain()
    ensures NoneContains(ExpenseCategories, ',') && NoneContains(ExpenseCategories, '\n')
  {
  }

  lemma HeaderPlain()
    ensures NoneContains(HeaderFields(), ',') && NoneContains(HeaderFields(), '\n')
  {
    var inc := MapSeq(Contributors, IncomeLabel);
    var exp := MapSeq(ExpenseCategories, ExpenseLabel);
    ContributorsPlain();
    CategoriesPlain();
    LabelsPlain(Contributors, IncomeLabel, " (Income)");
    LabelsPlain(ExpenseCategories, ExpenseLabel, " (Expense)");
    AppendPlain(["Month"], inc, ',');
    AppendPlain(["Month"] + inc, exp, ',');
    AppendPlain(["Month"], inc, '\n');
    AppendPlain(["Month"] + inc, exp, '\n');
  }

  lemma DataRowsPlain(data: seq<Record>)
    requires PlainMonths(data)
    ensures forall k :: 0 <= k < |DataRows(data)| ==>
      NoneContains(DataRows(data)[k], ',') && NoneContains(DataRows(data)[k], '\n')
  {
    var rows := DataRows(data);
    var sorted := SortBy(data, MonthOf, Descending);
    SortBySameElements(data, MonthOf, Descending);
    forall k | 0 <= k < |rows| ensures NoneContains(rows[k], ',') && NoneContains(rows[k], '\n') {
      var r := sorted[k];
      assert r in data;
      RowPlain(r);
    }
  }

  lemma ConsPlain(h: seq<string>, rows: seq<seq<string>>, c: char)
    requires NoneContains(h, c)
    requires forall k :: 0 <= k < |rows| ==> NoneContains(rows[k], c)
    ensures forall k :: 0 <= k < |[h] + rows| ==> NoneContains(([h] + rows)[k], c)
  {
    var t := [h] + rows;
    forall k | 1 <= k < |t| ensures t[k] == rows[k - 1] {
    }
  }

  lemma TablePlain(data: seq<Record>)
    requires PlainMonths(data)
    ensures forall k :: 0 <= k < |Table(data)| ==>
      NoneContains(Table(data)[k], ',') && NoneContains(Table(data)[k], '\n')
  {
    HeaderPlain();
    DataRowsPlain(data);
    ConsPlain(HeaderFields(), DataRows(data), ',');
    ConsPlain(HeaderFields(), DataRows(data), '\n');
  }

  /** Every line of the table, header included, has the same ten fields. */
  lemma TableShape(data: seq<Record>)
    ensures 1 <= |Table(data)|
    ensures forall k :: 0 <= k < |Table(data)| ==> |Table(data)[k]| == 1 + |Contributors| + |ExpenseCategories|
  {
    var rows := DataRows(data);
    HeaderWidth();
    ConsWidths(HeaderFields(), rows, 1 + |Contributors| + |ExpenseCategories|);
    assert Table(data) == [HeaderFields()] + rows;
  }

  lemma HeaderWidth()
    ensures |HeaderFields()| == 1 + |Contributors| + |ExpenseCategories|
  {
  }

  lemma ConsWidths(h: seq<string>, rows: seq<seq<string>>, n: nat)
    requires |h| == n
    requires forall k :: 0 <= k < |rows| ==> |rows[k]| == n
    ensures forall k :: 0 <= k < |[h] + rows| ==> |([h] + rows)[k]| == n
  {
    var t := [h] + rows;
    forall k | 1 <= k < |t| ensures t[k] == rows[k - 1] {
    }
  }

  /** Joining a table of separator-free fields and splitting it again
      gives back the table. */
  lemma {:induction false} ReadJoined(t: seq<seq<string>>)
    requires 1 <= |t|
    requires forall k :: 0 <= k < |t| ==> 1 <= |t[k]| && NoneContains(t[k], ',') && NoneContains(t[k], '\n')
    ensures ReadCsv(JoinWith(MapSeq(t, JoinComma), '\n')) == t
  {
    var lines := MapSeq(t, JoinComma);
    forall k | 0 <= k < |lines| ensures '\n' !in lines[k] {
      JoinAvoids(t[k], ',', '\n');
    }
    SplitJoin(lines, '\n');
    forall k | 0 <= k < |t| ensures SplitComma(lines[k]) == t[k] {
      SplitJoin(t[k], ',');
    }
  }
}
