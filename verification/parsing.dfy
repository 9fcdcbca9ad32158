/** Reading the input file into a dataset: deciding the layout (`check_row_or_col`),
    cutting lines into tokens (`strip_data`), building the dictionary for the rows layout
    (`insert_rows`) and for the columns layout (`insert_cols`), and rejecting unusable data
    (`check_data_validation`).

    Python's `float()` is a parameter `parse` of every operation that converts tokens;
    the model says nothing about the numbers it produces.
 */
module Parsing {
  import opened Errors
  import opened Text
  import Statistics

  // ---------------------------------------------------------------------------
  // check_row_or_col
  // ---------------------------------------------------------------------------

  /** How the measurements are laid out in the file. */
  datatype Orientation = Rows | Columns

  /** `check_row_or_col(file)`: the columns layout when the first line mentions both
      `dx` and `dy` in any letter case, the rows layout otherwise.  IndexError on an
      empty file. */
  function CheckRowOrCol(lines: seq<string>): (r: Result<Orientation>)
    ensures r.Err? <==> |lines| == 0
    ensures r.Err? ==> r.error == IndexOutOfRange
    ensures r.Ok? ==> (r.value == Columns <==>
                         (exists i :: OccursAt(Lower(lines[0]), "dx", i)) &&
                         (exists i :: OccursAt(Lower(lines[0]), "dy", i)))
  {
    if |lines| == 0 then
      Err(IndexOutOfRange)
    else
      var header := Lower(lines[0]);
      if Contains(header, "dx") && Contains(header, "dy") then Ok(Columns) else Ok(Rows)
  }

  /** Only the letters of the header, not their case, decide the layout. */
  lemma OrientationIgnoresCase(lines: seq<string>, header: string)
    requires |lines| > 0
    ensures CheckRowOrCol([header] + lines[1..]) == CheckRowOrCol([Lower(header)] + lines[1..])
  {
    LowerIdempotent(header);
  }

  // ---------------------------------------------------------------------------
  // strip_data
  // ---------------------------------------------------------------------------

  /** The tokens of a line with a colon: the stripped line cut at every colon. */
  function ColonCut(line: string): (r: seq<string>)
    requires ':' in line
    ensures |r| >= 2
    ensures forall k :: 0 <= k < |r| ==> ':' !in r[k]
  {
    var s := StripNewlines(Strip(line));
    StripNewlinesAfterStrip(line);
    StripKeeps(line, ':');
    SplitOnCuts(s, ':');
    SplitOn(s, ':')
  }

  /** The tokens of any other line: the stripped line lower-cased and cut at whitespace. */
  function WordCut(line: string): (r: seq<string>)
    ensures |r| == 0 <==> AllSpace(line)
  {
    var s := StripNewlines(Strip(line));
    StripNewlinesAfterStrip(line);
    LowerKeepsSpaces(s);
    StripEmptyIffBlank(line);
    AllSpaceOfLower(s);
    SplitWs(Lower(s))
  }

  /** The tokens `strip_data` makes of one line: a line with a colon is cut at every
      colon, any other line is lower-cased and cut at whitespace. */
  function SplitLine(line: string): (r: seq<string>)
    ensures ':' in line ==> |r| >= 2
    ensures ':' in line ==> forall k :: 0 <= k < |r| ==> ':' !in r[k]
    ensures ':' !in line ==> (|r| == 0 <==> AllSpace(line))
  {
    if ':' in line then ColonCut(line) else WordCut(line)
  }

  /** `f` applied to every line, one entry per line. */
  function MapLines(lines: seq<string>, f: string -> seq<string>): (cuts: seq<seq<string>>)
    ensures |cuts| == |lines|
    ensures forall j :: 0 <= j < |lines| ==> cuts[j] == f(lines[j])
  {
    seq(|lines|, j requires 0 <= j < |lines| => f(lines[j]))
  }

  lemma MapLinesAppend(a: seq<string>, b: seq<string>, f: string -> seq<string>)
    ensures MapLines(a + b, f) == MapLines(a, f) + MapLines(b, f)
  {
  }

  /** The tokens of every line, one entry per line. */
  function Tokenize(lines: seq<string>): seq<seq<string>> {
    MapLines(lines, SplitLine)
  }

  /** The `if item_value_string:` test applied to every entry: the empty ones are left out,
      the others kept in order. */
  function NonEmptyRows(cuts: seq<seq<string>>): (rows: seq<seq<string>>)
    ensures |rows| <= |cuts|
    ensures forall k :: 0 <= k < |rows| ==> |rows[k]| > 0
  {
    if |cuts| == 0 then
      []
    else
      (if |cuts[0]| > 0 then [cuts[0]] else []) + NonEmptyRows(cuts[1..])
  }

  /** `strip_data(data_list)`: the tokens of every line, in order, leaving out the lines
      that give none. */
  function StripData(lines: seq<string>): (rows: seq<seq<string>>)
    ensures |rows| <= |lines|
    ensures forall k :: 0 <= k < |rows| ==> |rows[k]| > 0
  {
    NonEmptyRows(Tokenize(lines))
  }

  lemma {:induction false} NonEmptyRowsAppend(a: seq<seq<string>>, b: seq<seq<string>>)
    ensures NonEmptyRows(a + b) == NonEmptyRows(a) + NonEmptyRows(b)
    decreases |a|
  {
    if |a| > 0 {
      var head := if |a[0]| > 0 then [a[0]] else [];
      var x, y := NonEmptyRows(a[1..]), NonEmptyRows(b);
      assert (a + b)[0] == a[0];
      assert (a + b)[1..] == a[1..] + b;
      NonEmptyRowsAppend(a[1..], b);
      assert NonEmptyRows(a + b) == head + (x + y);
      assert head + (x + y) == (head + x) + y;
    } else {
      assert a + b == b;
    }
  }

  /** Every kept entry is one of the entries filtered. */
  lemma {:induction false} NonEmptyRowsFrom(cuts: seq<seq<string>>)
    ensures forall k :: 0 <= k < |NonEmptyRows(cuts)| ==> NonEmptyRows(cuts)[k] in cuts
    decreases |cuts|
  {
    if |cuts| > 0 {
      NonEmptyRowsFrom(cuts[1..]);
      var head := if |cuts[0]| > 0 then [cuts[0]] else [];
      forall k | 0 <= k < |NonEmptyRows(cuts)|
        ensures NonEmptyRows(cuts)[k] in cuts
      {
        if k >= |head| {
          assert NonEmptyRows(cuts)[k] == NonEmptyRows(cuts[1..])[k - |head|];
          assert NonEmptyRows(cuts[1..])[k - |head|] in cuts[1..];
        }
      }
    }
  }

  /** `strip_data` works line by line: the rows of two files read one after the other
      are the rows of the first followed by those of the second. */
  lemma StripDataAppend(a: seq<string>, b: seq<string>)
    ensures StripData(a + b) == StripData(a) + StripData(b)
  {
    MapLinesAppend(a, b, SplitLine);
    NonEmptyRowsAppend(Tokenize(a), Tokenize(b));
  }

  lemma NonEmptyRowsSingle(cut: seq<string>)
    ensures NonEmptyRows([cut]) == [] <==> |cut| == 0
  {
    assert [cut][1..] == [];
  }

  /** `row` is the tokens of one of the `lines`. */
  predicate CutFrom(row: seq<string>, lines: seq<string>) {
    exists j :: 0 <= j < |lines| && row == SplitLine(lines[j])
  }

  /** Every row comes from a line of the input. */
  lemma StripDataRows(lines: seq<string>)
    ensures forall k :: 0 <= k < |StripData(lines)| ==> CutFrom(StripData(lines)[k], lines)
  {
    KeptRowsFrom(lines, SplitLine);
  }

  /** Every entry kept from the cuts of the lines is the cut of one of the lines. */
  lemma KeptRowsFrom(lines: seq<string>, f: string -> seq<string>)
    ensures forall k :: 0 <= k < |NonEmptyRows(MapLines(lines, f))| ==>
              exists j :: 0 <= j < |lines| && NonEmptyRows(MapLines(lines, f))[k] == f(lines[j])
  {
    var cuts := MapLines(lines, f);
    var rows := NonEmptyRows(cuts);
    NonEmptyRowsFrom(cuts);
    forall k | 0 <= k < |rows|
      ensures exists j :: 0 <= j < |lines| && rows[k] == f(lines[j])
    {
      var j :| 0 <= j < |cuts| && cuts[j] == rows[k];
      assert rows[k] == f(lines[j]);
    }
  }

  /** A line is dropped exactly when it has no colon and nothing but whitespace. */
  lemma LineDropped(line: string)
    ensures StripData([line]) == [] <==> ':' !in line && AllSpace(line)
  {
    TokenizeOne(line);
    NonEmptyRowsSingle(SplitLine(line));
  }

  lemma TokenizeOne(line: string)
    ensures Tokenize([line]) == [SplitLine(line)]
  {
  }

  /** A line without a colon gives non-empty, whitespace-free, lower-case tokens. */
  lemma WordsAreLowerCase(line: string)
    requires ':' !in line
    ensures forall k :: 0 <= k < |SplitLine(line)| ==> IsWord(SplitLine(line)[k])
    ensures forall k, i :: 0 <= k < |SplitLine(line)| && 0 <= i < |SplitLine(line)[k]| ==>
              !IsUpper(SplitLine(line)[k][i])
  {
    var s := Lower(StripNewlines(Strip(line)));
    forall k, i | 0 <= k < |SplitLine(line)| && 0 <= i < |SplitLine(line)[k]|
      ensures !IsUpper(SplitLine(line)[k][i])
    {
      assert SplitLine(line)[k][i] in s;
      LowerHasNoUpper(StripNewlines(Strip(line)), SplitLine(line)[k][i]);
    }
  }

  /** Round trip of a line with a colon: joining its pieces back with colons gives the
      stripped line, so no character but the surrounding whitespace is lost. */
  lemma ColonLineRoundTrip(line: string)
    requires ':' in line
    ensures Join(SplitLine(line), ':') == Strip(line)
  {
    StripNewlinesAfterStrip(line);
    JoinSplitOn(Strip(line), ':');
  }

  // ---------------------------------------------------------------------------
  // The dataset
  // ---------------------------------------------------------------------------

  /** A value of the dictionary the reader builds: a list of numbers, or a text such as
      an axis title. */
  datatype Field = Numbers(values: seq<real>) | Label(text: string)

  /** The dictionary from titles (`x`, `dx`, `y`, `dy`, `a`, `b`, `x axis`, ...) to values. */
  type Dataset = map<string, Field>

  /** `f` applied to every token, in order. */
  function MapTokens(tokens: seq<string>, f: string -> real): (vs: seq<real>)
    ensures |vs| == |tokens|
    ensures forall i :: 0 <= i < |tokens| ==> vs[i] == f(tokens[i])
  {
    seq(|tokens|, i requires 0 <= i < |tokens| => f(tokens[i]))
  }

  /** Mapping the first token, then the rest, is mapping them all. */
  lemma MapTokensCons(vs: seq<real>, tokens: seq<string>, f: string -> real)
    requires |tokens| > 0
    ensures vs + [f(tokens[0])] + MapTokens(tokens[1..], f) == vs + MapTokens(tokens, f)
  {
    assert MapTokens(tokens, f) == [f(tokens[0])] + MapTokens(tokens[1..], f);
  }

  /** `float(num.strip())` */
  function ParseStripped(parse: string -> real): string -> real {
    token => parse(Strip(token))
  }

  /** `float(num.strip())` for every token, in order. */
  function ParseAll(tokens: seq<string>, parse: string -> real): seq<real> {
    MapTokens(tokens, ParseStripped(parse))
  }

  // ---------------------------------------------------------------------------
  // insert_rows
  // ---------------------------------------------------------------------------

  /** The inner loop of `insert_rows` over the tokens after the title, starting from the
      value `acc`: under a title with a space every token replaces the value by its
      stripped text, so the last one is kept; under any other title every token is
      parsed and appended. */
  function FillRow(title: string, acc: Field, tokens: seq<string>, parse: string -> real): Field
    requires ' ' !in title ==> acc.Numbers?
    decreases |tokens|
  {
    if |tokens| == 0 then
      acc
    else if ' ' in title then
      FillRow(title, Label(Strip(tokens[0])), tokens[1..], parse)
    else
      FillRow(title, Numbers(acc.values + [ParseStripped(parse)(tokens[0])]), tokens[1..], parse)
  }

  /** Under a title with a space the value ends as the stripped last token, or stays as it
      was when there is none. */
  lemma {:induction false} FillRowLabel(title: string, acc: Field, tokens: seq<string>, parse: string -> real)
    requires ' ' in title
    ensures FillRow(title, acc, tokens, parse) == (if |tokens| == 0 then acc else Label(Strip(tokens[|tokens| - 1])))
    decreases |tokens|
  {
    if |tokens| == 1 {
      FillRowLabelStep(title, acc, tokens, parse);
      assert tokens[1..] == [];
    } else if |tokens| > 1 {
      var first, rest := Label(Strip(tokens[0])), tokens[1..];
      FillRowLabelStep(title, acc, tokens, parse);
      FillRowLabel(title, first, rest, parse);
      assert rest[|rest| - 1] == tokens[|tokens| - 1];
    }
  }

  lemma FillRowLabelStep(title: string, acc: Field, tokens: seq<string>, parse: string -> real)
    requires ' ' in title && |tokens| > 0
    ensures FillRow(title, acc, tokens, parse) == FillRow(title, Label(Strip(tokens[0])), tokens[1..], parse)
  {
  }

  /** Under any other title every token is parsed and appended, in order. */
  lemma {:induction false} FillRowNumbers(title: string, acc: Field, tokens: seq<string>, parse: string -> real)
    requires ' ' !in title && acc.Numbers?
    ensures FillRow(title, acc, tokens, parse) == Numbers(acc.values + ParseAll(tokens, parse))
    decreases |tokens|
  {
    if |tokens| == 0 {
      assert acc.values + ParseAll(tokens, parse) == acc.values;
    } else {
      var convert := ParseStripped(parse);
      FillRowNumbers(title, Numbers(acc.values + [convert(tokens[0])]), tokens[1..], parse);
      MapTokensCons(acc.values, tokens, convert);
    }
  }

  /** The value `insert_rows` stores under the title of a line. */
  function RowField(row: seq<string>, parse: string -> real): Field
    requires |row| > 0
  {
    FillRow(row[0], Numbers([]), row[1..], parse)
  }

  /** The titles of the non-empty rows. */
  function Titles(rows: seq<seq<string>>): set<string> {
    set k | 0 <= k < |rows| && |rows[k]| > 0 :: rows[k][0]
  }

  /** Row `k` is the last row with its title. */
  predicate LastTitled(rows: seq<seq<string>>, k: int) {
    && 0 <= k < |rows|
    && |rows[k]| > 0
    && forall k' :: k < k' < |rows| && |rows[k']| > 0 ==> rows[k'][0] != rows[k][0]
  }

  /** Some row is empty: `item.pop(0)` raises IndexError on it. */
  predicate SomeEmpty(rows: seq<seq<string>>) {
    exists k :: 0 <= k < |rows| && |rows[k]| == 0
  }

  /** The loop of `insert_rows` over the rows, starting from the dictionary `d`. */
  function InsertRowsFrom(d: Dataset, rows: seq<seq<string>>, parse: string -> real): (r: Result<Dataset>)
    ensures r.Err? <==> SomeEmpty(rows)
    ensures r.Err? ==> r.error == IndexOutOfRange
    ensures r.Ok? ==> r.value.Keys == d.Keys + Titles(rows)
    ensures r.Ok? ==> forall key :: key in d && key !in Titles(rows) ==> r.value[key] == d[key]
    ensures r.Ok? ==> forall k :: LastTitled(rows, k) ==> r.value[rows[k][0]] == RowField(rows[k], parse)
    decreases |rows|
  {
    if |rows| == 0 then
      Ok(d)
    else if |rows[0]| == 0 then
      Err(IndexOutOfRange)
    else
      var title := rows[0][0];
      var r := InsertRowsFrom(d[title := RowField(rows[0], parse)], rows[1..], parse);
      InsertRowsStep(d, rows, parse, r);
      r
  }

  /** How one step of the loop of `insert_rows` relates the rows to the rest of them. */
  lemma InsertRowsStep(d: Dataset, rows: seq<seq<string>>, parse: string -> real, r: Result<Dataset>)
    requires |rows| > 0 && |rows[0]| > 0
    requires r.Err? <==> SomeEmpty(rows[1..])
    requires r.Ok? ==> r.value.Keys == d[rows[0][0] := RowField(rows[0], parse)].Keys + Titles(rows[1..])
    requires r.Ok? ==> forall key :: key in d[rows[0][0] := RowField(rows[0], parse)] && key !in Titles(rows[1..]) ==>
                         r.value[key] == d[rows[0][0] := RowField(rows[0], parse)][key]
    requires r.Ok? ==> forall k :: LastTitled(rows[1..], k) ==> r.value[rows[1..][k][0]] == RowField(rows[1..][k], parse)
    ensures r.Err? <==> SomeEmpty(rows)
    ensures r.Ok? ==> r.value.Keys == d.Keys + Titles(rows)
    ensures r.Ok? ==> forall key :: key in d && key !in Titles(rows) ==> r.value[key] == d[key]
    ensures r.Ok? ==> forall k :: LastTitled(rows, k) ==> r.value[rows[k][0]] == RowField(rows[k], parse)
  {
    var title := rows[0][0];
    var rest := rows[1..];
    assert SomeEmpty(rows) ==> SomeEmpty(rest) by {
      if SomeEmpty(rows) {
        var k :| 0 <= k < |rows| && |rows[k]| == 0;
        assert |rest[k - 1]| == 0;
      }
    }
    assert SomeEmpty(rest) ==> SomeEmpty(rows) by {
      if SomeEmpty(rest) {
        var k :| 0 <= k < |rest| && |rest[k]| == 0;
        assert |rows[k + 1]| == 0;
      }
    }
    assert Titles(rows) == {title} + Titles(rest) by {
      forall t | t in Titles(rows)
        ensures t in {title} + Titles(rest)
      {
        var k :| 0 <= k < |rows| && |rows[k]| > 0 && rows[k][0] == t;
        if k > 0 {
          assert rest[k - 1][0] == t;
        }
      }
      forall t | t in Titles(rest)
        ensures t in Titles(rows)
      {
        var k :| 0 <= k < |rest| && |rest[k]| > 0 && rest[k][0] == t;
        assert rows[k + 1][0] == t;
      }
    }
    if r.Ok? {
      forall k | LastTitled(rows, k)
        ensures r.value[rows[k][0]] == RowField(rows[k], parse)
      {
        if k == 0 {
          assert title !in Titles(rest);
        } else {
          assert LastTitled(rest, k - 1) by {
            forall k' | k - 1 < k' < |rest| && |rest[k']| > 0
              ensures rest[k'][0] != rest[k - 1][0]
            {
              assert rest[k'] == rows[k' + 1];
            }
          }
          assert rest[k - 1] == rows[k];
        }
      }
    }
  }

  /** `insert_rows(data_list)`: every line becomes the entry of its first token.  A title
      containing a space stores the last remaining token, stripped (no tokens store an
      empty list); any other title stores its parsed numbers in order.  A later line with
      the same title replaces the earlier one.  IndexError on an empty line. */
  function InsertRows(rows: seq<seq<string>>, parse: string -> real): (r: Result<Dataset>)
    ensures r.Err? <==> SomeEmpty(rows)
    ensures r.Err? ==> r.error == IndexOutOfRange
    ensures r.Ok? ==> r.value.Keys == Titles(rows)
    ensures r.Ok? ==> forall k :: LastTitled(rows, k) ==> r.value[rows[k][0]] == RowField(rows[k], parse)
  {
    InsertRowsFrom(map[], rows, parse)
  }

  // ---------------------------------------------------------------------------
  // insert_cols
  // ---------------------------------------------------------------------------

  /** The number of leading tokens of `row` without a space: how many numbers the first
      loop of `insert_cols` takes from the row before a label blocks it. */
  function PlainPrefix(row: seq<string>): (k: nat)
    ensures k <= |row|
    ensures forall i :: 0 <= i < k ==> ' ' !in row[i]
    ensures k < |row| ==> ' ' in row[k]
  {
    if |row| == 0 || ' ' in row[0] then 0 else 1 + PlainPrefix(row[1..])
  }

  /** What the first loop has left of a data row after `t` passes: each pass pops one
      token, until the row is empty or starts with a token holding a space. */
  function Remaining(row: seq<string>, t: nat): (rest: seq<string>)
    ensures rest == row[if t < PlainPrefix(row) then t else PlainPrefix(row)..]
    ensures |rest| > 0 && ' ' !in rest[0] <==> t < PlainPrefix(row)
  {
    row[if t < PlainPrefix(row) then t else PlainPrefix(row)..]
  }

  /** `v` is token `t`, parsed, of some data row whose plain prefix is longer than `t`. */
  predicate ParsedFromSomeRow(v: real, data: seq<seq<string>>, t: nat, parse: string -> real) {
    exists j :: 0 <= j < |data| && t < PlainPrefix(data[j]) && v == parse(data[j][t])
  }

  /** Column `t`: token `t`, parsed, of every data row whose plain prefix is longer than
      `t`, in the order of the rows. */
  function Column(data: seq<seq<string>>, t: nat, parse: string -> real): (c: seq<real>)
    ensures |c| <= |data|
    ensures forall k :: 0 <= k < |c| ==> ParsedFromSomeRow(c[k], data, t, parse)
  {
    if |data| == 0 then
      []
    else
      var last := data[|data| - 1];
      Column(data[..|data| - 1], t, parse) + (if t < PlainPrefix(last) then [parse(last[t])] else [])
  }

  /** The dictionary after the first `t` passes of the first loop: title `i` holds column
      `i`, a repeated title holding its last column. */
  function ColumnsUpTo(titles: seq<string>, data: seq<seq<string>>, t: nat, parse: string -> real): (d: Dataset)
    requires t <= |titles|
    ensures d.Keys == set i | 0 <= i < t :: titles[i]
  {
    if t == 0 then
      map[]
    else
      ColumnsUpTo(titles, data, t - 1, parse)[titles[t - 1] := Numbers(Column(data, t - 1, parse))]
  }

  /** A row starting with a token that holds a space: a label such as `x axis: time`. */
  predicate IsLabelRow(item: seq<string>) {
    |item| > 0 && ' ' in item[0]
  }

  /** Some label row holds nothing but its key. */
  predicate SomeBareLabel(items: seq<seq<string>>) {
    exists k :: 0 <= k < |items| && IsLabelRow(items[k]) && |items[k]| < 2
  }

  /** No row is a label row. */
  predicate NoLabels(items: seq<seq<string>>) {
    forall k :: 0 <= k < |items| ==> !IsLabelRow(items[k])
  }

  lemma BareLabelStep(items: seq<seq<string>>)
    requires |items| > 0
    ensures SomeBareLabel(items) <==> (IsLabelRow(items[0]) && |items[0]| < 2) || SomeBareLabel(items[1..])
    ensures NoLabels(items) <==> !IsLabelRow(items[0]) && NoLabels(items[1..])
  {
    if SomeBareLabel(items) {
      var k :| 0 <= k < |items| && IsLabelRow(items[k]) && |items[k]| < 2;
      if k > 0 {
        assert items[1..][k - 1] == items[k];
      }
    }
    if SomeBareLabel(items[1..]) {
      var k :| 0 <= k < |items[1..]| && IsLabelRow(items[1..][k]) && |items[1..][k]| < 2;
      assert items[k + 1] == items[1..][k];
    }
    if !IsLabelRow(items[0]) && NoLabels(items[1..]) {
      forall k | 0 <= k < |items|
        ensures !IsLabelRow(items[k])
      {
        if k > 0 {
          assert items[k] == items[1..][k - 1];
        }
      }
    }
  }

  /** The keys of the label rows. */
  function LabelKeys(items: seq<seq<string>>): set<string> {
    set k | 0 <= k < |items| && IsLabelRow(items[k]) :: items[k][0]
  }

  /** Row `k` is the last label row with its key. */
  predicate LastLabel(items: seq<seq<string>>, k: int) {
    && 0 <= k < |items|
    && IsLabelRow(items[k])
    && forall k' :: k < k' < |items| && IsLabelRow(items[k']) ==> items[k'][0] != items[k][0]
  }

  /** The dictionary after the second loop has looked at `item`: a label row with a value
      stores that value, stripped, under its key; any other row changes nothing. */
  function Stored(item: seq<string>, d: Dataset): Dataset {
    if IsLabelRow(item) && |item| >= 2 then d[item[0] := Label(Strip(item[1]))] else d
  }

  /** The second loop of `insert_cols`: every row that starts with a token holding a space
      stores its second token, stripped, under the first.  The right-hand side
      `item[1].strip()` is evaluated before `item.pop(0)`, so the value is the token after
      the key; a row holding only the key raises IndexError. */
  function AddLabels(items: seq<seq<string>>, d: Dataset): (r: Result<Dataset>)
    ensures r.Err? <==> SomeBareLabel(items)
    ensures r.Err? ==> r.error == IndexOutOfRange
    ensures r.Ok? ==> r.value.Keys == d.Keys + LabelKeys(items)
    ensures r.Ok? ==> forall key :: key in d && key !in LabelKeys(items) ==> r.value[key] == d[key]
    ensures r.Ok? ==> forall k :: LastLabel(items, k) ==>
              |items[k]| >= 2 && r.value[items[k][0]] == Label(Strip(items[k][1]))
    ensures r.Ok? && NoLabels(items) ==> r.value == d
    decreases |items|
  {
    if |items| == 0 then
      Ok(d)
    else
      BareLabelStep(items);
      if IsLabelRow(items[0]) && |items[0]| < 2 then
        Err(IndexOutOfRange)
      else
        var r := AddLabels(items[1..], Stored(items[0], d));
        AddLabelsStep(items, d, r);
        r
  }

  /** How one step of the second loop relates the label rows to the rest of them. */
  lemma AddLabelsStep(items: seq<seq<string>>, d: Dataset, r: Result<Dataset>)
    requires |items| > 0 && (IsLabelRow(items[0]) ==> |items[0]| >= 2)
    requires r.Ok? ==> r.value.Keys == Stored(items[0], d).Keys + LabelKeys(items[1..])
    requires r.Ok? ==> forall key :: key in Stored(items[0], d) && key !in LabelKeys(items[1..]) ==>
                         r.value[key] == Stored(items[0], d)[key]
    requires r.Ok? ==> forall k :: LastLabel(items[1..], k) ==>
                         |items[1..][k]| >= 2 && r.value[items[1..][k][0]] == Label(Strip(items[1..][k][1]))
    ensures r.Ok? ==> r.value.Keys == d.Keys + LabelKeys(items)
    ensures r.Ok? ==> forall key :: key in d && key !in LabelKeys(items) ==> r.value[key] == d[key]
    ensures r.Ok? ==> forall k :: LastLabel(items, k) ==>
              |items[k]| >= 2 && r.value[items[k][0]] == Label(Strip(items[k][1]))
  {
    LabelKeysStep(items);
    if r.Ok? {
      UntouchedStep(items, d, r.value);
      forall k | LastLabel(items, k)
        ensures |items[k]| >= 2 && r.value[items[k][0]] == Label(Strip(items[k][1]))
      {
        LastLabelValue(items, d, r.value, k);
      }
    }
  }

  /** A key of `d` that no label row names still holds its value after every step. */
  lemma UntouchedStep(items: seq<seq<string>>, d: Dataset, v: Dataset)
    requires |items| > 0 && (IsLabelRow(items[0]) ==> |items[0]| >= 2)
    requires LabelKeys(items) == (if IsLabelRow(items[0]) then {items[0][0]} else {}) + LabelKeys(items[1..])
    requires v.Keys == Stored(items[0], d).Keys + LabelKeys(items[1..])
    requires forall key :: key in Stored(items[0], d) && key !in LabelKeys(items[1..]) ==>
               v[key] == Stored(items[0], d)[key]
    ensures forall key :: key in d && key !in LabelKeys(items) ==> v[key] == d[key]
  {
    forall key | key in d && key !in LabelKeys(items)
      ensures v[key] == d[key]
    {
      assert key in Stored(items[0], d) && Stored(items[0], d)[key] == d[key];
    }
  }

  /** The value a later step left under the key of the last label row `k`. */
  lemma LastLabelValue(items: seq<seq<string>>, d: Dataset, v: Dataset, k: int)
    requires |items| > 0 && (IsLabelRow(items[0]) ==> |items[0]| >= 2)
    requires v.Keys == Stored(items[0], d).Keys + LabelKeys(items[1..])
    requires forall key :: key in Stored(items[0], d) && key !in LabelKeys(items[1..]) ==>
               v[key] == Stored(items[0], d)[key]
    requires forall k :: LastLabel(items[1..], k) ==>
               |items[1..][k]| >= 2 && v[items[1..][k][0]] == Label(Strip(items[1..][k][1]))
    requires LastLabel(items, k)
    ensures |items[k]| >= 2 && v[items[k][0]] == Label(Strip(items[k][1]))
  {
    LastLabelStep(items, k);
    if k > 0 {
      assert items[1..][k - 1] == items[k];
    }
  }

  lemma LabelKeysStep(items: seq<seq<string>>)
    requires |items| > 0
    ensures LabelKeys(items) == (if IsLabelRow(items[0]) then {items[0][0]} else {}) + LabelKeys(items[1..])
  {
    var rest := items[1..];
    forall t | t in LabelKeys(items)
      ensures t in LabelKeys(rest) || (IsLabelRow(items[0]) && t == items[0][0])
    {
      var k :| 0 <= k < |items| && IsLabelRow(items[k]) && items[k][0] == t;
      if k > 0 {
        assert rest[k - 1] == items[k];
      }
    }
    forall t | t in LabelKeys(rest)
      ensures t in LabelKeys(items)
    {
      var k :| 0 <= k < |rest| && IsLabelRow(rest[k]) && rest[k][0] == t;
      assert items[k + 1] == rest[k];
    }
  }

  /** The last label row of `items` is either the first row, whose key no later row has,
      or the last label row of the rest. */
  lemma LastLabelStep(items: seq<seq<string>>, k: int)
    requires LastLabel(items, k)
    ensures k == 0 ==> items[0][0] !in LabelKeys(items[1..])
    ensures k > 0 ==> LastLabel(items[1..], k - 1)
  {
    var rest := items[1..];
    forall k' | k < k' < |items| && IsLabelRow(items[k'])
      ensures rest[k' - 1][0] != items[k][0]
    {
      assert rest[k' - 1] == items[k'];
    }
    if k == 0 {
      forall k' | 0 <= k' < |rest| && IsLabelRow(rest[k'])
        ensures rest[k'][0] != items[0][0]
      {
        assert rest[k'] == items[k' + 1];
      }
    }
  }

  /** The rows as the second loop sees them: the title row untouched, every data row
      with its numbers popped. */
  function Leftovers(rows: seq<seq<string>>): (items: seq<seq<string>>)
    requires |rows| > 0
    ensures |items| == |rows| && items[0] == rows[0]
    ensures forall r :: 1 <= r < |rows| ==> items[r] == Remaining(rows[r], |rows[0]|)
  {
    [rows[0]] + seq(|rows| - 1, r requires 0 <= r < |rows| - 1 => Remaining(rows[r + 1], |rows[0]|))
  }

  /** What `insert_cols(data_list)` computes, stated without the pops: the first row holds
      the titles, title `t` gets column `t` of the data rows, then the labels are added.
      IndexError on an empty list of rows or a label row without a value. */
  function InsertColsSpec(rows: seq<seq<string>>, parse: string -> real): (r: Result<Dataset>)
    ensures r.Err? <==> |rows| == 0 || SomeBareLabel(Leftovers(rows))
    ensures r.Err? ==> r.error == IndexOutOfRange
    ensures r.Ok? ==> r.value.Keys == (set i | 0 <= i < |rows[0]| :: rows[0][i]) + LabelKeys(Leftovers(rows))
    ensures r.Ok? ==> forall i :: 0 <= i < |rows[0]| && LastTitle(rows[0], i) && rows[0][i] !in LabelKeys(Leftovers(rows)) ==>
              r.value[rows[0][i]] == Numbers(Column(rows[1..], i, parse))
    ensures r.Ok? ==> forall k :: LastLabel(Leftovers(rows), k) ==>
              |Leftovers(rows)[k]| >= 2 && r.value[Leftovers(rows)[k][0]] == Label(Strip(Leftovers(rows)[k][1]))
  {
    if |rows| == 0 then
      Err(IndexOutOfRange)
    else
      ColumnsAt(rows[0], rows[1..], parse);
      AddLabels(Leftovers(rows), ColumnsUpTo(rows[0], rows[1..], |rows[0]|, parse))
  }

  /** When every data row offers token `t` before any label, column `t` is token `t` of
      every data row, in order: the file is read column by column. */
  lemma {:induction false} ColumnOfFullRows(data: seq<seq<string>>, t: nat, parse: string -> real)
    requires forall r :: 0 <= r < |data| ==> t < PlainPrefix(data[r]) <= |data[r]|
    ensures |Column(data, t, parse)| == |data|
    ensures forall r :: 0 <= r < |data| ==> Column(data, t, parse)[r] == parse(data[r][t])
    decreases |data|
  {
    if |data| > 0 {
      var init := data[..|data| - 1];
      ColumnOfFullRows(init, t, parse);
      assert forall r :: 0 <= r < |init| ==> init[r] == data[r];
    }
  }

  /** A title that no later title repeats holds its own column. */
  lemma {:induction false} ColumnsUpToAt(titles: seq<string>, data: seq<seq<string>>, t: nat, i: nat, parse: string -> real)
    requires i < t <= |titles|
    requires forall j :: i < j < t ==> titles[j] != titles[i]
    ensures titles[i] in ColumnsUpTo(titles, data, t, parse)
    ensures ColumnsUpTo(titles, data, t, parse)[titles[i]] == Numbers(Column(data, i, parse))
    decreases t
  {
    if i < t - 1 {
      ColumnsUpToAt(titles, data, t - 1, i, parse);
    }
  }

  /** Title `i` is not repeated by a later title. */
  predicate LastTitle(titles: seq<string>, i: int) {
    0 <= i < |titles| && forall j :: i < j < |titles| ==> titles[j] != titles[i]
  }

  /** After all passes, every title that no later title repeats holds its own column. */
  lemma ColumnsAt(titles: seq<string>, data: seq<seq<string>>, parse: string -> real)
    ensures forall i :: LastTitle(titles, i) ==>
              ColumnsUpTo(titles, data, |titles|, parse)[titles[i]] == Numbers(Column(data, i, parse))
  {
    forall i | LastTitle(titles, i)
      ensures ColumnsUpTo(titles, data, |titles|, parse)[titles[i]] == Numbers(Column(data, i, parse))
    {
      ColumnsUpToAt(titles, data, |titles|, i, parse);
    }
  }

  /** A file without labels, where no token holds a space: `insert_cols` gives exactly
      the columns, and the labels loop adds and fails nothing. */
  lemma PlainFileColumns(rows: seq<seq<string>>, parse: string -> real)
    requires |rows| > 0
    requires forall r, i :: 0 <= r < |rows| && 0 <= i < |rows[r]| ==> ' ' !in rows[r][i]
    ensures InsertColsSpec(rows, parse) == Ok(ColumnsUpTo(rows[0], rows[1..], |rows[0]|, parse))
  {
    var items := Leftovers(rows);
    forall k | 0 <= k < |items|
      ensures !IsLabelRow(items[k])
    {
      if k > 0 && |items[k]| > 0 {
        var row := rows[k];
        var m := if |rows[0]| < PlainPrefix(row) then |rows[0]| else PlainPrefix(row);
        assert items[k] == row[m..];
        assert items[k][0] == row[m];
      }
    }
  }

  /** One pop of the first loop: a row still offering a plain token gives up token `t`
      and moves on to what pass `t + 1` leaves; any other row stays as it is. */
  lemma RemainingStep(row: seq<string>, t: nat)
    ensures t < PlainPrefix(row) ==> Remaining(row, t)[0] == row[t] && Remaining(row, t)[1..] == Remaining(row, t + 1)
    ensures t >= PlainPrefix(row) ==> Remaining(row, t + 1) == Remaining(row, t)
  {
  }

  /** Column `t` of the first `i` data rows, extended by one row. */
  lemma ColumnSnoc(rows: seq<seq<string>>, i: int, t: nat, parse: string -> real)
    requires 1 <= i < |rows|
    ensures Column(rows[1..i + 1], t, parse)
         == Column(rows[1..i], t, parse) + (if t < PlainPrefix(rows[i]) then [parse(rows[i][t])] else [])
  {
    var d := rows[1..i + 1];
    assert d[..|d| - 1] == rows[1..i];
    assert d[|d| - 1] == rows[i];
  }

  /** The body of the first loop of `insert_cols` for one data row: when the row is not
      empty and its first token holds no space, the token is popped and parsed. */
  method PopNumber(row: seq<string>, original: seq<string>, t: nat, parse: string -> real)
    returns (taken: seq<real>, row': seq<string>)
    requires row == Remaining(original, t)
    ensures taken == (if t < PlainPrefix(original) then [parse(original[t])] else [])
    ensures row' == Remaining(original, t + 1)
  {
    RemainingStep(original, t);
    if |row| > 0 && ' ' !in row[0] {
      taken, row' := [parse(row[0])], row[1..];
    } else {
      taken, row' := [], row;
    }
  }

  /** Pass `t` of the first loop has reached data row `i`: the rows before it are as the
      pass leaves them, the others as the pass found them. */
  ghost predicate PoppedUpTo(rows: seq<seq<string>>, work: seq<seq<string>>, t: nat, i: int) {
    && |work| == |rows| > 0 && work[0] == rows[0]
    && (forall j :: 1 <= j < i && j < |rows| ==> work[j] == Remaining(rows[j], t + 1))
    && (forall j :: i <= j < |rows| && 1 <= j ==> work[j] == Remaining(rows[j], t))
  }

  lemma PopKeeps(rows: seq<seq<string>>, work: seq<seq<string>>, t: nat, i: int, row: seq<string>)
    requires 1 <= i < |rows| && PoppedUpTo(rows, work, t, i)
    requires row == Remaining(rows[i], t + 1)
    ensures PoppedUpTo(rows, work[i := row], t, i + 1)
  {
  }

  /** One pass of the first loop of `insert_cols`: every data row that starts with a token
      without a space gives it up, parsed, to the column. */
  method TakeColumn(rows: seq<seq<string>>, work: seq<seq<string>>, t: nat, parse: string -> real)
    returns (column: seq<real>, work': seq<seq<string>>)
    requires |work| == |rows| > 0 && work[0] == rows[0]
    requires forall i :: 1 <= i < |rows| ==> work[i] == Remaining(rows[i], t)
    ensures column == Column(rows[1..], t, parse)
    ensures |work'| == |rows| && work'[0] == rows[0]
    ensures forall i :: 1 <= i < |rows| ==> work'[i] == Remaining(rows[i], t + 1)
  {
    column := [];
    work' := work;
    var i := 1;
    while i < |rows|
      invariant 1 <= i <= |rows|
      invariant PoppedUpTo(rows, work', t, i)
      invariant column == Column(rows[1..i], t, parse)
    {
      ColumnSnoc(rows, i, t, parse);
      var taken, row := PopNumber(work'[i], rows[i], t, parse);
      PopKeeps(rows, work', t, i, row);
      column := column + taken;
      work' := work'[i := row];
      i := i + 1;
    }
    assert rows[1..i] == rows[1..];
  }

  /** The second loop of `insert_cols`, over the rows as the first loop left them. */
  method StoreLabels(items: seq<seq<string>>, d0: Dataset) returns (r: Result<Dataset>)
    ensures r == AddLabels(items, d0)
  {
    var d := d0;
    var k := 0;
    while k < |items|
      invariant 0 <= k <= |items|
      invariant AddLabels(items[k..], d) == AddLabels(items, d0)
    {
      var item := items[k];
      assert items[k..][1..] == items[k + 1..];
      if |item| > 0 && ' ' in item[0] {
        if |item| < 2 {
          return Err(IndexOutOfRange);
        }
        var value := Strip(item[1]);
        var key := item[0];   // item.pop(0), evaluated after the value
        d := d[key := Label(value)];
      }
      k := k + 1;
    }
    return Ok(d);
  }

  /** The rows as the first loop leaves them after a pass for every title. */
  lemma LeftoversReached(rows: seq<seq<string>>, work: seq<seq<string>>)
    requires |work| == |rows| > 0 && work[0] == rows[0]
    requires forall i :: 1 <= i < |rows| ==> work[i] == Remaining(rows[i], |rows[0]|)
    ensures work == Leftovers(rows)
  {
  }

  /** The first loop of `insert_cols`: one pass per title, each building a column. */
  method TakeColumns(rows: seq<seq<string>>, parse: string -> real) returns (d: Dataset, work: seq<seq<string>>)
    requires |rows| > 0
    ensures d == ColumnsUpTo(rows[0], rows[1..], |rows[0]|, parse)
    ensures work == Leftovers(rows)
  {
    var titles := rows[0];
    work := rows;
    d := map[];
    var t := 0;
    while t < |titles|
      invariant 0 <= t <= |titles|
      invariant |work| == |rows| && work[0] == rows[0]
      invariant forall i :: 1 <= i < |rows| ==> work[i] == Remaining(rows[i], t)
      invariant d == ColumnsUpTo(titles, rows[1..], t, parse)
    {
      var column;
      column, work := TakeColumn(rows, work, t, parse);
      ColumnsUpToStep(titles, rows[1..], t, parse, d, column);
      d := d[titles[t] := Numbers(column)];
      t := t + 1;
    }
    LeftoversReached(rows, work);
  }

  /** One more pass stores its column under its title. */
  lemma ColumnsUpToStep(titles: seq<string>, data: seq<seq<string>>, t: nat, parse: string -> real,
                        d: Dataset, column: seq<real>)
    requires t < |titles| && d == ColumnsUpTo(titles, data, t, parse) && column == Column(data, t, parse)
    ensures d[titles[t] := Numbers(column)] == ColumnsUpTo(titles, data, t + 1, parse)
  {
  }

  /** `insert_cols(data_list)` as written, popping tokens off the rows as it goes. */
  method InsertCols(rows: seq<seq<string>>, parse: string -> real) returns (r: Result<Dataset>)
    ensures r == InsertColsSpec(rows, parse)
  {
    if |rows| == 0 {
      return Err(IndexOutOfRange);
    }
    var d, work := TakeColumns(rows, parse);
    r := StoreLabels(work, d);
  }

  // ---------------------------------------------------------------------------
  // check_data_validation
  // ---------------------------------------------------------------------------

  /** `len` of a value: the number of numbers, or of characters of a text. */
  function FieldLength(f: Field): nat {
    match f
    case Numbers(vs) => |vs|
    case Label(s) => |s|
  }

  /** `len(data_dict.get(key))`: TypeError when the key is missing (`len(None)`). */
  function Length(d: Dataset, key: string): (r: Result<nat>)
    ensures r.Err? <==> key !in d
    ensures r.Err? ==> r.error == WrongType
    ensures r.Ok? ==> r.value == FieldLength(d[key])
  {
    if key !in d then Err(WrongType) else Ok(FieldLength(d[key]))
  }

  /** The loop `for val in dtot: if val < 0: raise ...` over a list of numbers. */
  function FirstNegative(vs: seq<real>): (r: Result<()>)
    ensures r.Err? <==> exists i :: 0 <= i < |vs| && vs[i] < 0.0
    ensures r.Err? ==> r.error == NegativeUncertainty
    decreases |vs|
  {
    if |vs| == 0 then
      Ok(())
    else if vs[0] < 0.0 then
      Err(NegativeUncertainty)
    else
      var r := FirstNegative(vs[1..]);
      assert (exists i :: 0 <= i < |vs| && vs[i] < 0.0) ==> exists i :: 0 <= i < |vs[1..]| && vs[1..][i] < 0.0 by {
        if exists i :: 0 <= i < |vs| && vs[i] < 0.0 {
          var i :| 0 <= i < |vs| && vs[i] < 0.0;
          assert vs[1..][i - 1] < 0.0;
        }
      }
      r
  }

  /** The values of a field accepted as uncertainties: numbers that are not negative, or
      an empty text. */
  predicate NotNegative(f: Field) {
    match f
    case Numbers(vs) => forall i :: 0 <= i < |vs| ==> vs[i] >= 0.0
    case Label(s) => |s| == 0
  }

  /** The sign loop over the values a field adds to `dtot`: a negative number raises the
      uncertainty error; the first character of a text raises TypeError, since a string
      cannot be compared with 0. */
  function SignCheck(f: Field): (r: Result<()>)
    ensures r.Err? <==> !NotNegative(f)
    ensures r.Err? ==> r.error == (if f.Numbers? then NegativeUncertainty else WrongType)
  {
    match f
    case Numbers(vs) => FirstNegative(vs)
    case Label(s) => if |s| == 0 then Ok(()) else Err(WrongType)
  }

  /** `check_data_validation(data_dict)`: the four lists `x`, `dx`, `y`, `dy` must have one
      length, then every uncertainty in `dx` and `dy` must be non-negative.  The chained
      comparison `len(x) == len(dx) == len(y) == len(dy)` evaluates left to right and stops
      at the first unequal pair, so a missing key after that pair is never looked at. */
  function CheckDataValidation(d: Dataset): (r: Result<()>)
    ensures r.Ok? ==> "x" in d && "dx" in d && "y" in d && "dy" in d
    ensures r.Ok? ==> FieldLength(d["x"]) == FieldLength(d["dx"]) == FieldLength(d["y"]) == FieldLength(d["dy"])
    ensures r.Ok? ==> NotNegative(d["dx"]) && NotNegative(d["dy"])
    ensures "x" !in d || "dx" !in d ==> r == Err(WrongType)
    ensures "x" in d && "dx" in d && FieldLength(d["x"]) != FieldLength(d["dx"]) ==> r == Err(LengthMismatch)
  {
    var lx :- Length(d, "x");
    var ldx :- Length(d, "dx");
    if lx != ldx then
      Err(LengthMismatch)
    else
      var ly :- Length(d, "y");
      if ldx != ly then
        Err(LengthMismatch)
      else
        var ldy :- Length(d, "dy");
        if ly != ldy then
          Err(LengthMismatch)
        else
          var _ :- SignCheck(d["dx"]);
          SignCheck(d["dy"])
  }

  /** The four measured fields are lists of numbers. */
  predicate NumericFields(d: Dataset) {
    && "x" in d && d["x"].Numbers?
    && "dx" in d && d["dx"].Numbers?
    && "y" in d && d["y"].Numbers?
    && "dy" in d && d["dy"].Numbers?
  }

  /** For a dataset whose four fields are numbers, validation succeeds exactly when the
      lengths agree and no uncertainty is negative (zero is accepted); unequal lengths are
      reported as such whatever the signs. */
  lemma ValidationOfNumbers(d: Dataset)
    requires NumericFields(d)
    ensures CheckDataValidation(d).Ok? <==>
              && |d["x"].values| == |d["dx"].values| == |d["y"].values| == |d["dy"].values|
              && (forall i :: 0 <= i < |d["dx"].values| ==> d["dx"].values[i] >= 0.0)
              && (forall i :: 0 <= i < |d["dy"].values| ==> d["dy"].values[i] >= 0.0)
    ensures !(|d["x"].values| == |d["dx"].values| == |d["y"].values| == |d["dy"].values|) ==>
              CheckDataValidation(d) == Err(LengthMismatch)
  {
  }

  /** The measurements of a dataset whose four fields are numbers. */
  function MeasurementsOf(d: Dataset): Statistics.Measurements
    requires NumericFields(d)
  {
    Statistics.Measurements(d["x"].values, d["dx"].values, d["y"].values, d["dy"].values)
  }

  /** Data that pass validation have the shape the fit needs. */
  lemma ValidatedMeasurements(d: Dataset)
    requires NumericFields(d) && CheckDataValidation(d).Ok?
    ensures MeasurementsOf(d).Parallel()
    ensures forall i :: 0 <= i < |MeasurementsOf(d).dy| ==> MeasurementsOf(d).dy[i] >= 0.0
  {
  }

  // ---------------------------------------------------------------------------
  // create_dict
  // ---------------------------------------------------------------------------

  /** `create_dict(file, orientation)`: cut the lines into rows, build the dictionary for
      the layout, then validate it; the dictionary is returned only when it passes. */
  function CreateDict(lines: seq<string>, orientation: Orientation, parse: string -> real): (r: Result<Dataset>)
    ensures r.Ok? ==> CheckDataValidation(r.value).Ok?
    ensures r.Ok? && orientation == Rows ==> r.value.Keys == Titles(StripData(lines))
    ensures orientation == Columns && |StripData(lines)| == 0 ==> r == Err(IndexOutOfRange)
  {
    var rows := StripData(lines);
    var d :- if orientation == Rows then InsertRows(rows, parse) else InsertColsSpec(rows, parse);
    var _ :- CheckDataValidation(d);
    Ok(d)
  }

  /** The rows `strip_data` gives are never empty, so `insert_rows` never fails on them:
      in the rows layout only validation can reject a file. */
  lemma StrippedRowsInsert(lines: seq<string>, orientation: Orientation, parse: string -> real)
    requires orientation == Rows
    ensures InsertRows(StripData(lines), parse).Ok?
    ensures CreateDict(lines, orientation, parse).Err? <==>
              CheckDataValidation(InsertRows(StripData(lines), parse).value).Err?
    ensures CreateDict(lines, orientation, parse).Err? ==>
              CreateDict(lines, orientation, parse).error == CheckDataValidation(InsertRows(StripData(lines), parse).value).error
  {
    var rows := StripData(lines);
    assert !SomeEmpty(rows);
  }
}
