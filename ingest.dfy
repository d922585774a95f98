/**
 * The ingestion run: the date a CSV file's name carries, the choice of the
 * division directories, the date order in which a division's files are
 * loaded, and the run itself, which seeds the catalogs and then parses and
 * adds every dated file of every division that has a schema.
 */
module Ingest {
  import opened Wrappers
  import opened Text
  import opened Seqs
  import opened Calendar
  import opened Records
  import opened Tables
  import opened Utils
  import opened Schemas
  import opened DbOps
  import opened Parsers

  // ---------------------------------------------------------------------------
  // get_date_from_path

  /** `path.name`: the text after the last `/`. */
  function BaseName(path: string): (name: string)
    ensures '/' !in name
    decreases |path|
  {
    if path == [] || path[|path| - 1] == '/' then []
    else BaseName(path[..|path| - 1]) + [path[|path| - 1]]
  }

  /** The name of an entry of a directory is what follows the directory. */
  lemma {:induction false} BaseNameOfChild(dir: string, name: string)
    requires '/' !in name
    ensures BaseName(dir + "/" + name) == name
    decreases |name|
  {
    var p := dir + "/" + name;
    if name == [] {
      assert p[|p| - 1] == '/';
    } else {
      var init := name[..|name| - 1];
      assert p[..|p| - 1] == dir + "/" + init;
      BaseNameOfChild(dir, init);
      assert init + [name[|name| - 1]] == name;
    }
  }

  /** What `get_date_from_path` gives: no date, the date, or the `ValueError`
    * of `strptime`. */
  datatype FileDate = NoDate | Dated(date: Date) | BadDate

  /** Every character is a decimal digit, as `\d` matches it. */
  predicate AllDecimal(s: string) {
    forall k :: 0 <= k < |s| ==> IsDecimalDigit(s[k])
  }

  /** `int` of a text of decimal digits, whatever their script. */
  function DecimalNumber(s: string): (n: nat)
    requires AllDecimal(s)
  {
    if s == [] then 0 else 10 * DecimalNumber(s[..|s| - 1]) + DecimalValue(s[|s| - 1])
  }

  /** On ASCII digits, `int` reads what `ParseDigits` reads. */
  lemma {:induction false} DecimalNumberAscii(s: string)
    requires AllDigits(s)
    ensures AllDecimal(s) && DecimalNumber(s) == ParseDigits(s)
  {
    forall k | 0 <= k < |s| ensures IsDecimalDigit(s[k]) {
      DecimalDigitCases(s[k]);
    }
    if s != [] {
      DecimalNumberAscii(s[..|s| - 1]);
      DecimalDigitCases(s[|s| - 1]);
    }
  }

  /** The pattern `_(\d{8})\.csv$` matches at offset `i`: an underscore, eight
    * decimal digits and `.csv`, which end the name or precede its final
    * newline. Python's `\d` matches a decimal digit of any script. */
  predicate SuffixAt(name: string, i: int) {
    && 0 <= i && i + 13 <= |name|
    && name[i] == '_' && AllDecimal(name[i + 1..i + 9]) && name[i + 9..i + 13] == ".csv"
    && (i + 13 == |name| || (i + 14 == |name| && name[i + 13] == '\n'))
  }

  /** The only offset where the pattern can match. */
  function SuffixStart(name: string): int {
    if |name| >= 1 && name[|name| - 1] == '\n' then |name| - 14 else |name| - 13
  }

  /** The month and day of `%m%d` as `strptime`'s own patterns accept them:
    * `%m` is `1[0-2]|0[1-9]|[1-9]` and `%d` is `3[01]|[12]\d|0[1-9]|[1-9]| [1-9]`.
    * On four characters both must take two, so only the day's second digit
    * may come from another script, and only after a `1` or a `2`. */
  predicate MonthDayDigits(md: string)
    requires |md| == 4
  {
    && IsAsciiDigit(md[0]) && IsAsciiDigit(md[1]) && IsAsciiDigit(md[2])
    && (IsAsciiDigit(md[3]) || ((md[2] == '1' || md[2] == '2') && IsDecimalDigit(md[3])))
  }

  /** `datetime.strptime(digits, "%Y%m%d")` on the eight digits of a match.
    * `%Y` is `\d\d\d\d`, read by `int`; month and day must pass their
    * patterns, and the three numbers must form a valid date; anything else
    * raises `ValueError`. */
  function StrptimeDate(digits: string): (r: FileDate)
    requires |digits| == 8 && AllDecimal(digits)
    ensures r != NoDate
  {
    if !MonthDayDigits(digits[4..]) then BadDate
    else
      var d := Date(DecimalNumber(digits[..4]), DecimalNumber(digits[4..6]), DecimalNumber(digits[6..]));
      if ValidDate(d) then Dated(d) else BadDate
  }

  /** `get_date_from_path` on a file name. */
  function DateOfName(name: string): FileDate {
    var i := SuffixStart(name);
    if SuffixAt(name, i) then StrptimeDate(name[i + 1..i + 9]) else NoDate
  }

  /** `get_date_from_path(path)`: only the file name is inspected. */
  function DateOfPath(path: string): FileDate {
    DateOfName(BaseName(path))
  }

  /** On ASCII digits `strptime` succeeds iff the digits, read as four, two
    * and two, spell a valid date, and then gives that date. */
  lemma StrptimeAscii(digits: string)
    requires |digits| == 8 && AllDigits(digits)
    ensures AllDecimal(digits)
    ensures var d := Date(ParseDigits(digits[..4]), ParseDigits(digits[4..6]), ParseDigits(digits[6..]));
      StrptimeDate(digits) == if ValidDate(d) then Dated(d) else BadDate
  {
    DecimalNumberAscii(digits);
    DecimalNumberAscii(digits[..4]);
    DecimalNumberAscii(digits[4..6]);
    DecimalNumberAscii(digits[6..]);
    assert digits[4..][3] == digits[7];
  }

  /** Arabic-Indic digits in the month: the name matches the pattern, so
    * `get_date_from_path` calls `strptime`, whose `%m` refuses them, and the
    * run that reaches this file stops with `ValueError`. */
  lemma ForeignMonthRaises()
    ensures DateOfName("x_2023\U{0660}\U{0661}\U{0660}\U{0661}.csv") == BadDate
  {
    var name := "x_2023\U{0660}\U{0661}\U{0660}\U{0661}.csv";
    var digits := name[2..10];
    assert digits == "2023\U{0660}\U{0661}\U{0660}\U{0661}";
    ForeignDigitsMatch(name, digits);
    DecimalDigitCases(digits[4]);
    assert !IsAsciiDigit(digits[4]);
  }

  /** Arabic-Indic digits in the year: `\d\d\d\d` takes them and `int` reads
    * them, so the file is dated 2023-01-01 and processed. */
  lemma ForeignYearRead()
    ensures DateOfName("x_\U{0662}\U{0660}\U{0662}\U{0663}0101.csv") == Dated(Date(2023, 1, 1))
  {
    var name := "x_\U{0662}\U{0660}\U{0662}\U{0663}0101.csv";
    var digits := name[2..10];
    assert digits == "\U{0662}\U{0660}\U{0662}\U{0663}0101";
    ForeignDigitsMatch(name, digits);
    StrptimeOfParts(digits, 2023, 1, 1);
  }

  /** `strptime` of the year's Arabic-Indic digits followed by `0101`. */
  lemma StrptimeOfParts(digits: string, y: int, m: int, d: int)
    requires digits == "\U{0662}\U{0660}\U{0662}\U{0663}0101" && y == 2023 && m == 1 && d == 1
    ensures AllDecimal(digits) && StrptimeDate(digits) == Dated(Date(y, m, d))
  {
    var year, md := digits[..4], digits[4..];
    assert year == "\U{0662}\U{0660}\U{0662}\U{0663}" && md == "0101";
    YearDigits(year);
    assert digits[4..6] == "01" && digits[6..] == "01";
    DigitsZeroOne(digits[4..6]);
    DigitsZeroOne(digits[6..]);
    assert AllDecimal(digits) by {
      forall k | 0 <= k < 8 ensures IsDecimalDigit(digits[k]) {
        if k < 4 { assert digits[k] == year[k]; } else { DecimalDigitCases(digits[k]); }
      }
    }
    assert MonthDayDigits(md);
    assert ValidDate(Date(2023, 1, 1));
  }

  /** The digits `01` read as one. */
  lemma DigitsZeroOne(s: string)
    requires s == "01"
    ensures AllDecimal(s) && DecimalNumber(s) == 1
  {
    DecimalDigitCases(s[0]);
    DecimalDigitCases(s[1]);
    var head := s[..1];
    assert head[..0] == [] && head[0] == '0';
    assert DecimalNumber(head) == 0;
  }

  /** The two example names end in `_`, eight decimal digits and `.csv`. */
  lemma ForeignDigitsMatch(name: string, digits: string)
    requires |name| == 14 && name[..2] == "x_" && name[10..] == ".csv" && digits == name[2..10]
    requires forall k | 0 <= k < 8 :: IsAsciiDigit(digits[k]) || '\U{0660}' <= digits[k] <= '\U{0669}'
    ensures AllDecimal(digits) && SuffixAt(name, 1) && SuffixStart(name) == 1
    ensures DateOfName(name) == StrptimeDate(digits)
  {
    forall k | 0 <= k < 8 ensures IsDecimalDigit(digits[k]) {
      DecimalDigitCases(digits[k]);
    }
    assert name[1] == "x_"[1];
    assert name[|name| - 1] == 'v';
    assert name[2..10] == digits && name[10..14] == ".csv";
  }

  /** The Arabic-Indic year digits read as 2023. */
  lemma YearDigits(y: string)
    requires y == "\U{0662}\U{0660}\U{0662}\U{0663}"
    ensures AllDecimal(y) && DecimalNumber(y) == 2023
  {
    DecimalDigitCases(y[0]);
    DecimalDigitCases(y[1]);
    DecimalDigitCases(y[2]);
    DecimalDigitCases(y[3]);
    assert y[..3][..2][..1] == [y[0]] && y[..3][..2] == y[..2] && y[..3] == y[..3];
    assert y[..2][..1] == [y[0]] && y[..3][..2] == y[..2];
    assert DecimalNumber([y[0]]) == 2 by { assert [y[0]][..0] == []; }
    assert DecimalNumber(y[..2]) == 20;
    assert DecimalNumber(y[..3]) == 202;
  }

  /** A name has a date, valid or not, iff the pattern matches somewhere, and
    * then the date is read from the digits of that match. */
  lemma DateOfNameSpec(name: string, i: int)
    ensures DateOfName(name) != NoDate <==> exists j :: SuffixAt(name, j)
    ensures SuffixAt(name, i) ==> DateOfName(name) == StrptimeDate(name[i + 1..i + 9])
  {
    if SuffixAt(name, i) {
      SuffixAtUnique(name, i);
    }
    if exists j :: SuffixAt(name, j) {
      var j :| SuffixAt(name, j);
      SuffixAtUnique(name, j);
    }
  }

  lemma SuffixAtUnique(name: string, i: int)
    requires SuffixAt(name, i)
    ensures i == SuffixStart(name)
  {
    if i + 13 == |name| {
      assert name[|name| - 1] == name[i + 9..i + 13][3] == 'v';
    }
  }

  /** The date of a file in a directory depends on the file's name alone. */
  lemma DateOfPathOnlyName(dir: string, name: string)
    requires '/' !in name
    ensures DateOfPath(dir + "/" + name) == DateOfName(name)
  {
    BaseNameOfChild(dir, name);
  }

  // ---------------------------------------------------------------------------
  // Division directories

  /** An entry of the root directory: its path, whether it is a directory,
    * and the paths `glob("*.csv")` yields inside it, in that order. */
  datatype DirEntry = DirEntry(path: string, isDir: bool, csvPaths: seq<string>)

  /** `dir.is_dir() and "division" in dir.name.lower()`. */
  predicate IsDivisionDir(e: DirEntry) {
    e.isDir && Contains(Lower(BaseName(e.path)), "division")
  }

  /** The division directories in iteration order; the one at position `k`
    * is division `k + 1`. */
  function DivisionDirs(entries: seq<DirEntry>): seq<DirEntry> {
    Filter(entries, IsDivisionDir)
  }

  /** Exactly the directories whose name contains `division` in any case are
    * selected, in iteration order. */
  lemma DivisionDirsSpec(entries: seq<DirEntry>, e: DirEntry, k: int)
    ensures e in DivisionDirs(entries) <==> e in entries && IsDivisionDir(e)
    ensures |Positions(entries, IsDivisionDir)| == |DivisionDirs(entries)|
    ensures 0 <= k < |DivisionDirs(entries)| ==> DivisionDirs(entries)[k] == entries[Positions(entries, IsDivisionDir)[k]]
  {
    FilterMembership(entries, IsDivisionDir, e);
    FilterAtPositions(entries, IsDivisionDir, k);
  }

  // ---------------------------------------------------------------------------
  // Dated files and their order

  /** A file path with the date its name carries. */
  type DatedFile = (string, Date)

  /** The list comprehension of line 46 and the filter of line 47, with `date`
    * the date of a path (the run uses `DateOfPath`): the dated files in glob
    * order, or the path whose digits are not a date, on which `strptime`
    * raises. */
  function DatedFiles(paths: seq<string>, date: string -> FileDate): Result<seq<DatedFile>, string>
    decreases |paths|
  {
    if paths == [] then Ok([])
    else
      match date(paths[0])
      case BadDate => Err(paths[0])
      case NoDate => DatedFiles(paths[1..], date)
      case Dated(d) =>
        match DatedFiles(paths[1..], date)
        case Err(p) => Err(p)
        case Ok(rest) => Ok([(paths[0], d)] + rest)
  }

  /** The comprehension raises iff some path's digits are no date, and then
    * for such a path. */
  lemma {:induction false} DatedFilesRaises(paths: seq<string>, date: string -> FileDate)
    ensures DatedFiles(paths, date).Err? <==> exists i | 0 <= i < |paths| :: date(paths[i]) == BadDate
    ensures DatedFiles(paths, date).Err? ==> DatedFiles(paths, date).error in paths && date(DatedFiles(paths, date).error) == BadDate
    decreases |paths|
  {
    if paths != [] {
      DatedFilesRaises(paths[1..], date);
      if DatedFiles(paths[1..], date).Err? {
        assert DatedFiles(paths[1..], date).error in paths;
      }
      if exists i | 0 <= i < |paths[1..]| :: date(paths[1..][i]) == BadDate {
        var i :| 0 <= i < |paths[1..]| && date(paths[1..][i]) == BadDate;
        assert date(paths[i + 1]) == BadDate;
      }
      if exists i | 0 <= i < |paths| :: date(paths[i]) == BadDate {
        var i :| 0 <= i < |paths| && date(paths[i]) == BadDate;
        if i > 0 {
          assert date(paths[1..][i - 1]) == BadDate;
        }
      }
    }
  }

  /** The path it raises for is the first whose digits are no date. */
  lemma {:induction false} DatedFilesFirstBad(paths: seq<string>, i: nat, date: string -> FileDate)
    requires i < |paths| && date(paths[i]) == BadDate
    requires forall j | 0 <= j < i :: date(paths[j]) != BadDate
    ensures DatedFiles(paths, date) == Err(paths[i])
    decreases i
  {
    if i > 0 {
      assert date(paths[0]) != BadDate;
      forall j | 0 <= j < i - 1 ensures date(paths[1..][j]) != BadDate {
        assert paths[1..][j] == paths[j + 1];
      }
      DatedFilesFirstBad(paths[1..], i - 1, date);
    }
  }

  /** The dated files, when none raises, are the paths with a date, each with
    * that date. */
  lemma {:induction false} DatedFilesMembers(paths: seq<string>, p: string, d: Date, date: string -> FileDate)
    requires DatedFiles(paths, date).Ok?
    ensures (p, d) in DatedFiles(paths, date).value <==> p in paths && date(p) == Dated(d)
    decreases |paths|
  {
    if paths != [] {
      DatedFilesMembers(paths[1..], p, d, date);
      if p in paths && p != paths[0] {
        assert p in paths[1..];
      }
    }
  }

  function PathsOf(files: seq<DatedFile>): seq<string> {
    seq(|files|, i requires 0 <= i < |files| => files[i].0)
  }

  /** The paths with a date. */
  function IsDated(date: string -> FileDate): string -> bool {
    (path: string) => date(path).Dated?
  }

  function HasDate(path: string): bool {
    DateOfPath(path).Dated?
  }

  /** The dated files keep the glob order of their paths. */
  lemma {:induction false} DatedFilesOrder(paths: seq<string>, date: string -> FileDate)
    requires DatedFiles(paths, date).Ok?
    ensures PathsOf(DatedFiles(paths, date).value) == Filter(paths, IsDated(date))
    decreases |paths|
  {
    if paths != [] {
      DatedFilesOrder(paths[1..], date);
      var rest := DatedFiles(paths[1..], date).value;
      if date(paths[0]).Dated? {
        assert PathsOf(DatedFiles(paths, date).value) == [paths[0]] + PathsOf(rest);
      }
    }
  }

  /** `sorted(…, key=date)`, which is stable: each file goes after every
    * earlier file whose date is not later. */
  function InsertByDate(sorted: seq<DatedFile>, x: DatedFile): (r: seq<DatedFile>)
    ensures |r| == |sorted| + 1
    decreases |sorted|
  {
    if sorted == [] || !DateLess(x.1, sorted[|sorted| - 1].1) then sorted + [x]
    else InsertByDate(sorted[..|sorted| - 1], x) + [sorted[|sorted| - 1]]
  }

  function SortByDate(files: seq<DatedFile>): (r: seq<DatedFile>)
    ensures |r| == |files|
    decreases |files|
  {
    if files == [] then [] else InsertByDate(SortByDate(files[..|files| - 1]), files[|files| - 1])
  }

  /** Non-decreasing dates. */
  predicate SortedByDate(s: seq<DatedFile>) {
    forall i, j :: 0 <= i < j < |s| ==> !DateLess(s[j].1, s[i].1)
  }

  function OnDate(d: Date): DatedFile -> bool {
    (f: DatedFile) => f.1 == d
  }

  lemma {:induction false} InsertByDatePerm(sorted: seq<DatedFile>, x: DatedFile)
    ensures multiset(InsertByDate(sorted, x)) == multiset(sorted) + multiset{x}
    decreases |sorted|
  {
    if sorted != [] && DateLess(x.1, sorted[|sorted| - 1].1) {
      var init, last := sorted[..|sorted| - 1], sorted[|sorted| - 1];
      assert init + [last] == sorted;
      InsertByDatePerm(init, x);
    }
  }

  lemma {:induction false} InsertByDateSorted(sorted: seq<DatedFile>, x: DatedFile)
    requires SortedByDate(sorted)
    ensures SortedByDate(InsertByDate(sorted, x))
    decreases |sorted|
  {
    var r := InsertByDate(sorted, x);
    if sorted == [] || !DateLess(x.1, sorted[|sorted| - 1].1) {
      forall i | 0 <= i < |sorted| ensures !DateLess(x.1, sorted[i].1) {
        DateLessOrder(x.1, sorted[i].1, sorted[|sorted| - 1].1);
        DateLessOrder(sorted[i].1, x.1, sorted[|sorted| - 1].1);
      }
    } else {
      var init, last := sorted[..|sorted| - 1], sorted[|sorted| - 1];
      InsertByDateSorted(init, x);
      InsertByDatePerm(init, x);
      var ins := InsertByDate(init, x);
      forall i | 0 <= i < |ins| ensures !DateLess(last.1, ins[i].1) {
        assert ins[i] in multiset(ins);
        if ins[i] != x {
          assert ins[i] in multiset(init);
          var k :| 0 <= k < |init| && init[k] == ins[i];
          assert sorted[k] == init[k];
        } else {
          DateLessOrder(x.1, last.1, last.1);
        }
      }
    }
  }

  /** Inserting keeps the files of every date in their order, the inserted
    * file last among them. */
  lemma {:induction false} InsertByDateStable(sorted: seq<DatedFile>, x: DatedFile, d: Date)
    ensures Filter(InsertByDate(sorted, x), OnDate(d)) == Filter(sorted + [x], OnDate(d))
    decreases |sorted|
  {
    if sorted != [] && DateLess(x.1, sorted[|sorted| - 1].1) {
      var init, last := sorted[..|sorted| - 1], sorted[|sorted| - 1];
      InsertByDateStable(init, x, d);
      var ins := InsertByDate(init, x);
      var p := OnDate(d);
      FilterAppend(ins, [last], p);
      FilterAppend(init + [x], [last], p);
      FilterAppend(init, [x], p);
      FilterAppend(init, [last], p);
      FilterAppend(init + [last], [x], p);
      assert init + [last] == sorted;
      DateLessOrder(x.1, last.1, last.1);
      assert Filter([x], p) == [] || Filter([last], p) == [];
    }
  }

  /** The files sorted by date: non-decreasing dates, the same files, and
    * the files of any one date in their original order. */
  lemma {:induction false} SortByDateSpec(files: seq<DatedFile>, d: Date)
    ensures SortedByDate(SortByDate(files))
    ensures multiset(SortByDate(files)) == multiset(files)
    ensures Filter(SortByDate(files), OnDate(d)) == Filter(files, OnDate(d))
    decreases |files|
  {
    if files != [] {
      var init, x := files[..|files| - 1], files[|files| - 1];
      SortByDateSpec(init, d);
      InsertByDatePerm(SortByDate(init), x);
      InsertByDateSorted(SortByDate(init), x);
      InsertByDateStable(SortByDate(init), x, d);
      FilterAppend(SortByDate(init), [x], OnDate(d));
      FilterAppend(init, [x], OnDate(d));
      assert init + [x] == files;
    }
  }

  // ---------------------------------------------------------------------------
  // The run

  /** Why the run stops early: `seed_db` failed to commit, a file's digits
    * are not a date, or `add_employees_from_records` raised. */
  datatype Abort =
    | SeedAborted
    | BadFileDate(division: int, path: string)
    | AddAborted(division: int, path: string, reason: AddError)

  /** What the run reports, each under the division it was reported in: a
    * division without a schema, a file whose parse raised (with the message
    * printed), or a processed file and its counts. */
  datatype Event =
    | NoSchema(division: int)
    | ParseFailed(division: int, path: string, message: string)
    | Processed(division: int, path: string, created: nat, updated: nat, errors: seq<Summary>)

  /** A run over part of the input: whether it stopped, what it reported,
    * and the employee table after it. */
  datatype Run = Run(abort: Option<Abort>, events: seq<Event>, rows: seq<EmployeeRow>)

  /** A run preceded by some reports. */
  function Then(events: seq<Event>, r: Run): Run {
    Run(r.abort, events + r.events, r.rows)
  }

  lemma ThenThen(a: seq<Event>, b: seq<Event>, r: Run)
    ensures Then(a, Then(b, r)) == Then(a + b, r)
  {
    assert a + (b + r.events) == (a + b) + r.events;
  }

  /** `parse_csv` on a file with a division's schema: the records, or the
    * message of the exception raised. */
  type Parser = (Schema, string) -> Result<seq<Dict>, string>

  /** The parse with the catalogs after seeding. The parse's error list is
    * dropped: line 58 rebinds `errors`. */
  function ParserOf(read: Reader, rx: Matcher, c: Catalogs): Parser {
    (schema: Schema, path: string) =>
      match ParseCsvSpec(path, schema, read, rx, c)
      case Err(m) => Err(m)
      case Ok(parsed) => Ok(parsed.0)
  }

  /** The parse result of each file. The parse does not depend on the
    * employee table. */
  function ParseAll(files: seq<DatedFile>, schema: Schema, parse: Parser): (r: seq<Result<seq<Dict>, string>>)
    ensures |r| == |files|
  {
    seq(|files|, j requires 0 <= j < |files| => parse(schema, files[j].0))
  }

  /** `add_employees_from_records` for one division: the outcome and the
    * table after adding records with a date. */
  type Adder = (seq<EmployeeRow>, seq<Dict>, DateTime) -> (AddOutcome, seq<EmployeeRow>)

  function AddTo(division: int): Adder {
    (rows: seq<EmployeeRow>, records: seq<Dict>, dt: DateTime) => AddEmployees(rows, records, division, dt)
  }

  /** What the run relies on about adding: a raising call stores nothing, a
    * returning one loses no stored row and keeps names unique. */
  ghost predicate AdderKeeps(add: Adder) {
    forall rows, records, dt ::
      && (add(rows, records, dt).0.Raised? ==> add(rows, records, dt).1 == rows)
      && |rows| <= |add(rows, records, dt).1|
      && (UniqueNames(rows) ==> UniqueNames(add(rows, records, dt).1))
  }

  lemma AddToKeeps(division: int)
    ensures AdderKeeps(AddTo(division))
  {
    forall rows, records, dt
      ensures var added := AddTo(division)(rows, records, dt);
        && (added.0.Raised? ==> added.1 == rows)
        && |rows| <= |added.1|
        && (UniqueNames(rows) ==> UniqueNames(added.1))
    {
      AddKeepsStoredRows(rows, records, division, dt);
      if UniqueNames(rows) {
        AddPreservesUniqueNames(rows, records, division, dt);
      }
    }
  }

  /** Every division's adding keeps the table as the run relies on. */
  ghost predicate AddersKeep(add: int -> Adder) {
    forall division :: AdderKeeps(add(division))
  }

  lemma AddToKeepsAll()
    ensures AddersKeep(AddTo)
  {
    forall division ensures AdderKeeps(AddTo(division)) {
      AddToKeeps(division);
    }
  }

  /** The loop of lines 49-61 over a division's sorted files from the `i`th,
    * given their parse results: a file whose parse raised is reported and
    * skipped, the records of any other are added with the file's date at
    * midnight. */
  function RunFiles(rows: seq<EmployeeRow>, files: seq<DatedFile>, parsed: seq<Result<seq<Dict>, string>>, i: nat, division: int, add: Adder): Run
    requires |parsed| == |files| && i <= |files|
    decreases |files| - i
  {
    if i == |files| then Run(None, [], rows)
    else
      var path := files[i].0;
      match parsed[i]
      case Err(m) => Then([ParseFailed(division, path, m)], RunFiles(rows, files, parsed, i + 1, division, add))
      case Ok(records) =>
        var added := add(rows, records, Midnight(files[i].1));
        match added.0
        case Raised(reason) => Run(Some(AddAborted(division, path, reason)), [], added.1)
        case Added(created, updated, errors) =>
          Then([Processed(division, path, created, updated, errors)], RunFiles(added.1, files, parsed, i + 1, division, add))
  }

  /** The loop of lines 38-61 over the division directories from the `k`th,
    * which is division `k + 1`. */
  function RunFrom(rows: seq<EmployeeRow>, dirs: seq<DirEntry>, k: nat, schemas: map<int, Schema>, parse: Parser, add: int -> Adder): Run
    requires k <= |dirs|
    decreases |dirs| - k
  {
    if k == |dirs| then Run(None, [], rows)
    else if k + 1 !in schemas then
      Then([NoSchema(k + 1)], RunFrom(rows, dirs, k + 1, schemas, parse, add))
    else
      match DatedFiles(dirs[k].csvPaths, DateOfPath)
      case Err(p) => Run(Some(BadFileDate(k + 1, p)), [], rows)
      case Ok(dated) =>
        var files := SortByDate(dated);
        var r := RunFiles(rows, files, ParseAll(files, schemas[k + 1], parse), 0, k + 1, add(k + 1));
        if r.abort.Some? then r
        else Then(r.events, RunFrom(r.rows, dirs, k + 1, schemas, parse, add))
  }

  /** The run after seeding, on the root directory's entries. */
  function RunSpec(rows: seq<EmployeeRow>, c: Catalogs, entries: seq<DirEntry>,
      schemas: map<int, Schema>, read: Reader, rx: Matcher): Run
  {
    RunFrom(rows, DivisionDirs(entries), 0, schemas, ParserOf(read, rx, c), AddTo)
  }

  /** The files of a division are attempted one by one in their sorted order:
    * each reports the message of its parse exception when there is one, and
    * otherwise its counts under the division. The loop stops only when adding
    * raises, at the file after the reported ones, and never loses a stored
    * row or breaks the uniqueness of names. */
  lemma {:induction false} RunFilesSpec(rows: seq<EmployeeRow>, files: seq<DatedFile>, parsed: seq<Result<seq<Dict>, string>>, i: nat, division: int, add: Adder)
    requires |parsed| == |files| && i <= |files|
    requires AdderKeeps(add)
    ensures var r := RunFiles(rows, files, parsed, i, division, add);
      && |r.events| <= |files| - i
      && (r.abort.None? ==> |r.events| == |files| - i)
      && (r.abort.Some? ==>
            && |r.events| < |files| - i && r.abort.value.AddAborted?
            && r.abort.value.division == division && r.abort.value.path == files[i + |r.events|].0)
      && FileEvents(r.events, files, parsed, i, division)
      && |rows| <= |r.rows|
      && (UniqueNames(rows) ==> UniqueNames(r.rows))
    decreases |files| - i
  {
    if i < |files| {
      var r := RunFiles(rows, files, parsed, i, division, add);
      var path := files[i].0;
      match parsed[i]
      case Err(m) =>
        var rest := RunFiles(rows, files, parsed, i + 1, division, add);
        RunFilesSpec(rows, files, parsed, i + 1, division, add);
        assert r.events == [ParseFailed(division, path, m)] + rest.events;
        EventsShift(r.events, rest.events, files, parsed, i, division);
      case Ok(records) =>
        var added := add(rows, records, Midnight(files[i].1));
        if added.0.Added? {
          var rest := RunFiles(added.1, files, parsed, i + 1, division, add);
          RunFilesSpec(added.1, files, parsed, i + 1, division, add);
          assert r.events == [Processed(division, path, added.0.created, added.0.updated, added.0.errors)] + rest.events;
          EventsShift(r.events, rest.events, files, parsed, i, division);
        }
    }
  }

  /** The report of the file at index `i` of a division's sorted files: it
    * names the file, and it is a parse failure carrying the exception's
    * message exactly when the parse raised, otherwise the division's counts. */
  predicate FileEventAt(e: Event, files: seq<DatedFile>, parsed: seq<Result<seq<Dict>, string>>, i: int, division: int)
    requires |parsed| == |files|
  {
    && 0 <= i < |files|
    && !e.NoSchema?
    && e.path == files[i].0
    && (e.ParseFailed? <==> parsed[i].Err?)
    && (e.ParseFailed? ==> e.message == parsed[i].error)
    && e.division == division
  }

  /** The reports of a division from its `i`th file on. */
  predicate FileEvents(events: seq<Event>, files: seq<DatedFile>, parsed: seq<Result<seq<Dict>, string>>, i: nat, division: int)
    requires |parsed| == |files|
  {
    forall j :: 0 <= j < |events| ==> FileEventAt(events[j], files, parsed, i + j, division)
  }

  lemma EventsShift(events: seq<Event>, rest: seq<Event>, files: seq<DatedFile>, parsed: seq<Result<seq<Dict>, string>>, i: nat, division: int)
    requires |parsed| == |files|
    requires FileEvents(rest, files, parsed, i + 1, division)
    requires |events| == |rest| + 1 && events[1..] == rest
    requires FileEventAt(events[0], files, parsed, i, division)
    ensures FileEvents(events, files, parsed, i, division)
  {
    forall j | 1 <= j < |events|
      ensures FileEventAt(events[j], files, parsed, i + j, division)
    {
      assert events[j] == rest[j - 1];
    }
  }

  /** A report of the run from division `k + 1` on: a division without a
    * schema, or a dated file of a division with a schema. */
  predicate ReportOf(e: Event, dirs: seq<DirEntry>, k: nat, schemas: map<int, Schema>) {
    && k < e.division <= |dirs|
    && (e.NoSchema? <==> e.division !in schemas)
    && (!e.NoSchema? ==> e.path in dirs[e.division - 1].csvPaths && HasDate(e.path))
  }

  /** The reports come division by division. */
  predicate DivisionsInOrder(events: seq<Event>) {
    forall i, j :: 0 <= i < j < |events| ==> events[i].division <= events[j].division
  }

  lemma InOrderAppend(a: seq<Event>, b: seq<Event>, d: int)
    requires forall i :: 0 <= i < |a| ==> a[i].division == d
    requires forall j :: 0 <= j < |b| ==> d < b[j].division
    requires DivisionsInOrder(b)
    ensures DivisionsInOrder(a + b)
  {
    var ab := a + b;
    forall i, j | 0 <= i < j < |ab|
      ensures ab[i].division <= ab[j].division
    {
      if j >= |a| {
        assert ab[j] == b[j - |a|];
        if i >= |a| {
          assert ab[i] == b[i - |a|];
        } else {
          assert ab[i] == a[i];
        }
      } else {
        assert ab[i] == a[i] && ab[j] == a[j];
      }
    }
  }

  /** The run of one division with a schema: every report is a dated file of
    * the division's directory, and a stop is the division's and is caused by
    * adding. */
  lemma DivisionRunSpec(rows: seq<EmployeeRow>, dir: DirEntry, division: int, schema: Schema, parse: Parser, add: Adder)
    requires DatedFiles(dir.csvPaths, DateOfPath).Ok?
    requires AdderKeeps(add)
    ensures var files := SortByDate(DatedFiles(dir.csvPaths, DateOfPath).value);
      var r := RunFiles(rows, files, ParseAll(files, schema, parse), 0, division, add);
      && (forall j :: 0 <= j < |r.events| ==>
            && !r.events[j].NoSchema? && r.events[j].division == division
            && r.events[j].path in dir.csvPaths && HasDate(r.events[j].path))
      && (r.abort.Some? ==>
            && r.abort.value.AddAborted? && r.abort.value.division == division
            && r.abort.value.path in dir.csvPaths && HasDate(r.abort.value.path))
      && |rows| <= |r.rows|
      && (UniqueNames(rows) ==> UniqueNames(r.rows))
  {
    var dated := DatedFiles(dir.csvPaths, DateOfPath).value;
    var files := SortByDate(dated);
    var parsed := ParseAll(files, schema, parse);
    var r := RunFiles(rows, files, parsed, 0, division, add);
    RunFilesSpec(rows, files, parsed, 0, division, add);
    SortByDateSpec(dated, Date(1, 1, 1));
    forall j | 0 <= j < |files|
      ensures files[j].0 in dir.csvPaths && HasDate(files[j].0)
    {
      assert files[j] in multiset(dated);
      DatedFilesMembers(dir.csvPaths, files[j].0, files[j].1, DateOfPath);
    }
    forall j | 0 <= j < |r.events|
      ensures !r.events[j].NoSchema? && r.events[j].division == division
      ensures r.events[j].path in dir.csvPaths && HasDate(r.events[j].path)
    {
      assert FileEventAt(r.events[j], files, parsed, j, division);
    }
  }

  /** A stop of the run from division `k + 1` on: never for seeding, and only
    * on a division with a schema, for a file of its directory whose digits
    * are no date or whose records raised. */
  predicate StopOf(abort: Abort, dirs: seq<DirEntry>, k: nat, schemas: map<int, Schema>) {
    && !abort.SeedAborted?
    && k < abort.division <= |dirs| && abort.division in schemas
    && abort.path in dirs[abort.division - 1].csvPaths
    && (abort.BadFileDate? ==> DateOfPath(abort.path) == BadDate)
    && (abort.AddAborted? ==> HasDate(abort.path))
  }

  lemma BadDateStop(dirs: seq<DirEntry>, k: nat, schemas: map<int, Schema>)
    requires k < |dirs| && k + 1 in schemas && DatedFiles(dirs[k].csvPaths, DateOfPath).Err?
    ensures StopOf(BadFileDate(k + 1, DatedFiles(dirs[k].csvPaths, DateOfPath).error), dirs, k, schemas)
  {
    DatedFilesRaises(dirs[k].csvPaths, DateOfPath);
  }

  /** A division whose files are all dated stops only on a failed add of one of them. */
  lemma DivisionStop(rows: seq<EmployeeRow>, dirs: seq<DirEntry>, k: nat, schemas: map<int, Schema>, parse: Parser, add: Adder)
    requires k < |dirs| && k + 1 in schemas && DatedFiles(dirs[k].csvPaths, DateOfPath).Ok?
    requires AdderKeeps(add)
    ensures var files := SortByDate(DatedFiles(dirs[k].csvPaths, DateOfPath).value);
      var d := RunFiles(rows, files, ParseAll(files, schemas[k + 1], parse), 0, k + 1, add);
      d.abort.Some? ==> StopOf(d.abort.value, dirs, k, schemas)
  {
    DivisionRunSpec(rows, dirs[k], k + 1, schemas[k + 1], parse, add);
  }

  /** The run from division `k + 1` on stops only as `StopOf` says. */
  lemma {:induction false} RunFromAborts(rows: seq<EmployeeRow>, dirs: seq<DirEntry>, k: nat, schemas: map<int, Schema>, parse: Parser, add: int -> Adder)
    requires k <= |dirs|
    requires AddersKeep(add)
    ensures var r := RunFrom(rows, dirs, k, schemas, parse, add);
      r.abort.Some? ==> StopOf(r.abort.value, dirs, k, schemas)
    decreases |dirs| - k
  {
    if k < |dirs| {
      var r := RunFrom(rows, dirs, k, schemas, parse, add);
      if k + 1 !in schemas {
        RunFromAborts(rows, dirs, k + 1, schemas, parse, add);
        assert r.abort == RunFrom(rows, dirs, k + 1, schemas, parse, add).abort;
      } else if DatedFiles(dirs[k].csvPaths, DateOfPath).Err? {
        BadDateStop(dirs, k, schemas);
        assert r.abort == Some(BadFileDate(k + 1, DatedFiles(dirs[k].csvPaths, DateOfPath).error));
      } else {
        var files := SortByDate(DatedFiles(dirs[k].csvPaths, DateOfPath).value);
        var d := RunFiles(rows, files, ParseAll(files, schemas[k + 1], parse), 0, k + 1, add(k + 1));
        if d.abort.Some? {
          DivisionStop(rows, dirs, k, schemas, parse, add(k + 1));
          assert r == d;
        } else {
          RunFromAborts(d.rows, dirs, k + 1, schemas, parse, add);
          assert r.abort == RunFrom(d.rows, dirs, k + 1, schemas, parse, add).abort;
        }
      }
    }
  }

  /** The reports of a run from division `k + 1` on: each a division without
    * a schema or a dated file of a division with a schema, division by
    * division. */
  predicate Reports(events: seq<Event>, dirs: seq<DirEntry>, k: nat, schemas: map<int, Schema>) {
    && (forall j :: 0 <= j < |events| ==> ReportOf(events[j], dirs, k, schemas))
    && DivisionsInOrder(events)
  }

  lemma ReportsJoin(a: seq<Event>, b: seq<Event>, dirs: seq<DirEntry>, k: nat, schemas: map<int, Schema>)
    requires forall j :: 0 <= j < |a| ==> ReportOf(a[j], dirs, k, schemas) && a[j].division == k + 1
    requires Reports(b, dirs, k + 1, schemas)
    ensures Reports(a + b, dirs, k, schemas)
  {
    InOrderAppend(a, b, k + 1);
    forall j | 0 <= j < |a + b| ensures ReportOf((a + b)[j], dirs, k, schemas) {
      if j >= |a| {
        assert (a + b)[j] == b[j - |a|];
      } else {
        assert (a + b)[j] == a[j];
      }
    }
  }

  /** The reports of the run from division `k + 1` on. */
  lemma {:induction false} RunFromReports(rows: seq<EmployeeRow>, dirs: seq<DirEntry>, k: nat, schemas: map<int, Schema>, parse: Parser, add: int -> Adder)
    requires k <= |dirs|
    requires AddersKeep(add)
    ensures Reports(RunFrom(rows, dirs, k, schemas, parse, add).events, dirs, k, schemas)
    decreases |dirs| - k
  {
    if k < |dirs| {
      var r := RunFrom(rows, dirs, k, schemas, parse, add);
      if k + 1 !in schemas {
        var rest := RunFrom(rows, dirs, k + 1, schemas, parse, add);
        RunFromReports(rows, dirs, k + 1, schemas, parse, add);
        ReportsJoin([NoSchema(k + 1)], rest.events, dirs, k, schemas);
        assert r.events == [NoSchema(k + 1)] + rest.events;
      } else if DatedFiles(dirs[k].csvPaths, DateOfPath).Ok? {
        var files := SortByDate(DatedFiles(dirs[k].csvPaths, DateOfPath).value);
        var d := RunFiles(rows, files, ParseAll(files, schemas[k + 1], parse), 0, k + 1, add(k + 1));
        DivisionRunSpec(rows, dirs[k], k + 1, schemas[k + 1], parse, add(k + 1));
        if d.abort.None? {
          var rest := RunFrom(d.rows, dirs, k + 1, schemas, parse, add);
          RunFromReports(d.rows, dirs, k + 1, schemas, parse, add);
          ReportsJoin(d.events, rest.events, dirs, k, schemas);
          assert r.events == d.events + rest.events;
        } else {
          ReportsJoin(d.events, [], dirs, k, schemas);
          assert r.events == d.events + [];
        }
      }
    }
  }

  /** The run from division `k + 1` on loses no stored row and keeps the
    * names unique. */
  lemma {:induction false} RunFromRows(rows: seq<EmployeeRow>, dirs: seq<DirEntry>, k: nat, schemas: map<int, Schema>, parse: Parser, add: int -> Adder)
    requires k <= |dirs|
    requires AddersKeep(add)
    ensures var r := RunFrom(rows, dirs, k, schemas, parse, add);
      && |rows| <= |r.rows|
      && (UniqueNames(rows) ==> UniqueNames(r.rows))
    decreases |dirs| - k
  {
    if k < |dirs| {
      RunFromRows(rows, dirs, k + 1, schemas, parse, add);
      if k + 1 in schemas && DatedFiles(dirs[k].csvPaths, DateOfPath).Ok? {
        var files := SortByDate(DatedFiles(dirs[k].csvPaths, DateOfPath).value);
        var d := RunFiles(rows, files, ParseAll(files, schemas[k + 1], parse), 0, k + 1, add(k + 1));
        DivisionRunSpec(rows, dirs[k], k + 1, schemas[k + 1], parse, add(k + 1));
        RunFromRows(d.rows, dirs, k + 1, schemas, parse, add);
      }
    }
  }

  /** Lines 50-61 for the `i`th file of a division: parse it, and unless that
    * raised add its records with the file's date at midnight. The reports
    * and the table after it continue the division's run, or end it. */
  method RunFile(db: Database, files: seq<DatedFile>, i: nat, division: int, schema: Schema, read: Reader, rx: Matcher)
    returns (abort: Option<Abort>, events: seq<Event>)
    requires i < |files|
    modifies db
    ensures db.CatalogTables() == old(db.CatalogTables())
    ensures var parsed := ParseAll(files, schema, ParserOf(read, rx, old(db.CatalogTables())));
      RunFiles(old(db.employees), files, parsed, i, division, AddTo(division))
        == if abort.Some? then Run(abort, events, db.employees)
           else Then(events, RunFiles(db.employees, files, parsed, i + 1, division, AddTo(division)))
  {
    var path := files[i].0;
    var result := ParseCsv(path, schema, read, rx, db.CatalogTables());
    if result.Err? {
      return None, [ParseFailed(division, path, result.error)];
    }
    var outcome := AddEmployeesFromRecords(db, result.value.0, division, Midnight(files[i].1));
    if outcome.Raised? {
      return Some(AddAborted(division, path, outcome.reason)), [];
    }
    return None, [Processed(division, path, outcome.created, outcome.updated, outcome.errors)];
  }

  /** The loop of lines 49-61: the files of one division, parsed and added in
    * their sorted order. */
  method RunDivision(db: Database, files: seq<DatedFile>, division: int, schema: Schema, read: Reader, rx: Matcher)
    returns (abort: Option<Abort>, log: seq<Event>)
    modifies db
    ensures Run(abort, log, db.employees)
      == RunFiles(old(db.employees), files, ParseAll(files, schema, ParserOf(read, rx, old(db.CatalogTables()))), 0, division, AddTo(division))
    ensures db.CatalogTables() == old(db.CatalogTables())
  {
    ghost var c := db.CatalogTables();
    ghost var parsed := ParseAll(files, schema, ParserOf(read, rx, c));
    ghost var rows0 := db.employees;
    abort, log := None, [];
    var i := 0;
    while i < |files|
      invariant 0 <= i <= |files|
      invariant db.CatalogTables() == c
      invariant RunFiles(rows0, files, parsed, 0, division, AddTo(division))
        == Then(log, RunFiles(db.employees, files, parsed, i, division, AddTo(division)))
      decreases |files| - i
    {
      ghost var before := db.employees;
      var fileAbort, events := RunFile(db, files, i, division, schema, read, rx);
      if fileAbort.Some? {
        ThenThen(log, events, Run(fileAbort, [], db.employees));
        return fileAbort, log + events;
      }
      ThenThen(log, events, RunFiles(db.employees, files, parsed, i + 1, division, AddTo(division)));
      log := log + events;
      i := i + 1;
    }
  }

  /** Lines 39-61 for the `k`th division directory, division `k + 1`: skip it
    * when it has no schema, and otherwise run its dated files in date order.
    * The reports and the table after it continue the run, or end it. */
  method RunDivisionAt(db: Database, dirs: seq<DirEntry>, k: nat, schemas: map<int, Schema>, read: Reader, rx: Matcher)
    returns (abort: Option<Abort>, events: seq<Event>)
    requires k < |dirs|
    modifies db
    ensures db.CatalogTables() == old(db.CatalogTables())
    ensures var parse := ParserOf(read, rx, old(db.CatalogTables()));
      RunFrom(old(db.employees), dirs, k, schemas, parse, AddTo)
        == if abort.Some? then Run(abort, events, db.employees)
           else Then(events, RunFrom(db.employees, dirs, k + 1, schemas, parse, AddTo))
  {
    var division := k + 1;
    if division !in schemas {
      return None, [NoSchema(division)];
    }
    var dated := DatedFiles(dirs[k].csvPaths, DateOfPath);
    if dated.Err? {
      return Some(BadFileDate(division, dated.error)), [];
    }
    var files := SortByDate(dated.value);
    abort, events := RunDivision(db, files, division, schemas[division], read, rx);
  }

  /** Lines 38-61: every division directory in turn, numbered from 1. */
  method RunDivisions(db: Database, entries: seq<DirEntry>, schemas: map<int, Schema>, read: Reader, rx: Matcher)
    returns (abort: Option<Abort>, log: seq<Event>)
    modifies db
    ensures Run(abort, log, db.employees) == RunSpec(old(db.employees), old(db.CatalogTables()), entries, schemas, read, rx)
    ensures db.CatalogTables() == old(db.CatalogTables())
  {
    ghost var rows0 := db.employees;
    ghost var c := db.CatalogTables();
    var dirs := DivisionDirs(entries);
    ghost var parse := ParserOf(read, rx, c);
    abort, log := None, [];
    var k := 0;
    while k < |dirs|
      invariant 0 <= k <= |dirs|
      invariant db.CatalogTables() == c
      invariant RunFrom(rows0, dirs, 0, schemas, parse, AddTo) == Then(log, RunFrom(db.employees, dirs, k, schemas, parse, AddTo))
      decreases |dirs| - k
    {
      var divisionAbort, events := RunDivisionAt(db, dirs, k, schemas, read, rx);
      if divisionAbort.Some? {
        ThenThen(log, events, Run(divisionAbort, [], db.employees));
        return divisionAbort, log + events;
      }
      ThenThen(log, events, RunFrom(db.employees, dirs, k + 1, schemas, parse, AddTo));
      log := log + events;
      k := k + 1;
    }
  }

  /** The main block: seed the catalogs, then run the division directories.
    * A failed seed stops the run before any division; otherwise the run and
    * the final table follow `RunSpec` over the seeded catalogs. */
  method RunIngest(db: Database, config: SeedConfig, entries: seq<DirEntry>, schemas: map<int, Schema>, read: Reader, rx: Matcher)
    returns (abort: Option<Abort>, log: seq<Event>)
    modifies db
    ensures abort == Some(SeedAborted) <==>
      SeedClash(old(db.divisions), old(db.ranks), old(db.positions), old(db.departments), old(db.salaryBands), config)
    ensures abort == Some(SeedAborted) ==> log == [] && db.employees == old(db.employees)
    ensures abort != Some(SeedAborted) ==>
      Run(abort, log, db.employees) == RunSpec(old(db.employees), db.CatalogTables(), entries, schemas, read, rx)
  {
    var seeded := SeedDb(db, config);
    if seeded == SeedFailed {
      return Some(SeedAborted), [];
    }
    ghost var rows0 := db.employees;
    ghost var c := db.CatalogTables();
    abort, log := RunDivisions(db, entries, schemas, read, rx);
    AddToKeepsAll();
    RunFromAborts(rows0, DivisionDirs(entries), 0, schemas, ParserOf(read, rx, c), AddTo);
  }
}
