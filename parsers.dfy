/**
 * The division CSV parser: the split of a schema's column types into the
 * reader's `dtype` and `parse_dates` arguments, the transforms a schema
 * applies to a cell, and the building of one record per row, with the
 * catalog columns replaced by their `*_id` keys.
 */
module Parsers {
  import opened Wrappers
  import opened Text
  import opened Records
  import opened Tables
  import opened Utils
  import opened DbOps

  // ---------------------------------------------------------------------------
  // MODEL_REG

  /** How a catalog column is renamed: its value is looked up by name in a
    * catalog, or copied as the key itself (`match_on == "id"`). */
  datatype ModelInfo = ByName(model: FkModel, newHeader: string) | ById(newHeader: string)

  /** `MODEL_REG.get(header)`. */
  function ModelReg(header: string): Option<ModelInfo> {
    if header == "rank" then Some(ByName(RankModel, "rank_id"))
    else if header == "position" then Some(ByName(PositionModel, "position_id"))
    else if header == "department" then Some(ByName(DepartmentModel, "department_id"))
    else if header == "salary_band" then Some(ById("salary_band_id"))
    else None
  }

  predicate IsModelKey(header: string) {
    ModelReg(header).Some?
  }

  /** The registered columns are exactly the four catalog columns; each is
    * renamed to itself followed by `_id`, and no new name is registered. */
  lemma ModelRegSpec(h: string)
    ensures IsModelKey(h) <==> h == "rank" || h == "position" || h == "department" || h == "salary_band"
    ensures IsModelKey(h) ==> ModelReg(h).value.newHeader == h + "_id" && !IsModelKey(ModelReg(h).value.newHeader)
    ensures IsModelKey(h) ==> (ModelReg(h).value.ById? <==> h == "salary_band")
  {
  }

  /** Two registered columns are renamed to two different keys. */
  lemma ModelTargetsDistinct(h: string, k: string)
    requires IsModelKey(h) && IsModelKey(k) && h != k
    ensures ModelReg(h).value.newHeader != ModelReg(k).value.newHeader
  {
    ModelRegSpec(h);
    ModelRegSpec(k);
    assert (h + "_id")[..|h|] == h && (k + "_id")[..|k|] == k;
  }

  // ---------------------------------------------------------------------------
  // The dtype split

  /** A schema's `headers`: each column with its type name, in file order. */
  type Headers = seq<(string, string)>

  /** The keys of `TYPE_FUNCTION_REG`. */
  predicate RegisteredType(t: string) {
    t == "boolean" || t == "string" || t == "integer" || t == "date"
  }

  /** The columns, in order: the `names` given to the reader. */
  function Columns(headers: Headers): (cols: seq<string>)
    ensures |cols| == |headers| && forall i :: 0 <= i < |headers| ==> cols[i] == headers[i].0
  {
    seq(|headers|, i requires 0 <= i < |headers| => headers[i].0)
  }

  /** `parse_dates` after the first `n` columns. */
  function ParseDates(headers: Headers, n: nat): seq<string>
    requires n <= |headers|
  {
    if n == 0 then []
    else ParseDates(headers, n - 1) + (if headers[n - 1].1 == "date" then [headers[n - 1].0] else [])
  }

  /** `dtypes` after the first `n` columns, each column with the name of its
    * type. */
  function Dtypes(headers: Headers, n: nat): map<string, string>
    requires n <= |headers|
  {
    if n == 0 then map[]
    else
      var (col, typ) := headers[n - 1];
      if typ != "date" && RegisteredType(typ) then Dtypes(headers, n - 1)[col := typ]
      else Dtypes(headers, n - 1)
  }

  /** The loop that sorts the columns into `dtypes` and `parse_dates`. */
  method DtypeSplit(headers: Headers) returns (dtypes: map<string, string>, parseDates: seq<string>)
    ensures dtypes == Dtypes(headers, |headers|) && parseDates == ParseDates(headers, |headers|)
  {
    dtypes, parseDates := map[], [];
    var i := 0;
    while i < |headers|
      invariant 0 <= i <= |headers|
      invariant dtypes == Dtypes(headers, i) && parseDates == ParseDates(headers, i)
    {
      var (col, typ) := headers[i];
      if typ == "date" {
        parseDates := parseDates + [col];
      } else if RegisteredType(typ) {
        dtypes := dtypes[col := typ];
      }
      i := i + 1;
    }
  }

  /** A column is parsed as a date iff it is declared `date`; it gets a dtype
    * iff it is declared with another registered type; a column of an
    * unregistered type gets neither. */
  lemma {:induction false} DtypeSplitSpec(headers: Headers, n: nat, col: string)
    requires n <= |headers|
    ensures col in ParseDates(headers, n) <==> exists i | 0 <= i < n :: headers[i] == (col, "date")
    ensures col in Dtypes(headers, n) <==>
      exists i | 0 <= i < n :: headers[i].0 == col && headers[i].1 != "date" && RegisteredType(headers[i].1)
  {
    if n > 0 {
      DtypeSplitSpec(headers, n - 1, col);
      if headers[n - 1] == (col, "date") {
        assert col in ParseDates(headers, n);
      }
    }
  }

  /** The columns of a dictionary are distinct. */
  predicate DistinctColumns(headers: Headers) {
    forall i, j :: 0 <= i < j < |headers| ==> headers[i].0 != headers[j].0
  }

  /** A column with a registered type other than `date` gets that type. */
  lemma {:induction false} DtypeOfColumn(headers: Headers, n: nat, i: nat)
    requires i < n <= |headers| && DistinctColumns(headers)
    requires headers[i].1 != "date" && RegisteredType(headers[i].1)
    ensures headers[i].0 in Dtypes(headers, n) && Dtypes(headers, n)[headers[i].0] == headers[i].1
  {
    if n - 1 > i {
      DtypeOfColumn(headers, n - 1, i);
    }
  }

  // ---------------------------------------------------------------------------
  // apply_transform

  /** A key of a regex transform's `groups`: a group name or a group number. */
  datatype GroupRef = GroupName(name: string) | GroupNumber(number: int)

  /** A schema's transform for one column: its `type`, `action`, `pattern`
    * and `groups` entries, each possibly absent. `groups` maps a group of the
    * pattern to the record key that receives it. */
  datatype Transform = Transform(
    kind: Option<string>,
    action: Option<string>,
    pattern: Option<string>,
    groups: Option<seq<(GroupRef, string)>>)

  /** What `re.match(pattern, val)` gives: no match, a match whose `group`
    * returns the text of a group (`None` for a group the pattern lacks), or
    * the exception the regex engine raises. */
  datatype MatchResult = NoMatch | Matched(group: GroupRef -> Option<Value>) | Failed(message: string)

  /** The regex engine. */
  type Matcher = (string, Value) -> MatchResult

  /** `{groups[key]: match_result.group(key) for key in groups.keys()}`: the
    * dictionary of the first `n` groups, or the error of a group the pattern
    * does not have. */
  function GroupsDict(gs: seq<(GroupRef, string)>, group: GroupRef -> Option<Value>, n: nat): Result<Dict, string>
    requires n <= |gs|
  {
    if n == 0 then Ok([])
    else
      match GroupsDict(gs, group, n - 1)
      case Err(m) => Err(m)
      case Ok(d) =>
        match group(gs[n - 1].0)
        case None => Err("no such group")
        case Some(v) => Ok(Set(d, gs[n - 1].1, v))
  }

  /** The text `str(x)` gives for an optional string read from the schema. */
  function OptionText(x: Option<string>): string {
    match x
    case None => "None"
    case Some(s) => s
  }

  /** The message of the `ValueError` for an unregistered action as the
    * source writes it: it formats the failed lookup's result, which is
    * always `None`, rather than the action. */
  function UnregisteredMessageAsWritten(action: Option<string>): string {
    "No function named '" + PyStr(NoneVal) + "' registered"
  }

  /** The message as evidently intended: it names the action. */
  function UnregisteredMessage(action: Option<string>): string {
    "No function named '" + OptionText(action) + "' registered"
  }

  /** The message as written is the same for a misspelt action and for a
    * transform that names no action at all. */
  lemma UnregisteredMessageAsWrittenHidesAction()
    ensures UnregisteredMessageAsWritten(Some("clean_phone")) == UnregisteredMessageAsWritten(None)
    ensures UnregisteredMessageAsWritten(Some("clean_phone")) != UnregisteredMessage(Some("clean_phone"))
  {
    var a := UnregisteredMessageAsWritten(Some("clean_phone"));
    var b := UnregisteredMessage(Some("clean_phone"));
    assert a[19] == 'N' && b[19] == 'c';
  }

  /** The corrected message names the action, so two actions whose texts
    * differ give two different messages. */
  lemma UnregisteredMessageNamesAction(a: Option<string>, b: Option<string>)
    ensures OccursAt(UnregisteredMessage(a), OptionText(a), 19)
    ensures UnregisteredMessage(a) == UnregisteredMessage(b) ==> OptionText(a) == OptionText(b)
  {
    var p, q := "No function named '", "' registered";
    ConcatCancel(p, OptionText(a), OptionText(b), q);
    assert UnregisteredMessage(a) == p + OptionText(a) + q;
    assert (p + OptionText(a) + q)[|p|..|p| + |OptionText(a)|] == OptionText(a);
  }

  /** `apply_transform(header, val, transform)`: the entries to merge into
    * the record, or the message of the exception raised. */
  function ApplyTransform(header: string, val: Value, t: Transform, rx: Matcher): Result<Dict, string> {
    if t.kind == Some("func") then
      if t.action == Some("clean_contact_number") then
        if val.Str? then Ok([(header, Str(CleanContactNumber(val.s)))])
        else Err("'" + PyTypeName(val) + "' object has no attribute 'strip'")
      else Err(UnregisteredMessageAsWritten(t.action))
    else if t.kind == Some("regex") then
      match t.pattern
      case None => Err("'pattern'")
      case Some(p) =>
        match rx(p, val)
        case Failed(m) => Err(m)
        case NoMatch => Err("Regex pattern '" + p + "' did not match '" + PyStr(val) + "'")
        case Matched(group) =>
          match t.groups
          case None => Err("'NoneType' object has no attribute 'keys'")
          case Some(gs) => GroupsDict(gs, group, |gs|)
    else Err("Unknown transform type of '" + OptionText(t.kind) + "'")
  }

  /** A `func` transform with the registered action cleans a text cell into
    * the column itself; with any other action, or none, it raises with the
    * same message, which names `None` whatever the action was. */
  lemma FuncTransformSpec(header: string, val: Value, t: Transform, rx: Matcher)
    requires t.kind == Some("func")
    ensures t.action == Some("clean_contact_number") && val.Str? ==>
      ApplyTransform(header, val, t, rx) == Ok([(header, Str(CleanContactNumber(val.s)))])
    ensures t.action != Some("clean_contact_number") ==>
      ApplyTransform(header, val, t, rx) == Err("No function named 'None' registered")
  {
    assert PyStr(NoneVal) == "None";
    assert UnregisteredMessageAsWritten(t.action) == "No function named 'None' registered";
  }

  /** A `regex` transform raises when the pattern does not match; when it
    * matches and every group exists, each target key receives its group. */
  lemma RegexTransformSpec(header: string, val: Value, t: Transform, rx: Matcher, j: nat)
    requires t.kind == Some("regex") && t.pattern.Some?
    ensures rx(t.pattern.value, val).NoMatch? ==>
      ApplyTransform(header, val, t, rx) == Err("Regex pattern '" + t.pattern.value + "' did not match '" + PyStr(val) + "'")
    ensures rx(t.pattern.value, val).Matched? && t.groups.Some? ==>
      var (gs, group) := (t.groups.value, rx(t.pattern.value, val).group);
      && (ApplyTransform(header, val, t, rx).Ok? <==> forall i :: 0 <= i < |gs| ==> group(gs[i].0).Some?)
      && (ApplyTransform(header, val, t, rx).Ok? && DistinctTargets(gs) && j < |gs| ==>
            Get(ApplyTransform(header, val, t, rx).value, gs[j].1) == group(gs[j].0))
  {
    if rx(t.pattern.value, val).Matched? && t.groups.Some? {
      var (gs, group) := (t.groups.value, rx(t.pattern.value, val).group);
      GroupsDictSpec(gs, group, |gs|, j);
    }
  }

  /** A transform whose type is neither `func` nor `regex` raises. */
  lemma OtherTransformRaises(header: string, val: Value, t: Transform, rx: Matcher)
    requires t.kind != Some("func") && t.kind != Some("regex")
    ensures ApplyTransform(header, val, t, rx) == Err("Unknown transform type of '" + OptionText(t.kind) + "'")
  {
  }

  predicate DistinctTargets(gs: seq<(GroupRef, string)>) {
    forall i, j :: 0 <= i < j < |gs| ==> gs[i].1 != gs[j].1
  }

  /** The groups give a dictionary iff every group exists; it has no key
    * twice, and with distinct targets each target holds its group. */
  lemma {:induction false} GroupsDictSpec(gs: seq<(GroupRef, string)>, group: GroupRef -> Option<Value>, n: nat, j: nat)
    requires n <= |gs|
    ensures GroupsDict(gs, group, n).Ok? <==> forall i :: 0 <= i < n ==> group(gs[i].0).Some?
    ensures GroupsDict(gs, group, n).Ok? ==> WellFormed(GroupsDict(gs, group, n).value)
    ensures GroupsDict(gs, group, n).Ok? && DistinctTargets(gs) && j < n ==>
      Get(GroupsDict(gs, group, n).value, gs[j].1) == group(gs[j].0)
  {
    if n > 0 {
      GroupsDictSpec(gs, group, n - 1, j);
      var prev := GroupsDict(gs, group, n - 1);
      if prev.Ok? && group(gs[n - 1].0).Some? {
        var key := if j < n then gs[j].1 else gs[n - 1].1;
        SetSpec(prev.value, gs[n - 1].1, group(gs[n - 1].0).value, key);
      }
    }
  }

  // ---------------------------------------------------------------------------
  // parse_csv: one row

  /** A row of the data frame: its index and its cells by column. */
  datatype Row = Row(index: int, cells: map<string, Value>)

  /** The schema's `transforms`, when present: a transform per column. An
    * empty transform counts as none. */
  type Transforms = Option<map<string, Transform>>

  /** One step of the header loop: the value of the column, transformed and
    * merged into the record, or stored under the column. */
  function HeaderStep(record: Dict, row: Row, header: string, transforms: Transforms, rx: Matcher): Result<Dict, string> {
    if header !in row.cells then Err("'Pandas' object has no attribute '" + header + "'")
    else
      var val := row.cells[header];
      match transforms
      case None => Err("'NoneType' object has no attribute 'get'")
      case Some(ts) =>
        if header in ts then
          match ApplyTransform(header, val, ts[header], rx)
          case Err(m) => Err(m)
          case Ok(d) => Ok(Update(record, d))
        else Ok(Set(record, header, val))
  }

  /** The header loop over the remaining columns. */
  function HeaderPass(record: Dict, row: Row, headers: seq<string>, transforms: Transforms, rx: Matcher): Result<Dict, string>
    decreases |headers|
  {
    if headers == [] then Ok(record)
    else
      match HeaderStep(record, row, headers[0], transforms, rx)
      case Err(m) => Err(m)
      case Ok(r) => HeaderPass(r, row, headers[1..], transforms, rx)
  }

  /** The value a catalog column's `*_id` key receives: the value itself, or
    * the key `resolve_fk` finds for it. */
  function RenamedValue(info: ModelInfo, value: Value, c: Catalogs): Result<Value, string> {
    match info
    case ById(_) => Ok(value)
    case ByName(m, _) =>
      match ResolveFk(m, value, c)
      case Err(msg) => Err(msg)
      case Ok(id) => Ok(Int(id))
  }

  /** One step of the renaming loop: a catalog column is replaced by its
    * `*_id` key. Reading the column raises `KeyError` when it is gone. */
  function RenameKey(record: Dict, header: string, c: Catalogs): Result<Dict, string> {
    match ModelReg(header)
    case None => Ok(record)
    case Some(info) =>
      match Get(record, header)
      case None => Err("'" + header + "'")
      case Some(value) =>
        match RenamedValue(info, value, c)
        case Err(msg) => Err(msg)
        case Ok(x) => Ok(Del(Set(record, info.newHeader, x), header))
  }

  /** The renaming loop over the remaining keys of the snapshot. */
  function Rename(record: Dict, ks: seq<string>, c: Catalogs): Result<Dict, string>
    decreases |ks|
  {
    if ks == [] then Ok(record)
    else
      match RenameKey(record, ks[0], c)
      case Err(m) => Err(m)
      case Ok(r) => Rename(r, ks[1..], c)
  }

  /** The body of the `try` for one row: the record it builds, or the
    * message of the exception that ends it. */
  function RecordOf(row: Row, headers: Headers, transforms: Transforms, rx: Matcher, c: Catalogs): Result<Dict, string> {
    match HeaderPass([], row, Columns(headers), transforms, rx)
    case Err(m) => Err(m)
    case Ok(r) => Rename(r, Keys(r), c)
  }

  /** The two loops of the `try` for one row. */
  method BuildRecord(row: Row, headers: Headers, transforms: Transforms, rx: Matcher, c: Catalogs)
    returns (r: Result<Dict, string>)
    ensures r == RecordOf(row, headers, transforms, rx, c)
  {
    var cols := Columns(headers);
    var record: Dict := [];
    var i := 0;
    while i < |cols|
      invariant 0 <= i <= |cols|
      invariant HeaderPass([], row, cols, transforms, rx) == HeaderPass(record, row, cols[i..], transforms, rx)
    {
      var header := cols[i];
      assert cols[i..][1..] == cols[i + 1..];
      if header !in row.cells {
        return Err("'Pandas' object has no attribute '" + header + "'");
      }
      var val := row.cells[header];
      if transforms.None? {
        return Err("'NoneType' object has no attribute 'get'");
      }
      if header in transforms.value {
        var t := ApplyTransform(header, val, transforms.value[header], rx);
        if t.Err? {
          return Err(t.error);
        }
        record := Update(record, t.value);
      } else {
        record := Set(record, header, val);
      }
      i := i + 1;
    }
    var ks := Keys(record);
    ghost var built := record;
    var j := 0;
    while j < |ks|
      invariant 0 <= j <= |ks|
      invariant Rename(built, ks, c) == Rename(record, ks[j..], c)
    {
      var header := ks[j];
      assert ks[j..][1..] == ks[j + 1..];
      var info := ModelReg(header);
      if info.Some? {
        var value := Get(record, header);
        if value.None? {
          return Err("'" + header + "'");
        }
        if info.value.ById? {
          record := Set(record, info.value.newHeader, value.value);
        } else {
          var id := ResolveFk(info.value.model, value.value, c);
          if id.Err? {
            return Err(id.error);
          }
          record := Set(record, info.value.newHeader, Int(id.value));
        }
        record := Del(record, header);
      }
      j := j + 1;
    }
    return Ok(record);
  }

  // ---------------------------------------------------------------------------
  // Properties of one row

  /** The header loop keeps a record free of repeated keys. */
  lemma {:induction false} HeaderPassWellFormed(record: Dict, row: Row, headers: seq<string>, transforms: Transforms, rx: Matcher)
    requires WellFormed(record)
    ensures HeaderPass(record, row, headers, transforms, rx).Ok? ==> WellFormed(HeaderPass(record, row, headers, transforms, rx).value)
    decreases |headers|
  {
    if headers != [] {
      var step := HeaderStep(record, row, headers[0], transforms, rx);
      if step.Ok? {
        var h := headers[0];
        if transforms.Some? && h in transforms.value {
          UpdateWellFormed(record, ApplyTransform(h, row.cells[h], transforms.value[h], rx).value);
        } else {
          SetSpec(record, h, row.cells[h], h);
        }
        HeaderPassWellFormed(step.value, row, headers[1..], transforms, rx);
      }
    }
  }

  /** One renaming step: the renamed column is gone, its `*_id` key holds the
    * renamed value, every other key reads as before, and the step raises when
    * `resolve_fk` does. */
  lemma RenameKeySpec(record: Dict, k: string, c: Catalogs, j: string)
    requires WellFormed(record)
    ensures RenameKey(record, k, c).Ok? ==> WellFormed(RenameKey(record, k, c).value)
    ensures !IsModelKey(k) ==> RenameKey(record, k, c) == Ok(record)
    ensures IsModelKey(k) && RenameKey(record, k, c).Ok? ==>
      var info := ModelReg(k).value;
      && !HasKey(RenameKey(record, k, c).value, k)
      && Get(record, k).Some? && RenamedValue(info, Get(record, k).value, c).Ok?
      && Get(RenameKey(record, k, c).value, info.newHeader) == Some(RenamedValue(info, Get(record, k).value, c).value)
    ensures IsModelKey(k) && Get(record, k).Some? && RenamedValue(ModelReg(k).value, Get(record, k).value, c).Err? ==>
      RenameKey(record, k, c) == Err(RenamedValue(ModelReg(k).value, Get(record, k).value, c).error)
    ensures RenameKey(record, k, c).Ok? && j != k && (IsModelKey(k) ==> j != ModelReg(k).value.newHeader) ==>
      Get(RenameKey(record, k, c).value, j) == Get(record, j)
  {
    if IsModelKey(k) && Get(record, k).Some? {
      var info := ModelReg(k).value;
      var x := RenamedValue(info, Get(record, k).value, c);
      if x.Ok? {
        ModelRegSpec(k);
        var stored := Set(record, info.newHeader, x.value);
        SetSpec(record, info.newHeader, x.value, j);
        SetSpec(record, info.newHeader, x.value, k);
        DelSpec(stored, k, j);
        DelSpec(stored, k, info.newHeader);
      }
    }
  }

  /** After the renaming loop over keys that include every catalog column
    * present, no catalog column is left. */
  lemma {:induction false} RenameClears(record: Dict, ks: seq<string>, c: Catalogs)
    requires WellFormed(record)
    requires forall h :: IsModelKey(h) && HasKey(record, h) ==> h in ks
    ensures Rename(record, ks, c).Ok? ==>
      WellFormed(Rename(record, ks, c).value) && forall h :: IsModelKey(h) ==> !HasKey(Rename(record, ks, c).value, h)
    decreases |ks|
  {
    if ks != [] {
      var k := ks[0];
      var step := RenameKey(record, k, c);
      if step.Ok? {
        RenameKeySpec(record, k, c, k);
        forall h | IsModelKey(h) && HasKey(step.value, h) ensures h in ks[1..] {
          RenameKeySpec(record, k, c, h);
          if h != k {
            ModelRegSpec(k);
            assert Get(step.value, h) == Get(record, h);
            assert h in ks;
          }
        }
        RenameClears(step.value, ks[1..], c);
      }
    }
  }

  /** The renaming over keys none of which renames to `t` leaves `t` as it was. */
  lemma {:induction false} RenameKeeps(record: Dict, ks: seq<string>, c: Catalogs, t: string)
    requires WellFormed(record) && !IsModelKey(t)
    requires forall i :: 0 <= i < |ks| && IsModelKey(ks[i]) ==> ModelReg(ks[i]).value.newHeader != t
    ensures Rename(record, ks, c).Ok? ==> Get(Rename(record, ks, c).value, t) == Get(record, t)
    decreases |ks|
  {
    if ks != [] {
      RenameKeySpec(record, ks[0], c, t);
      var step := RenameKey(record, ks[0], c);
      if step.Ok? {
        RenameKeeps(step.value, ks[1..], c, t);
      }
    }
  }

  predicate DistinctKeys(ks: seq<string>) {
    forall i, j :: 0 <= i < j < |ks| ==> ks[i] != ks[j]
  }

  /** A catalog column `h` holding `v` ends up as its `*_id` key holding the
    * renamed value; when the renamed value is an error the loop raises. */
  lemma {:induction false} RenameValue(record: Dict, ks: seq<string>, c: Catalogs, h: string, v: Value)
    requires WellFormed(record) && DistinctKeys(ks) && IsModelKey(h) && h in ks && Get(record, h) == Some(v)
    ensures Rename(record, ks, c).Ok? ==>
      var info := ModelReg(h).value;
      RenamedValue(info, v, c).Ok? && Get(Rename(record, ks, c).value, info.newHeader) == Some(RenamedValue(info, v, c).value)
    decreases |ks|
  {
    var k := ks[0];
    var step := RenameKey(record, k, c);
    RenameKeySpec(record, k, c, h);
    if step.Ok? {
      if k == h {
        var info := ModelReg(h).value;
        ModelRegSpec(h);
        forall i | 0 <= i < |ks[1..]| && IsModelKey(ks[1..][i]) ensures ModelReg(ks[1..][i]).value.newHeader != info.newHeader {
          assert ks[1..][i] == ks[i + 1] != h;
          ModelTargetsDistinct(ks[1..][i], h);
        }
        RenameKeeps(step.value, ks[1..], c, info.newHeader);
      } else {
        ModelRegSpec(h);
        if IsModelKey(k) {
          ModelRegSpec(k);
        }
        assert h in ks[1..];
        RenameValue(step.value, ks[1..], c, h, v);
      }
    }
  }

  /** A record built without error has no catalog column left. */
  lemma RecordHasNoCatalogColumns(row: Row, headers: Headers, transforms: Transforms, rx: Matcher, c: Catalogs, h: string)
    ensures RecordOf(row, headers, transforms, rx, c).Ok? && IsModelKey(h) ==>
      !HasKey(RecordOf(row, headers, transforms, rx, c).value, h)
  {
    var pass := HeaderPass([], row, Columns(headers), transforms, rx);
    HeaderPassWellFormed([], row, Columns(headers), transforms, rx);
    if pass.Ok? {
      var r := pass.value;
      forall k | IsModelKey(k) && HasKey(r, k) ensures k in Keys(r) {
        GetIsEntry(r, k, NoneVal);
      }
      RenameClears(r, Keys(r), c);
    }
  }

  /** A catalog column that the header loop filled with `v` becomes its
    * `*_id` key: `salary_band_id` holds `v` itself, the other keys hold the
    * key `resolve_fk` finds for `v`, and a name it does not find makes the
    * row an error. */
  lemma RecordRenamesColumn(row: Row, headers: Headers, transforms: Transforms, rx: Matcher, c: Catalogs, h: string, v: Value)
    requires IsModelKey(h)
    ensures var pass := HeaderPass([], row, Columns(headers), transforms, rx);
      var rec := RecordOf(row, headers, transforms, rx, c);
      var info := ModelReg(h).value;
      pass.Ok? && Get(pass.value, h) == Some(v) && rec.Ok? ==>
        RenamedValue(info, v, c).Ok? && Get(rec.value, info.newHeader) == Some(RenamedValue(info, v, c).value)
  {
    var pass := HeaderPass([], row, Columns(headers), transforms, rx);
    HeaderPassWellFormed([], row, Columns(headers), transforms, rx);
    if pass.Ok? && Get(pass.value, h) == Some(v) {
      var r := pass.value;
      GetIsEntry(r, h, v);
      var ks := Keys(r);
      forall i, j | 0 <= i < j < |ks| ensures ks[i] != ks[j] {
        assert ks[i] == r[i].0 && ks[j] == r[j].0;
      }
      RenameValue(r, ks, c, h, v);
    }
  }

  /** The pairs `(column, cell)` of the given columns, in order. */
  function PlainEntries(row: Row, cols: seq<string>): Dict
    requires forall i :: 0 <= i < |cols| ==> cols[i] in row.cells
  {
    seq(|cols|, i requires 0 <= i < |cols| && cols[i] in row.cells => (cols[i], row.cells[cols[i]]))
  }

  /** Without transforms for the columns, the header loop stores each cell
    * under its column, in column order. */
  lemma {:induction false} HeaderPassPlain(record: Dict, row: Row, cols: seq<string>, ts: map<string, Transform>, rx: Matcher)
    requires forall i :: 0 <= i < |cols| ==> cols[i] in row.cells && cols[i] !in ts
    requires forall i, j :: 0 <= i < j < |cols| ==> cols[i] != cols[j]
    requires forall i, j :: 0 <= i < |cols| && 0 <= j < |record| ==> cols[i] != record[j].0
    ensures HeaderPass(record, row, cols, Some(ts), rx) == Ok(record + PlainEntries(row, cols))
    decreases |cols|
  {
    if cols != [] {
      var h := cols[0];
      var e := (h, row.cells[h]);
      assert IndexOf(record, h) == -1;
      var next := record + [e];
      assert HeaderStep(record, row, h, Some(ts), rx) == Ok(next);
      HeaderPassPlain(next, row, cols[1..], ts, rx);
      assert next + PlainEntries(row, cols[1..]) == record + PlainEntries(row, cols);
    } else {
      assert record + PlainEntries(row, cols) == record;
    }
  }

  // ---------------------------------------------------------------------------
  // parse_csv

  /** An entry of `errors`: the row index and the exception text. */
  datatype ParseError = ParseError(row: int, message: string)

  /** The division schema: its `headers` and `transforms` entries. */
  datatype Schema = Schema(headers: Option<Headers>, transforms: Transforms)

  /** `read_csv(file, names=…, skiprows=1, dtype=…, parse_dates=…)`: the rows
    * read from the file, or the message of the exception raised. */
  type Reader = (string, seq<string>, map<string, string>, seq<string>) -> Result<seq<Row>, string>

  /** The reader's call with the columns and their split dtypes. */
  function ReadRows(path: string, headers: Headers, read: Reader): Result<seq<Row>, string> {
    read(path, Columns(headers), Dtypes(headers, |headers|), ParseDates(headers, |headers|))
  }

  /** What one row adds to the output: a record, or an error entry. */
  function RowOutcome(row: Row, headers: Headers, transforms: Transforms, rx: Matcher, c: Catalogs): Result<Dict, ParseError> {
    match RecordOf(row, headers, transforms, rx, c)
    case Err(m) => Err(ParseError(row.index, m))
    case Ok(d) => Ok(d)
  }

  function Outcomes(rows: seq<Row>, headers: Headers, transforms: Transforms, rx: Matcher, c: Catalogs): (os: seq<Result<Dict, ParseError>>)
    ensures |os| == |rows| && forall i :: 0 <= i < |rows| ==> os[i] == RowOutcome(rows[i], headers, transforms, rx, c)
  {
    seq(|rows|, i requires 0 <= i < |rows| => RowOutcome(rows[i], headers, transforms, rx, c))
  }

  /** The records of the outcomes, in order. */
  function OkValues(os: seq<Result<Dict, ParseError>>): seq<Dict>
    decreases |os|
  {
    if os == [] then []
    else OkValues(os[..|os| - 1]) + (if os[|os| - 1].Ok? then [os[|os| - 1].value] else [])
  }

  /** The error entries of the outcomes, in order. */
  function ErrValues(os: seq<Result<Dict, ParseError>>): seq<ParseError>
    decreases |os|
  {
    if os == [] then []
    else ErrValues(os[..|os| - 1]) + (if os[|os| - 1].Err? then [os[|os| - 1].error] else [])
  }

  /** `parse_csv(file, division_schema, db)`: the records and the error
    * entries, or the message of the exception it raises. */
  function ParseCsvSpec(path: string, schema: Schema, read: Reader, rx: Matcher, c: Catalogs): Result<(seq<Dict>, seq<ParseError>), string> {
    match schema.headers
    case None => Err("'NoneType' object has no attribute 'items'")
    case Some(headers) =>
      match ReadRows(path, headers, read)
      case Err(m) => Err(m)
      case Ok(rows) =>
        var os := Outcomes(rows, headers, schema.transforms, rx, c);
        Ok((OkValues(os), ErrValues(os)))
  }

  method ParseCsv(path: string, schema: Schema, read: Reader, rx: Matcher, c: Catalogs)
    returns (r: Result<(seq<Dict>, seq<ParseError>), string>)
    ensures r == ParseCsvSpec(path, schema, read, rx, c)
  {
    if schema.headers.None? {
      return Err("'NoneType' object has no attribute 'items'");
    }
    var headers := schema.headers.value;
    var dtypes, parseDates := DtypeSplit(headers);
    var df := read(path, Columns(headers), dtypes, parseDates);
    if df.Err? {
      return Err(df.error);
    }
    var rows := df.value;
    ghost var os := Outcomes(rows, headers, schema.transforms, rx, c);
    var records: seq<Dict> := [];
    var errors: seq<ParseError> := [];
    var i := 0;
    while i < |rows|
      invariant 0 <= i <= |rows|
      invariant records == OkValues(os[..i]) && errors == ErrValues(os[..i])
    {
      assert os[..i + 1][..i] == os[..i];
      var record := BuildRecord(rows[i], headers, schema.transforms, rx, c);
      if record.Ok? {
        records := records + [record.value];
      } else {
        errors := errors + [ParseError(rows[i].index, record.error)];
      }
      i := i + 1;
    }
    assert os[..|rows|] == os;
    return Ok((records, errors));
  }

  // ---------------------------------------------------------------------------
  // Properties of parse_csv

  /** Every row gives exactly one record or one error entry. */
  lemma {:induction false} OutcomesPartition(os: seq<Result<Dict, ParseError>>)
    ensures |OkValues(os)| + |ErrValues(os)| == |os|
    decreases |os|
  {
    if os != [] {
      OutcomesPartition(os[..|os| - 1]);
    }
  }

  /** The records of consecutive rows follow each other: the row order is
    * kept, for records and for error entries alike. */
  lemma {:induction false} OutcomesAppend(a: seq<Result<Dict, ParseError>>, b: seq<Result<Dict, ParseError>>)
    ensures OkValues(a + b) == OkValues(a) + OkValues(b)
    ensures ErrValues(a + b) == ErrValues(a) + ErrValues(b)
    decreases |b|
  {
    if b != [] {
      var b' := b[..|b| - 1];
      assert (a + b)[..|a + b| - 1] == a + b';
      OutcomesAppend(a, b');
    } else {
      assert a + b == a;
    }
  }

  /** Every record and every error entry comes from the outcome of some row. */
  lemma {:induction false} OutcomesOrigin(os: seq<Result<Dict, ParseError>>, k: nat)
    ensures k < |OkValues(os)| ==> exists i | 0 <= i < |os| :: os[i] == Ok(OkValues(os)[k])
    ensures k < |ErrValues(os)| ==> exists i | 0 <= i < |os| :: os[i] == Err(ErrValues(os)[k])
    decreases |os|
  {
    if os != [] {
      var init := os[..|os| - 1];
      OutcomesOrigin(init, k);
      if k < |OkValues(init)| {
        var i :| 0 <= i < |init| && init[i] == Ok(OkValues(init)[k]);
        assert os[i] == init[i];
      }
      if k < |ErrValues(init)| {
        var i :| 0 <= i < |init| && init[i] == Err(ErrValues(init)[k]);
        assert os[i] == init[i];
      }
    }
  }

  /** A parse raises iff the schema has no `headers` or the read raises. */
  lemma ParseCsvRaises(path: string, schema: Schema, read: Reader, rx: Matcher, c: Catalogs)
    ensures ParseCsvSpec(path, schema, read, rx, c).Err? <==>
      schema.headers.None? || ReadRows(path, schema.headers.value, read).Err?
  {
  }

  /** After a successful read the rows split into the records and the error
    * entries. */
  lemma ParseCsvCounts(path: string, schema: Schema, read: Reader, rx: Matcher, c: Catalogs)
    requires schema.headers.Some? && ReadRows(path, schema.headers.value, read).Ok?
    ensures ParseCsvSpec(path, schema, read, rx, c).Ok?
    ensures |ParseCsvSpec(path, schema, read, rx, c).value.0| + |ParseCsvSpec(path, schema, read, rx, c).value.1|
      == |ReadRows(path, schema.headers.value, read).value|
  {
    var headers := schema.headers.value;
    OutcomesPartition(Outcomes(ReadRows(path, headers, read).value, headers, schema.transforms, rx, c));
  }

  /** No record of a parse keeps a catalog column. */
  lemma ParseCsvNoCatalogColumns(path: string, schema: Schema, read: Reader, rx: Matcher, c: Catalogs, k: nat, h: string)
    ensures var out := ParseCsvSpec(path, schema, read, rx, c);
      out.Ok? && k < |out.value.0| && IsModelKey(h) ==> !HasKey(out.value.0[k], h)
  {
    var out := ParseCsvSpec(path, schema, read, rx, c);
    if out.Ok? && k < |out.value.0| && IsModelKey(h) {
      var headers := schema.headers.value;
      var rows := ReadRows(path, headers, read).value;
      var os := Outcomes(rows, headers, schema.transforms, rx, c);
      OutcomesOrigin(os, k);
      var i :| 0 <= i < |os| && os[i] == Ok(OkValues(os)[k]);
      RecordHasNoCatalogColumns(rows[i], headers, schema.transforms, rx, c, h);
    }
  }

  /** Every record is the record of some row, and every error entry is the
    * error of some row: its index and the message raised. */
  lemma ParseCsvOrigin(path: string, schema: Schema, read: Reader, rx: Matcher, c: Catalogs, k: nat)
    requires schema.headers.Some? && ReadRows(path, schema.headers.value, read).Ok?
    ensures var rows := ReadRows(path, schema.headers.value, read).value;
      var (records, errors) := ParseCsvSpec(path, schema, read, rx, c).value;
      && (k < |records| ==> exists i | 0 <= i < |rows| ::
            RecordOf(rows[i], schema.headers.value, schema.transforms, rx, c) == Ok(records[k]))
      && (k < |errors| ==> exists i | 0 <= i < |rows| ::
            RowOutcome(rows[i], schema.headers.value, schema.transforms, rx, c) == Err(errors[k]))
  {
    var headers := schema.headers.value;
    var rows := ReadRows(path, headers, read).value;
    var os := Outcomes(rows, headers, schema.transforms, rx, c);
    OutcomesOrigin(os, k);
    if k < |OkValues(os)| {
      var i :| 0 <= i < |os| && os[i] == Ok(OkValues(os)[k]);
      assert RecordOf(rows[i], headers, schema.transforms, rx, c) == Ok(OkValues(os)[k]);
    }
  }
}
