/**
 * The Python values a CSV row yields once pandas has read it, their `str()`
 * and type names, and insertion-ordered dictionaries of them.
 */
module Records {
  import opened Wrappers
  import opened Text
  import opened Calendar
  import opened Seqs

  /** A cell value: text, an integer, a boolean, a parsed date (a pandas
    * `Timestamp`), a missing cell (`NaN`/`NaT`), or `None`. */
  datatype Value = Str(s: string) | Int(i: int) | Bool(b: bool) | Stamp(t: DateTime) | NaN | NoneVal

  /** `type(v).__name__`. */
  function PyTypeName(v: Value): string {
    match v
    case Str(_) => "str"
    case Int(_) => "int"
    case Bool(_) => "bool"
    case Stamp(_) => "Timestamp"
    case NaN => "float"
    case NoneVal => "NoneType"
  }

  /** `n` in decimal, left-padded with zeros to `width` digits. */
  function Padded(n: nat, width: nat): (s: string)
    ensures |s| >= width && AllDigits(s)
  {
    var digits := NatToString(n);
    if |digits| >= width then digits else seq(width - |digits|, _ => '0') + digits
  }

  /** `str(ts)` of a timestamp: `YYYY-MM-DD HH:MM:SS`, plus microseconds when
    * they are not zero. */
  function StampText(t: DateTime): string {
    var secs := t.micros / 1_000_000;
    var frac := t.micros % 1_000_000;
    var year := if t.date.year < 0 then 0 else t.date.year;
    var month := if t.date.month < 0 then 0 else t.date.month;
    var day := if t.date.day < 0 then 0 else t.date.day;
    Padded(year, 4) + "-" + Padded(month, 2) + "-" + Padded(day, 2) + " "
      + Padded(secs / 3600, 2) + ":" + Padded(secs / 60 % 60, 2) + ":" + Padded(secs % 60, 2)
      + (if frac == 0 then "" else "." + Padded(frac, 6))
  }

  /** `str(v)`, as an f-string renders it. */
  function PyStr(v: Value): string {
    match v
    case Str(s) => s
    case Int(i) => IntToString(i)
    case Bool(b) => if b then "True" else "False"
    case Stamp(t) => StampText(t)
    case NaN => "nan"
    case NoneVal => "None"
  }

  /** `str(v)` of a string is the string itself, and of any other value it is
    * a non-empty text. */
  lemma PyStrCases(v: Value)
    ensures v.Str? ==> PyStr(v) == v.s
    ensures !v.Str? ==> PyStr(v) != ""
  {
  }

  /** A Python `dict` with string keys: its entries in insertion order. */
  type Dict = seq<(string, Value)>

  /** `list(d.keys())`. */
  function Keys(d: Dict): (ks: seq<string>)
    ensures |ks| == |d| && forall i :: 0 <= i < |d| ==> ks[i] == d[i].0
  {
    seq(|d|, i requires 0 <= i < |d| => d[i].0)
  }

  /** The position of key `k`, or -1 when `k` is absent. */
  function IndexOf(d: Dict, k: string): (r: int)
    ensures -1 <= r < |d|
    ensures r >= 0 ==> d[r].0 == k && forall i :: 0 <= i < r ==> d[i].0 != k
    ensures r == -1 ==> forall i :: 0 <= i < |d| ==> d[i].0 != k
  {
    if d == [] then -1
    else if d[0].0 == k then 0
    else
      var r := IndexOf(d[1..], k);
      if r == -1 then -1 else r + 1
  }

  /** `k in d`. */
  predicate HasKey(d: Dict, k: string) {
    IndexOf(d, k) >= 0
  }

  /** A well-formed dictionary has no key twice. */
  predicate WellFormed(d: Dict) {
    forall i, j :: 0 <= i < j < |d| ==> d[i].0 != d[j].0
  }

  /** `d.get(k)`. */
  function Get(d: Dict, k: string): Option<Value> {
    var i := IndexOf(d, k);
    if i >= 0 then Some(d[i].1) else None
  }

  /** `d[k] = v`: an existing key keeps its position, a new one goes last. */
  function Set(d: Dict, k: string, v: Value): Dict {
    var i := IndexOf(d, k);
    if i >= 0 then d[i := (k, v)] else d + [(k, v)]
  }

  function NotKey(k: string): ((string, Value)) -> bool {
    (e: (string, Value)) => e.0 != k
  }

  /** `del d[k]`, which keeps the order of the other entries. */
  function Del(d: Dict, k: string): Dict {
    Filter(d, NotKey(k))
  }

  /** `d.update(e)`: the entries of `e` set in their order. */
  function Update(d: Dict, e: Dict): Dict
    decreases |e|
  {
    if e == [] then d else Update(Set(d, e[0].0, e[0].1), e[1..])
  }

  /** In a well-formed dictionary, reading a key gives `v` iff the entry
    * `(k, v)` is present, and a key is present iff some entry has it. */
  lemma GetIsEntry(d: Dict, k: string, v: Value)
    requires WellFormed(d)
    ensures Get(d, k) == Some(v) <==> (k, v) in d
    ensures HasKey(d, k) <==> k in Keys(d)
  {
    if (k, v) in d {
      var i :| 0 <= i < |d| && d[i] == (k, v);
      assert IndexOf(d, k) == i;
    }
    if k in Keys(d) {
      var i :| 0 <= i < |d| && Keys(d)[i] == k;
      assert d[i].0 == k;
    }
  }

  /** After `d[k] = v` the key `k` reads `v`, every other key reads as before,
    * and no key is duplicated. */
  lemma SetSpec(d: Dict, k: string, v: Value, j: string)
    requires WellFormed(d)
    ensures WellFormed(Set(d, k, v))
    ensures Get(Set(d, k, v), k) == Some(v)
    ensures j != k ==> Get(Set(d, k, v), j) == Get(d, j)
    ensures HasKey(Set(d, k, v), j) <==> j == k || HasKey(d, j)
  {
    var i := IndexOf(d, k);
    var r := Set(d, k, v);
    assert forall m :: 0 <= m < |d| ==> r[m].0 == d[m].0 || m == i;
    if i < 0 {
      assert r[|d|] == (k, v);
    }
    if j != k {
      var a := IndexOf(d, j);
      if a >= 0 {
        assert r[a] == d[a];
        assert IndexOf(r, j) == a;
      } else {
        assert forall m :: 0 <= m < |r| ==> r[m].0 != j;
      }
    }
  }

  /** After `del d[k]` the key `k` is gone, every other key reads as before,
    * and no key is duplicated. */
  lemma DelSpec(d: Dict, k: string, j: string)
    requires WellFormed(d)
    ensures WellFormed(Del(d, k))
    ensures !HasKey(Del(d, k), k)
    ensures j != k ==> Get(Del(d, k), j) == Get(d, j)
    ensures j != k ==> (HasKey(Del(d, k), j) <==> HasKey(d, j))
  {
    var r := Del(d, k);
    var p := NotKey(k);
    forall a, b | 0 <= a < b < |r| ensures r[a].0 != r[b].0 {
      FilterAtPositions(d, p, a);
      FilterAtPositions(d, p, b);
    }
    forall m | 0 <= m < |r| ensures r[m].0 != k {
      FilterMembership(d, p, r[m]);
    }
    if j != k {
      if HasKey(d, j) {
        var e := d[IndexOf(d, j)];
        FilterMembership(d, p, e);
        GetIsEntry(r, j, e.1);
        GetIsEntry(d, j, e.1);
      }
      if HasKey(r, j) {
        var e := r[IndexOf(r, j)];
        FilterMembership(d, p, e);
        GetIsEntry(r, j, e.1);
        GetIsEntry(d, j, e.1);
      }
    }
  }

  /** `d.update(e)` of a dictionary without repeated keys has none either. */
  lemma {:induction false} UpdateWellFormed(d: Dict, e: Dict)
    requires WellFormed(d)
    ensures WellFormed(Update(d, e))
    decreases |e|
  {
    if e != [] {
      SetSpec(d, e[0].0, e[0].1, e[0].0);
      UpdateWellFormed(Set(d, e[0].0, e[0].1), e[1..]);
    }
  }
}
