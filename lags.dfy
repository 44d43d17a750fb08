/**
 * The Lagged Features stage (`create_lagged_features(n)`). For each lag
 * i = 1..n the cleaned frame is shifted 10·i minutes later, its columns are
 * renamed `<name>_t-<10·i>min`, and it is inner-joined onto the frame built so
 * far, which starts as the bare index of the cleaned frame. A row survives
 * only if every one of its n predecessors on the 10-minute grid is present.
 */
module Lags {
  import opened Tables

  // ---------------------------------------------------------------------------
  // Decimal rendering of the lag, `str(i*10)`
  // ---------------------------------------------------------------------------

  predicate IsDigit(ch: char) { '0' <= ch <= '9' }

  function Digit(d: nat): (ch: char)
    requires d < 10
    ensures IsDigit(ch) && ch as int - '0' as int == d
  {
    ('0' as int + d) as char
  }

  /** `str(n)` for a non-negative integer: its decimal digits, most significant first, no leading zero. */
  function DecimalString(n: nat): (s: string)
    ensures |s| > 0
  {
    if n < 10 then [Digit(n)] else DecimalString(n / 10) + [Digit(n % 10)]
  }

  /** Every character of the rendering is a decimal digit. */
  lemma {:induction false} DecimalDigits(n: nat)
    ensures forall k :: 0 <= k < |DecimalString(n)| ==> IsDigit(DecimalString(n)[k])
  {
    if n >= 10 {
      DecimalDigits(n / 10);
    }
  }

  /** The number a string of decimal digits denotes (each character counted by its offset from '0'). */
  function DigitsValue(s: string): int
  {
    if s == [] then 0 else DigitsValue(s[..|s| - 1]) * 10 + (s[|s| - 1] as int - '0' as int)
  }

  /** Reading back the rendered digits gives the number. */
  lemma {:induction false} DecimalRoundTrip(n: nat)
    ensures DigitsValue(DecimalString(n)) == n
  {
    var s := DecimalString(n);
    if n < 10 {
      assert s[..0] == [];
    } else {
      assert s[..|s| - 1] == DecimalString(n / 10);
      DecimalRoundTrip(n / 10);
    }
  }

  lemma DecimalInjective(m: nat, n: nat)
    ensures DecimalString(m) == DecimalString(n) ==> m == n
  {
    DecimalRoundTrip(m);
    DecimalRoundTrip(n);
  }

  // ---------------------------------------------------------------------------
  // Column names
  // ---------------------------------------------------------------------------

  /** What lag `i` appends to a column name: `"_t-" + str(i*10) + "min"`. */
  function LagSuffix(i: nat): string
  {
    "_t-" + DecimalString(GridStep * i) + "min"
  }

  /** The name column `c` takes at lag `i`: `c + "_t-" + str(i*10) + "min"`. */
  function LagName(c: Column, i: nat): Column
  {
    c + LagSuffix(i)
  }

  /** Cutting the lag's suffix off a lag name gives back the column it was made from. */
  lemma BaseNameOfLag(c: Column, i: nat)
    ensures LagName(c, i)[..|LagName(c, i)| - |LagSuffix(i)|] == c
  {
    assert LagName(c, i)[..|c|] == c;
  }

  /**
   * Different columns or different lags never share a name: the digits before
   * the final "min" run back to the '-', which fixes the lag and then the column.
   */
  lemma LagNameInjective(c: Column, d: Column, i: nat, j: nat)
    ensures LagName(c, i) == LagName(d, j) ==> c == d && i == j
  {
    if LagName(c, i) == LagName(d, j) {
      var a, b := DecimalString(GridStep * i), DecimalString(GridStep * j);
      var x, y := c + "_t-" + a, d + "_t-" + b;
      assert LagName(c, i) == x + "min";
      assert LagName(d, j) == y + "min";
      assert x == LagName(c, i)[..|x|];
      assert y == LagName(d, j)[..|y|];
      assert x == y;
      DecimalDigits(GridStep * i);
      DecimalDigits(GridStep * j);
      TrailingDigitsAfter(c + "_t-", a);
      TrailingDigitsAfter(d + "_t-", b);
      assert a == x[|x| - |a|..] == y[|y| - |b|..] == b;
      assert c == x[..|c|] && d == y[..|d|];
      DecimalInjective(GridStep * i, GridStep * j);
    }
  }

  /** The number of decimal digits at the end of `s`. */
  function TrailingDigits(s: string): (n: nat)
    ensures n <= |s|
  {
    if s == [] || !IsDigit(s[|s| - 1]) then 0 else 1 + TrailingDigits(s[..|s| - 1])
  }

  /** Digits written after a non-digit are exactly the trailing digits. */
  lemma {:induction false} TrailingDigitsAfter(p: string, a: string)
    requires p != [] && !IsDigit(p[|p| - 1]) && forall k :: 0 <= k < |a| ==> IsDigit(a[k])
    ensures TrailingDigits(p + a) == |a|
  {
    if a != [] {
      assert (p + a)[..|p + a| - 1] == p + a[..|a| - 1];
      TrailingDigitsAfter(p, a[..|a| - 1]);
    } else {
      assert p + a == p;
    }
  }

  /** The names of the columns `cols` at lag `i`. */
  function LagNames(cols: set<Column>, i: nat): set<Column>
  {
    set c {:trigger LagName(c, i)} | c in cols :: LagName(c, i)
  }

  /** The names of the columns `cols` at every lag 1..n. */
  function LagColumns(cols: set<Column>, n: int): set<Column>
  {
    set c, j {:trigger LagName(c, j)} | c in cols && 1 <= j <= n :: LagName(c, j)
  }

  lemma LagColumnsStep(cols: set<Column>, n: int)
    requires n >= 1
    ensures LagColumns(cols, n) == LagColumns(cols, n - 1) + LagNames(cols, n)
  {
    forall x | x in LagColumns(cols, n) ensures x in LagColumns(cols, n - 1) + LagNames(cols, n) {
      var c, j :| c in cols && 1 <= j <= n && x == LagName(c, j);
      if j < n { assert x in LagColumns(cols, n - 1); } else { assert x in LagNames(cols, n); }
    }
  }

  // ---------------------------------------------------------------------------
  // Shifting and joining
  // ---------------------------------------------------------------------------

  /** A row with each of `cols` renamed to its name at lag `i`. */
  function Rename(row: map<Column, real>, cols: set<Column>, i: nat): (r: map<Column, real>)
    requires cols <= row.Keys
    ensures r.Keys == LagNames(cols, i)
  {
    forall k | k in LagNames(cols, i) ensures |LagSuffix(i)| <= |k| && k[..|k| - |LagSuffix(i)|] in cols {
      var c :| c in cols && k == LagName(c, i);
      BaseNameOfLag(c, i);
    }
    map k | k in LagNames(cols, i) :: row[k[..|k| - |LagSuffix(i)|]]
  }

  /** Under its lag-i name, column `c` keeps its cell. */
  lemma RenameValue(row: map<Column, real>, cols: set<Column>, i: nat, c: Column)
    requires cols <= row.Keys && c in cols
    ensures LagName(c, i) in Rename(row, cols, i) && Rename(row, cols, i)[LagName(c, i)] == row[c]
  {
    BaseNameOfLag(c, i);
  }

  /** The rows of `es` moved `i` lags later, with their columns renamed for lag `i`. */
  function Shifted(es: seq<Entry<real>>, cols: set<Column>, i: nat): (r: seq<Entry<real>>)
    requires RowsCover(es, cols)
    ensures |r| == |es|
  {
    if es == [] then []
    else [Entry(es[0].time + GridStep * i, Rename(es[0].row, cols, i))] + Shifted(es[1..], cols, i)
  }

  /** The shifted frame has a row at `t` exactly when the frame has one a lag earlier, and it is that row renamed. */
  lemma {:induction false} ShiftedRowAt(es: seq<Entry<real>>, cols: set<Column>, i: nat, t: Time)
    requires RowsCover(es, cols)
    ensures RowAt(Shifted(es, cols, i), t).Some? <==> Before(t, i) in TimeSet(es)
    ensures RowAt(Shifted(es, cols, i), t).Some? ==>
              RowAt(Shifted(es, cols, i), t).value == Rename(RowAt(es, Before(t, i)).value, cols, i)
  {
    if es != [] {
      var s := Shifted(es, cols, i);
      assert s[1..] == Shifted(es[1..], cols, i);
      TimeSetCons(es);
      if es[0].time + GridStep * i != t {
        ShiftedRowAt(es[1..], cols, i, t);
      }
    }
  }

  lemma ShiftedUniform(es: seq<Entry<real>>, cols: set<Column>, i: nat)
    requires RowsCover(es, cols)
    ensures forall k :: 0 <= k < |es| ==> Shifted(es, cols, i)[k].row.Keys == LagNames(cols, i)
    decreases |es|
  {
    if es != [] {
      ShiftedUniform(es[1..], cols, i);
      assert forall k :: 1 <= k < |es| ==> Shifted(es, cols, i)[k] == Shifted(es[1..], cols, i)[k - 1];
    }
  }

  /**
   * `pd.concat([left, right], axis=1, join='inner')` on unique indexes: the rows
   * of `left` whose time `right` also has, in `left`'s order, each extended with
   * `right`'s cells.
   */
  function Join(left: seq<Entry<real>>, right: seq<Entry<real>>): (r: seq<Entry<real>>)
    ensures |r| <= |left|
  {
    if left == [] then []
    else
      match RowAt(right, left[0].time)
      case Some(row) => [Entry(left[0].time, left[0].row + row)] + Join(left[1..], right)
      case None => Join(left[1..], right)
  }

  /** The join has a row at exactly the times both sides have. */
  lemma {:induction false} JoinTimes(left: seq<Entry<real>>, right: seq<Entry<real>>)
    ensures TimeSet(Join(left, right)) == TimeSet(left) * TimeSet(right)
  {
    if left != [] {
      JoinTimes(left[1..], right);
      TimeSetCons(left);
      var r := Join(left, right);
      if RowAt(right, left[0].time).Some? {
        TimeSetCons(r);
        assert r[1..] == Join(left[1..], right);
      }
    }
  }

  lemma JoinTimesAt(left: seq<Entry<real>>, right: seq<Entry<real>>, joined: seq<Entry<real>>, t: Time)
    requires joined == Join(left, right)
    ensures t in TimeSet(joined) <==> t in TimeSet(left) && t in TimeSet(right)
  {
    JoinTimes(left, right);
  }

  /** The join keeps the left side's order, so unique increasing times stay so. */
  lemma {:induction false} JoinIncreasing(left: seq<Entry<real>>, right: seq<Entry<real>>)
    requires StrictlyIncreasing(left)
    ensures StrictlyIncreasing(Join(left, right))
  {
    if left != [] {
      var rest := Join(left[1..], right);
      JoinIncreasing(left[1..], right);
      JoinTimes(left[1..], right);
      var r := Join(left, right);
      if RowAt(right, left[0].time).Some? {
        forall k | 0 <= k < |rest| ensures rest[k].time > left[0].time {
          assert rest[k].time in TimeSet(rest);
          var j :| 0 <= j < |left[1..]| && left[1..][j].time == rest[k].time;
          assert left[j + 1].time == rest[k].time;
        }
        forall i, j | 0 <= i < j < |r| ensures r[i].time < r[j].time {
          assert r[j] == rest[j - 1];
          if i > 0 { assert r[i] == rest[i - 1]; }
        }
      }
    }
  }

  /** The rows after lags 1..n: the index of `scada`, inner-joined with each shifted copy in turn. */
  function LaggedEntries(scada: Table<real>, n: int): seq<Entry<real>>
    requires Uniform(scada)
    decreases n
  {
    if n <= 0 then IndexFrame<real, real>(scada.entries).entries
    else Join(LaggedEntries(scada, n - 1), Shifted(scada.entries, scada.columns, n))
  }

  /** `create_lagged_features(n)` as a function of `scada_data`: the frame after lags 1..n. */
  function Lagged(scada: Table<real>, n: int): Table<real>
    requires Uniform(scada)
  {
    Table(LagColumns(scada.columns, n), LaggedEntries(scada, n))
  }

  /** Without a lag, the frame is the bare index. */
  lemma LaggedNone(scada: Table<real>, n: int)
    requires Uniform(scada) && n <= 0
    ensures Lagged(scada, n) == IndexFrame(scada.entries)
  {
    assert LagColumns(scada.columns, n) == {};
  }

  /** Each lag adds its renamed columns and joins its shifted rows. */
  lemma LaggedStep(scada: Table<real>, n: int, prev: Table<real>)
    requires Uniform(scada) && n >= 1 && prev == Lagged(scada, n - 1)
    ensures Table(prev.columns + LagNames(scada.columns, n), Join(prev.entries, Shifted(scada.entries, scada.columns, n)))
              == Lagged(scada, n)
  {
    LagColumnsStep(scada.columns, n);
  }

  /** One pass of the loop: shift the cleaned frame by lag `i`, rename its columns, inner-join it on. */
  method AddLag(scada: Table<real>, lagged: Table<real>, i: int) returns (next: Table<real>)
    requires Uniform(scada) && i >= 1 && lagged == Lagged(scada, i - 1)
    ensures next == Lagged(scada, i)
  {
    var shifted := Shifted(scada.entries, scada.columns, i);
    LaggedStep(scada, i, lagged);
    next := Table(lagged.columns + LagNames(scada.columns, i), Join(lagged.entries, shifted));
  }

  /** The loop of `create_lagged_features`: one shift, rename and inner join per lag 1..n. */
  method CreateLagged(scada: Table<real>, n: int) returns (lagged: Table<real>)
    requires Uniform(scada)
    ensures lagged == Lagged(scada, n)
  {
    lagged := IndexFrame(scada.entries);
    LaggedNone(scada, 0);
    var k := 0;
    while k < n
      invariant 0 <= k && (k <= n || k == 0)
      invariant lagged == Lagged(scada, k)
    {
      lagged := AddLag(scada, lagged, k + 1);
      k := k + 1;
    }
    if n < 0 {
      assert k == 0;
      LaggedNone(scada, n);
    } else {
      assert k == n;
    }
  }

  // ---------------------------------------------------------------------------
  // What the lagged frame holds
  // ---------------------------------------------------------------------------

  /** Each of the n times 10, 20, …, 10·n minutes before `t` has a row in `es`. */
  predicate HasLags(es: seq<Entry<real>>, t: Time, n: int)
    decreases n
  {
    n <= 0 || (Before(t, n) in TimeSet(es) && HasLags(es, t, n - 1))
  }

  /** The index times whose n predecessors on the grid are all present. */
  function LagTimes(es: seq<Entry<real>>, n: int): set<Time>
  {
    set t | t in TimeSet(es) && HasLags(es, t, n)
  }

  /** Renaming is injective, so lag `i` has one column per base column. */
  lemma {:induction false} LagNamesCount(cols: set<Column>, i: nat)
    ensures |LagNames(cols, i)| == |cols|
    decreases |cols|
  {
    if cols != {} {
      var x :| x in cols;
      var rest := cols - {x};
      LagNamesCount(rest, i);
      forall d | d in rest ensures LagName(d, i) != LagName(x, i) {
        LagNameInjective(d, x, i, i);
      }
      assert LagNames(cols, i) == LagNames(rest, i) + {LagName(x, i)};
    } else {
      assert LagNames(cols, i) == {};
    }
  }

  /** The names of lag n are new: none of them is a name of an earlier lag. */
  lemma LagNamesFresh(cols: set<Column>, n: int)
    requires n >= 1
    ensures LagColumns(cols, n - 1) !! LagNames(cols, n)
  {
    forall y | y in LagNames(cols, n) ensures y !in LagColumns(cols, n - 1) {
      var c :| c in cols && y == LagName(c, n);
      if y in LagColumns(cols, n - 1) {
        var d, j :| d in cols && 1 <= j <= n - 1 && y == LagName(d, j);
        LagNameInjective(c, d, n, j);
      }
    }
  }

  /** `create_lagged_features(n)` makes n renamed copies of every base column, all distinct. */
  lemma {:induction false} LagColumnsCount(cols: set<Column>, n: int)
    ensures |LagColumns(cols, n)| == if n <= 0 then 0 else n * |cols|
    decreases n
  {
    if n <= 0 {
      assert LagColumns(cols, n) == {};
    } else {
      LagColumnsStep(cols, n);
      LagColumnsCount(cols, n - 1);
      LagNamesCount(cols, n);
      LagNamesFresh(cols, n);
      assert (n - 1) * |cols| + |cols| == n * |cols|;
    }
  }

  /** The cell under `name` in an optional row: `None` when there is no row or no such cell. */
  function Lookup(row: Option<map<Column, real>>, name: Column): (r: Option<real>)
    ensures r.Some? <==> row.Some? && name in row.value
    ensures r.Some? ==> r.value == row.value[name]
  {
    match row
    case Some(m) => if name in m then Some(m[name]) else None
    case None => None
  }

  /**
   * `row` holds, under the lag-j name of column `c`, the cell of `c` in the
   * row stamped 10·j minutes before `t`, and that cell exists.
   */
  predicate LagCellFrom(scada: Table<real>, row: Option<map<Column, real>>, t: Time, c: Column, j: nat)
  {
    Lookup(RowAt(scada.entries, Before(t, j)), c).Some? &&
    Lookup(row, LagName(c, j)) == Lookup(RowAt(scada.entries, Before(t, j)), c)
  }

  /** The lagged frame keeps the index order, so its timestamps stay unique and increasing. */
  lemma {:induction false} LaggedIncreasing(scada: Table<real>, n: int)
    requires Uniform(scada) && StrictlyIncreasing(scada.entries)
    ensures StrictlyIncreasing(LaggedEntries(scada, n))
    decreases n
  {
    if n > 0 {
      LaggedIncreasing(scada, n - 1);
      JoinIncreasing(LaggedEntries(scada, n - 1), Shifted(scada.entries, scada.columns, n));
    }
  }

  /** The lagged frame keeps exactly the times whose n predecessors 10, 20, …, 10·n minutes earlier are all present. */
  lemma {:induction false} LaggedTimes(scada: Table<real>, n: int)
    requires Uniform(scada)
    ensures TimeSet(LaggedEntries(scada, n)) == LagTimes(scada.entries, n)
    decreases n
  {
    if n <= 0 {
      assert TimeSet(LaggedEntries(scada, n)) == TimeSet(scada.entries);
    } else {
      LaggedTimes(scada, n - 1);
      StepTimes(scada, n, LaggedEntries(scada, n - 1), Shifted(scada.entries, scada.columns, n));
    }
  }

  /** One more lag keeps the times that also have a row one more lag earlier. */
  lemma StepTimes(scada: Table<real>, n: nat, prev: seq<Entry<real>>, sh: seq<Entry<real>>)
    requires Uniform(scada) && n >= 1 && sh == Shifted(scada.entries, scada.columns, n)
    requires TimeSet(prev) == LagTimes(scada.entries, n - 1)
    ensures TimeSet(Join(prev, sh)) == LagTimes(scada.entries, n)
  {
    var es := scada.entries;
    JoinTimes(prev, sh);
    forall t ensures t in TimeSet(sh) <==> Before(t, n) in TimeSet(es) {
      ShiftedRowAt(es, scada.columns, n, t);
    }
    forall t ensures HasLags(es, t, n) <==> HasLags(es, t, n - 1) && Before(t, n) in TimeSet(es) {
    }
  }

  /** The join's row at `t`: the left row at `t` extended with the right row at `t`, when both exist. */
  lemma {:induction false} JoinRowAt(left: seq<Entry<real>>, right: seq<Entry<real>>, t: Time)
    requires t in TimeSet(left) && t in TimeSet(right)
    ensures RowAt(Join(left, right), t) == Some(RowAt(left, t).value + RowAt(right, t).value)
  {
    TimeSetCons(left);
    if left[0].time != t {
      JoinRowAt(left[1..], right, t);
    }
  }

  /** A column at lag j is none of the columns at another lag. */
  lemma LagNameOtherLag(cols: set<Column>, c: Column, j: nat, n: nat)
    requires j != n
    ensures LagName(c, j) !in LagNames(cols, n)
  {
    forall d | d in cols ensures LagName(d, n) != LagName(c, j) { LagNameInjective(d, c, n, j); }
  }

  /**
   * The row that lags 1..n give the time `t`: the rows stamped 10, 20, …, 10·n
   * minutes before `t`, each renamed for its lag, side by side.
   */
  function LagRow(scada: Table<real>, t: Time, n: int): map<Column, real>
    requires Uniform(scada)
    decreases n
  {
    if n <= 0 then map[]
    else
      match RowAt(scada.entries, Before(t, n))
      case None => LagRow(scada, t, n - 1)
      case Some(row) =>
        RowAtKeys(scada, Before(t, n));
        LagRow(scada, t, n - 1) + Rename(row, scada.columns, n)
  }

  /** The bare index has an empty row at each of its times. */
  lemma IndexRowAt(es: seq<Entry<real>>, t: Time)
    requires t in TimeSet(es)
    ensures RowAt(IndexFrame<real, real>(es).entries, t) == Some(map[])
  {
    var ix := IndexFrame<real, real>(es).entries;
    var k :| 0 <= k < |es| && es[k].time == t;
    assert ix[k].time == t;
    var r := RowAt(ix, t);
    var k' :| 0 <= k' < |ix| && ix[k'].time == t && ix[k'].row == r.value;
    assert r.value.Keys == {};
  }

  /** At each time the lagged frame keeps, its row is the lag row of that time. */
  lemma {:induction false} LaggedRowAt(scada: Table<real>, n: int, t: Time)
    requires Uniform(scada)
    requires t in TimeSet(LaggedEntries(scada, n))
    ensures RowAt(LaggedEntries(scada, n), t) == Some(LagRow(scada, t, n))
    decreases n, 1
  {
    if n <= 0 {
      IndexRowAt(scada.entries, t);
    } else {
      LaggedRowAtStep(scada, n, t);
    }
  }

  lemma {:induction false} LaggedRowAtStep(scada: Table<real>, n: int, t: Time)
    requires Uniform(scada) && n >= 1
    requires t in TimeSet(LaggedEntries(scada, n))
    ensures RowAt(LaggedEntries(scada, n), t) == Some(LagRow(scada, t, n))
    decreases n, 0
  {
    LaggedPrevTimes(scada, n, t);
    LaggedRowAt(scada, n - 1, t);
    LaggedRowStep(scada, n, t);
  }

  /** What the join of lag n needs at time `t`: both sides hold `t`. */
  predicate StepReady(scada: Table<real>, n: int, t: Time)
  {
    Uniform(scada) && n >= 1 &&
    t in TimeSet(LaggedEntries(scada, n - 1)) && t in TimeSet(Shifted(scada.entries, scada.columns, n))
  }

  /** A time of the frame after lag n is a time of the frame before it and of the n-th shift. */
  lemma LaggedPrevTimes(scada: Table<real>, n: int, t: Time)
    requires Uniform(scada) && n >= 1 && t in TimeSet(LaggedEntries(scada, n))
    ensures t in TimeSet(LaggedEntries(scada, n - 1)) && t in TimeSet(Shifted(scada.entries, scada.columns, n))
  {
    JoinTimesAt(LaggedEntries(scada, n - 1), Shifted(scada.entries, scada.columns, n), LaggedEntries(scada, n), t);
  }

  /** Joining lag n onto a row that holds lags 1..n-1 gives the row that holds lags 1..n. */
  lemma LaggedRowStep(scada: Table<real>, n: int, t: Time)
    requires StepReady(scada, n, t)
    requires RowAt(LaggedEntries(scada, n - 1), t) == Some(LagRow(scada, t, n - 1))
    ensures RowAt(LaggedEntries(scada, n), t) == Some(LagRow(scada, t, n))
  {
    JoinRowAt(LaggedEntries(scada, n - 1), Shifted(scada.entries, scada.columns, n), t);
    ShiftedRowAt(scada.entries, scada.columns, n, t);
  }

  /** A lag row has one column per original column and lag 1..n. */
  lemma {:induction false} LagRowKeys(scada: Table<real>, t: Time, n: int)
    requires Uniform(scada) && HasLags(scada.entries, t, n)
    ensures LagRow(scada, t, n).Keys == LagColumns(scada.columns, n)
    decreases n
  {
    if n <= 0 {
      assert LagColumns(scada.columns, n) == {};
    } else {
      assert Before(t, n) in TimeSet(scada.entries);
      assert HasLags(scada.entries, t, n - 1);
      LagRowKeys(scada, t, n - 1);
      LagColumnsStep(scada.columns, n);
    }
  }

  /** `c` is a column of the cleaned frame, 1 <= j <= n, and every lag 1..n of `t` has a row. */
  predicate CellQuery(scada: Table<real>, t: Time, n: int, c: Column, j: int)
  {
    Uniform(scada) && HasLags(scada.entries, t, n) && c in scada.columns && 1 <= j <= n
  }

  /** The lag-j column of `c` in the lag row at `t` holds the cell of `c` 10·j minutes earlier. */
  predicate LagRowHolds(scada: Table<real>, t: Time, n: int, c: Column, j: nat)
  {
    Uniform(scada) && LagCellFrom(scada, Some(LagRow(scada, t, n)), t, c, j)
  }

  /** The lag-j column of `c` in a lag row holds the cell of `c` 10·j minutes earlier. */
  lemma {:induction false} LagRowCell(scada: Table<real>, t: Time, n: int, c: Column, j: nat)
    requires CellQuery(scada, t, n, c, j)
    ensures LagRowHolds(scada, t, n, c, j)
    decreases n, 1
  {
    if j < n {
      LagRowKeep(scada, t, n, c, j);
    } else {
      LagRowNew(scada, t, n, c, j);
    }
  }

  /** A cell of an earlier lag is still there once lag n is added. */
  lemma {:induction false} LagRowKeep(scada: Table<real>, t: Time, n: int, c: Column, j: nat)
    requires CellQuery(scada, t, n, c, j) && j < n
    ensures LagRowHolds(scada, t, n, c, j)
    decreases n, 0
  {
    LagRowCell(scada, t, n - 1, c, j);
    RowAtKeys(scada, Before(t, n));
    var added := Rename(RowAt(scada.entries, Before(t, n)).value, scada.columns, n);
    assert LagRow(scada, t, n) == LagRow(scada, t, n - 1) + added;
    LagNameOtherLag(scada.columns, c, j, n);
    MergeLookup(LagRow(scada, t, n - 1), added, LagName(c, j));
  }

  /** A name the added map lacks is looked up in the map it extends. */
  lemma MergeLookup(prev: map<Column, real>, added: map<Column, real>, name: Column)
    requires name !in added
    ensures Lookup(Some(prev + added), name) == Lookup(Some(prev), name)
  {
  }

  /** The cells of lag n come from the row n lags earlier. */
  lemma LagRowNew(scada: Table<real>, t: Time, n: int, c: Column, j: nat)
    requires CellQuery(scada, t, n, c, j) && j == n
    ensures LagRowHolds(scada, t, n, c, j)
  {
    RowAtKeys(scada, Before(t, n));
    RenameValue(RowAt(scada.entries, Before(t, n)).value, scada.columns, n, c);
  }

  /** The row of the lagged frame at one of its times has the columns of lags 1..n. */
  lemma LaggedRowKeys(scada: Table<real>, n: int, k: nat)
    requires Uniform(scada) && StrictlyIncreasing(scada.entries)
    requires TimeSet(LaggedEntries(scada, n)) == LagTimes(scada.entries, n)
    requires StrictlyIncreasing(LaggedEntries(scada, n)) && k < |LaggedEntries(scada, n)|
    ensures LaggedEntries(scada, n)[k].row.Keys == LagColumns(scada.columns, n)
  {
    var es := LaggedEntries(scada, n);
    var t := es[k].time;
    assert t in TimeSet(es);
    RowAtUnique(es, k);
    LaggedRowAt(scada, n, t);
    LagRowKeys(scada, t, n);
  }

  /** Every row of the lagged frame has exactly one column per original column and lag 1..n. */
  lemma LaggedShape(scada: Table<real>, n: int)
    requires Uniform(scada) && StrictlyIncreasing(scada.entries)
    ensures Uniform(Lagged(scada, n))
  {
    LaggedTimes(scada, n);
    LaggedIncreasing(scada, n);
    forall k | 0 <= k < |LaggedEntries(scada, n)|
      ensures LaggedEntries(scada, n)[k].row.Keys == LagColumns(scada.columns, n)
    {
      LaggedRowKeys(scada, n, k);
    }
  }

  /**
   * The lag-j column of column `c`, at a time `t` that the lagged frame keeps,
   * holds the cell of `c` 10·j minutes before `t`.
   */
  lemma LaggedCell(scada: Table<real>, n: nat, t: Time, c: Column, j: nat)
    requires Uniform(scada) && StrictlyIncreasing(scada.entries) && c in scada.columns && 1 <= j <= n
    requires t in TimeSet(LaggedEntries(scada, n))
    ensures LagCellFrom(scada, RowAt(LaggedEntries(scada, n), t), t, c, j)
  {
    LaggedTimes(scada, n);
    LaggedRowAt(scada, n, t);
    assert CellQuery(scada, t, n, c, j);
    LagRowCell(scada, t, n, c, j);
  }

  /** Every kept time holds, for every column and lag, the cell that many lags earlier. */
  lemma LaggedCells(scada: Table<real>, n: nat)
    requires Uniform(scada) && StrictlyIncreasing(scada.entries)
    ensures forall t, c, j :: t in TimeSet(LaggedEntries(scada, n)) && c in scada.columns && 1 <= j <= n ==>
              LagCellFrom(scada, RowAt(LaggedEntries(scada, n), t), t, c, j)
  {
    forall t, c, j | t in TimeSet(LaggedEntries(scada, n)) && c in scada.columns && 1 <= j <= n
      ensures LagCellFrom(scada, RowAt(LaggedEntries(scada, n), t), t, c, j)
    {
      LaggedCell(scada, n, t, c, j);
    }
  }
}
