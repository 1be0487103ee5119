/**
 * The sun/moon puzzle field: clicking a block cycles its value, and every
 * sun or moon in a row or column that holds more than two suns or more than
 * two moons is flagged.
 */
module SunMoonField {

  /** `BlockValue`: `EMPTY = 0`, `SUN = 1`, `MOON = 2`. */
  datatype BlockValue = Empty | Sun | Moon

  function Ordinal(v: BlockValue): (n: nat)
    ensures n < 3
  {
    match v
    case Empty => 0
    case Sun => 1
    case Moon => 2
  }

  function FromOrdinal(n: nat): (v: BlockValue)
    requires n < 3
    ensures Ordinal(v) == n
  {
    if n == 0 then Empty else if n == 1 then Sun else Moon
  }

  /** The value after one click, `(value + 1) % 3`: empty, sun, moon, then empty again. */
  function Next(v: BlockValue): (w: BlockValue)
    ensures Ordinal(w) == (Ordinal(v) + 1) % 3
  {
    FromOrdinal((Ordinal(v) + 1) % 3)
  }

  /** Three clicks bring every value back, and fewer never do. */
  lemma NextCycle(v: BlockValue)
    ensures Next(Next(Next(v))) == v
    ensures Next(v) != v && Next(Next(v)) != v
    ensures Next(Empty) == Sun && Next(Sun) == Moon && Next(Moon) == Empty
  {
  }

  /** `BlockState`. */
  datatype BlockState = BlockState(value: BlockValue, isLocked: bool, isError: bool)

  type Grid = seq<seq<BlockState>>

  /** At least one row, all rows as long as the first (the updater indexes `newField[0]`). */
  predicate Rectangular(g: Grid)
  {
    |g| > 0 && forall r :: 0 <= r < |g| ==> |g[r]| == |g[0]|
  }

  /** The field as first shown: 8 by 8 empty blocks, none locked or flagged. */
  function InitialField(): (g: Grid)
    ensures Rectangular(g) && |g| == 8 && |g[0]| == 8
    ensures forall r, c :: 0 <= r < 8 && 0 <= c < 8 ==> g[r][c] == BlockState(Empty, false, false)
  {
    seq(8, r => seq(8, c => BlockState(Empty, false, false)))
  }

  /** `row.filter(cell => cell.value === v).length`. */
  function CountInRow(row: seq<BlockState>, v: BlockValue): (n: nat)
    ensures n <= |row|
  {
    if row == [] then 0 else (if row[0].value == v then 1 else 0) + CountInRow(row[1..], v)
  }

  /** `g.filter(row => row[c].value === v).length`. */
  function CountInColumn(g: Grid, c: nat, v: BlockValue): (n: nat)
    requires forall r :: 0 <= r < |g| ==> c < |g[r]|
    ensures n <= |g|
  {
    if g == [] then 0 else (if g[0][c].value == v then 1 else 0) + CountInColumn(g[1..], c, v)
  }

  /** More than two suns or more than two moons in row `r`. */
  predicate RowConflict(g: Grid, r: nat)
    requires r < |g|
  {
    CountInRow(g[r], Sun) > 2 || CountInRow(g[r], Moon) > 2
  }

  /** More than two suns or more than two moons in column `c`. */
  predicate ColumnConflict(g: Grid, c: nat)
    requires forall r :: 0 <= r < |g| ==> c < |g[r]|
  {
    CountInColumn(g, c, Sun) > 2 || CountInColumn(g, c, Moon) > 2
  }

  /** A block is flagged when it holds a sun or a moon and its row or its column is in conflict. */
  predicate Flagged(g: Grid, r: nat, c: nat)
    requires Rectangular(g) && r < |g| && c < |g[0]|
  {
    g[r][c].value != Empty && (RowConflict(g, r) || ColumnConflict(g, c))
  }

  /**
   * The two copies the updater makes before it marks anything: the clicked
   * block's value cycled (if the indices name a block at all), every flag cleared.
   */
  function Cycled(g: Grid, rowIndex: int, cellIndex: int): (h: Grid)
    ensures |h| == |g|
    ensures forall r :: 0 <= r < |g| ==> |h[r]| == |g[r]|
    ensures forall r, c :: 0 <= r < |g| && 0 <= c < |g[r]| ==>
      h[r][c] == BlockState(if r == rowIndex && c == cellIndex then Next(g[r][c].value) else g[r][c].value,
                            g[r][c].isLocked, false)
  {
    seq(|g|, r requires 0 <= r < |g| =>
      seq(|g[r]|, c requires 0 <= c < |g[r]| =>
        BlockState(if r == rowIndex && c == cellIndex then Next(g[r][c].value) else g[r][c].value,
                   g[r][c].isLocked, false)))
  }

  /** The field the updater returns: the cycled copy with every conflicting sun and moon flagged. */
  function Click(g: Grid, rowIndex: int, cellIndex: int): (k: Grid)
    requires Rectangular(g)
    ensures Rectangular(k) && |k| == |g| && |k[0]| == |g[0]|
  {
    var h := Cycled(g, rowIndex, cellIndex);
    seq(|h|, r requires 0 <= r < |h| =>
      seq(|h[r]|, c requires 0 <= c < |h[r]| => h[r][c].(isError := Flagged(h, r, c))))
  }

  /**
   * A clicked field: the grid keeps its shape and every lock; only the named
   * block's value changes, to the next value; a block is flagged exactly when
   * it holds a sun or a moon and its row or column, counted after the click,
   * holds more than two suns or more than two moons.
   */
  lemma ClickProperties(g: Grid, rowIndex: int, cellIndex: int, r: nat, c: nat)
    requires Rectangular(g) && r < |g| && c < |g[0]|
    ensures var k := Click(g, rowIndex, cellIndex);
      && k[r][c].value == (if r == rowIndex && c == cellIndex then Next(g[r][c].value) else g[r][c].value)
      && k[r][c].isLocked == g[r][c].isLocked
      && (k[r][c].isError <==>
            (k[r][c].value != Empty &&
             (CountInRow(k[r], Sun) > 2 || CountInRow(k[r], Moon) > 2 ||
              CountInColumn(k, c, Sun) > 2 || CountInColumn(k, c, Moon) > 2)))
  {
    var h := Cycled(g, rowIndex, cellIndex);
    var k := Click(g, rowIndex, cellIndex);
    SameValuesSameCounts(h, k);
  }

  /** Two grids of the same shape with the same values have the same counts everywhere. */
  lemma SameValuesSameCounts(g1: Grid, g2: Grid)
    requires Rectangular(g1) && |g2| == |g1|
    requires forall r :: 0 <= r < |g1| ==> |g2[r]| == |g1[r]|
    requires forall r, c :: 0 <= r < |g1| && 0 <= c < |g1[r]| ==> g2[r][c].value == g1[r][c].value
    ensures forall r, v :: 0 <= r < |g1| ==> CountInRow(g2[r], v) == CountInRow(g1[r], v)
    ensures forall c, v :: 0 <= c < |g1[0]| ==> CountInColumn(g2, c, v) == CountInColumn(g1, c, v)
  {
    forall r, v | 0 <= r < |g1|
      ensures CountInRow(g2[r], v) == CountInRow(g1[r], v)
    {
      RowCountsAgree(g1[r], g2[r], v);
    }
    forall c, v | 0 <= c < |g1[0]|
      ensures CountInColumn(g2, c, v) == CountInColumn(g1, c, v)
    {
      ColumnCountsAgree(g1, g2, c, v);
    }
  }

  lemma {:induction false} RowCountsAgree(a: seq<BlockState>, b: seq<BlockState>, v: BlockValue)
    requires |a| == |b| && forall c :: 0 <= c < |a| ==> a[c].value == b[c].value
    ensures CountInRow(a, v) == CountInRow(b, v)
    decreases |a|
  {
    if a != [] {
      RowCountsAgree(a[1..], b[1..], v);
    }
  }

  lemma {:induction false} ColumnCountsAgree(g1: Grid, g2: Grid, c: nat, v: BlockValue)
    requires |g1| == |g2|
    requires forall r :: 0 <= r < |g1| ==> c < |g1[r]| && c < |g2[r]| && g1[r][c].value == g2[r][c].value
    ensures CountInColumn(g1, c, v) == CountInColumn(g2, c, v)
    decreases |g1|
  {
    if g1 != [] {
      ColumnCountsAgree(g1[1..], g2[1..], c, v);
    }
  }

  /** Empty blocks are never flagged. */
  lemma EmptyNeverFlagged(g: Grid, rowIndex: int, cellIndex: int, r: nat, c: nat)
    requires Rectangular(g) && r < |g| && c < |g[0]|
    ensures Click(g, rowIndex, cellIndex)[r][c].value == Empty ==> !Click(g, rowIndex, cellIndex)[r][c].isError
  {
  }

  /**
   * The flags before the click play no part: two fields with the same values
   * and locks give the same field after the same click.
   */
  lemma FlagsForgotten(g1: Grid, g2: Grid, rowIndex: int, cellIndex: int)
    requires Rectangular(g1) && |g2| == |g1|
    requires forall r :: 0 <= r < |g1| ==> |g2[r]| == |g1[r]|
    requires forall r, c :: 0 <= r < |g1| && 0 <= c < |g1[r]| ==>
      g2[r][c].value == g1[r][c].value && g2[r][c].isLocked == g1[r][c].isLocked
    ensures Click(g1, rowIndex, cellIndex) == Click(g2, rowIndex, cellIndex)
  {
    var h1, h2 := Cycled(g1, rowIndex, cellIndex), Cycled(g2, rowIndex, cellIndex);
    forall r | 0 <= r < |g1|
      ensures h1[r] == h2[r]
    {
    }
    assert h1 == h2;
  }

  /** Clicking the same block three times restores every value and lock of the field. */
  lemma ThreeClicks(g: Grid, rowIndex: int, cellIndex: int)
    requires Rectangular(g)
    ensures var k := Click(Click(Click(g, rowIndex, cellIndex), rowIndex, cellIndex), rowIndex, cellIndex);
      forall r, c :: 0 <= r < |g| && 0 <= c < |g[0]| ==>
        k[r][c].value == g[r][c].value && k[r][c].isLocked == g[r][c].isLocked
  {
    var k1: Grid := Click(g, rowIndex, cellIndex);
    var k2: Grid := Click(k1, rowIndex, cellIndex);
    var k3: Grid := Click(k2, rowIndex, cellIndex);
    forall r, c | 0 <= r < |g| && 0 <= c < |g[0]|
      ensures k3[r][c].value == g[r][c].value && k3[r][c].isLocked == g[r][c].isLocked
    {
      ClickProperties(g, rowIndex, cellIndex, r, c);
      ClickProperties(k1, rowIndex, cellIndex, r, c);
      ClickProperties(k2, rowIndex, cellIndex, r, c);
      NextCycle(g[r][c].value);
    }
  }

  /** Turning the last of four suns into a moon flags it: its row still holds three suns. */
  lemma MoonInSunRow()
    ensures Click([[BlockState(Sun, false, false), BlockState(Sun, false, false),
                    BlockState(Sun, false, false), BlockState(Sun, false, false)]], 0, 3)[0][3]
      == BlockState(Moon, false, true)
  {
    var g := [[BlockState(Sun, false, false), BlockState(Sun, false, false),
               BlockState(Sun, false, false), BlockState(Sun, false, false)]];
    var row := [BlockState(Sun, false, false), BlockState(Sun, false, false),
                BlockState(Sun, false, false), BlockState(Moon, false, false)];
    var h := Cycled(g, 0, 3);
    assert h[0] == row;
    assert CountInRow(row, Sun) == 3;
  }

  /** Exactly two suns in a row is not a conflict: the threshold is more than two. */
  lemma TwoSunsAllowed()
    ensures Click([[BlockState(Sun, false, false), BlockState(Empty, false, false), BlockState(Empty, false, false)]], 0, 1)
      == [[BlockState(Sun, false, false), BlockState(Sun, false, false), BlockState(Empty, false, false)]]
  {
    var g := [[BlockState(Sun, false, false), BlockState(Empty, false, false), BlockState(Empty, false, false)]];
    var row := [BlockState(Sun, false, false), BlockState(Sun, false, false), BlockState(Empty, false, false)];
    var h := Cycled(g, 0, 1);
    assert h[0] == row;
    assert h == [row];
    assert CountInRow(row, Sun) == 2 && CountInRow(row, Moon) == 0;
    assert CountInColumn([row], 0, Sun) == 1 && CountInColumn([row], 1, Sun) == 1;
    assert CountInColumn([row], 0, Moon) == 0 && CountInColumn([row], 1, Moon) == 0;
    var k := Click(g, 0, 1);
    assert k[0] == row;
  }

  /** The flag a block has once the row pass has dealt with rows `0..rows`. */
  predicate RowPassFlag(h: Grid, i: nat, j: nat, rows: nat)
    requires i < |h| && j < |h[i]|
  {
    i < rows && h[i][j].value != Empty && RowConflict(h, i)
  }

  /** The flag a block has once the column pass has dealt with columns `0..cols`. */
  predicate ColumnPassFlag(h: Grid, i: nat, j: nat, cols: nat)
    requires Rectangular(h) && i < |h| && j < |h[0]|
  {
    h[i][j].value != Empty && (RowConflict(h, i) || (j < cols && ColumnConflict(h, j)))
  }

  /** `newField[rowIndex].forEach(...)`: every sun and moon of row `r` is flagged. */
  method MarkRow(a: array2<BlockState>, r: nat)
    requires r < a.Length0
    modifies a
    ensures forall i, j :: 0 <= i < a.Length0 && 0 <= j < a.Length1 ==>
      a[i, j] == if i == r && old(a[i, j]).value != Empty then old(a[i, j]).(isError := true) else old(a[i, j])
  {
    for c := 0 to a.Length1
      invariant forall i, j :: 0 <= i < a.Length0 && 0 <= j < a.Length1 ==>
        a[i, j] == if i == r && j < c && old(a[i, j]).value != Empty then old(a[i, j]).(isError := true) else old(a[i, j])
    {
      if a[r, c].value == Sun || a[r, c].value == Moon {
        a[r, c] := a[r, c].(isError := true);
      }
    }
  }

  /** `newField.forEach((row, rowIndex) => ...)` for column `c`: every sun and moon of it is flagged. */
  method MarkColumn(a: array2<BlockState>, c: nat)
    requires c < a.Length1
    modifies a
    ensures forall i, j :: 0 <= i < a.Length0 && 0 <= j < a.Length1 ==>
      a[i, j] == if j == c && old(a[i, j]).value != Empty then old(a[i, j]).(isError := true) else old(a[i, j])
  {
    for r := 0 to a.Length0
      invariant forall i, j :: 0 <= i < a.Length0 && 0 <= j < a.Length1 ==>
        a[i, j] == if j == c && i < r && old(a[i, j]).value != Empty then old(a[i, j]).(isError := true) else old(a[i, j])
    {
      if a[r, c].value == Sun || a[r, c].value == Moon {
        a[r, c] := a[r, c].(isError := true);
      }
    }
  }

  /**
   * `handleBlockClick`'s updater: copies the field with the clicked value
   * cycled and the flags cleared, then marks conflicting rows and columns in
   * place on the copy. The previous field is not changed.
   */
  method HandleBlockClick(prevField: Grid, rowIndex: int, cellIndex: int) returns (newField: array2<BlockState>)
    requires Rectangular(prevField)
    ensures fresh(newField)
    ensures newField.Length0 == |prevField| && newField.Length1 == |prevField[0]|
    ensures forall r, c :: 0 <= r < newField.Length0 && 0 <= c < newField.Length1 ==>
      newField[r, c] == Click(prevField, rowIndex, cellIndex)[r][c]
  {
    var cleared := Cycled(prevField, rowIndex, cellIndex);
    var height, width := |cleared|, |cleared[0]|;
    newField := new BlockState[height, width]((r, c) requires 0 <= r < height && 0 <= c < width => cleared[r][c]);
    // The counts read only values, which marking never changes, so they are taken on `cleared`.
    for r := 0 to height
      invariant forall i, j :: 0 <= i < height && 0 <= j < width ==>
        newField[i, j] == cleared[i][j].(isError := RowPassFlag(cleared, i, j, r))
    {
      var sunCount := CountInRow(cleared[r], Sun);
      var moonCount := CountInRow(cleared[r], Moon);
      if sunCount > 2 || moonCount > 2 {
        MarkRow(newField, r);
      }
    }
    for c := 0 to width
      invariant forall i, j :: 0 <= i < height && 0 <= j < width ==>
        newField[i, j] == cleared[i][j].(isError := ColumnPassFlag(cleared, i, j, c))
    {
      var sunCount := CountInColumn(cleared, c, Sun);
      var moonCount := CountInColumn(cleared, c, Moon);
      if sunCount > 2 || moonCount > 2 {
        MarkColumn(newField, c);
      }
    }
  }
}
