/**
 The key phases of benchmarks/public/check_algebraic_codebook_report.py: a key of twelve bits
 selects four of 28 rows of phases, two of them rotated, which are added modulo 16.
 */
module PhaseKeys {
  import opened WalshCodebook

  type Phase = p: nat | p < 16
  type Table = seq<seq<Phase>>

  ghost predicate IsTable(keys: Table, dim: nat) {
    dim > 0 && |keys| == 28 && forall r :: 0 <= r < 28 ==> |keys[r]| == dim
  }

  /** The four rows a key selects: by its low four bits, two groups of three bits, and its high two bits. */
  datatype Rows = Rows(low: nat, first: nat, second: nat, high: nat)

  ghost predicate InTable(rows: Rows) {
    rows.low < 28 && rows.first < 28 && rows.second < 28 && rows.high < 28
  }

  function RowsOf(key: nat): (rows: Rows)
    requires key < KEYS
    ensures InTable(rows)
  {
    Rows(key % 16, 16 + (key / 16) % 8, 16 + (key / 128) % 8, 24 + key / 1024)
  }

  function AddPhases(a: Phase, b: Phase, c: Phase, d: Phase): Phase {
    (a as int + b as int + c as int + d as int) % 16
  }

  /** One cell of each row, two of them in rotated columns, added modulo 16. */
  function AddRows(keys: Table, dim: nat, rows: Rows, d: nat, x: nat, y: nat): Phase
    requires IsTable(keys, dim) && InTable(rows) && d < dim && x < dim && y < dim
  {
    AddPhases(keys[rows.low][d], keys[rows.first][x], keys[rows.second][y], keys[rows.high][d])
  }

  /** Four key rows, two of them rotated, added modulo 16. */
  function KeyPhases(keys: Table, dim: nat, key: nat): (phases: seq<Phase>)
    requires IsTable(keys, dim) && key < KEYS
    ensures |phases| == dim
  {
    var rows := RowsOf(key);
    seq(dim, d requires 0 <= d < dim => AddRows(keys, dim, rows, d, (d + 1) % dim, (d + 2) % dim))
  }

  lemma {:induction false} PhaseAt(keys: Table, dim: nat, key: nat, d: nat, x: nat, y: nat)
    requires IsTable(keys, dim) && key < KEYS && d < dim && x == (d + 1) % dim && y == (d + 2) % dim
    ensures x < dim && y < dim && KeyPhases(keys, dim, key)[d] == AddRows(keys, dim, RowsOf(key), d, x, y)
  {
  }

  // ----- which cells a key reads ---------------------------------------------

  /** The table that is 1 in one cell and 0 elsewhere. */
  function UnitTable(dim: nat, row: nat, column: nat): (keys: Table)
    requires dim > 0
    ensures IsTable(keys, dim)
    ensures forall r: nat, e: nat :: r < 28 && e < dim ==> keys[r][e] == if r == row && e == column then 1 else 0
  {
    seq(28, r requires 0 <= r < 28 => seq(dim, e requires 0 <= e < dim => if r == row && e == column then 1 else 0))
  }

  ghost function One(b: bool): nat { if b then 1 else 0 }

  lemma {:induction false} UnitCell(dim: nat, row: nat, column: nat, r: nat, e: nat)
    requires r < 28 && e < dim
    ensures UnitTable(dim, row, column)[r][e] == One(row == r && column == e)
  {
  }

  /** How often a position with columns `d`, `x` and `y` reads a cell. */
  ghost function Reads(row: nat, column: nat, rows: Rows, d: nat, x: nat, y: nat): nat {
    One(row == rows.low && column == d) + One(row == rows.first && column == x)
    + One(row == rows.second && column == y) + One(row == rows.high && column == d)
  }

  lemma {:induction false} UnitReads(dim: nat, row: nat, column: nat, rows: Rows, d: nat, x: nat, y: nat)
    requires InTable(rows) && d < dim && x < dim && y < dim
    ensures AddRows(UnitTable(dim, row, column), dim, rows, d, x, y) == Reads(row, column, rows, d, x, y) % 16
  {
    UnitCell(dim, row, column, rows.low, d);
    UnitCell(dim, row, column, rows.first, x);
    UnitCell(dim, row, column, rows.second, y);
    UnitCell(dim, row, column, rows.high, d);
  }

  /** A key reads exactly four cells per position: those its bits select, two of them one and two columns on. */
  lemma {:induction false} KeyReadsCells(dim: nat, row: nat, column: nat, key: nat, d: nat)
    requires dim > 0 && key < KEYS && d < dim
    ensures KeyPhases(UnitTable(dim, row, column), dim, key)[d]
            == (One(row == key % 16 && column == d)
                + One(row == 16 + (key / 16) % 8 && column == (d + 1) % dim)
                + One(row == 16 + (key / 128) % 8 && column == (d + 2) % dim)
                + One(row == 24 + key / 1024 && column == d)) % 16
  {
    UnitReads(dim, row, column, RowsOf(key), d, (d + 1) % dim, (d + 2) % dim);
  }

  // ----- additivity ------------------------------------------------------------

  function AddTables(a: Table, b: Table, dim: nat): (keys: Table)
    requires IsTable(a, dim) && IsTable(b, dim)
    ensures IsTable(keys, dim)
    ensures forall r: nat, e: nat :: r < 28 && e < dim ==> keys[r][e] == AddPair(a[r][e], b[r][e])
  {
    seq(28, r requires 0 <= r < 28 => seq(dim, e requires 0 <= e < dim => AddPair(a[r][e], b[r][e])))
  }

  lemma {:induction false} Shift(n: int, q: int, m: int)
    requires m == n - 16 * q
    ensures m % 16 == n % 16
  {
  }

  lemma {:induction false} Residue(x: int) returns (q: int)
    ensures x % 16 == x - 16 * q
  {
    q := x / 16;
  }

  lemma {:induction false} FourSums(a: int, b: int, c: int, d: int, e: int, f: int, g: int, h: int)
    ensures ((a + e) % 16 + (b + f) % 16 + (c + g) % 16 + (d + h) % 16) % 16
            == ((a + b + c + d) % 16 + (e + f + g + h) % 16) % 16
  {
    var n := a + b + c + d + e + f + g + h;
    var q0 := Residue(a + e);
    var q1 := Residue(b + f);
    var q2 := Residue(c + g);
    var q3 := Residue(d + h);
    var p := Residue(a + b + c + d);
    var r := Residue(e + f + g + h);
    Shift(n, q0 + q1 + q2 + q3, (a + e) % 16 + (b + f) % 16 + (c + g) % 16 + (d + h) % 16);
    Shift(n, p + r, (a + b + c + d) % 16 + (e + f + g + h) % 16);
  }

  function AddPair(a: Phase, b: Phase): Phase { (a as int + b as int) % 16 }

  lemma {:induction false} PhasesAdd(a: Phase, b: Phase, c: Phase, d: Phase, e: Phase, f: Phase, g: Phase, h: Phase)
    ensures AddPhases(AddPair(a, e), AddPair(b, f), AddPair(c, g), AddPair(d, h))
            == AddPair(AddPhases(a, b, c, d), AddPhases(e, f, g, h))
  {
    FourSums(a, b, c, d, e, f, g, h);
  }

  lemma {:induction false} AddedCell(a: Table, b: Table, dim: nat, r: nat, e: nat)
    requires IsTable(a, dim) && IsTable(b, dim) && r < 28 && e < dim
    ensures AddTables(a, b, dim)[r][e] == AddPair(a[r][e], b[r][e])
  {
  }

  lemma {:induction false} AddedRows(a: Table, b: Table, dim: nat, rows: Rows, d: nat, x: nat, y: nat)
    requires IsTable(a, dim) && IsTable(b, dim) && InTable(rows) && d < dim && x < dim && y < dim
    ensures AddRows(AddTables(a, b, dim), dim, rows, d, x, y)
            == AddPair(AddRows(a, dim, rows, d, x, y), AddRows(b, dim, rows, d, x, y))
  {
    AddedCell(a, b, dim, rows.low, d);
    AddedCell(a, b, dim, rows.first, x);
    AddedCell(a, b, dim, rows.second, y);
    AddedCell(a, b, dim, rows.high, d);
    PhasesAdd(a[rows.low][d], a[rows.first][x], a[rows.second][y], a[rows.high][d],
              b[rows.low][d], b[rows.first][x], b[rows.second][y], b[rows.high][d]);
  }

  /** The phases of a key are additive in the table, modulo 16. */
  lemma {:induction false} KeyPhasesAdd(a: Table, b: Table, dim: nat, key: nat, d: nat)
    requires IsTable(a, dim) && IsTable(b, dim) && key < KEYS && d < dim
    ensures KeyPhases(AddTables(a, b, dim), dim, key)[d]
            == (KeyPhases(a, dim, key)[d] as int + KeyPhases(b, dim, key)[d] as int) % 16
  {
    var x: nat, y: nat := (d + 1) % dim, (d + 2) % dim;
    PhaseAt(a, dim, key, d, x, y);
    PhaseAt(b, dim, key, d, x, y);
    PhaseAt(AddTables(a, b, dim), dim, key, d, x, y);
    AddedRows(a, b, dim, RowsOf(key), d, x, y);
  }

  // ----- keys are told apart -----------------------------------------------------

  /** A key is made of its four parts. */
  lemma {:induction false} Recompose(key: nat)
    ensures key == key % 16 + 16 * ((key / 16) % 8) + 128 * ((key / 128) % 8) + 1024 * (key / 1024)
  {
    var q, m := key / 16, key / 128;
    assert q / 8 == m && m / 8 == key / 1024;
    assert q == 8 * m + q % 8 && m == 8 * (key / 1024) + m % 8;
  }

  ghost predicate Selected(rows: Rows) {
    rows.low < 16 && 16 <= rows.first < 24 && 16 <= rows.second < 24 && 24 <= rows.high < 28
  }

  lemma {:induction false} DistinctRows(key: nat, other: nat)
    requires key < KEYS && other < KEYS && key != other
    ensures RowsOf(key) != RowsOf(other) && Selected(RowsOf(key)) && Selected(RowsOf(other))
  {
    Recompose(key);
    Recompose(other);
  }

  /** Rows that differ are told apart by some cell. */
  lemma {:induction false} SomeCell(rows: Rows, other: Rows, x: nat, y: nat) returns (row: nat, column: nat)
    requires rows != other && Selected(rows) && Selected(other) && x != y
    ensures Reads(row, column, rows, 0, x, y) == 1 && Reads(row, column, other, 0, x, y) == 0
  {
    row, column := rows.low, 0;
    if rows.low != other.low {
    } else if rows.first != other.first {
      row, column := rows.first, x;
    } else if rows.second != other.second {
      row, column := rows.second, y;
    } else {
      row := rows.high;
    }
  }

  lemma {:induction false} RotationsDiffer(dim: nat)
    requires dim >= 2
    ensures (0 + 1) % dim != (0 + 2) % dim
  {
    assert dim > 2 ==> 2 % dim == 2;
  }

  lemma {:induction false} FirstPhase(dim: nat, row: nat, column: nat, key: nat, x: nat, y: nat)
    requires dim > 0 && key < KEYS && x == (0 + 1) % dim && y == (0 + 2) % dim
    ensures KeyPhases(UnitTable(dim, row, column), dim, key)[0] == Reads(row, column, RowsOf(key), 0, x, y) % 16
  {
    UnitReads(dim, row, column, RowsOf(key), 0, x, y);
  }

  /** Two distinct keys have different phases under some table. */
  lemma {:induction false} KeysToldApart(dim: nat, key: nat, other: nat) returns (keys: Table)
    requires dim >= 2 && key < KEYS && other < KEYS && key != other
    ensures IsTable(keys, dim) && KeyPhases(keys, dim, key) != KeyPhases(keys, dim, other)
  {
    DistinctRows(key, other);
    RotationsDiffer(dim);
    var x: nat, y: nat := (0 + 1) % dim, (0 + 2) % dim;
    var row, column := SomeCell(RowsOf(key), RowsOf(other), x, y);
    keys := UnitTable(dim, row, column);
    FirstPhase(dim, row, column, key, x, y);
    FirstPhase(dim, row, column, other, x, y);
  }
}
