/** The workbench's result rows: every cell as a string, and per row a 64-bit mask of the cells
    that were NULL (daemon/internal/database/workbench.go, scanResult). */
module NullMask {
  import opened Types

  const BITS := 64

  /** A scanned value: NULL, or whatever it prints as, which may be nothing. */
  type Cell = Option<string>

  function Pow2(n: nat): (r: nat)
    ensures r > 0
  {
    if n == 0 then 1 else 2 * Pow2(n - 1)
  }

  predicate Bit(mask: nat, i: nat) {
    (mask / Pow2(i)) % 2 == 1
  }

  /** mask |= 1 << i on a uint64: shifting by the width or more gives zero. */
  function SetBit(mask: nat, i: nat): (r: nat) {
    if i >= BITS || Bit(mask, i) then mask else mask + Pow2(i)
  }

  lemma {:induction false} Pow2Monotone(a: nat, b: nat)
    requires a < b
    ensures 2 * Pow2(a) <= Pow2(b)
    decreases b
  {
    if a < b - 1 {
      Pow2Monotone(a, b - 1);
    }
  }

  /** Setting a bit above all others leaves the lower ones alone. */
  lemma HighBit(mask: nat, i: nat, j: nat)
    requires mask < Pow2(i)
    ensures !Bit(mask, i) && Bit(mask + Pow2(i), i)
    ensures j < i ==> Bit(mask + Pow2(i), j) == Bit(mask, j)
    ensures mask + Pow2(i) < Pow2(i + 1)
  {
    DivSmall(mask, Pow2(i));
    DivAdd(mask, 1, Pow2(i));
    if j < i {
      LowBit(mask, i, j);
    }
  }

  lemma LowBit(mask: nat, i: nat, j: nat)
    requires j < i
    ensures Bit(mask + Pow2(i), j) == Bit(mask, j)
  {
    Pow2Split(j, i);
    var q := Pow2(i - j - 1);
    DivAdd(mask, 2 * q, Pow2(j));
    assert (mask / Pow2(j) + 2 * q) % 2 == (mask / Pow2(j)) % 2;
  }

  lemma DivSmall(a: nat, b: nat)
    requires a < b
    ensures a / b == 0
  {
  }

  lemma DivAdd(a: nat, k: nat, b: nat)
    requires b > 0
    ensures (a + k * b) / b == a / b + k
  {
    var q, r := a / b, a % b;
    Distribute(q, k, b);
    DivUnique(a + k * b, q + k, r, b);
  }

  lemma Distribute(q: int, k: int, b: int)
    ensures (q + k) * b == q * b + k * b
  {
  }

  lemma DivUnique(n: nat, q: nat, r: nat, b: nat)
    requires b > 0 && r < b && n == q * b + r
    ensures n / b == q
  {
    var q', r' := n / b, n % b;
    assert q * b + r == q' * b + r';
    if q' < q {
      Distribute(q', q - q', b);
      AtLeastOnce(q - q', b);
    } else if q < q' {
      Distribute(q, q' - q, b);
      AtLeastOnce(q' - q, b);
    }
  }

  lemma AtLeastOnce(k: nat, b: nat)
    requires k > 0
    ensures k * b >= b
  {
    Distribute(k - 1, 1, b);
  }

  lemma {:induction false} Pow2Split(j: nat, i: nat)
    requires j < i
    ensures Pow2(i) == 2 * Pow2(i - j - 1) * Pow2(j)
    decreases j
  {
    if j > 0 {
      Pow2Split(j - 1, i - 1);
    }
  }

  // ---- one row --------------------------------------------------------------------

  /** Bit i says that cell i was NULL, for the cells that have a bit. */
  ghost predicate Masks(mask: nat, row: seq<Cell>) {
    && mask < Pow2(BITS)
    && forall i | 0 <= i < BITS :: Bit(mask, i) <==> (i < |row| && row[i].None?)
  }

  /** What a scanned row looks like: NULL prints as nothing and is told apart by its bit. */
  ghost predicate Scanned(values: seq<Cell>, row: seq<string>, mask: nat) {
    && |row| == |values|
    && (forall i | 0 <= i < |values| :: row[i] == if values[i].Some? then values[i].value else "")
    && Masks(mask, values)
  }

  method ScanRow(values: seq<Cell>) returns (row: seq<string>, nullMask: nat)
    ensures Scanned(values, row, nullMask)
  {
    hide Bit, SetBit, MasksFirst, Masks;
    NoBits(values);
    row, nullMask := [], 0;
    for i := 0 to |values|
      invariant |row| == i
      invariant forall j | 0 <= j < i :: row[j] == if values[j].Some? then values[j].value else ""
      invariant MasksFirst(nullMask, values, i)
    {
      OneMoreBit(nullMask, values, i);
      if values[i].None? {
        nullMask := SetBit(nullMask, i);
        row := row + [""];
      } else {
        row := row + [values[i].value];
      }
    }
    AllBits(nullMask, values);
  }

  /** The bits of the first `n` cells are set as they should be, and no higher one. */
  ghost predicate MasksFirst(mask: nat, row: seq<Cell>, n: nat)
    requires n <= |row|
  {
    && mask < Pow2(if n < BITS then n else BITS)
    && forall j | 0 <= j < n && j < BITS :: Bit(mask, j) <==> row[j].None?
  }

  lemma NoBits(row: seq<Cell>)
    ensures MasksFirst(0, row, 0)
  {
  }

  lemma OneMoreBit(mask: nat, row: seq<Cell>, n: nat)
    requires n < |row| && MasksFirst(mask, row, n)
    ensures MasksFirst(if row[n].None? then SetBit(mask, n) else mask, row, n + 1)
  {
    hide Bit;
    if n < BITS {
      forall j: nat { HighBit(mask, n, j); }
    }
  }

  lemma AllBits(mask: nat, row: seq<Cell>)
    requires MasksFirst(mask, row, |row|)
    ensures Masks(mask, row)
  {
    hide Bit;
    forall j | |row| <= j < BITS
      ensures !Bit(mask, j)
    {
      Clear(mask, |row|, j);
    }
    if |row| < BITS {
      Pow2Monotone(|row|, BITS);
    }
  }

  lemma Clear(mask: nat, n: nat, j: nat)
    requires mask < Pow2(n) && n <= j
    ensures !Bit(mask, j)
  {
    if n < j {
      Pow2Monotone(n, j);
    }
    DivSmall(mask, Pow2(j));
  }

  /** The bits say which mask it is: a row has one mask only. */
  lemma MaskUnique(row: seq<Cell>, a: nat, b: nat)
    requires Masks(a, row) && Masks(b, row)
    ensures a == b
  {
    hide Bit;
    SameBits(a, b, BITS);
  }

  lemma {:induction false} SameBits(a: nat, b: nat, n: nat)
    requires a < Pow2(n) && b < Pow2(n) && forall i | 0 <= i < n :: Bit(a, i) <==> Bit(b, i)
    ensures a == b
    decreases n
  {
    if n > 0 {
      var a' := WithoutTop(a, n - 1);
      var b' := WithoutTop(b, n - 1);
      hide Bit;
      SameBits(a', b', n - 1);
    }
  }

  /** A number without its highest bit. */
  lemma WithoutTop(a: nat, n: nat) returns (low: nat)
    requires a < Pow2(n + 1)
    ensures low < Pow2(n) && a == low + (if Bit(a, n) then Pow2(n) else 0)
    ensures forall j | 0 <= j < n :: Bit(low, j) <==> Bit(a, j)
  {
    assert Pow2(n + 1) == 2 * Pow2(n);
    hide Bit, Pow2;
    if a < Pow2(n) {
      low := a;
      Clear(a, n, n);
    } else {
      low := a - Pow2(n);
      HighBit(low, n, n);
      forall j | 0 <= j < n
        ensures Bit(low, j) <==> Bit(a, j)
      {
        HighBit(low, n, j);
      }
    }
  }

  /** The mask of a row in which just one cell is NULL: 1 for the first, 2 for the second, and
      the highest bit for the last that has one. */
  lemma OneNull(row: seq<Cell>, i: nat, mask: nat)
    requires i < |row| && i < BITS && Masks(mask, row)
    requires forall j | 0 <= j < |row| :: row[j].None? <==> j == i
    ensures mask == Pow2(i)
    ensures Pow2(0) == 1 && Pow2(1) == 2 && Pow2(63) == 0x8000_0000_0000_0000
  {
    forall j: nat
      ensures Bit(Pow2(i), j) <==> j == i
    {
      OnlyBit(i, j);
    }
    Pow2Monotone(i, BITS);
    MaskUnique(row, mask, Pow2(i));
    PowersOfTwo();
  }

  lemma OnlyBit(i: nat, j: nat)
    ensures Bit(Pow2(i), j) <==> j == i
  {
    HighBit(0, i, j);
    if j > i {
      Pow2Monotone(i, j);
      DivSmall(Pow2(i), Pow2(j));
    } else if j < i {
      DivSmall(0, Pow2(j));
    }
  }

  lemma PowersOfTwo()
    ensures Pow2(0) == 1 && Pow2(1) == 2 && Pow2(63) == 0x8000_0000_0000_0000
  {
    assert Pow2(8) == 0x100;
    assert Pow2(16) == 0x1_0000;
    assert Pow2(24) == 0x100_0000;
    assert Pow2(32) == 0x1_0000_0000;
    assert Pow2(40) == 0x100_0000_0000;
    assert Pow2(48) == 0x1_0000_0000_0000;
    assert Pow2(56) == 0x100_0000_0000_0000;
  }

  /** With up to 64 columns the strings and the mask say exactly what each cell was. */
  lemma RowIsDetermined(v: seq<Cell>, w: seq<Cell>, row: seq<string>, mask: nat)
    requires |v| <= BITS
    requires Scanned(v, row, mask) && Scanned(w, row, mask)
    ensures v == w
  {
    forall i | 0 <= i < |v|
      ensures v[i] == w[i]
    {
      assert Bit(mask, i) <==> v[i].None?;
      assert Bit(mask, i) <==> w[i].None?;
      assert row[i] == if v[i].Some? then v[i].value else "";
      assert row[i] == if w[i].Some? then w[i].value else "";
    }
  }

  /** From the 65th column on NULL and the empty string look the same. */
  lemma WideRowsAreNot(v: seq<Cell>, i: nat, row: seq<string>, mask: nat)
    requires BITS <= i < |v|
    ensures Scanned(v[i := None], row, mask) <==> Scanned(v[i := Some("")], row, mask)
  {
    var a, b := v[i := None], v[i := Some("")];
    assert forall j | 0 <= j < BITS :: a[j] == b[j];
    assert forall j | 0 <= j < |v| ::
      (if a[j].Some? then a[j].value else "") == (if b[j].Some? then b[j].value else "");
  }

  // ---- the result set ---------------------------------------------------------------

  datatype ScanOutcome = ScanError | Scanning(rows: seq<seq<string>>, nullMasks: seq<nat>)

  /** A query's rows, in which a row that is None fails to scan, and the number of rows after
      which the iteration breaks off, if it does. Next then says that there are no more, as it
      does at the end; why, only Err would tell. */
  datatype Source = Source(table: seq<Option<seq<Cell>>>, breaks: Option<nat>)

  /** How many rows Next delivers. */
  function Delivered(input: Source): (n: nat) {
    if input.breaks.Some? && input.breaks.value < |input.table| then input.breaks.value else |input.table|
  }

  function Least(a: nat, b: nat): (m: nat) {
    if a < b then a else b
  }

  /** The first `n` rows, or an error if one of them fails to scan. */
  ghost predicate Prefix(r: ScanOutcome, table: seq<Option<seq<Cell>>>, n: nat)
    requires n <= |table|
  {
    if exists i | 0 <= i < n :: table[i].None? then r == ScanError
    else
      && r.Scanning? && |r.rows| == |r.nullMasks| == n
      && forall i | 0 <= i < n :: Scanned(table[i].value, r.rows[i], r.nullMasks[i])
  }

  /** Reads rows until there are no more or the limit is reached; a row that fails to scan
      fails the whole result. */
  method ScanResult(input: Source, limit: uint32) returns (r: ScanOutcome)
    ensures Prefix(r, input.table, Least(limit, Delivered(input)))
  {
    hide Scanned;
    var rows: seq<seq<string>>, masks: seq<nat> := [], [];
    var i := 0;
    while i < Delivered(input) && |rows| < limit
      invariant i == |rows| == |masks| <= Delivered(input) && i <= limit
      invariant forall j | 0 <= j < i ::
                  input.table[j].Some? && Scanned(input.table[j].value, rows[j], masks[j])
      decreases |input.table| - i
    {
      if input.table[i].None? {
        return ScanError;
      }
      var row, mask := ScanRow(input.table[i].value);
      rows, masks := rows + [row], masks + [mask];
      i := i + 1;
    }
    r := Scanning(rows, masks);
  }

  /** A result that is not an error is what the limit asks of the whole table exactly if the
      iteration does not break off before that many rows. */
  lemma WholeExactly(input: Source, limit: uint32, r: ScanOutcome)
    requires Prefix(r, input.table, Least(limit, Delivered(input))) && r.Scanning?
    ensures (r.Scanning? && |r.rows| == Least(limit, |input.table|)) <==>
              !(input.breaks.Some? && input.breaks.value < Least(limit, |input.table|))
    ensures |r.rows| == Least(limit, |input.table|) ==> Prefix(r, input.table, Least(limit, |input.table|))
  {
  }

  /** A table of one row, broken off before it, passes for an empty one. */
  lemma BrokenLooksEmpty(row: seq<Cell>, limit: uint32, r: ScanOutcome)
    requires limit > 0 && Prefix(r, [Some(row)], Least(limit, Delivered(Source([Some(row)], Some(0)))))
    ensures r == Scanning([], []) && !Prefix(r, [Some(row)], Least(limit, 1))
  {
  }
}
