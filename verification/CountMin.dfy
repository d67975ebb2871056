/** The rate limiter's count-min sketch (pkg/engine/cms.go). */
module CountMin {
  import opened Words
  import opened Hashes

  const ROWS: nat := 4
  const COLUMNS: nat := 1024
  const LIMIT: nat := 50

  /** The column that an id increments in a row; h1, h2 and their sum wrap as uint32. */
  function Column(row: nat, id: UInt32): (c: nat)
    requires row < ROWS
    ensures c < COLUMNS
  {
    Add32(Mul32(id, HASH1), Mul32(row, Mul32(id, HASH2))) % COLUMNS
  }

  /** How many of the adds so far hit a column of a row. */
  function Hits(adds: seq<UInt32>, row: nat, column: nat): (n: nat)
    requires row < ROWS
    ensures n <= |adds|
  {
    if adds == [] then 0
    else Hits(adds[..|adds| - 1], row, column) + if Column(row, adds[|adds| - 1]) == column then 1 else 0
  }

  /** The counter that row gives id, as a uint32, after the given adds. */
  function Counter(adds: seq<UInt32>, row: nat, id: UInt32): UInt32
    requires row < ROWS
  {
    Hits(adds, row, Column(row, id)) % TWO32
  }

  /** The smallest of the first k counters. */
  function MinCounter(adds: seq<UInt32>, id: UInt32, k: nat): UInt32
    requires k <= ROWS
  {
    if k == 0 then 0xFFFF_FFFF else Min(MinCounter(adds, id, k - 1), Counter(adds, k - 1, id))
  }

  /** What the sketch answers for id after the given adds, the last of which is id's. */
  function Estimate(adds: seq<UInt32>, id: UInt32): UInt32 {
    MinCounter(adds, id, ROWS)
  }

  /** One more add raises one counter in each row. */
  lemma HitsAppended(adds: seq<UInt32>, id: UInt32)
    ensures forall r: nat, c: nat {:trigger Hits(adds + [id], r, c)} :: r < ROWS ==>
              Hits(adds + [id], r, c) == Hits(adds, r, c) + if Column(r, id) == c then 1 else 0
  {
  }

  class CountMinSketch {
    const table: array2<UInt32>
    ghost var adds: seq<UInt32>  // since the last reset

    ghost predicate Valid()
      reads this, table
    {
      && table.Length0 == ROWS && table.Length1 == COLUMNS
      && forall i: nat, c: nat :: i < ROWS && c < COLUMNS ==> table[i, c] == Hits(adds, i, c) % TWO32
    }

    constructor ()
      ensures Valid() && fresh(table) && adds == []
    {
      table := new UInt32[ROWS, COLUMNS]((_, _) => 0);
      adds := [];
    }

    method AddAndEstimate(id: UInt32) returns (estimate: UInt32)
      requires Valid()
      modifies this, table
      ensures Valid() && adds == old(adds) + [id]
      ensures estimate == Estimate(adds, id)
    {
      hide Mul32, Add32, Hits;
      var h1 := Mul32(id, HASH1);
      var h2 := Mul32(id, HASH2);
      estimate := 0xFFFF_FFFF;
      ghost var before := adds;
      adds := adds + [id];
      var i := 0;
      while i < ROWS
        invariant 0 <= i <= ROWS && adds == before + [id]
        invariant forall r: nat, c: nat :: r < i && c < COLUMNS ==> table[r, c] == Hits(adds, r, c) % TWO32
        invariant forall r: nat, c: nat :: i <= r < ROWS && c < COLUMNS ==> table[r, c] == Hits(before, r, c) % TWO32
        invariant estimate == MinCounter(adds, id, i)
      {
        var hash := Add32(h1, Mul32(i, h2));
        var col := hash % COLUMNS;
        var val := Increment(i, col, before, id);
        if val < estimate {
          estimate := val;
        }
        i := i + 1;
      }
    }

    /** table[i][col]++ and the read after it. */
    method Increment(i: nat, col: nat, ghost before: seq<UInt32>, ghost id: UInt32) returns (val: UInt32)
      requires i < ROWS && col == Column(i, id)
      requires table.Length0 == ROWS && table.Length1 == COLUMNS
      requires forall c: nat :: c < COLUMNS ==> table[i, c] == Hits(before, i, c) % TWO32
      modifies table
      ensures forall c: nat :: c < COLUMNS ==> table[i, c] == Hits(before + [id], i, c) % TWO32
      ensures forall r: nat, c: nat :: r < ROWS && r != i && c < COLUMNS ==> table[r, c] == old(table[r, c])
      ensures val == Counter(before + [id], i, id)
    {
      hide Column, Hits;
      HitsAppended(before, id);
      table[i, col] := (table[i, col] + 1) % TWO32;
      val := table[i, col];
    }

    method Reset()
      requires Valid()
      modifies this, table
      ensures Valid() && adds == []
    {
      var i := 0;
      while i < ROWS
        invariant 0 <= i <= ROWS
        invariant forall r: nat, c: nat :: r < i && c < COLUMNS ==> table[r, c] == 0
      {
        var j := 0;
        while j < COLUMNS
          invariant 0 <= j <= COLUMNS
          invariant forall r: nat, c: nat :: r < i && c < COLUMNS ==> table[r, c] == 0
          invariant forall c: nat :: c < j ==> table[i, c] == 0
        {
          table[i, j] := 0;
          j := j + 1;
        }
        i := i + 1;
      }
      adds := [];
    }
  }

  // ----- exact counting by residue -----

  /** How many adds are congruent to id modulo 1024. */
  function ClassCount(adds: seq<UInt32>, id: UInt32): (n: nat)
    ensures n <= |adds|
  {
    if adds == [] then 0
    else ClassCount(adds[..|adds| - 1], id) + if adds[|adds| - 1] % COLUMNS == id % COLUMNS then 1 else 0
  }

  /** The multipliers of the four rows modulo 1024. */
  function Multiplier(row: nat): nat
    requires row < ROWS
  {
    if row == 0 then 619 else if row == 1 then 160 else if row == 2 then 725 else 266
  }

  lemma ModMod(x: nat)
    ensures x % TWO32 % COLUMNS == x % COLUMNS
  {
  }

  /** The two hashes modulo 1024, as linear equations. */
  lemma HashResidues(id: UInt32) returns (k1: int, k2: int)
    ensures Mul32(id, HASH1) == 619 * id + 1024 * k1
    ensures Mul32(id, HASH2) == 565 * id + 1024 * k2
  {
    k1 := 2194162 * id - 0x40_0000 * (id * HASH1 / TWO32);
    k2 := 3189931 * id - 0x40_0000 * (id * HASH2 / TWO32);
  }

  /** Reducing modulo 2^32 on the way does not change a sum modulo 1024. */
  lemma SumModMod(x: nat, y: nat)
    ensures (x + y % TWO32) % TWO32 % COLUMNS == (x + y) % COLUMNS
  {
    var reduced := y % TWO32;
    ModMod(x + reduced);
    SameResidue1024(x + y, x + reduced, 0x40_0000 * (y / TWO32));
  }

  lemma RowResidue(row: nat, id: nat, h1: nat, h2: nat, k1: int, k2: int)
    requires row < ROWS
    requires h1 == 619 * id + 1024 * k1 && h2 == 565 * id + 1024 * k2
    ensures (h1 + row * h2) % COLUMNS == id * Multiplier(row) % COLUMNS
  {
    if row == 0 {
      SameResidue1024(h1, 619 * id, k1);
    } else if row == 1 {
      SameResidue1024(h1 + h2, 160 * id, id + k1 + k2);
    } else if row == 2 {
      SameResidue1024(h1 + 2 * h2, 725 * id, id + k1 + 2 * k2);
    } else {
      SameResidue1024(h1 + 3 * h2, 266 * id, 2 * id + k1 + 3 * k2);
    }
  }

  /** Each row hashes an id by a fixed multiplier modulo 1024. */
  lemma ColumnIsProduct(row: nat, id: UInt32)
    requires row < ROWS
    ensures Column(row, id) == id * Multiplier(row) % COLUMNS
  {
    var k1, k2 := HashResidues(id);
    var h1, h2 := Mul32(id, HASH1), Mul32(id, HASH2);
    RowResidue(row, id, h1, h2, k1, k2);
    SumModMod(h1, row * h2);
  }

  lemma ProductResidue(a: nat, b: nat, m: nat)
    ensures a % COLUMNS == b % COLUMNS ==> a * m % COLUMNS == b * m % COLUMNS
  {
    if a % COLUMNS == b % COLUMNS {
      var k := a / 1024 - b / 1024;
      assert a == b + 1024 * k;
      assert a * m == b * m + 1024 * (k * m);
      SameResidue1024(a * m, b * m, k * m);
    }
  }

  /** 619 is invertible modulo 1024 (619 * 579 == 1 + 350 * 1024), so row 0 separates residues. */
  lemma Row0Separates(a: UInt32, b: UInt32)
    ensures Column(0, a) == Column(0, b) <==> a % COLUMNS == b % COLUMNS
  {
    ColumnIsProduct(0, a);
    ColumnIsProduct(0, b);
    ProductResidue(a, b, 619);
    hide Column;
    if Column(0, a) == Column(0, b) {
      var k := a * 619 / 1024 - b * 619 / 1024;
      assert a * 619 - b * 619 == 1024 * k;
      SameResidue1024(a, b, 579 * k - 350 * (a - b));
    }
  }

  /** Ids that collide in row 0 collide in every row. */
  lemma SameClassCollides(row: nat, a: UInt32, b: UInt32)
    requires row < ROWS && a % COLUMNS == b % COLUMNS
    ensures Column(row, a) == Column(row, b)
  {
    ColumnIsProduct(row, a);
    ColumnIsProduct(row, b);
    ProductResidue(a, b, Multiplier(row));
  }

  /** Row 0 counts exactly the residue class, the other rows at least that. */
  lemma {:induction false} HitsBoundClass(adds: seq<UInt32>, row: nat, id: UInt32)
    requires row < ROWS
    ensures ClassCount(adds, id) <= Hits(adds, row, Column(row, id))
    ensures row == 0 ==> Hits(adds, row, Column(row, id)) == ClassCount(adds, id)
  {
    hide Column;
    if adds == [] {
    } else {
      var last := adds[|adds| - 1];
      HitsBoundClass(adds[..|adds| - 1], row, id);
      Row0Separates(last, id);
      if last % COLUMNS == id % COLUMNS {
        SameClassCollides(row, last, id);
      }
    }
  }

  /** For fewer than 2^32 adds the sketch is exact: it counts the adds congruent to id modulo 1024. */
  lemma EstimateIsExact(adds: seq<UInt32>, id: UInt32)
    requires |adds| < TWO32
    ensures Estimate(adds, id) == ClassCount(adds, id)
  {
    hide Column, Hits, ClassCount;
    HitsBoundClass(adds, 0, id);
    HitsBoundClass(adds, 1, id);
    HitsBoundClass(adds, 2, id);
    HitsBoundClass(adds, 3, id);
    var c := ClassCount(adds, id);
    assert MinCounter(adds, id, 1) == c;
    assert MinCounter(adds, id, 2) == c;
    assert MinCounter(adds, id, 3) == c;
    assert MinCounter(adds, id, 4) == c;
  }

  // ----- the limiter -----

  /** Does the last of these arrivals pass the test of ProcessPacket? */
  predicate Passes(arrivals: seq<UInt32>)
    requires arrivals != []
  {
    Estimate(arrivals, arrivals[|arrivals| - 1]) <= LIMIT
  }

  /** How many of the arrivals since a reset that are congruent to id passed. */
  function PassedCount(arrivals: seq<UInt32>, id: UInt32): (n: nat) {
    if arrivals == [] then 0
    else PassedCount(arrivals[..|arrivals| - 1], id) +
         if arrivals[|arrivals| - 1] % COLUMNS == id % COLUMNS && Passes(arrivals) then 1 else 0
  }

  lemma {:induction false} ClassCountOfClass(adds: seq<UInt32>, a: UInt32, b: UInt32)
    requires a % COLUMNS == b % COLUMNS
    ensures ClassCount(adds, a) == ClassCount(adds, b)
  {
    if adds == [] {
    } else {
      ClassCountOfClass(adds[..|adds| - 1], a, b);
    }
  }

  /** Between two resets exactly the first 50 packets of each class modulo 1024 pass. */
  lemma {:induction false} LimiterPassesFirstFifty(arrivals: seq<UInt32>, id: UInt32)
    requires |arrivals| < TWO32
    ensures PassedCount(arrivals, id) == Min(50, ClassCount(arrivals, id))
  {
    hide Estimate;
    if arrivals == [] {
    } else {
      var last := arrivals[|arrivals| - 1];
      LimiterPassesFirstFifty(arrivals[..|arrivals| - 1], id);
      EstimateIsExact(arrivals, last);
      if last % COLUMNS == id % COLUMNS {
        ClassCountOfClass(arrivals, last, id);
      }
    }
  }
}
