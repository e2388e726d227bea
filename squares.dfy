/** The fixed pairing tables the solvers try, generalised from n = 10 to any
    even n = 2h (the source fixes h = 5), and the Latin-square validators. */
module Squares {
  import opened Outcomes
  import opened Tables
  import opened Checks

  // ----- modular arithmetic (Python's % with a positive modulus is Dafny's) -----

  /** Euclidean division determines the remainder. */
  lemma ModUnique(x: int, n: int, q: int, r: int)
    requires n > 0 && 0 <= r < n && x == q * n + r
    ensures x % n == r
  {
    var d := q - x / n;
    assert x == (x / n) * n + x % n;
    assert d * n == x % n - r;
  }

  /** x % n for x within one period of 0..n-1. */
  lemma Wrap(x: int, n: int)
    requires n > 0 && -n <= x < 2 * n
    ensures x % n == (if x < 0 then x + n else if x < n then x else x - n)
  {
    if x < 0 {
      ModUnique(x, n, -1, x + n);
    } else if x < n {
      ModUnique(x, n, 0, x);
    } else {
      ModUnique(x, n, 1, x - n);
    }
  }

  /** Adding an even number keeps the parity. */
  lemma EvenShiftParity(x: int, k: int)
    ensures (x + 2 * k) % 2 == x % 2
  {
    ModUnique(x + 2 * k, 2, x / 2 + k, x % 2);
  }

  /** A row given as a formula is a permutation when it is injective on 0..n-1
      and stays in range. */
  lemma InjectiveRowIsPerm(s: seq<int>, n: nat)
    requires |s| == n && InRange(s, n) && Distinct(s)
    ensures IsPerm(s, n)
  {
    PermIff(s, n);
  }

  // ----- the dihedral Cayley table -----

  /** d5_cayley_table: element a of D_h is the rotation a % h, followed by a
      reflection when a >= h; the entry is the product a*b in the same code. */
  function DihedralCell(h: nat, a: nat, b: nat): (c: int)
    requires h > 0 && a < 2 * h && b < 2 * h
    ensures 0 <= c < 2 * h
  {
    var aRot := if a < h then a % h else a % h;
    var aRef := a >= h;
    var bRot := if b < h then b % h else b % h;
    var bRef := b >= h;
    var (cRot, cRef) :=
      if !aRef && !bRef then ((aRot + bRot) % h, false)
      else if !aRef && bRef then ((aRot + bRot) % h, true)
      else if aRef && !bRef then ((aRot - bRot) % h, true)
      else ((aRot - bRot) % h, false);
    cRot + (if cRef then h else 0)
  }

  /** make_d5_ls: the same product written with the reflection flag
      cf = bf when a is a rotation and cf = not bf otherwise. */
  function DihedralCellAlt(h: nat, a: nat, b: nat): (c: int)
    requires h > 0 && a < 2 * h && b < 2 * h
    ensures c == DihedralCell(h, a, b)
  {
    var ar, af := a % h, a >= h;
    var br, bf := b % h, b >= h;
    var (cr, cf) :=
      if !af then ((if !bf then (ar + br) % h else (ar + br) % h), bf)
      else ((ar - br) % h, !bf);
    cr + (if cf then h else 0)
  }

  function DihedralTable(h: nat): (L: Table)
    requires h > 0
    ensures IsSquare(L, 2 * h)
    ensures forall a, b :: 0 <= a < 2 * h && 0 <= b < 2 * h ==> L[a][b] == DihedralCell(h, a, b)
  {
    seq(2 * h, a requires 0 <= a < 2 * h => seq(2 * h, b requires 0 <= b < 2 * h => DihedralCell(h, a, b)))
  }

  function DihedralTableAlt(h: nat): (L: Table)
    requires h > 0
    ensures IsSquare(L, 2 * h)
    ensures forall a, b :: 0 <= a < 2 * h && 0 <= b < 2 * h ==> L[a][b] == DihedralCellAlt(h, a, b)
  {
    seq(2 * h, a requires 0 <= a < 2 * h => seq(2 * h, b requires 0 <= b < 2 * h => DihedralCellAlt(h, a, b)))
  }

  /** solver_bt's and solver_fast's dihedral tables are the same table. */
  lemma DihedralTablesAgree(h: nat)
    requires h > 0
    ensures DihedralTableAlt(h) == DihedralTable(h)
  {
    var A, B := DihedralTableAlt(h), DihedralTable(h);
    forall a | 0 <= a < 2 * h ensures A[a] == B[a] {
      assert forall b :: 0 <= b < 2 * h ==> A[a][b] == B[a][b];
    }
  }

  /** The product in closed form, without remainders. */
  lemma DihedralCellLinear(h: nat, a: nat, b: nat)
    requires h > 0 && a < 2 * h && b < 2 * h
    ensures var ar, br := (if a < h then a else a - h), (if b < h then b else b - h);
            var rot := if a < h then (if ar + br < h then ar + br else ar + br - h)
                       else (if ar < br then ar - br + h else ar - br);
            DihedralCell(h, a, b) == rot + (if (a < h) != (b < h) then h else 0)
  {
    Wrap(a, h);
    Wrap(b, h);
    var ar, br := a % h, b % h;
    Wrap(ar + br, h);
    Wrap(ar - br, h);
  }

  /** Row a of the table is injective: a*b == a*b' forces b == b'. */
  lemma DihedralRowCancel(h: nat, a: nat, b: nat, b': nat)
    requires h > 0 && a < 2 * h && b < 2 * h && b' < 2 * h
    requires DihedralCell(h, a, b) == DihedralCell(h, a, b')
    ensures b == b'
  {
    DihedralCellLinear(h, a, b);
    DihedralCellLinear(h, a, b');
  }

  /** Column b of the table is injective: a*b == a'*b forces a == a'. */
  lemma DihedralColCancel(h: nat, a: nat, a': nat, b: nat)
    requires h > 0 && a < 2 * h && a' < 2 * h && b < 2 * h
    requires DihedralCell(h, a, b) == DihedralCell(h, a', b)
    ensures a == a'
  {
    DihedralCellLinear(h, a, b);
    DihedralCellLinear(h, a', b);
  }

  /** The Cayley table of a group is a Latin square. */
  lemma DihedralIsLatin(h: nat)
    requires h > 0
    ensures IsLatin(DihedralTable(h), 2 * h)
  {
    var n, L := 2 * h, DihedralTable(h);
    forall a | 0 <= a < n ensures IsPerm(L[a], n) {
      forall b, b' | 0 <= b < b' < n ensures L[a][b] != L[a][b'] {
        if L[a][b] == L[a][b'] {
          DihedralRowCancel(h, a, b, b');
        }
      }
      InjectiveRowIsPerm(L[a], n);
    }
    forall b | 0 <= b < n ensures IsPerm(Column(L, b), n) {
      var col := Column(L, b);
      forall a, a' | 0 <= a < a' < n ensures col[a] != col[a'] {
        if col[a] == col[a'] {
          DihedralColCancel(h, a, a', b);
        }
      }
      InjectiveRowIsPerm(col, n);
    }
  }

  // ----- shift/reflection squares -----

  /** mixed_latin_square / make_mixed_ls: the first h rounds shift by 2r, the
      last h rounds reflect. */
  function MixedCell(h: nat, r: int, i: int): int
    requires h > 0
  {
    if r < h then (i + 2 * r) % (2 * h) else (2 * (r - h) + 1 - i) % (2 * h)
  }

  function MixedSquare(h: nat): (L: Table)
    requires h > 0
    ensures IsSquare(L, 2 * h)
    ensures forall r, i :: 0 <= r < 2 * h && 0 <= i < 2 * h ==> L[r][i] == MixedCell(h, r, i)
  {
    seq(2 * h, r => seq(2 * h, i => MixedCell(h, r, i)))
  }

  lemma MixedCellLinear(h: nat, r: int, i: int)
    requires h > 0 && 0 <= r < 2 * h && 0 <= i < 2 * h
    ensures var n := 2 * h;
            MixedCell(h, r, i) ==
              if r < h then (if i + 2 * r < n then i + 2 * r else i + 2 * r - n)
              else (var x := 2 * (r - h) + 1 - i; if x < 0 then x + n else x)
  {
    if r < h {
      Wrap(i + 2 * r, 2 * h);
    } else {
      Wrap(2 * (r - h) + 1 - i, 2 * h);
    }
  }

  lemma MixedRowDistinct(h: nat, r: int, i: int, i': int)
    requires h > 0 && 0 <= r < 2 * h && 0 <= i < i' < 2 * h
    ensures MixedCell(h, r, i) != MixedCell(h, r, i')
  {
    MixedCellLinear(h, r, i);
    MixedCellLinear(h, r, i');
  }

  lemma MixedColDistinct(h: nat, i: int, r: int, r': int)
    requires h > 0 && 0 <= i < 2 * h && 0 <= r < r' < 2 * h
    ensures MixedCell(h, r, i) != MixedCell(h, r', i)
  {
    MixedCellLinear(h, r, i);
    MixedCellLinear(h, r', i);
  }

  lemma MixedInRange(h: nat, r: int, i: int)
    requires h > 0 && 0 <= r < 2 * h && 0 <= i < 2 * h
    ensures 0 <= MixedCell(h, r, i) < 2 * h
  {
    MixedCellLinear(h, r, i);
  }

  lemma MixedIsLatin(h: nat)
    requires h > 0
    ensures IsLatin(MixedSquare(h), 2 * h)
  {
    var n, L := 2 * h, MixedSquare(h);
    forall r | 0 <= r < n ensures IsPerm(L[r], n) {
      forall i | 0 <= i < n ensures 0 <= L[r][i] < n {
        MixedInRange(h, r, i);
      }
      forall i, i' | 0 <= i < i' < n ensures L[r][i] != L[r][i'] {
        MixedRowDistinct(h, r, i, i');
      }
      InjectiveRowIsPerm(L[r], n);
    }
    forall i | 0 <= i < n ensures IsPerm(Column(L, i), n) {
      var col := Column(L, i);
      forall r | 0 <= r < n ensures 0 <= col[r] < n {
        MixedInRange(h, r, i);
      }
      forall r, r' | 0 <= r < r' < n ensures col[r] != col[r'] {
        MixedColDistinct(h, i, r, r');
      }
      InjectiveRowIsPerm(col, n);
    }
  }

  /** custom_latin_square_1: even rounds shift by r, odd rounds reflect. */
  function AlternatingCell(n: nat, r: int, i: int): int
    requires n > 0
  {
    if r % 2 == 0 then (i + r) % n else (r - i) % n
  }

  function AlternatingSquare(n: nat): (L: Table)
    requires n > 0
    ensures IsSquare(L, n)
    ensures forall r, i :: 0 <= r < n && 0 <= i < n ==> L[r][i] == AlternatingCell(n, r, i)
  {
    seq(n, r => seq(n, i => AlternatingCell(n, r, i)))
  }

  lemma AlternatingCellLinear(n: nat, r: int, i: int)
    requires n > 0 && 0 <= r < n && 0 <= i < n
    ensures AlternatingCell(n, r, i) ==
              if r % 2 == 0 then (if i + r < n then i + r else i + r - n)
              else (if r < i then r - i + n else r - i)
  {
    Wrap(i + r, n);
    Wrap(r - i, n);
  }

  lemma AlternatingRowDistinct(n: nat, r: int, i: int, i': int)
    requires n > 0 && 0 <= r < n && 0 <= i < i' < n
    ensures AlternatingCell(n, r, i) != AlternatingCell(n, r, i')
  {
    AlternatingCellLinear(n, r, i);
    AlternatingCellLinear(n, r, i');
  }

  /** Column i: even rounds give values of i's parity, odd rounds the other parity. */
  lemma AlternatingColDistinct(n: nat, i: int, r: int, r': int)
    requires n > 0 && n % 2 == 0 && 0 <= i < n && 0 <= r < r' < n
    ensures AlternatingCell(n, r, i) != AlternatingCell(n, r', i)
  {
    if r % 2 == r' % 2 {
      AlternatingCellLinear(n, r, i);
      AlternatingCellLinear(n, r', i);
    } else {
      AlternatingCellParity(n, r, i);
      AlternatingCellParity(n, r', i);
      OppositeParity(i, r, r');
    }
  }

  lemma OppositeParity(i: int, r: int, r': int)
    requires r % 2 != r' % 2
    ensures (i + r) % 2 != (i + r') % 2
  {
    EvenShiftParity(i + r % 2, r / 2);
    EvenShiftParity(i + r' % 2, r' / 2);
    ModUnique(i + 1, 2, i / 2 + (i % 2), 1 - i % 2);
  }

  lemma AlternatingCellParity(n: nat, r: int, i: int)
    requires n > 0 && n % 2 == 0 && 0 <= r < n && 0 <= i < n
    ensures AlternatingCell(n, r, i) % 2 == (i + r) % 2
  {
    AlternatingCellLinear(n, r, i);
    var k := n / 2;
    EvenShiftParity(i + r, -k);
    EvenShiftParity(r - i, k);
    EvenShiftParity(i + r, -i);
  }

  lemma AlternatingIsLatin(n: nat)
    requires n > 0 && n % 2 == 0
    ensures IsLatin(AlternatingSquare(n), n)
  {
    var L := AlternatingSquare(n);
    forall r | 0 <= r < n ensures IsPerm(L[r], n) {
      forall i | 0 <= i < n ensures 0 <= L[r][i] < n {
        AlternatingCellLinear(n, r, i);
      }
      forall i, i' | 0 <= i < i' < n ensures L[r][i] != L[r][i'] {
        AlternatingRowDistinct(n, r, i, i');
      }
      InjectiveRowIsPerm(L[r], n);
    }
    forall i | 0 <= i < n ensures IsPerm(Column(L, i), n) {
      var col := Column(L, i);
      forall r | 0 <= r < n ensures 0 <= col[r] < n {
        AlternatingCellLinear(n, r, i);
      }
      forall r, r' | 0 <= r < r' < n ensures col[r] != col[r'] {
        AlternatingColDistinct(n, i, r, r');
      }
      InjectiveRowIsPerm(col, n);
    }
  }

  // ----- shift+swap squares -----

  /** The adjacent swap 0<->1, 2<->3, ...: val+1 for even val, val-1 for odd. */
  function Swap(n: nat, v: int): int
    requires n > 0
  {
    if v % 2 == 0 then (v + 1) % n else (v - 1) % n
  }

  /** make_shift_swap_ls: round r shifts by 2*(r//2); odd rounds then swap. */
  function ShiftSwapCell(n: nat, r: int, i: int): int
    requires n > 0
  {
    var shift := 2 * (r / 2);
    var v := (i + shift) % n;
    if r % 2 == 1 then Swap(n, v) else v
  }

  function ShiftSwapSquare(n: nat): (L: Table)
    requires n > 0
    ensures IsSquare(L, n)
    ensures forall r, i :: 0 <= r < n && 0 <= i < n ==> L[r][i] == ShiftSwapCell(n, r, i)
  {
    seq(n, r => seq(n, i => ShiftSwapCell(n, r, i)))
  }

  lemma ShiftSwapCellLinear(n: nat, r: int, i: int)
    requires n > 0 && n % 2 == 0 && 0 <= r < n && 0 <= i < n
    ensures var x := i + 2 * (r / 2);
            var v := if x < n then x else x - n;
            ShiftSwapCell(n, r, i) == if r % 2 == 0 then v else if v % 2 == 0 then v + 1 else v - 1
  {
    var x := i + 2 * (r / 2);
    Wrap(x, n);
    var v := x % n;
    Wrap(v + 1, n);
    Wrap(v - 1, n);
  }

  lemma ShiftSwapRowDistinct(n: nat, r: int, i: int, i': int)
    requires n > 0 && n % 2 == 0 && 0 <= r < n && 0 <= i < i' < n
    ensures ShiftSwapCell(n, r, i) != ShiftSwapCell(n, r, i')
  {
    ShiftSwapCellLinear(n, r, i);
    ShiftSwapCellLinear(n, r, i');
    var s := 2 * (r / 2);
    var x, x' := i + s, i' + s;
    var v := if x < n then x else x - n;
    var v' := if x' < n then x' else x' - n;
    WrapInjective(n, s, i, i');
    SwapInjective(v, v');
  }

  /** Adding the same shift below n, then wrapping once, keeps entries apart. */
  lemma WrapInjective(n: int, s: int, i: int, i': int)
    requires 0 <= s < n && 0 <= i < i' < n
    ensures (if i + s < n then i + s else i + s - n) != (if i' + s < n then i' + s else i' + s - n)
  {
  }

  /** Swapping each even entry with the next odd one keeps entries apart. */
  lemma SwapInjective(v: int, v': int)
    requires v != v'
    ensures (if v % 2 == 0 then v + 1 else v - 1) != (if v' % 2 == 0 then v' + 1 else v' - 1)
  {
  }

  /** Column i: even rounds keep i's parity, odd rounds flip it. */
  lemma ShiftSwapColDistinct(n: nat, i: int, r: int, r': int)
    requires n > 0 && n % 2 == 0 && 0 <= i < n && 0 <= r < r' < n
    ensures ShiftSwapCell(n, r, i) != ShiftSwapCell(n, r', i)
  {
    ShiftSwapCellLinear(n, r, i);
    ShiftSwapCellLinear(n, r', i);
    var k := n / 2;
    assert n == 2 * k;
    var q, q' := r / 2, r' / 2;
    assert r == 2 * q + r % 2 && r' == 2 * q' + r' % 2;
    var x, x' := i + 2 * q, i + 2 * q';
    var v := if x < n then x else x - n;
    var v' := if x' < n then x' else x' - n;
    EvenShiftParity(i, q);
    EvenShiftParity(i, q');
    EvenShiftParity(x, -k);
    EvenShiftParity(x', -k);
    assert v % 2 == i % 2 && v' % 2 == i % 2;
    if r % 2 == r' % 2 {
      assert q != q';
      assert v != v';
    }
  }

  lemma ShiftSwapIsLatin(n: nat)
    requires n > 0 && n % 2 == 0
    ensures IsLatin(ShiftSwapSquare(n), n)
  {
    var L := ShiftSwapSquare(n);
    forall r | 0 <= r < n ensures IsPerm(L[r], n) {
      forall i | 0 <= i < n ensures 0 <= L[r][i] < n {
        ShiftSwapCellLinear(n, r, i);
      }
      forall i, i' | 0 <= i < i' < n ensures L[r][i] != L[r][i'] {
        ShiftSwapRowDistinct(n, r, i, i');
      }
      InjectiveRowIsPerm(L[r], n);
    }
    forall i | 0 <= i < n ensures IsPerm(Column(L, i), n) {
      var col := Column(L, i);
      forall r | 0 <= r < n ensures 0 <= col[r] < n {
        ShiftSwapCellLinear(n, r, i);
      }
      forall r, r' | 0 <= r < r' < n ensures col[r] != col[r'] {
        ShiftSwapColDistinct(n, i, r, r');
      }
      InjectiveRowIsPerm(col, n);
    }
  }

  /** custom_latin_square_3: the shift+swap square for n = 10, written out. */
  function ShiftSwapTen(): (L: Table)
    ensures IsSquare(L, 10)
  {
    [ [0, 1, 2, 3, 4, 5, 6, 7, 8, 9],
      [1, 0, 3, 2, 5, 4, 7, 6, 9, 8],
      [2, 3, 4, 5, 6, 7, 8, 9, 0, 1],
      [3, 2, 5, 4, 7, 6, 9, 8, 1, 0],
      [4, 5, 6, 7, 8, 9, 0, 1, 2, 3],
      [5, 4, 7, 6, 9, 8, 1, 0, 3, 2],
      [6, 7, 8, 9, 0, 1, 2, 3, 4, 5],
      [7, 6, 9, 8, 1, 0, 3, 2, 5, 4],
      [8, 9, 0, 1, 2, 3, 4, 5, 6, 7],
      [9, 8, 1, 0, 3, 2, 5, 4, 7, 6] ]
  }

  /** Cell i of row r of the written-out table, for a literal r. */
  lemma ShiftSwapTenCell(r: nat, i: nat)
    requires r < 10 && i < 10
    ensures ShiftSwapCell(10, r, i) ==
            var v := if i + 2 * (r / 2) < 10 then i + 2 * (r / 2) else i + 2 * (r / 2) - 10;
            if r % 2 == 0 then v else if i % 2 == 0 then v + 1 else v - 1
  {
    ShiftSwapCellLinear(10, r, i);
    EvenShiftParity(i, r / 2);
    EvenShiftParity(i + 2 * (r / 2), -5);
  }

  lemma ShiftSwapTenRowsFrom0()
    ensures forall r :: 0 <= r < 2 ==> ShiftSwapTen()[r] == ShiftSwapSquare(10)[r]
  {
    var T, S := ShiftSwapTen(), ShiftSwapSquare(10);
    assert T[0] == S[0] by {
      forall i | 0 <= i < 10 ensures T[0][i] == S[0][i] { ShiftSwapTenCell(0, i); }
    }
    assert T[1] == S[1] by {
      forall i | 0 <= i < 10 ensures T[1][i] == S[1][i] { ShiftSwapTenCell(1, i); }
    }
  }

  lemma ShiftSwapTenRowsFrom2()
    ensures forall r :: 2 <= r < 4 ==> ShiftSwapTen()[r] == ShiftSwapSquare(10)[r]
  {
    var T, S := ShiftSwapTen(), ShiftSwapSquare(10);
    assert T[2] == S[2] by {
      forall i | 0 <= i < 10 ensures T[2][i] == S[2][i] { ShiftSwapTenCell(2, i); }
    }
    assert T[3] == S[3] by {
      forall i | 0 <= i < 10 ensures T[3][i] == S[3][i] { ShiftSwapTenCell(3, i); }
    }
  }

  lemma ShiftSwapTenRowsFrom4()
    ensures forall r :: 4 <= r < 6 ==> ShiftSwapTen()[r] == ShiftSwapSquare(10)[r]
  {
    var T, S := ShiftSwapTen(), ShiftSwapSquare(10);
    assert T[4] == S[4] by {
      forall i | 0 <= i < 10 ensures T[4][i] == S[4][i] { ShiftSwapTenCell(4, i); }
    }
    assert T[5] == S[5] by {
      forall i | 0 <= i < 10 ensures T[5][i] == S[5][i] { ShiftSwapTenCell(5, i); }
    }
  }

  lemma ShiftSwapTenRowsFrom6()
    ensures forall r :: 6 <= r < 8 ==> ShiftSwapTen()[r] == ShiftSwapSquare(10)[r]
  {
    var T, S := ShiftSwapTen(), ShiftSwapSquare(10);
    assert T[6] == S[6] by {
      forall i | 0 <= i < 10 ensures T[6][i] == S[6][i] { ShiftSwapTenCell(6, i); }
    }
    assert T[7] == S[7] by {
      forall i | 0 <= i < 10 ensures T[7][i] == S[7][i] { ShiftSwapTenCell(7, i); }
    }
  }

  lemma ShiftSwapTenRowsFrom8()
    ensures forall r :: 8 <= r < 10 ==> ShiftSwapTen()[r] == ShiftSwapSquare(10)[r]
  {
    var T, S := ShiftSwapTen(), ShiftSwapSquare(10);
    assert T[8] == S[8] by {
      forall i | 0 <= i < 10 ensures T[8][i] == S[8][i] { ShiftSwapTenCell(8, i); }
    }
    assert T[9] == S[9] by {
      forall i | 0 <= i < 10 ensures T[9][i] == S[9][i] { ShiftSwapTenCell(9, i); }
    }
  }

  /** The written-out table is make_shift_swap_ls for n = 10, hence Latin. */
  lemma ShiftSwapTenIsShiftSwap()
    ensures ShiftSwapTen() == ShiftSwapSquare(10)
    ensures IsLatin(ShiftSwapTen(), 10)
  {
    ShiftSwapTenRowsFrom0();
    ShiftSwapTenRowsFrom2();
    ShiftSwapTenRowsFrom4();
    ShiftSwapTenRowsFrom6();
    ShiftSwapTenRowsFrom8();
    ShiftSwapIsLatin(10);
  }

  // ----- validators -----

  /** No column repeats a value: no pair (A_i, B_j) meets in two rounds. */
  predicate NoRepeatedPair(L: Table, n: nat)
    requires IsSquare(L, n)
  {
    forall i :: 0 <= i < n ==> Distinct(Column(L, i))
  }

  /** Once the columns are permutations the pair check cannot fail. */
  lemma ColumnPermsNoRepeatedPair(L: Table, n: nat)
    requires IsSquare(L, n) && ColumnsArePerms(L, n)
    ensures NoRepeatedPair(L, n)
  {
    forall i | 0 <= i < n ensures Distinct(Column(L, i)) {
      PermIff(Column(L, i), n);
    }
  }

  /** Cell (r, i) repeats the pair (i, L[r][i]) of an earlier round. */
  function RepeatFlag(L: Table, n: nat, r: nat, i: nat): Option<Issue>
    requires IsSquare(L, n)
  {
    if r < n && i < n && L[r][i] in Column(L, i)[..r] then Some(RepeatedPair(i, L[r][i])) else None
  }

  function RowRepeatReport(L: Table, n: nat, r: nat, k: nat): seq<Issue>
    requires IsSquare(L, n)
  {
    Report(k, (i: nat) => RepeatFlag(L, n, r, i))
  }

  /** The repeats met by the row-major pair walk over the first k rounds. */
  function RepeatReport(L: Table, n: nat, k: nat): seq<Issue>
    requires IsSquare(L, n)
  {
    if k == 0 then [] else RepeatReport(L, n, k - 1) + RowRepeatReport(L, n, k - 1, n)
  }

  /** Cell (r, i) holds a value its column has not taken in an earlier round. */
  predicate FreshCell(L: Table, n: nat, r: nat, i: nat)
    requires IsSquare(L, n) && r < n && i < n
  {
    L[r][i] !in Column(L, i)[..r]
  }

  /** Every cell of round r is fresh. */
  predicate FreshRow(L: Table, n: nat, r: nat)
    requires IsSquare(L, n) && r < n
  {
    forall i :: 0 <= i < n ==> FreshCell(L, n, r, i)
  }

  /** Every cell of rounds 0..k-1 is fresh. */
  predicate FreshUpTo(L: Table, n: nat, k: nat)
    requires IsSquare(L, n) && k <= n
  {
    forall r :: 0 <= r < k ==> FreshRow(L, n, r)
  }

  /** One round of the walk reports nothing exactly when the round is fresh. */
  lemma RowRepeatReportEmpty(L: Table, n: nat, r: nat)
    requires IsSquare(L, n) && r < n
    ensures RowRepeatReport(L, n, r, n) == [] <==> FreshRow(L, n, r)
  {
    var flag := (i: nat) => RepeatFlag(L, n, r, i);
    ReportEmpty(n, flag);
    if FreshRow(L, n, r) {
      forall i: nat | i < n ensures flag(i).None? {
        assert FreshCell(L, n, r, i);
      }
    } else {
      var i :| 0 <= i < n && !FreshCell(L, n, r, i);
      assert flag(i).Some?;
    }
  }

  /** The walk over k rounds is the rounds' reports one after another. */
  lemma {:induction false} RepeatReportRounds(L: Table, n: nat, k: nat)
    requires IsSquare(L, n)
    ensures RepeatReport(L, n, k) == Concat(k, (r: nat) => RowRepeatReport(L, n, r, n))
  {
    if k > 0 {
      var g := (r: nat) => RowRepeatReport(L, n, r, n);
      RepeatReportRounds(L, n, k - 1);
      assert Concat(k, g) == Concat(k - 1, g) + g(k - 1);
    }
  }

  lemma RepeatReportEmpty(L: Table, n: nat, k: nat)
    requires IsSquare(L, n) && k <= n
    ensures RepeatReport(L, n, k) == [] <==> FreshUpTo(L, n, k)
  {
    var g := (r: nat) => RowRepeatReport(L, n, r, n);
    RepeatReportRounds(L, n, k);
    ConcatEmpty(k, g);
    forall r: nat | r < k ensures g(r) == [] <==> FreshRow(L, n, r) {
      RowRepeatReportEmpty(L, n, r);
    }
  }

  /** A sequence is distinct exactly when no entry occurs before itself. */
  lemma DistinctIffNoEarlier(c: seq<int>)
    ensures Distinct(c) <==> forall b :: 0 <= b < |c| ==> c[b] !in c[..b]
  {
    if !Distinct(c) {
      var a, b :| 0 <= a < b < |c| && c[a] == c[b];
      assert c[..b][a] == c[b];
    }
  }

  /** Column i repeats no value exactly when each of its cells is fresh. */
  lemma ColumnFresh(L: Table, n: nat, i: nat)
    requires IsSquare(L, n) && i < n
    ensures Distinct(Column(L, i)) <==> forall r :: 0 <= r < n ==> FreshCell(L, n, r, i)
  {
    var c := Column(L, i);
    DistinctIffNoEarlier(c);
    forall r | 0 <= r < n ensures FreshCell(L, n, r, i) <==> c[r] !in c[..r] {
      assert c[r] == L[r][i];
    }
  }

  /** The pair walk finds nothing exactly when no column repeats a value. */
  lemma RepeatReportMeansNoRepeat(L: Table, n: nat)
    requires IsSquare(L, n)
    ensures RepeatReport(L, n, n) == [] <==> NoRepeatedPair(L, n)
  {
    RepeatReportEmpty(L, n, n);
    forall i | 0 <= i < n {
      ColumnFresh(L, n, i);
    }
    if FreshUpTo(L, n, n) {
      forall i | 0 <= i < n ensures Distinct(Column(L, i)) {
        forall r | 0 <= r < n ensures FreshCell(L, n, r, i) {
          assert FreshRow(L, n, r);
        }
      }
    } else {
      var r :| 0 <= r < n && !FreshRow(L, n, r);
      var i :| 0 <= i < n && !FreshCell(L, n, r, i);
      assert !Distinct(Column(L, i));
    }
  }

  /** Everything verify_latin_square can complain about, in its order. */
  function LatinIssues(L: Table, n: nat): seq<Issue>
    requires IsSquare(L, n)
  {
    RowPermReport(L, n, n) + ColPermReport(L, n, n) + RepeatReport(L, n, n)
  }

  lemma LatinIssuesFirst(L: Table, n: nat)
    requires IsSquare(L, n)
    ensures FirstOf(LatinIssues(L, n)) ==
            if RowPermReport(L, n, n) != [] then FirstOf(RowPermReport(L, n, n))
            else if ColPermReport(L, n, n) != [] then FirstOf(ColPermReport(L, n, n))
            else FirstOf(RepeatReport(L, n, n))
  {
    var a, b, c := RowPermReport(L, n, n), ColPermReport(L, n, n), RepeatReport(L, n, n);
    assert LatinIssues(L, n) == a + (b + c);
    FirstOfConcat(a, b + c);
    FirstOfConcat(b, c);
  }

  /** verify_latin_square's complaints vanish exactly when rows and columns
      are permutations and no pair repeats. */
  lemma LatinIssuesEmpty(L: Table, n: nat)
    requires IsSquare(L, n)
    ensures LatinIssues(L, n) == [] <==> RowsArePerms(L, n) && ColumnsArePerms(L, n) && NoRepeatedPair(L, n)
  {
    RowPermReportEmpty(L, n);
    ColPermReportEmpty(L, n);
    RepeatReportMeansNoRepeat(L, n);
  }

  /** The (column, value) pairs the walk has added before cell (r, i). */
  ghost function Seen(L: Table, n: nat, r: nat, i: nat): set<(int, int)>
    requires IsSquare(L, n) && r <= n && i <= n && (i > 0 ==> r < n)
  {
    (set r', c | 0 <= r' < r && 0 <= c < n :: (c, L[r'][c]))
    + (set c | 0 <= c < i && r < n :: (c, L[r][c]))
  }

  lemma SeenHas(L: Table, n: nat, r: nat, i: nat)
    requires IsSquare(L, n) && r < n && i < n
    ensures (i, L[r][i]) in Seen(L, n, r, i) <==> L[r][i] in Column(L, i)[..r]
  {
    var c := Column(L, i);
    if (i, L[r][i]) in Seen(L, n, r, i) {
      var r', c' :| 0 <= r' < r && 0 <= c' < n && (c', L[r'][c']) == (i, L[r][i]);
      assert c[..r][r'] == L[r][i];
    }
    if L[r][i] in c[..r] {
      var r' :| 0 <= r' < r && c[..r][r'] == L[r][i];
      assert (i, L[r'][i]) in Seen(L, n, r, i);
    }
  }

  lemma SeenStep(L: Table, n: nat, r: nat, i: nat)
    requires IsSquare(L, n) && r < n && i < n
    ensures Seen(L, n, r, i + 1) == Seen(L, n, r, i) + {(i, L[r][i])}
  {
  }

  lemma SeenNextRow(L: Table, n: nat, r: nat)
    requires IsSquare(L, n) && r < n
    ensures Seen(L, n, r, n) == Seen(L, n, r + 1, 0)
  {
  }

  /** verify_latin_square: rows, then columns, then the set of pairs seen so
      far; the first failure is returned. It succeeds exactly when L is a
      Latin square (with ColumnPermsNoRepeatedPair). */
  method VerifyLatinSquare(L: Table, n: nat) returns (ok: bool, issue: Option<Issue>)
    requires IsSquare(L, n)
    ensures issue == FirstOf(LatinIssues(L, n))
    ensures ok <==> issue.None?
    ensures ok <==> RowsArePerms(L, n) && ColumnsArePerms(L, n) && NoRepeatedPair(L, n)
  {
    LatinIssuesFirst(L, n);
    LatinIssuesEmpty(L, n);
    issue := FirstBadRow(L, n);
    if issue.None? {
      issue := FirstBadColumn(L, n);
      if issue.None? {
        issue := FirstRepeat(L, n);
      }
    }
    ok := issue.None?;
  }

  method FirstBadRow(L: Table, n: nat) returns (found: Option<Issue>)
    requires IsSquare(L, n)
    ensures found == FirstOf(RowPermReport(L, n, n))
  {
    var r := 0;
    while r < n
      invariant r <= n
      invariant RowPermReport(L, n, r) == []
    {
      if !IsPerm(L[r], n) {
        RowPermFirst(L, n, r);
        return Some(RowNotPerm(r));
      }
      RowPermQuiet(L, n, r);
      r := r + 1;
    }
    return None;
  }

  lemma RowPermQuiet(L: Table, n: nat, r: nat)
    requires IsSquare(L, n) && r < n && RowPermReport(L, n, r) == [] && IsPerm(L[r], n)
    ensures RowPermReport(L, n, r + 1) == []
  {
  }

  lemma RowPermFirst(L: Table, n: nat, r: nat)
    requires IsSquare(L, n) && r < n && RowPermReport(L, n, r) == [] && !IsPerm(L[r], n)
    ensures FirstOf(RowPermReport(L, n, n)) == Some(RowNotPerm(r))
  {
    ReportFirstAt(r, n, (r: nat) => RowPermFlag(L, n, r));
  }

  method FirstBadColumn(L: Table, n: nat) returns (found: Option<Issue>)
    requires IsSquare(L, n)
    ensures found == FirstOf(ColPermReport(L, n, n))
  {
    var i := 0;
    while i < n
      invariant i <= n
      invariant ColPermReport(L, n, i) == []
    {
      var col := Column(L, i);
      if !IsPerm(col, n) {
        ColPermFirst(L, n, i);
        return Some(ColNotPerm(i));
      }
      ColPermQuiet(L, n, i);
      i := i + 1;
    }
    return None;
  }

  lemma ColPermQuiet(L: Table, n: nat, i: nat)
    requires IsSquare(L, n) && i < n && ColPermReport(L, n, i) == [] && IsPerm(Column(L, i), n)
    ensures ColPermReport(L, n, i + 1) == []
  {
  }

  lemma ColPermFirst(L: Table, n: nat, i: nat)
    requires IsSquare(L, n) && i < n && ColPermReport(L, n, i) == [] && !IsPerm(Column(L, i), n)
    ensures FirstOf(ColPermReport(L, n, n)) == Some(ColNotPerm(i))
  {
    ReportFirstAt(i, n, (i: nat) => ColPermFlag(L, n, i));
  }

  lemma RowRepeatFirst(L: Table, n: nat, r: nat, i: nat)
    requires IsSquare(L, n) && r < n && i < n
    requires RowRepeatReport(L, n, r, i) == [] && L[r][i] in Column(L, i)[..r]
    ensures FirstOf(RowRepeatReport(L, n, r, n)) == Some(RepeatedPair(i, L[r][i]))
  {
    ReportFirstAt(i, n, (i: nat) => RepeatFlag(L, n, r, i));
  }

  /** After quiet rounds, the first repeat of round r is the first of the walk. */
  lemma RepeatFirstRow(L: Table, n: nat, r: nat)
    requires IsSquare(L, n) && r < n
    requires RepeatReport(L, n, r) == [] && RowRepeatReport(L, n, r, n) != []
    ensures FirstOf(RepeatReport(L, n, n)) == FirstOf(RowRepeatReport(L, n, r, n))
  {
    RepeatReportRounds(L, n, r);
    RepeatReportRounds(L, n, n);
    ConcatFirstAt(r, n, (r: nat) => RowRepeatReport(L, n, r, n));
  }

  lemma RowRepeatQuiet(L: Table, n: nat, r: nat, i: nat)
    requires IsSquare(L, n) && r < n && i < n
    requires RowRepeatReport(L, n, r, i) == [] && L[r][i] !in Column(L, i)[..r]
    ensures RowRepeatReport(L, n, r, i + 1) == []
  {
  }

  lemma RepeatQuiet(L: Table, n: nat, r: nat)
    requires IsSquare(L, n) && r < n
    requires RepeatReport(L, n, r) == [] && RowRepeatReport(L, n, r, n) == []
    ensures RepeatReport(L, n, r + 1) == []
  {
  }

  /** Cell (r, i) extends round r's repeats by its own, if it has one. */
  lemma RowRepeatNext(L: Table, n: nat, r: nat, i: nat)
    requires IsSquare(L, n) && r < n && i < n
    ensures RowRepeatReport(L, n, r, i + 1) == RowRepeatReport(L, n, r, i)
      + (if L[r][i] in Column(L, i)[..r] then [RepeatedPair(i, L[r][i])] else [])
  {
  }

  /** One round of the pair walk, stopping at its first repeat. */
  method FirstRowRepeat(L: Table, n: nat, r: nat, pairs: set<(int, int)>)
    returns (found: Option<Issue>, after: set<(int, int)>)
    requires IsSquare(L, n) && r < n && pairs == Seen(L, n, r, 0)
    ensures found == FirstOf(RowRepeatReport(L, n, r, n))
    ensures found.None? ==> after == Seen(L, n, r + 1, 0)
  {
    after := pairs;
    var i := 0;
    while i < n
      invariant i <= n
      invariant after == Seen(L, n, r, i)
      invariant RowRepeatReport(L, n, r, i) == []
    {
      var pair := (i, L[r][i]);
      SeenHas(L, n, r, i);
      if pair in after {
        RowRepeatFirst(L, n, r, i);
        return Some(RepeatedPair(i, L[r][i])), after;
      }
      SeenStep(L, n, r, i);
      RowRepeatQuiet(L, n, r, i);
      after := after + {pair};
      i := i + 1;
    }
    SeenNextRow(L, n, r);
    found := None;
  }

  /** The pair walk of verify_latin_square: `pairs` holds the (column, value)
      pairs of the cells visited so far, row by row. */
  method FirstRepeat(L: Table, n: nat) returns (found: Option<Issue>)
    requires IsSquare(L, n)
    ensures found == FirstOf(RepeatReport(L, n, n))
  {
    var pairs: set<(int, int)> := {};
    var r := 0;
    while r < n
      invariant r <= n
      invariant pairs == Seen(L, n, r, 0)
      invariant RepeatReport(L, n, r) == []
    {
      var hit;
      hit, pairs := FirstRowRepeat(L, n, r, pairs);
      if hit.Some? {
        RepeatFirstRow(L, n, r);
        return hit;
      }
      RepeatQuiet(L, n, r);
      r := r + 1;
    }
    return None;
  }

  /** verify_ls: the row and column checks of verify_latin_square, as a bool. */
  method VerifyLs(L: Table, n: nat) returns (ok: bool)
    requires IsSquare(L, n)
    ensures ok <==> IsLatin(L, n)
  {
    ok := RowsPermCheck(L, n);
    if ok {
      ok := ColumnsPermCheck(L, n);
    }
  }

  /** The row loop of verify_ls, stopping at the first row that is not a permutation. */
  method RowsPermCheck(L: Table, n: nat) returns (ok: bool)
    requires IsSquare(L, n)
    ensures ok <==> RowsArePerms(L, n)
  {
    var r := 0;
    while r < n
      invariant r <= n
      invariant forall r' :: 0 <= r' < r ==> IsPerm(L[r'], n)
    {
      if !IsPerm(L[r], n) {
        return false;
      }
      r := r + 1;
    }
    return true;
  }

  /** The column loop of verify_ls. */
  method ColumnsPermCheck(L: Table, n: nat) returns (ok: bool)
    requires IsSquare(L, n)
    ensures ok <==> ColumnsArePerms(L, n)
  {
    var i := 0;
    while i < n
      invariant i <= n
      invariant forall i' :: 0 <= i' < i ==> IsPerm(Column(L, i'), n)
    {
      if !IsPerm(Column(L, i), n) {
        return false;
      }
      i := i + 1;
    }
    return true;
  }
}
