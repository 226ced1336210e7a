/** The shaded columns of a view, kept as one bit per column in a byte vector, and their file format. */
module ColumnShadows {

  const SHD_MAGIC_NUMBER := 0xfedefed0

  // ---------------------------------------------------------------------------------------------------------
  // Bits

  /** The mask of bit `k` of a byte, counted from the most significant one. */
  function Mask(k: nat): bv8
    requires k < 8
  {
    match k
    case 0 => 0x80
    case 1 => 0x40
    case 2 => 0x20
    case 3 => 0x10
    case 4 => 0x08
    case 5 => 0x04
    case 6 => 0x02
    case 7 => 0x01
  }

  predicate BitAt(b: bv8, k: nat)
    requires k < 8
  {
    b & Mask(k) != 0
  }

  function SetBit(b: bv8, k: nat, v: bool): bv8
    requires k < 8
  {
    if v then b | Mask(k) else b & !Mask(k)
  }

  /** Setting a bit changes that bit only. */
  lemma SetBitAt(b: bv8, k: nat, v: bool, j: nat)
    requires k < 8 && j < 8
    ensures BitAt(SetBit(b, k, v), j) == if j == k then v else BitAt(b, j)
  {
    MaskLaws(b, Mask(k), Mask(j));
    MasksApart(k, j);
  }

  lemma MasksApart(k: nat, j: nat)
    requires k < 8 && j < 8
    ensures Mask(k) != 0 && (j != k ==> Mask(k) & Mask(j) == 0)
  {
  }

  lemma MaskLaws(b: bv8, m: bv8, n: bv8)
    ensures m & n == 0 ==> (b | m) & n == b & n && (b & !m) & n == b & n
    ensures (b | m) & m == m && (b & !m) & m == 0
  {
  }

  /** The masks and the test, as the view computes them. */
  lemma ShiftUp(k: nat)
    requires k < 8
    ensures (1 as bv8) << (7 - k) == Mask(k) && (0 as bv8) << (7 - k) == 0
  {
  }

  lemma ShiftDown(b: bv8, k: nat)
    requires k < 8
    ensures ((b >> (7 - k)) & 1 == 1) == BitAt(b, k)
  {
  }

  /** A byte with bit `k` cleared, and with `v` put into a cleared bit `k`. */
  function Cleared(b: bv8, k: nat): bv8
    requires k < 8
  {
    b & !(1 << (7 - k))
  }

  function Put(b: bv8, k: nat, v: bool): bv8
    requires k < 8
  {
    b | ((if v then 1 else 0) << (7 - k))
  }

  lemma ClearedIs(b: bv8, k: nat)
    requires k < 8
    ensures Cleared(b, k) == b & !Mask(k)
  {
    ShiftUp(k);
    hide Mask;
  }

  lemma PutIs(b: bv8, k: nat, v: bool)
    requires k < 8
    ensures Put(b, k, v) == if v then b | Mask(k) else b
  {
    ShiftUp(k);
    hide Mask;
  }

  lemma ClearThenPut(b: bv8, k: nat, v: bool)
    requires k < 8
    ensures Put(Cleared(b, k), k, v) == SetBit(b, k, v)
    ensures Put(b, k, true) == SetBit(b, k, true)
  {
    hide Mask, Cleared, Put;
    ClearedIs(b, k);
    PutIs(Cleared(b, k), k, v);
    PutIs(b, k, true);
    ClearAndSet(b, Mask(k));
  }

  lemma ClearAndSet(b: bv8, m: bv8)
    ensures (b & !m) | m == b | m && (b & !m) | 0 == b & !m
  {
  }

  /** The part of an integer that a byte takes. */
  function Cut(x: bv16): bv8 {
    (x & 0xff) as bv8
  }

  /** The same for a bit `n` places in front of the first one. */
  function ClearedBeyond(b: bv8, n: nat): bv8
    requires 0 < n < 8
  {
    b & !Cut(1 << (7 + n))
  }

  function PutBeyond(b: bv8, n: nat, v: bool): bv8
    requires 0 < n < 8
  {
    b | Cut((if v then 1 else 0) << (7 + n))
  }

  /** A bit shifted beyond the byte is cut off. */
  lemma BeyondByte(n: nat)
    requires 0 < n < 8
    ensures Cut(1 << (7 + n)) == 0 && Cut(0 << (7 + n)) == 0
  {
  }

  lemma NothingBeyond(b: bv8, n: nat, v: bool)
    requires 0 < n < 8
    ensures ClearedBeyond(b, n) == b && PutBeyond(b, n, v) == b
  {
    BeyondByte(n);
    hide Cut;
    KeepsByte(b);
  }

  lemma KeepsByte(b: bv8)
    ensures b & !0 == b && b | 0 == b
  {
  }

  lemma ZeroBits(k: nat)
    requires k < 8
    ensures !BitAt(0, k)
  {
  }

  /** The flag of column `c` in a byte vector. */
  predicate Flag(v: seq<bv8>, c: nat)
    requires c / 8 < |v|
  {
    BitAt(v[c / 8], c % 8)
  }

  lemma SamePlace(c: nat, d: nat)
    ensures c / 8 == d / 8 && c % 8 == d % 8 <==> c == d
  {
  }

  lemma FlagUpdate(v: seq<bv8>, c: nat, shade: bool)
    requires c / 8 < |v|
    ensures var w := v[c / 8 := SetBit(v[c / 8], c % 8, shade)];
            |w| == |v| && forall d: nat | d / 8 < |v| :: Flag(w, d) <==> if d == c then shade else Flag(v, d)
  {
    hide SetBit, BitAt;
    var w := v[c / 8 := SetBit(v[c / 8], c % 8, shade)];
    forall d: nat | d / 8 < |v| ensures Flag(w, d) <==> if d == c then shade else Flag(v, d) {
      SamePlace(c, d);
      SetBitAt(v[c / 8], c % 8, shade, d % 8);
    }
  }

  lemma NoFlags(v: seq<bv8>)
    requires forall i | 0 <= i < |v| :: v[i] == 0
    ensures forall d: nat | d / 8 < |v| :: !Flag(v, d)
  {
    hide BitAt;
    forall d: nat | d / 8 < |v| ensures !Flag(v, d) {
      ZeroBits(d % 8);
    }
  }

  // ---------------------------------------------------------------------------------------------------------
  // Files

  /** The members of a set below `n`, in ascending order. */
  function Listed(s: set<int>, n: nat): seq<int> {
    if n == 0 then [] else Listed(s, n - 1) + (if n - 1 in s then [n - 1] else [])
  }

  /** The file for a set of columns. */
  function Saved(s: set<int>, cols: nat): seq<int> {
    [SHD_MAGIC_NUMBER, |s|] + Listed(s, cols)
  }

  /** The `k`th number of a file; `atEnd` is what a read behind the last one gives. */
  function NumberAt(file: seq<int>, k: nat, atEnd: int): int {
    if k < |file| then file[k] else atEnd
  }

  predicate WellFormed(file: seq<int>, atEnd: int) {
    NumberAt(file, 0, atEnd) == SHD_MAGIC_NUMBER && NumberAt(file, 1, atEnd) >= 0
  }

  /** The first `n` positions that a file lists. */
  function Positions(file: seq<int>, n: nat, atEnd: int): (p: seq<int>)
    ensures |p| == n && forall i | 0 <= i < n :: p[i] == NumberAt(file, 2 + i, atEnd)
  {
    if n == 0 then [] else Positions(file, n - 1, atEnd) + [NumberAt(file, n + 1, atEnd)]
  }

  /** What a file adds to a set of columns in a view with `cols` columns. */
  function Loaded(s: set<int>, cols: nat, file: seq<int>, atEnd: int): set<int> {
    if WellFormed(file, atEnd) then s + Kept(Positions(file, NumberAt(file, 1, atEnd), atEnd), cols) else s
  }

  function Kept(positions: seq<int>, cols: nat): set<int> {
    set c | c in positions && 0 <= c < cols
  }

  lemma {:induction false} ListedMembers(s: set<int>, n: nat)
    ensures forall c :: c in Listed(s, n) <==> c in s && 0 <= c < n
    ensures forall i, j | 0 <= i < j < |Listed(s, n)| :: Listed(s, n)[i] < Listed(s, n)[j]
  {
    if n > 0 {
      ListedMembers(s, n - 1);
      var l := Listed(s, n - 1);
      forall i, j | 0 <= i < j < |Listed(s, n)| ensures Listed(s, n)[i] < Listed(s, n)[j] {
        assert l[i] in l;
      }
    }
  }

  /** The list of a set of columns has as many entries as the set. */
  lemma {:induction false} ListedLength(s: set<int>, n: nat)
    requires forall c | c in s :: 0 <= c < n
    ensures |Listed(s, n)| == |s|
  {
    if n > 0 {
      var t := s - {n - 1};
      ListedLength(t, n - 1);
      ListedSame(s, t, n - 1);
      if n - 1 in s {
        assert s == t + {n - 1};
      } else {
        assert s == t;
      }
    } else {
      assert forall c :: c !in s;
    }
  }

  lemma {:induction false} ListedSame(s: set<int>, t: set<int>, n: nat)
    requires forall c | 0 <= c < n :: c in s <==> c in t
    ensures Listed(s, n) == Listed(t, n)
  {
    if n > 0 {
      ListedSame(s, t, n - 1);
    }
  }

  /** Loading what was saved adds exactly the saved columns that the view has, and reads exactly the whole file. */
  lemma SaveThenLoad(s: set<int>, cols: nat, t: set<int>, width: nat, atEnd: int)
    requires forall c | c in s :: 0 <= c < cols
    ensures var file := Saved(s, cols);
            && WellFormed(file, atEnd) && 2 + NumberAt(file, 1, atEnd) == |file|
            && Loaded(t, width, file, atEnd) == t + (set c | c in s && c < width)
  {
    ListedLength(s, cols);
    ListedMembers(s, cols);
    assert Positions(Saved(s, cols), |s|, atEnd) == Listed(s, cols);
  }

  /** The round trip: into a cleared view of the same width. */
  lemma RoundTrip(s: set<int>, cols: nat, atEnd: int)
    requires forall c | c in s :: 0 <= c < cols
    ensures WellFormed(Saved(s, cols), atEnd) && Loaded({}, cols, Saved(s, cols), atEnd) == s
  {
    SaveThenLoad(s, cols, {}, cols, atEnd);
  }

  // ---------------------------------------------------------------------------------------------------------
  // The shadows of a view

  class Shadows {
    var cols: nat
    var shadeFlagVector: array<bv8>

    /** The vector has a place for every column, and nothing is set beyond the last one. */
    ghost predicate Valid()
      reads this, shadeFlagVector
    {
      && shadeFlagVector.Length == cols + 1
      && forall c: nat | cols <= c && c / 8 < cols + 1 :: !Flag(shadeFlagVector[..], c)
    }

    /** The set of shaded columns. */
    ghost function Shaded(): (s: set<int>)
      reads this, shadeFlagVector
      requires Valid()
    {
      Columns(shadeFlagVector[..], cols)
    }

    constructor (numColumns: nat)
      ensures Valid() && fresh(shadeFlagVector) && cols == numColumns && Shaded() == {}
    {
      hide BitAt;
      cols := numColumns;
      shadeFlagVector := new bv8[numColumns + 1](_ => 0);
      new;
      NoFlags(shadeFlagVector[..]);
    }

    method GetShadeFlag(pos: nat) returns (shade: bool)
      requires Valid() && pos < cols
      ensures shade == (pos in Shaded())
    {
      ShiftDown(shadeFlagVector[pos / 8], pos % 8);
      shade := (shadeFlagVector[pos / 8] >> (7 - pos % 8)) & 1 == 1;
    }

    /** Shades or unshades one column; a column that the view does not have is ignored. From -8 on, a negative column would
        be looked up in front of the vector; the seven others shift the bit out of the first byte. */
    method ShadeColumn(col: int, shade: bool)
      requires Valid() && col > -8
      modifies shadeFlagVector
      ensures Valid()
      ensures Shaded() == if !(0 <= col < cols) then old(Shaded())
                          else if shade then old(Shaded()) + {col} else old(Shaded()) - {col}
    {
      hide BitAt, SetBit;
      if col >= cols {
        return;
      }
      if col < 0 {
        SetBeyond(shadeFlagVector, -col, shade);
        return;
      }
      ghost var before := shadeFlagVector[..];
      FlagUpdate(before, col, shade);
      SetFlag(shadeFlagVector, col, shade);
    }

    /** Changes the number of columns; the columns that remain keep their shade, and new ones are not shaded. */
    method Resize(newsize: nat)
      requires Valid()
      modifies this
      ensures Valid() && cols == newsize && fresh(shadeFlagVector)
      ensures Shaded() == set c | c in old(Shaded()) && c < newsize
    {
      hide BitAt, SetBit;
      var tmpVector := new bv8[newsize + 1](_ => 0);
      NoFlags(tmpVector[..]);
      var cmin := if cols < newsize then cols else newsize;
      var i := 0;
      while i < cmin
        invariant i <= cmin && Valid() && cols == old(cols) && shadeFlagVector == old(shadeFlagVector)
        invariant forall c: nat | c / 8 < newsize + 1 :: Flag(tmpVector[..], c) <==> c < i && c in Shaded()
      {
        var shade := GetShadeFlag(i);
        if shade {
          FlagUpdate(tmpVector[..], i, true);
          AddFlag(tmpVector, i);
        }
        i := i + 1;
      }
      shadeFlagVector := tmpVector;
      cols := newsize;
    }

    method Clear()
      requires Valid()
      modifies shadeFlagVector
      ensures Valid() && Shaded() == {}
    {
      hide BitAt;
      ghost var before := shadeFlagVector[..];
      var i := 0;
      while i < cols
        invariant i <= cols
        invariant forall k | 0 <= k < shadeFlagVector.Length :: shadeFlagVector[k] == if k < i then 0 else before[k]
      {
        shadeFlagVector[i] := 0;
        i := i + 1;
      }
      forall c: nat | c / 8 < cols + 1 ensures !Flag(shadeFlagVector[..], c) {
        ZeroBits(c % 8);
        assert c / 8 == cols ==> cols <= c && !Flag(before, c);
      }
    }

    method CountShadowedColumns() returns (acc: nat)
      requires Valid()
      ensures acc == |Shaded()|
    {
      hide Flag;
      acc := 0;
      var i := 0;
      NoneBelow(Shaded());
      while i < cols
        invariant i <= cols && acc == |Below(Shaded(), i)|
      {
        var shade := GetShadeFlag(i);
        BelowNext(Shaded(), i);
        if shade {
          acc := acc + 1;
        }
        i := i + 1;
      }
      assert Below(Shaded(), cols) == Shaded();
    }

    method SaveShadows() returns (file: seq<int>)
      requires Valid()
      ensures file == Saved(Shaded(), cols)
    {
      hide Flag;
      var cnt := CountShadowedColumns();
      file := [SHD_MAGIC_NUMBER] + [cnt];
      var i := 0;
      while i < cols
        invariant i <= cols && file == [SHD_MAGIC_NUMBER, |Shaded()|] + Listed(Shaded(), i)
      {
        var shade := GetShadeFlag(i);
        if shade {
          file := file + [i];
        }
        i := i + 1;
      }
    }

    /** Reads a file and shades the columns that it lists; another format is refused. */
    method LoadShadows(file: seq<int>, atEnd: int) returns (ok: bool)
      requires Valid()
      requires WellFormed(file, atEnd) ==> forall i | 2 <= i < 2 + NumberAt(file, 1, atEnd) :: NumberAt(file, i, atEnd) > -8
      modifies shadeFlagVector
      ensures Valid() && ok == WellFormed(file, atEnd) && Shaded() == Loaded(old(Shaded()), cols, file, atEnd)
    {
      var mgc, cnt := NumberAt(file, 0, atEnd), NumberAt(file, 1, atEnd);
      if mgc != SHD_MAGIC_NUMBER || cnt < 0 {
        return false;
      }
      ghost var before := Shaded();
      var i := 0;
      while i < cnt
        invariant 0 <= i <= cnt && Valid()
        invariant Shaded() == before + Kept(Positions(file, i, atEnd), cols)
      {
        var pos := NumberAt(file, 2 + i, atEnd);
        assert Positions(file, i + 1, atEnd) == Positions(file, i, atEnd) + [pos];
        ShadeColumn(pos, true);
        i := i + 1;
      }
      ok := true;
    }
  }

  ghost function Below(s: set<int>, n: int): set<int> {
    set c | c in s && c < n
  }

  lemma NoneBelow(s: set<int>)
    requires forall c | c in s :: 0 <= c
    ensures Below(s, 0) == {}
  {
  }

  lemma BelowNext(s: set<int>, n: int)
    ensures |Below(s, n + 1)| == |Below(s, n)| + if n in s then 1 else 0
  {
    assert Below(s, n + 1) == if n in s then Below(s, n) + {n} else Below(s, n);
  }

  /** The columns below `cols` whose flag is set. */
  ghost function Columns(v: seq<bv8>, cols: nat): set<int>
    requires cols <= |v|
  {
    set c: int | 0 <= c < cols && Flag(v, c)
  }

  /** Clears the bit of a column and puts the new one in its place. */
  method SetFlag(v: array<bv8>, col: nat, shade: bool)
    requires col / 8 < v.Length
    modifies v
    ensures v[..] == old(v[..])[col / 8 := SetBit(old(v[col / 8]), col % 8, shade)]
  {
    hide *;
    ClearThenPut(v[col / 8], col % 8, shade);
    v[col / 8] := Cleared(v[col / 8], col % 8);
    v[col / 8] := Put(v[col / 8], col % 8, shade);
  }

  /** Does the same for a negative column: `n` places in front of the first bit. */
  method SetBeyond(v: array<bv8>, n: nat, shade: bool)
    requires 0 < n < 8 && v.Length > 0
    modifies v
    ensures v[..] == old(v[..])
  {
    hide *;
    NothingBeyond(v[0], n, shade);
    v[0] := ClearedBeyond(v[0], n);
    v[0] := PutBeyond(v[0], n, shade);
  }

  method AddFlag(v: array<bv8>, i: nat)
    requires i / 8 < v.Length
    modifies v
    ensures v[..] == old(v[..])[i / 8 := SetBit(old(v[i / 8]), i % 8, true)]
  {
    hide *;
    ClearThenPut(v[i / 8], i % 8, true);
    v[i / 8] := Put(v[i / 8], i % 8, true);
  }
}
