/** Strip charts: data sampled at the greatest common divisor of all requested periods, and written as records of one
    length behind counters that are kept up to date at the start of the file. */
module StripChart {
  import opened Arithmetic

  type byte = b: int | 0 <= b < 256

  const U64_LIMIT := 0x1_0000_0000_0000_0000

  type u64 = x: int | 0 <= x < U64_LIMIT

  const MAX_STRIP_CHART := 4000
  const SPACE: byte := 32
  const UNDERSCORE: byte := 95
  const CPU: seq<byte> := [32, 99, 112, 117, 32]  // " cpu "

  // ---------------------------------------------------------------------------------------------------------
  // The sampling period

  /** The general period after registering charts with the given periods. */
  function General(frequencies: seq<nat>): nat
    requires frequencies != []
  {
    var n := |frequencies| - 1;
    if n == 0 then frequencies[0] else Gcd(General(frequencies[..n]), frequencies[n])
  }

  lemma {:induction false} GeneralDivisors(frequencies: seq<nat>, p: nat)
    requires frequencies != [] && p > 0
    ensures General(frequencies) > 0 <==> exists i :: 0 <= i < |frequencies| && frequencies[i] > 0
    ensures Divides(p, General(frequencies)) <==> forall i | 0 <= i < |frequencies| :: Divides(p, frequencies[i])
  {
    var n := |frequencies| - 1;
    if n > 0 {
      var front := frequencies[..n];
      assert forall i | 0 <= i < n :: front[i] == frequencies[i];
      GeneralDivisors(front, p);
      var a, b := General(front), frequencies[n];
      if a > 0 || b > 0 {
        hide Divides;
        GcdDivisors(a, b, p);
      }
    }
  }

  /** Sampling with period `p` sees every cycle that is a multiple of a requested period. */
  ghost predicate Sees(p: nat, frequencies: seq<nat>) {
    forall i, cycle: nat | 0 <= i < |frequencies| && Divides(frequencies[i], cycle) :: Divides(p, cycle)
  }

  /** Exactly the divisors of the general period see every requested cycle, so no longer period does. A period of zero
      requests no cycle. */
  lemma SeesIff(p: nat, frequencies: seq<nat>)
    requires frequencies != [] && General(frequencies) > 0
    ensures Sees(p, frequencies) <==> Divides(p, General(frequencies))
    ensures Sees(p, frequencies) ==> p <= General(frequencies)
  {
    hide General;
    GeneralDivisors(frequencies, if p > 0 then p else 1);
    if Sees(p, frequencies) {
      forall i | 0 <= i < |frequencies| && frequencies[i] > 0 ensures Divides(p, frequencies[i]) {
        assert Divides(frequencies[i], frequencies[i]);
      }
      DividesBound(p, General(frequencies));
    }
    if Divides(p, General(frequencies)) {
      forall i, cycle: nat | 0 <= i < |frequencies| && Divides(frequencies[i], cycle) ensures Divides(p, cycle) {
        DividesTransitive(p, frequencies[i], cycle);
      }
    }
  }

  // ---------------------------------------------------------------------------------------------------------
  // Bytes

  /** The `n` lowest bytes of a number, lowest first. */
  function Little(x: nat, n: nat): (s: seq<byte>)
    ensures |s| == n
  {
    if n == 0 then [] else [x % 256] + Little(x / 256, n - 1)
  }

  function FromLittle(s: seq<byte>): nat {
    if s == [] then 0 else s[0] + 256 * FromLittle(s[1..])
  }

  function Bound(n: nat): nat {
    if n == 0 then 1 else 256 * Bound(n - 1)
  }

  lemma {:induction false} LittleRoundTrip(x: nat, n: nat)
    requires x < Bound(n)
    ensures FromLittle(Little(x, n)) == x
  {
    if n > 0 {
      LittleRoundTrip(x / 256, n - 1);
      assert Little(x, n)[1..] == Little(x / 256, n - 1);
    }
  }

  function Word(x: nat): (s: seq<byte>)
    ensures |s| == 8
  {
    Little(x, 8)
  }

  lemma WordRoundTrip(x: nat)
    requires x < U64_LIMIT
    ensures FromLittle(Word(x)) == x
  {
    assert Bound(8) == U64_LIMIT by {
      assert Bound(4) == 0x1_0000_0000;
      assert Bound(8) == 256 * (256 * (256 * (256 * Bound(4))));
    }
    LittleRoundTrip(x, 8);
  }

  function Words(xs: seq<nat>): seq<byte> {
    if xs == [] then [] else Words(xs[..|xs| - 1]) + Word(xs[|xs| - 1])
  }

  lemma {:induction false} WordsLength(xs: seq<nat>)
    ensures |Words(xs)| == 8 * |xs|
  {
    hide Word;
    if xs != [] {
      WordsLength(xs[..|xs| - 1]);
    }
  }

  lemma {:induction false} WordsAppend(xs: seq<nat>, ys: seq<nat>)
    ensures Words(xs + ys) == Words(xs) + Words(ys)
  {
    hide Word;
    if ys == [] {
      assert xs + ys == xs;
    } else {
      var n := |ys| - 1;
      WordsAppend(xs, ys[..n]);
      assert (xs + ys)[..|xs + ys| - 1] == xs + ys[..n];
      var a, b, c := Words(xs), Words(ys[..n]), Word(ys[n]);
      assert a + b + c == a + (b + c);
    }
  }

  /** The numbers stored in a sequence of bytes. */
  function FromWords(s: seq<byte>): seq<nat> {
    if |s| < 8 then [] else FromWords(s[..|s| - 8]) + [FromLittle(s[|s| - 8..])]
  }

  lemma {:induction false} WordsRoundTrip(xs: seq<nat>)
    requires forall i | 0 <= i < |xs| :: xs[i] < U64_LIMIT
    ensures FromWords(Words(xs)) == xs
  {
    hide Word, FromLittle;
    if xs != [] {
      var n := |xs| - 1;
      WordsRoundTrip(xs[..n]);
      WordRoundTrip(xs[n]);
      LastWord(Words(xs[..n]), Word(xs[n]));
      assert xs == xs[..n] + [xs[n]];
    }
  }

  lemma LastWord(a: seq<byte>, w: seq<byte>)
    requires |w| == 8
    ensures FromWords(a + w) == FromWords(a) + [FromLittle(w)]
  {
    hide FromLittle;
    var s := a + w;
    assert s[..|s| - 8] == a && s[|s| - 8..] == w;
  }

  function Spaces(n: nat): (s: seq<byte>)
    ensures |s| == n
    ensures forall i | 0 <= i < n :: s[i] == SPACE
  {
    if n == 0 then [] else Spaces(n - 1) + [SPACE]
  }

  /** A description as it is stored: without spaces, so that it can be told from its padding. */
  function Underscored(s: seq<byte>): (r: seq<byte>)
    ensures |r| == |s|
  {
    if s == [] then [] else Underscored(s[..|s| - 1]) + [if s[|s| - 1] == SPACE then UNDERSCORE else s[|s| - 1]]
  }

  /** A number in decimal. */
  function Decimal(n: nat): (s: seq<byte>)
    ensures |s| > 0
  {
    if n < 10 then [48 + n] else Decimal(n / 10) + [48 + n % 10]
  }

  /** A number in a field of three places, or as many as it needs. */
  function Field(n: nat): seq<byte> {
    Spaces(if |Decimal(n)| < 3 then 3 - |Decimal(n)| else 0) + Decimal(n)
  }

  /** A chart's description, with the number of the processor if there is one. */
  function Described(description: seq<byte>, cpunum: nat): seq<byte> {
    if cpunum == UINT32_MAX then description else description + CPU + Field(cpunum)
  }

  /** The number that a stored field shows. */
  function Shown(s: seq<byte>): nat {
    if s == [] then 0
    else if s[|s| - 1] < 48 || s[|s| - 1] == UNDERSCORE then Shown(s[..|s| - 1])
    else 10 * Shown(s[..|s| - 1]) + (s[|s| - 1] - 48)
  }

  /** Charts of different processors have different names. */
  lemma NamesApart(description: seq<byte>, a: nat, b: nat)
    requires a != b && a != UINT32_MAX && b != UINT32_MAX
    ensures Underscored(Described(description, a)) != Underscored(Described(description, b))
  {
    FieldShown(a);
    FieldShown(b);
    UnderscoredSplit(description + CPU, Field(a));
    UnderscoredSplit(description + CPU, Field(b));
    hide Underscored, Shown, Field;
    Behind(Underscored(description + CPU), Underscored(Field(a)));
    Behind(Underscored(description + CPU), Underscored(Field(b)));
  }

  lemma Behind(a: seq<byte>, b: seq<byte>)
    ensures (a + b)[|a|..] == b
  {
  }

  lemma FieldShown(n: nat)
    ensures Shown(Underscored(Field(n))) == n
  {
    var k := if |Decimal(n)| < 3 then 3 - |Decimal(n)| else 0;
    UnderscoredSplit(Spaces(k), Decimal(n));
    DigitsStay(n);
    NothingShown(k);
    DecimalShown(Underscored(Spaces(k)), n);
  }

  lemma {:induction false} DigitsStay(n: nat)
    ensures Underscored(Decimal(n)) == Decimal(n)
  {
    if n >= 10 {
      DigitsStay(n / 10);
      assert Decimal(n)[..|Decimal(n)| - 1] == Decimal(n / 10);
    } else {
      assert [48 + n][..0] == [];
    }
  }

  lemma {:induction false} NothingShown(k: nat)
    ensures Shown(Underscored(Spaces(k))) == 0
  {
    if k > 0 {
      NothingShown(k - 1);
      assert Spaces(k)[..k - 1] == Spaces(k - 1);
      var u := Underscored(Spaces(k));
      assert u[..k - 1] == Underscored(Spaces(k - 1));
    }
  }

  lemma {:induction false} DecimalShown(s: seq<byte>, n: nat)
    requires Shown(s) == 0
    ensures Shown(s + Decimal(n)) == n
  {
    var r := s + Decimal(n);
    if n < 10 {
      assert r[..|r| - 1] == s;
    } else {
      DecimalShown(s, n / 10);
      assert r[..|r| - 1] == s + Decimal(n / 10);
    }
  }

  lemma {:induction false} UnderscoredSplit(a: seq<byte>, b: seq<byte>)
    ensures Underscored(a + b) == Underscored(a) + Underscored(b)
  {
    if b == [] {
      assert a + b == a;
    } else {
      UnderscoredSplit(a, b[..|b| - 1]);
      assert (a + b)[..|a + b| - 1] == a + b[..|b| - 1];
    }
  }

  function UpToSpace(s: seq<byte>): seq<byte> {
    if s == [] || s[0] == SPACE then [] else [s[0]] + UpToSpace(s[1..])
  }

  /** Reading a padded description up to the first space gives it back. */
  lemma FieldReadsBack(s: seq<byte>, n: nat)
    ensures UpToSpace(Underscored(s) + Spaces(n)) == Underscored(s)
  {
    NoSpaces(s);
    CutAtSpace(Underscored(s), n);
  }

  lemma {:induction false} NoSpaces(s: seq<byte>)
    ensures SPACE !in Underscored(s)
  {
    if s != [] {
      NoSpaces(s[..|s| - 1]);
    }
  }

  lemma {:induction false} CutAtSpace(s: seq<byte>, n: nat)
    requires SPACE !in s
    ensures UpToSpace(s + Spaces(n)) == s
  {
    if s == [] {
      assert s + Spaces(n) == Spaces(n);
    } else {
      CutAtSpace(s[1..], n);
      assert (s + Spaces(n))[1..] == s[1..] + Spaces(n);
    }
  }

  // ---------------------------------------------------------------------------------------------------------
  // Padding: the number of spaces is an unsigned 64-bit difference, and they are counted in 32 bits

  const U32_LIMIT := 0x1_0000_0000

  function Padding(space: nat, length: nat): nat {
    (space - length) % U64_LIMIT
  }

  /** The loop's counter after `n` rounds. */
  function CounterAfter(n: nat): nat {
    if n == 0 then 0 else (CounterAfter(n - 1) + 1) % U32_LIMIT
  }

  ghost predicate EndsAfter(space: nat, length: nat, n: nat) {
    && CounterAfter(n) >= Padding(space, length)
    && forall k | 0 <= k < n :: CounterAfter(k) < Padding(space, length)
  }

  ghost predicate Ends(space: nat, length: nat) {
    exists n: nat :: EndsAfter(space, length, n)
  }

  lemma {:induction false} CounterIs(n: nat)
    ensures CounterAfter(n) == n % U32_LIMIT
  {
    if n > 0 {
      CounterIs(n - 1);
    }
  }

  /** If the loop ends, it has written exactly the spaces of the difference. */
  lemma RoundsArePadding(space: nat, length: nat, n: nat)
    ensures EndsAfter(space, length, n) <==> n == Padding(space, length) < U32_LIMIT
  {
    var p := Padding(space, length);
    CounterIs(n);
    forall k: nat | k < n ensures CounterAfter(k) == k % U32_LIMIT {
      CounterIs(k);
    }
    if p < U32_LIMIT {
      CounterIs(p);
    }
  }

  /** The loop ends exactly if the text fits and fewer than 2^32 spaces are missing; a longer text makes it end only if
      the difference wraps around to a small number. */
  lemma PaddingEndsIff(space: nat, length: nat)
    requires space < U64_LIMIT && length < U64_LIMIT
    ensures Ends(space, length) <==>
            if length <= space then space - length < U32_LIMIT else length - space > U64_LIMIT - U32_LIMIT
  {
    var p := Padding(space, length);
    assert p == if length <= space then space - length else space - length + U64_LIMIT;
    RoundsArePadding(space, length, p);
    forall n: nat | EndsAfter(space, length, n) ensures p < U32_LIMIT {
      RoundsArePadding(space, length, n);
    }
  }

  /** A text of 17 bytes where there is room for 16: the loop never ends. */
  lemma LongTextNeverEnds()
    ensures !Ends(16, 17)
  {
    PaddingEndsIff(16, 17);
  }

  // ---------------------------------------------------------------------------------------------------------
  // Records

  datatype Record = Data(cycle: nat, values: seq<nat>) | Marker(text: seq<byte>)

  /** A data record has one value for each strip; a marker's text has to fit in place of the cycle and the values. */
  predicate Fits(r: Record, strips: nat) {
    match r
    case Data(cycle, values) => cycle < U64_LIMIT && |values| == strips && forall i | 0 <= i < strips :: values[i] < U64_LIMIT
    case Marker(text) => |text| <= 8 + 8 * strips
  }

  function RecordLength(strips: nat): nat {
    16 + 8 * strips
  }

  function Encode(r: Record, strips: nat): seq<byte>
    requires Fits(r, strips)
  {
    match r
    case Data(cycle, values) => Word(0) + Word(cycle) + Words(values)
    case Marker(text) => Word(1) + text + Spaces(8 + 8 * strips - |text|)
  }

  /** A record as a reader sees it: a marker's text comes with its padding. */
  function Decode(s: seq<byte>): Record
    requires |s| >= 16
  {
    if FromLittle(s[..8]) == 0 then Data(FromLittle(s[8..16]), FromWords(s[16..])) else Marker(s[8..])
  }

  function Padded(r: Record, strips: nat): Record
    requires Fits(r, strips)
  {
    if r.Data? then r else Marker(r.text + Spaces(8 + 8 * strips - |r.text|))
  }

  /** All records have the same length. */
  lemma EncodeLength(r: Record, strips: nat)
    requires Fits(r, strips)
    ensures |Encode(r, strips)| == RecordLength(strips)
  {
    hide Word, Spaces, Words;
    if r.Data? {
      WordsLength(r.values);
    }
  }

  lemma EncodeRoundTrip(r: Record, strips: nat)
    requires Fits(r, strips)
    ensures |Encode(r, strips)| == RecordLength(strips) && Decode(Encode(r, strips)) == Padded(r, strips)
    ensures FromLittle(Encode(r, strips)[..8]) == if r.Data? then 0 else 1
    ensures r.Data? ==> FromLittle(Encode(r, strips)[8..16]) == r.cycle
    ensures r.Marker? ==> r.text <= Encode(r, strips)[8..]
  {
    hide Word, Spaces, Words, FromLittle, FromWords;
    EncodeLength(r, strips);
    var s := Encode(r, strips);
    WordRoundTrip(0);
    WordRoundTrip(1);
    match r {
      case Data(cycle, values) =>
        assert s[..8] == Word(0) && s[8..16] == Word(cycle) && s[16..] == Words(values);
        WordRoundTrip(cycle);
        WordsRoundTrip(values);
      case Marker(text) =>
        assert s[..8] == Word(1) && s[8..] == text + Spaces(8 + 8 * strips - |text|);
    }
  }

  ghost predicate AllFit(rs: seq<Record>, strips: nat) {
    forall i | 0 <= i < |rs| :: Fits(rs[i], strips)
  }

  function EncodeAll(rs: seq<Record>, strips: nat): seq<byte>
    requires forall i | 0 <= i < |rs| :: Fits(rs[i], strips)
  {
    if rs == [] then [] else EncodeAll(rs[..|rs| - 1], strips) + Encode(rs[|rs| - 1], strips)
  }

  lemma {:induction false} EncodeAllLength(rs: seq<Record>, strips: nat)
    requires AllFit(rs, strips)
    ensures |EncodeAll(rs, strips)| == |rs| * RecordLength(strips)
  {
    hide Encode, Fits;
    if rs != [] {
      EncodeAllLength(rs[..|rs| - 1], strips);
      EncodeLength(rs[|rs| - 1], strips);
      assert (|rs| - 1) * RecordLength(strips) + RecordLength(strips) == |rs| * RecordLength(strips);
    }
  }

  /** The bytes of record `i`, and what they mean. */
  function Slice(s: seq<byte>, i: nat, length: nat): seq<byte> {
    if i * length + length <= |s| then s[i * length..i * length + length] else []
  }

  /** Cutting the records out by their common length gives back every record. */
  lemma {:induction false} RecordAt(rs: seq<Record>, strips: nat, i: nat)
    requires AllFit(rs, strips) && i < |rs|
    ensures Slice(EncodeAll(rs, strips), i, RecordLength(strips)) == Encode(rs[i], strips)
  {
    hide Encode, Fits, Slice;
    var n, l := |rs| - 1, RecordLength(strips);
    EncodeAllLength(rs[..n], strips);
    EncodeLength(rs[n], strips);
    SliceAppend(EncodeAll(rs[..n], strips), Encode(rs[n], strips), i, n, l);
    if i < n {
      RecordAt(rs[..n], strips, i);
    }
  }

  lemma SliceAppend(a: seq<byte>, b: seq<byte>, i: nat, n: nat, l: nat)
    requires i <= n && |a| == n * l && |b| == l
    ensures i < n ==> Slice(a + b, i, l) == Slice(a, i, l)
    ensures Slice(a + b, n, l) == b
  {
    if i < n {
      MulStep(i, n, l);
      assert (a + b)[i * l..i * l + l] == a[i * l..i * l + l];
    }
    assert (a + b)[n * l..n * l + l] == b;
  }

  // ---------------------------------------------------------------------------------------------------------
  // The charts

  class StripNode {
    const description: seq<byte>
    const frequency: nat
    const data: array<u64>
    const TPU: nat

    constructor (description: seq<byte>, frequency: nat, data: array<u64>, threads: nat)
      ensures this.description == description && this.frequency == frequency && this.data == data && TPU == threads
    {
      this.description, this.frequency, this.data, this.TPU := description, frequency, data, threads;
    }
  }

  function Periods(table: seq<StripNode>): (f: seq<nat>)
    ensures |f| == |table| && forall i | 0 <= i < |table| :: f[i] == table[i].frequency
  {
    if table == [] then [] else Periods(table[..|table| - 1]) + [table[|table| - 1].frequency]
  }

  function Threads(table: seq<StripNode>): nat {
    if table == [] then 0 else Threads(table[..|table| - 1]) + table[|table| - 1].TPU
  }

  /** Whether element `j` of an array has been reset after the first `n` charts: charts may share an array. */
  ghost predicate Taken(table: seq<StripNode>, n: nat, data: array<u64>, j: nat)
    requires n <= |table|
  {
    exists m :: 0 <= m < n && table[m].data == data && j < table[m].TPU
  }

  /** The values that a chart shows: an element that an earlier chart has taken is zero. */
  ghost function Row(table: seq<StripNode>, i: nat): (row: seq<nat>)
    requires i < |table| && table[i].TPU <= table[i].data.Length
    reads table[i].data
    ensures |row| == table[i].TPU
    ensures forall j | 0 <= j < |row| :: row[j] == if Taken(table, i, table[i].data, j) then 0 else table[i].data[j]
  {
    RowUpTo(table, i, table[i].TPU)
  }

  ghost function RowUpTo(table: seq<StripNode>, i: nat, k: nat): (row: seq<nat>)
    requires i < |table| && k <= table[i].TPU <= table[i].data.Length
    reads table[i].data
    ensures |row| == k
    ensures forall j | 0 <= j < k :: row[j] == if Taken(table, i, table[i].data, j) then 0 else table[i].data[j]
  {
    if k == 0 then [] else
      RowUpTo(table, i, k - 1) + [if Taken(table, i, table[i].data, k - 1) then 0 else table[i].data[k - 1]]
  }

  /** The values of all charts, in the order of registration. */
  ghost function Rows(table: seq<StripNode>): (rows: seq<seq<nat>>)
    requires forall i | 0 <= i < |table| :: table[i].TPU <= table[i].data.Length
    reads set i | 0 <= i < |table| :: table[i].data
    ensures |rows| == |table| && forall i | 0 <= i < |table| :: rows[i] == Row(table, i)
  {
    RowsUpTo(table, |table|)
  }

  ghost function RowsUpTo(table: seq<StripNode>, n: nat): (rows: seq<seq<nat>>)
    requires n <= |table| && forall i | 0 <= i < |table| :: table[i].TPU <= table[i].data.Length
    reads set i | 0 <= i < |table| :: table[i].data
    ensures |rows| == n && forall i | 0 <= i < n :: rows[i] == Row(table, i)
  {
    if n == 0 then [] else RowsUpTo(table, n - 1) + [Row(table, n - 1)]
  }

  function Flat(rows: seq<seq<nat>>): seq<nat> {
    if rows == [] then [] else Flat(rows[..|rows| - 1]) + rows[|rows| - 1]
  }

  lemma FlatNext(rows: seq<seq<nat>>, k: nat)
    requires k < |rows|
    ensures Flat(rows[..k + 1]) == Flat(rows[..k]) + rows[k]
  {
    assert rows[..k + 1][..k] == rows[..k];
  }

  lemma {:induction false} FlatFits(table: seq<StripNode>, rows: seq<seq<nat>>)
    requires |rows| == |table| && forall i | 0 <= i < |rows| :: |rows[i]| == table[i].TPU
    requires forall i, j | 0 <= i < |rows| && 0 <= j < |rows[i]| :: rows[i][j] < U64_LIMIT
    ensures |Flat(rows)| == Threads(table) && forall i | 0 <= i < |Flat(rows)| :: Flat(rows)[i] < U64_LIMIT
  {
    if rows != [] {
      var n := |rows| - 1;
      FlatFits(table[..n], rows[..n]);
    }
  }

  function Markers(rs: seq<Record>): nat {
    if rs == [] then 0 else Markers(rs[..|rs| - 1]) + if rs[|rs| - 1].Marker? then 1 else 0
  }

  const VERSION := 11
  const DESCRIPTION_SPACE := 100

  /** No string is as long as this. */
  const MAX_STRING := 0x8000_0000_0000_0000

  /** The counters at the start of the file. */
  function Counters(lines: nat, strips: nat, blocks: nat, markers: nat): (s: seq<byte>)
    ensures |s| == 48
  {
    Word(VERSION) + Word(lines) + Word(strips) + Word(blocks) + Word(markers) + Word(strips * 8)
  }

  /** The description of one chart. */
  function Header(position: nat, description: seq<byte>, threads: nat, frequency: nat, general: nat, maxElems: nat): seq<byte>
    requires |description| <= DESCRIPTION_SPACE
  {
    Word(position) + description + Spaces(DESCRIPTION_SPACE - |description|)
      + Word(threads) + Word(frequency) + Word(general) + Word(maxElems)
  }

  /** What a reader finds in the counters. */
  lemma CountersLayout(lines: nat, strips: nat, blocks: nat, markers: nat)
    requires lines < U64_LIMIT && 8 * strips < U64_LIMIT && blocks < U64_LIMIT && markers < U64_LIMIT
    ensures var s := Counters(lines, strips, blocks, markers);
            && FromLittle(s[..8]) == VERSION && FromLittle(s[8..16]) == lines && FromLittle(s[16..24]) == strips
            && FromLittle(s[24..32]) == blocks && FromLittle(s[32..40]) == markers && FromLittle(s[40..]) == 8 * strips
  {
    hide Word, FromLittle;
    WordRoundTrip(VERSION);
    WordRoundTrip(lines);
    WordRoundTrip(strips);
    WordRoundTrip(blocks);
    WordRoundTrip(markers);
    WordRoundTrip(strips * 8);
    var s := Counters(lines, strips, blocks, markers);
    assert s[..8] == Word(VERSION) && s[8..16] == Word(lines) && s[16..24] == Word(strips);
    assert s[24..32] == Word(blocks) && s[32..40] == Word(markers) && s[40..] == Word(strips * 8);
  }

  /** What a reader finds in the description of a chart. */
  lemma HeaderLayout(position: nat, s: seq<byte>, threads: nat, frequency: nat, general: nat, maxElems: nat)
    requires |s| <= DESCRIPTION_SPACE && position < U64_LIMIT && threads < U64_LIMIT
    requires frequency < U64_LIMIT && general < U64_LIMIT && maxElems < U64_LIMIT
    ensures var h := Header(position, Underscored(s), threads, frequency, general, maxElems);
            && |h| == 140 && FromLittle(h[..8]) == position && UpToSpace(h[8..108]) == Underscored(s)
            && FromLittle(h[108..116]) == threads && FromLittle(h[116..124]) == frequency
            && FromLittle(h[124..132]) == general && FromLittle(h[132..]) == maxElems
  {
    hide Word, FromLittle, Underscored, Spaces, UpToSpace;
    WordRoundTrip(position);
    WordRoundTrip(threads);
    WordRoundTrip(frequency);
    WordRoundTrip(general);
    WordRoundTrip(maxElems);
    FieldReadsBack(s, DESCRIPTION_SPACE - |s|);
    var h := Header(position, Underscored(s), threads, frequency, general, maxElems);
    assert h[..8] == Word(position) && h[8..108] == Underscored(s) + Spaces(DESCRIPTION_SPACE - |s|);
    assert h[108..116] == Word(threads) && h[116..124] == Word(frequency);
    assert h[124..132] == Word(general) && h[132..] == Word(maxElems);
  }

  lemma {:induction false} WordAt(xs: seq<nat>, k: nat)
    requires k < |xs|
    ensures 8 * k + 8 <= |Words(xs)| && Words(xs)[8 * k..8 * k + 8] == Word(xs[k])
  {
    hide Word;
    var n := |xs| - 1;
    WordsLength(xs[..n]);
    if k < n {
      WordAt(xs[..n], k);
      assert Words(xs)[8 * k..8 * k + 8] == Words(xs[..n])[8 * k..8 * k + 8];
    }
  }

  lemma {:induction false} FlatAt(rows: seq<seq<nat>>, i: nat, j: nat)
    requires i < |rows| && j < |rows[i]|
    ensures |Flat(rows[..i])| + j < |Flat(rows)| && Flat(rows)[|Flat(rows[..i])| + j] == rows[i][j]
  {
    var n := |rows| - 1;
    if i < n {
      FlatAt(rows[..n], i, j);
      assert rows[..n][..i] == rows[..i];
    }
  }

  /** Word number `2 + p` of a data record is value number `p`. */
  lemma RecordWord(cycle: nat, values: seq<nat>, p: nat)
    requires Fits(Data(cycle, values), |values|) && p < |values|
    ensures var s := Encode(Data(cycle, values), |values|);
            8 * (2 + p) + 8 <= |s| && FromLittle(s[8 * (2 + p)..8 * (2 + p) + 8]) == values[p]
  {
    hide Word, Words, FromLittle;
    var s := Encode(Data(cycle, values), |values|);
    WordAt(values, p);
    WordRoundTrip(values[p]);
    assert s == Word(0) + Word(cycle) + Words(values);
    assert s[16..] == Words(values);
    assert s[8 * (2 + p)..8 * (2 + p) + 8] == s[16..][8 * p..8 * p + 8];
  }

  ghost predicate TableOk(table: seq<StripNode>) {
    && |table| <= MAX_STRIP_CHART
    && (forall i | 0 <= i < |table| :: table[i].TPU <= table[i].data.Length)
  }

  lemma TableAppend(table: seq<StripNode>, n: StripNode)
    requires TableOk(table) && |table| < MAX_STRIP_CHART && n.TPU <= n.data.Length
    ensures TableOk(table + [n])
  {
  }

  lemma SumsAppend(table: seq<StripNode>, n: StripNode)
    ensures Threads(table + [n]) == Threads(table) + n.TPU
    ensures Periods(table + [n]) == Periods(table) + [n.frequency]
  {
    assert (table + [n])[..|table|] == table;
  }

  /** All charts and the file. `records` are the records since the last registration; `head` is what precedes them. */
  class Charts {
    var stripsOn: bool
    var table: seq<StripNode>
    var generalFrequency: nat
    var nextPosition: nat
    var out: seq<byte>
    var lines: nat
    var strips: nat
    var blocks: nat
    var markers: nat
    ghost var head: seq<byte>
    ghost var records: seq<Record>
    ghost var linesBefore: nat
    ghost var markersBefore: nat

    /** The period and the counters are right, and the file consists of the counters, the head and the records. */
    ghost predicate Valid()
      reads this
    {
      && TableOk(table)
      && (table != [] ==> generalFrequency == General(Periods(table)))
      && strips == Threads(table) && blocks == |table| && nextPosition == 2 + strips
      && lines == linesBefore + |records| && markers == markersBefore + Markers(records)
      && AllFit(records, strips)
      && out == Counters(lines, strips, blocks, markers) + head + EncodeAll(records, strips)
    }

    constructor (stripsOn: bool)
      ensures Valid() && table == [] && records == [] && this.stripsOn == stripsOn && head == []
    {
      this.stripsOn := stripsOn;
      table, generalFrequency, nextPosition := [], 0, 2;
      lines, strips, blocks, markers := 0, 0, 0, 0;
      head, records, linesBefore, markersBefore := [], [], 0, 0;
      out := [];
      new;
      WriteCounters();
    }

    /** Overwrites the counters at the start of the file. */
    method WriteCounters()
      modifies this`out
      ensures out == Counters(lines, strips, blocks, markers) + if |old(out)| >= 48 then old(out)[48..] else []
    {
      out := Counters(lines, strips, blocks, markers) + (if |out| >= 48 then out[48..] else []);
    }

    /** Fills up a text with spaces; `ended` says whether the loop comes to an end. */
    method WriteSpaces(space: nat, length: nat) returns (ended: bool)
      modifies this`out
      ensures ended <==> Ends(space, length)
      ensures ended ==> out == old(out) + Spaces(Padding(space, length))
    {
      var n := Padding(space, length);
      if n >= U32_LIMIT {
        forall k: nat | EndsAfter(space, length, k) ensures false {
          RoundsArePadding(space, length, k);
        }
        return false;
      }
      ended := true;
      RoundsArePadding(space, length, n);
      var i := 0;
      while i < n
        invariant i <= n && out == old(out) + Spaces(i)
      {
        out := out + [SPACE];
        i := (i + 1) % U32_LIMIT;
      }
    }

    /** Registers a chart. The general period becomes the greatest common divisor of all periods, and the records that
        follow have a field for each of the new chart's values. Writing the header ends exactly if the description has
        room in it. */
    method RegisterStripChart(description: seq<byte>, frequency: nat, data: array<u64>, threads: nat, maxElems: nat,
                              cpunum: nat)
      returns (ended: bool)
      requires Valid() && |table| < MAX_STRIP_CHART && threads <= data.Length && |Described(description, cpunum)| < MAX_STRING
      modifies this
      ensures ended <==> |Described(description, cpunum)| <= DESCRIPTION_SPACE
      ensures stripsOn == old(stripsOn)
      ensures ended ==> Valid() && records == [] && lines == old(lines) && markers == old(markers)
      ensures |table| == |old(table)| + 1 && table[..|old(table)|] == old(table)
      ensures var n := table[|old(table)|];
              n.description == Underscored(Described(description, cpunum)) && n.frequency == frequency && n.data == data && n.TPU == threads
      ensures ended ==> strips == old(strips) + threads
      ensures ended ==> var name := Underscored(Described(description, cpunum));
                head == old(out)[48..] + Header(old(nextPosition), name, threads, frequency, generalFrequency, maxElems)
    {
      hide Header, Counters, General, AllFit, TableOk, Periods, Threads, EncodeAll, Markers, Underscored, Ends, Described;
      var name := WithoutSpaces(Described(description, cpunum));
      AddChart(name, frequency, data, threads);
      ghost var header := if |name| > DESCRIPTION_SPACE then [] else
        Header(nextPosition, name, threads, frequency, generalFrequency, maxElems);
      TailGrows(out, header);
      head := out[48..] + header;
      ended := WriteHeader(name, threads, frequency, maxElems);
      if !ended {
        return;
      }
      nextPosition := nextPosition + threads;
      blocks := blocks + 1;
      strips := strips + threads;
      WriteCounters();
      StartRecords();
    }

    /** From here on, records have one length. */
    ghost method StartRecords()
      requires out == Counters(lines, strips, blocks, markers) + head
      modifies this`records, this`linesBefore, this`markersBefore
      ensures records == [] && AllFit(records, strips) && lines == linesBefore + |records|
      ensures markers == markersBefore + Markers(records)
      ensures out == Counters(lines, strips, blocks, markers) + head + EncodeAll(records, strips)
    {
      hide Counters;
      records, linesBefore, markersBefore := [], lines, markers;
    }

    lemma TailGrows(file: seq<byte>, header: seq<byte>)
      requires |file| >= 48
      ensures (file + header)[48..] == file[48..] + header && |file + header| >= 48
    {
    }

    method WithoutSpaces(description: seq<byte>) returns (name: seq<byte>)
      ensures name == Underscored(description)
    {
      name := [];
      var i := 0;
      while i < |description|
        invariant i <= |description| && name == Underscored(description[..i])
      {
        assert description[..i + 1][..i] == description[..i];
        name := name + [if description[i] == SPACE then UNDERSCORE else description[i]];
        i := i + 1;
      }
      assert description[..i] == description;
    }

    method WriteHeader(description: seq<byte>, threads: nat, frequency: nat, maxElems: nat) returns (ended: bool)
      requires |description| < MAX_STRING
      modifies this`out
      ensures ended <==> |description| <= DESCRIPTION_SPACE
      ensures ended ==>
                out == old(out) + Header(nextPosition, description, threads, frequency, generalFrequency, maxElems)
    {
      hide Word, Spaces, Ends;
      PaddingEndsIff(DESCRIPTION_SPACE, |description|);
      out := out + Word(nextPosition) + description;
      ended := WriteSpaces(DESCRIPTION_SPACE, |description|);
      if ended {
        out := out + Word(threads) + Word(frequency) + Word(generalFrequency) + Word(maxElems);
      }
    }

    /** The new table, and the general period for it. */
    method AddChart(description: seq<byte>, frequency: nat, data: array<u64>, threads: nat)
      requires TableOk(table) && |table| < MAX_STRIP_CHART && threads <= data.Length
      requires table != [] ==> generalFrequency == General(Periods(table))
      modifies this`table, this`generalFrequency
      ensures TableOk(table) && table != [] && generalFrequency == General(Periods(table))
      ensures |table| == |old(table)| + 1 && table[..|old(table)|] == old(table)
      ensures var n := table[|old(table)|];
              n.description == description && n.frequency == frequency && n.data == data && n.TPU == threads
      ensures Threads(table) == old(Threads(table)) + threads
    {
      hide General, Gcd, TableOk, Periods, Threads;
      PeriodsAppend(table, frequency);
      generalFrequency := if |table| == 0 then frequency else Gcd(generalFrequency, frequency);
      var n := new StripNode(description, frequency, data, threads);
      TableAppend(table, n);
      SumsAppend(table, n);
      table := table + [n];
    }

    /** Writes one value of every thread of a chart and resets them. */
    method DumpNode(n: StripNode)
      requires n.TPU <= n.data.Length && stripsOn
      modifies this`out, n.data
      ensures out == old(out) + Words(old(n.data[..n.TPU]))
      ensures forall j | 0 <= j < n.data.Length :: n.data[j] == if j < n.TPU then 0 else old(n.data[j])
    {
      hide Word;
      ghost var row := n.data[..n.TPU];
      var j := 0;
      assert old(out) + Words(row[..0]) == old(out);
      while j < n.TPU
        invariant j <= n.TPU && n.data[..] == old(n.data[..]) && out == old(out) + Words(row[..j])
      {
        assert row[..j + 1][..j] == row[..j];
        assert old(out) + (Words(row[..j]) + Word(row[j])) == old(out) + Words(row[..j]) + Word(row[j]);
        out := out + Word(n.data[j]);
        j := j + 1;
      }
      assert row[..j] == row;
      j := 0;
      while j < n.TPU
        invariant j <= n.TPU && out == old(out) + Words(row)
        invariant forall k | 0 <= k < n.data.Length :: n.data[k] == if k < j then 0 else old(n.data[k])
      {
        n.data[j] := 0;
        j := j + 1;
      }
    }

    /** Whether a cycle is sampled. */
    ghost predicate Due(cycle: nat)
      reads this`stripsOn, this`table
    {
      stripsOn && table != [] && Divides(General(Periods(table)), cycle)
    }

    /** With dumping enabled, every cycle that is a multiple of some requested period is sampled. */
    lemma RequestedIsDue(cycle: nat, i: nat)
      requires TableOk(table) && stripsOn && i < |table| && Divides(table[i].frequency, cycle)
      ensures Due(cycle)
    {
      hide General, Divides;
      var g := General(Periods(table));
      PositiveDivides(table[i].frequency, cycle);
      GeneralDivisors(Periods(table), 1);
      assert Periods(table)[i] > 0;
      GeneralDivisors(Periods(table), g);
      DividesSelf(g);
      DividesTransitive(g, Periods(table)[i], cycle);
    }

    lemma PositiveDivides(d: nat, a: nat)
      requires Divides(d, a)
      ensures d > 0
    {
    }

    lemma DividesSelf(g: nat)
      requires g > 0
      ensures Divides(g, g)
    {
    }

    /** Samples all charts when the cycle is a multiple of the general period: a record with the cycle and all values is
        added, and the values start again from zero. */
    method Dump(cycle: nat)
      requires Valid() && cycle < U64_LIMIT && (stripsOn && table != [] ==> generalFrequency > 0)
      modifies this`out, this`lines, this`records, set i | 0 <= i < |table| :: table[i].data
      ensures Valid()
      ensures records == if Due(cycle) then old(records) + [Data(cycle, old(Flat(Rows(table))))] else old(records)
      ensures forall i, j | 0 <= i < |table| && 0 <= j < table[i].data.Length ::
                table[i].data[j] ==
                if Due(cycle) && Taken(table, |table|, table[i].data, j) then 0 else old(table[i].data[j])
    {
      hide Header, Counters, AllFit, Rows, Flat, Word, Words, General, Periods, Threads, Encode, EncodeAll, Markers;
      if !stripsOn {
        return;
      }
      if |table| == 0 {
        return;
      }
      if cycle % generalFrequency == 0 {
        ghost var record := Data(cycle, Flat(Rows(table)));
        ghost var tail := Words(Flat(Rows(table)));
        DataFits(cycle);
        Grows(Word(0) + Word(cycle) + tail, record);
        Rest(out, Word(0), Word(cycle), tail);
        out := out + Word(0) + Word(cycle);
        DumpTable();
        lines := lines + 1;
        records := records + [record];
        WriteCounters();
      }
    }

    lemma Rest(file: seq<byte>, a: seq<byte>, b: seq<byte>, c: seq<byte>)
      ensures file + a + b + c == file + (a + b + c)
    {
    }

    lemma DataFits(cycle: nat)
      requires TableOk(table) && cycle < U64_LIMIT && strips == Threads(table)
      ensures Fits(Data(cycle, Flat(Rows(table))), strips)
      ensures Encode(Data(cycle, Flat(Rows(table))), strips) == Word(0) + Word(cycle) + Words(Flat(Rows(table)))
    {
      hide Rows, Flat, Threads;
      FlatFits(table, Rows(table));
    }

    /** What writing a record does to the file behind the counters. */
    lemma Grows(bytes: seq<byte>, record: Record)
      requires Valid() && Fits(record, strips) && bytes == Encode(record, strips)
      ensures AllFit(records + [record], strips) && |out| >= 48
      ensures (out + bytes)[48..] == head + EncodeAll(records + [record], strips)
      ensures Markers(records + [record]) == Markers(records) + if record.Marker? then 1 else 0
    {
      hide Word, Words, Spaces, Fits, Encode, General, Periods, Threads, Counters;
      assert (records + [record])[..|records|] == records;
      var c, e := Counters(lines, strips, blocks, markers), EncodeAll(records, strips);
      assert out + bytes == c + (head + (e + bytes));
    }

    /** Writes the values of all charts and resets them. */
    method DumpTable()
      requires TableOk(table) && stripsOn
      modifies this`out, set i | 0 <= i < |table| :: table[i].data
      ensures out == old(out) + Words(old(Flat(Rows(table))))
      ensures forall i, j | 0 <= i < |table| && 0 <= j < table[i].data.Length ::
                table[i].data[j] == if Taken(table, |table|, table[i].data, j) then 0 else old(table[i].data[j])
    {
      hide Words, Flat, Rows, Row;
      ghost var rows := Rows(table);
      NothingWritten(out, rows);
      var i := 0;
      while i < |table|
        invariant i <= |table| && out == old(out) + Words(Flat(rows[..i]))
        invariant forall k, j | 0 <= k < |table| && 0 <= j < table[k].data.Length ::
                    table[k].data[j] == if Taken(table, i, table[k].data, j) then 0 else old(table[k].data[j])
      {
        FlatNext(rows, i);
        WordsAppend(Flat(rows[..i]), rows[i]);
        assert table[i].data[..table[i].TPU] == rows[i];
        Rest(old(out), Words(Flat(rows[..i])), Words(rows[i]), []);
        DumpNode(table[i]);
        i := i + 1;
      }
      assert rows[..i] == rows;
    }

    lemma NothingWritten(file: seq<byte>, rows: seq<seq<nat>>)
      ensures file + Words(Flat(rows[..0])) == file
    {
    }

    /** Adds a marker: a text, filled up with spaces to the length of a data record. Writing it ends exactly if it fits
        and fewer than 2^32 spaces are missing. */
    method DumpRAWString(str: seq<byte>) returns (ended: bool)
      requires Valid() && 8 + 8 * strips < U64_LIMIT && |str| < MAX_STRING
      modifies this`out, this`lines, this`markers, this`records
      ensures ended <==> !stripsOn || |str| <= 8 + 8 * strips < |str| + U32_LIMIT
      ensures ended ==> Valid()
      ensures ended ==> records == if stripsOn then old(records) + [Marker(str)] else old(records)
    {
      hide Counters, Word, Words, General, Periods, Threads, EncodeAll, Markers, TableOk, Spaces, AllFit, Ends;
      ended := true;
      if !stripsOn {
        return;
      }
      var bytes := MarkerBytes();
      ghost var record := Marker(str);
      if |str| <= bytes {
        Grows(Word(1) + str + Spaces(bytes - |str|), record);
      }
      ended := WriteMarker(str, bytes);
      if !ended {
        return;
      }
      lines := lines + 1;
      markers := markers + 1;
      records := records + [record];
      WriteCounters();
    }

    method WriteMarker(str: seq<byte>, bytes: nat) returns (ended: bool)
      requires bytes < U64_LIMIT && |str| < MAX_STRING
      modifies this`out
      ensures ended <==> |str| <= bytes < |str| + U32_LIMIT
      ensures ended ==> out == old(out) + (Word(1) + str + Spaces(bytes - |str|))
    {
      hide Word, Spaces, Ends;
      PaddingEndsIff(bytes, |str|);
      out := out + Word(1) + str;
      ended := WriteSpaces(bytes, |str|);
      if ended {
        Rest(old(out), Word(1), str, Spaces(bytes - |str|));
      }
    }

    /** The number of bytes that a marker's text has to fill. */
    method MarkerBytes() returns (bytes: nat)
      ensures bytes == 8 + 8 * Threads(table)
    {
      hide Threads;
      bytes := 8;
      var i := 0;
      SomeThreads();
      while i < |table|
        invariant i <= |table| && bytes == 8 + 8 * Threads(table[..i])
      {
        MoreThreads(i);
        bytes := bytes + table[i].TPU * 8;
        i := i + 1;
      }
      assert table[..i] == table;
    }

    lemma SomeThreads()
      ensures Threads(table[..0]) == 0
    {
    }

    lemma MoreThreads(i: nat)
      requires i < |table|
      ensures Threads(table[..i + 1]) == Threads(table[..i]) + table[i].TPU
    {
      assert table[..i + 1][..i] == table[..i];
    }

    /** The position in a chart's description leads to its values: they are the words of every record from there on. When the
        chart was registered as number `i`, the position was two words behind the values of the charts before it. */
    lemma PositionFindsValue(cycle: nat, i: nat, j: nat)
      requires TableOk(table) && cycle < U64_LIMIT && strips == Threads(table) && i < |table| && j < table[i].TPU
      ensures var values, position := Flat(Rows(table)), 2 + Threads(table[..i]);
              && Fits(Data(cycle, values), strips)
              && var s := Encode(Data(cycle, values), strips);
              8 * (position + j) + 8 <= |s| && FromLittle(s[8 * (position + j)..8 * (position + j) + 8]) == Row(table, i)[j]
    {
      hide Rows, Row, Flat, Threads, Encode, FromLittle;
      var rows := Rows(table);
      DataFits(cycle);
      FlatFits(table, rows);
      FlatFits(table[..i], rows[..i]);
      FlatAt(rows, i, j);
      RecordWord(cycle, Flat(rows), Threads(table[..i]) + j);
    }

    /** What a reader finds: behind the counters and the head, as many records as have been written since the last
        registration, all of one length, and each of them reads back as what was written. */
    lemma FileLayout(i: nat)
      requires Valid()
      ensures |out| == 48 + |head| + |records| * RecordLength(strips) && lines == linesBefore + |records|
      ensures i < |records| ==>
                var s := Slice(out[48 + |head|..], i, RecordLength(strips));
                && Fits(records[i], strips) && |s| == RecordLength(strips)
                && Decode(s) == Padded(records[i], strips)
    {
      hide Encode, Decode, Fits, Padded, General, Periods, Threads, Markers, Slice;
      EncodeAllLength(records, strips);
      assert out[48 + |head|..] == EncodeAll(records, strips);
      if i < |records| {
        RecordAt(records, strips, i);
        EncodeRoundTrip(records[i], strips);
      }
    }
  }

  lemma PeriodsAppend(table: seq<StripNode>, frequency: nat)
    ensures Periods(table) + [frequency] != []
    ensures General(Periods(table) + [frequency]) ==
            if table == [] then frequency else Gcd(General(Periods(table)), frequency)
  {
    var f := Periods(table) + [frequency];
    assert f[..|f| - 1] == Periods(table);
  }
}
