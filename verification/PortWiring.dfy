/** Connecting ports: all ports are sorted by name, instance and kind, and then the write ports of each name and
    instance are connected, in the order of their creation, to consecutive blocks of its read ports. */
module PortWiring {

  datatype Kind = Write | Read

  datatype Id = Id(name: string, instance: int)

  datatype Key = Key(id: Id, kind: Kind)

  // ---------------------------------------------------------------------------------------------------------
  // The order of ports

  /** Negative, zero or positive: the order of strings. */
  function Compare(a: string, b: string): int {
    if a == [] then (if b == [] then 0 else -1)
    else if b == [] then 1
    else if a[0] < b[0] then -1
    else if b[0] < a[0] then 1
    else Compare(a[1..], b[1..])
  }

  function Rank(kind: Kind): nat {
    match kind
    case Write => 0
    case Read => 1
  }

  predicate Greater(l: Key, r: Key) {
    var cmp := Compare(l.id.name, r.id.name);
    || cmp > 0
    || (cmp == 0 && l.id.instance > r.id.instance)
    || (cmp == 0 && l.id.instance == r.id.instance && Rank(l.kind) > Rank(r.kind))
  }

  lemma {:induction false} CompareSigns(a: string, b: string)
    ensures Compare(a, b) == 0 <==> a == b
    ensures Compare(b, a) == -Compare(a, b)
  {
    if a != [] && b != [] {
      CompareSigns(a[1..], b[1..]);
      assert a == b <==> a[0] == b[0] && a[1..] == b[1..];
    }
  }

  lemma {:induction false} CompareTransitive(a: string, b: string, c: string)
    requires Compare(a, b) <= 0 && Compare(b, c) <= 0
    ensures Compare(a, c) <= 0
    ensures Compare(a, c) == 0 ==> Compare(a, b) == 0
  {
    if a != [] && b != [] && c != [] && a[0] == b[0] && b[0] == c[0] {
      CompareTransitive(a[1..], b[1..], c[1..]);
    }
  }

  /** Not being greater is a total order on keys, and the keys of one name and instance are next to each other. */
  lemma OrderLaws(a: Key, b: Key, c: Key)
    ensures Greater(a, b) ==> !Greater(b, a)
    ensures !Greater(a, b) && !Greater(b, a) ==> a == b
    ensures !Greater(a, b) && !Greater(b, c) ==> !Greater(a, c)
    ensures !Greater(a, b) && !Greater(b, c) && a.id == c.id ==> a.id == b.id
  {
    CompareSigns(a.id.name, b.id.name);
    CompareSigns(b.id.name, c.id.name);
    CompareSigns(a.id.name, c.id.name);
    if Compare(a.id.name, b.id.name) <= 0 && Compare(b.id.name, c.id.name) <= 0 {
      CompareTransitive(a.id.name, b.id.name, c.id.name);
    }
  }

  // ---------------------------------------------------------------------------------------------------------
  // Ports

  class Port {
    const key: Key
    const fanout: int
    var connected: bool
    var connectedPorts: seq<Port>
    var buffers: map<int, Port>  // which read port's buffer a write port has at an index

    constructor (key: Key, fanout: int)
      ensures this.key == key && this.fanout == fanout && !connected && connectedPorts == [] && buffers == map[]
    {
      this.key, this.fanout := key, fanout;
      connected, connectedPorts, buffers := false, [], map[];
    }
  }

  ghost predicate InOrder(s: seq<Port>) {
    forall i, j | 0 <= i < j < |s| :: !Greater(s[i].key, s[j].key)
  }

  /** One name is a beginning of the other, or smaller at the first character that differs. */
  ghost predicate NameBefore(a: string, b: string) {
    a <= b || exists n: nat :: n < |a| && n < |b| && a[..n] == b[..n] && a[n] < b[n]
  }

  /** Ports in ascending order of their names; of one name, in ascending order of their instances; and of one name and
      instance, write ports first. */
  ghost predicate Arranged(s: seq<Port>) {
    forall i, j | 0 <= i < j < |s| :: Behind(s[i].key, s[j].key)
  }

  ghost predicate Behind(k: Key, l: Key) {
    && NameBefore(k.id.name, l.id.name)
    && (k.id.name == l.id.name ==> k.id.instance <= l.id.instance)
    && (k.id == l.id ==> !(k.kind == Read && l.kind == Write))
  }

  lemma {:induction false} CompareBefore(a: string, b: string)
    ensures Compare(a, b) <= 0 <==> NameBefore(a, b)
    ensures Compare(a, b) == 0 <==> a == b
  {
    if a != [] && b != [] && a[0] == b[0] {
      CompareBefore(a[1..], b[1..]);
      NameBeforeRest(a, b);
    } else if a != [] && b != [] && a[0] < b[0] {
      assert a[..0] == b[..0];
    }
  }

  lemma NameBeforeRest(a: string, b: string)
    requires a != [] && b != [] && a[0] == b[0]
    ensures NameBefore(a, b) <==> NameBefore(a[1..], b[1..])
    ensures a == b <==> a[1..] == b[1..]
  {
    assert a == [a[0]] + a[1..] && b == [b[0]] + b[1..];
    if n: nat :| n < |a| && n < |b| && a[..n] == b[..n] && a[n] < b[n] {
      DifferLater(a, b, n);
    }
    if n: nat :| n < |a[1..]| && n < |b[1..]| && a[1..][..n] == b[1..][..n] && a[1..][n] < b[1..][n] {
      DifferEarlier(a, b, n);
    }
  }

  lemma DifferLater(a: string, b: string, n: nat)
    requires a != [] && b != [] && a[0] == b[0] && n < |a| && n < |b| && a[..n] == b[..n] && a[n] < b[n]
    ensures NameBefore(a[1..], b[1..])
  {
    var x, y := a[1..], b[1..];
    assert x[..n - 1] == a[..n][1..] && y[..n - 1] == b[..n][1..];
    assert x[n - 1] < y[n - 1];
  }

  lemma DifferEarlier(a: string, b: string, n: nat)
    requires a != [] && b != [] && a[0] == b[0]
    requires n < |a| - 1 && n < |b| - 1 && a[1..][..n] == b[1..][..n] && a[1..][n] < b[1..][n]
    ensures NameBefore(a, b)
  {
    assert a[..n + 1] == [a[0]] + a[1..][..n] && b[..n + 1] == [b[0]] + b[1..][..n];
    assert a[n + 1] < b[n + 1];
  }

  /** What the comparison of ports means for sorted ports. */
  lemma ArrangedIff(s: seq<Port>)
    ensures InOrder(s) <==> Arranged(s)
  {
    forall i, j | 0 <= i < j < |s| ensures !Greater(s[i].key, s[j].key) <==> Behind(s[i].key, s[j].key) {
      BehindIff(s[i].key, s[j].key);
    }
    hide Greater, Behind;
  }

  lemma BehindIff(k: Key, l: Key)
    ensures !Greater(k, l) <==> Behind(k, l)
  {
    CompareBefore(k.id.name, l.id.name);
    hide Compare, NameBefore;
  }

  ghost predicate NoDup(s: seq<Port>) {
    forall i, j | 0 <= i < j < |s| :: s[i] != s[j]
  }

  /** The ports with a given key, in order. */
  function WithKey(s: seq<Port>, k: Key): seq<Port> {
    if s == [] then []
    else if s[0].key == k then [s[0]] + WithKey(s[1..], k)
    else WithKey(s[1..], k)
  }

  ghost predicate SameByKey(s: seq<Port>, t: seq<Port>) {
    forall k :: WithKey(s, k) == WithKey(t, k)
  }

  lemma {:induction false} WithKeyAppend(a: seq<Port>, b: seq<Port>, k: Key)
    ensures WithKey(a + b, k) == WithKey(a, k) + WithKey(b, k)
  {
    if a == [] {
      assert a + b == b;
    } else {
      WithKeyAppend(a[1..], b, k);
      assert a + b == [a[0]] + (a[1..] + b);
      var ra, rb := WithKey(a[1..], k), WithKey(b, k);
      assert [a[0]] + (ra + rb) == ([a[0]] + ra) + rb;
    }
  }

  lemma {:induction false} WithoutKey(s: seq<Port>, k: Key)
    requires forall i | 0 <= i < |s| :: s[i].key != k
    ensures WithKey(s, k) == []
  {
    if s != [] {
      WithoutKey(s[1..], k);
    }
  }

  lemma {:induction false} AllWithKey(s: seq<Port>, k: Key)
    requires forall i | 0 <= i < |s| :: s[i].key == k
    ensures WithKey(s, k) == s
  {
    if s != [] {
      AllWithKey(s[1..], k);
    }
  }

  lemma {:induction false} CountWithKey(s: seq<Port>, p: Port)
    ensures multiset(s)[p] == multiset(WithKey(s, p.key))[p]
  {
    if s != [] {
      CountWithKey(s[1..], p);
      assert s == [s[0]] + s[1..];
    }
  }

  /** Lists that agree key by key are rearrangements of each other. */
  lemma SameByKeyPermutes(s: seq<Port>, t: seq<Port>)
    requires SameByKey(s, t)
    ensures multiset(s) == multiset(t)
  {
    forall p: Port ensures multiset(s)[p] == multiset(t)[p] {
      CountWithKey(s, p);
      CountWithKey(t, p);
    }
  }

  // ---------------------------------------------------------------------------------------------------------
  // Sorting

  /** Moving an element in front of elements that are greater keeps the order within every key. */
  lemma MoveKeeps(a: seq<Port>, b: seq<Port>, x: Port, c: seq<Port>)
    requires forall i | 0 <= i < |b| :: Greater(b[i].key, x.key)
    ensures SameByKey(a + [x] + b + c, a + b + [x] + c)
  {
    forall k ensures WithKey(a + [x] + b + c, k) == WithKey(a + b + [x] + c, k) {
      hide Greater;
      forall i | 0 <= i < |b| ensures b[i].key != x.key {
        OrderLaws(x.key, x.key, x.key);
      }
      Four(a, [x], b, c, k);
      Four(a, b, [x], c, k);
      if x.key == k {
        WithoutKey(b, k);
      } else {
        WithoutKey([x], k);
      }
    }
  }

  lemma Four(a: seq<Port>, b: seq<Port>, c: seq<Port>, d: seq<Port>, k: Key)
    ensures WithKey(a + b + c + d, k) == WithKey(a, k) + WithKey(b, k) + WithKey(c, k) + WithKey(d, k)
  {
    hide WithKey;
    WithKeyAppend(a + b + c, d, k);
    WithKeyAppend(a + b, c, k);
    WithKeyAppend(a, b, k);
  }

  lemma MoveSorts(a: seq<Port>, b: seq<Port>, x: Port)
    requires InOrder(a + b) && (forall i | 0 <= i < |b| :: Greater(b[i].key, x.key))
    requires a != [] ==> !Greater(a[|a| - 1].key, x.key)
    ensures InOrder(a + [x] + b)
  {
    hide Greater;
    var s, t := a + b, a + [x] + b;
    forall i, j | 0 <= i < j < |t| ensures !Greater(t[i].key, t[j].key) {
      var i', j' := if i < |a| then i else i - 1, if j < |a| then j else j - 1;
      assert i != |a| ==> t[i] == s[i'];
      assert j != |a| ==> t[j] == s[j'];
      if i == |a| {
        OrderLaws(x.key, t[j].key, x.key);
      } else if j == |a| {
        assert i < |a| - 1 ==> !Greater(s[i].key, s[|a| - 1].key);
        OrderLaws(t[i].key, a[|a| - 1].key, x.key);
      }
    }
  }

  /** Sorts the ports in place. The sort is stable: the ports of each key stay in the order of their creation. */
  method InsertionSort(a: array<Port>)
    modifies a
    ensures Arranged(a[..]) && InOrder(a[..]) && SameByKey(a[..], old(a[..]))
  {
    hide Greater, WithKey, Arranged;
    var j := 1;
    while j < a.Length
      invariant a.Length > 0 ==> 1 <= j <= a.Length
      invariant a.Length > 0 ==> InOrder(a[..j])
      invariant SameByKey(a[..], old(a[..]))
    {
      InsertAt(a, j);
      j := j + 1;
    }
    assert a.Length > 0 ==> a[..j] == a[..];
    ArrangedIff(a[..]);
  }

  /** One round: moves the port at `j` to its place among the ports before it. */
  method InsertAt(a: array<Port>, j: nat)
    requires 0 < j < a.Length && InOrder(a[..j])
    modifies a
    ensures InOrder(a[..j + 1]) && SameByKey(a[..], old(a[..]))
  {
    hide Greater, WithKey, InOrder, SameByKey;
    ghost var s := a[..];
    var key := a[j];
    var i := j - 1;
    while i >= 0 && Greater(a[i].key, key.key)
      invariant -1 <= i < j
      invariant forall n | 0 <= n < |s| && (n <= i + 1 || n > j) :: a[n] == s[n]
      invariant forall n, m | i < n < j && m == n + 1 :: a[m] == s[n]
      invariant forall n | i < n < j :: Greater(s[n].key, key.key)
    {
      a[i + 1] := a[i];
      i := i - 1;
    }
    a[i + 1] := key;
    InsertedAt(s, a[..], i + 1, j);
  }

  lemma InsertedAt(s: seq<Port>, t: seq<Port>, p: nat, j: nat)
    requires p <= j < |s| == |t| && InOrder(s[..j]) && t[p] == s[j]
    requires forall n | 0 <= n < |s| && (n < p || n > j) :: t[n] == s[n]
    requires forall n, m | p <= n < j && m == n + 1 :: t[m] == s[n]
    requires forall n | p <= n < j :: Greater(s[n].key, s[j].key)
    requires p > 0 ==> !Greater(s[p - 1].key, s[j].key)
    ensures InOrder(t[..j + 1]) && SameByKey(t, s)
  {
    hide Greater, WithKey, InOrder, SameByKey;
    Shifted(s, t, p, j);
    Inserted(s[..p], s[p..j], s[j], s[j + 1..], s, t);
  }

  /** What the shifts and the final assignment amount to. */
  lemma Shifted(s: seq<Port>, t: seq<Port>, p: nat, j: nat)
    requires p <= j < |s| == |t| && t[p] == s[j]
    requires forall n | 0 <= n < |s| && (n < p || n > j) :: t[n] == s[n]
    requires forall n, m | p <= n < j && m == n + 1 :: t[m] == s[n]
    ensures s == s[..p] + s[p..j] + [s[j]] + s[j + 1..] && s[..|s[..p]| + |s[p..j]|] == s[..j]
    ensures t == s[..p] + [s[j]] + s[p..j] + s[j + 1..]
  {
    var u := s[..p] + [s[j]] + s[p..j] + s[j + 1..];
    forall m | 0 <= m < |t| ensures t[m] == u[m] {
      if p < m <= j {
        assert t[m] == s[m - 1];
      }
    }
  }

  lemma Inserted(a: seq<Port>, b: seq<Port>, x: Port, c: seq<Port>, s: seq<Port>, t: seq<Port>)
    requires s == a + b + [x] + c && t == a + [x] + b + c && InOrder(s[..|a| + |b|])
    requires forall n | |a| <= n < |a| + |b| :: Greater(s[n].key, x.key)
    requires a != [] ==> !Greater(s[|a| - 1].key, x.key)
    ensures InOrder(t[..|a| + |b| + 1]) && SameByKey(t, s)
  {
    hide Greater, WithKey, InOrder, SameByKey;
    MoveKeeps(a, b, x, c) by {
      assert forall n | 0 <= n < |b| :: b[n] == s[|a| + n];
    }
    assert s[..|a| + |b|] == a + b && t[..|a| + |b| + 1] == a + [x] + b;
    MoveSorts(a, b, x) by {
      assert forall n | 0 <= n < |b| :: b[n] == s[|a| + n];
    }
  }

  // ---------------------------------------------------------------------------------------------------------
  // What connecting computes

  /** The connections of a set of ports: the ports each is connected to, the buffers each has, and which are marked. */
  datatype Wires = Wires(ports: map<Port, seq<Port>>, buffers: map<Port, map<int, Port>>, connected: set<Port>)

  ghost function Now(s: seq<Port>): Wires
    reads s
  {
    Wires(map p | p in s :: p.connectedPorts, map p | p in s :: p.buffers, set p | p in s && p.connected)
  }

  predicate Has(w: Wires, p: Port) {
    p in w.ports && p in w.buffers
  }

  predicate Covers(w: Wires, s: seq<Port>) {
    forall i | 0 <= i < |s| :: Has(w, s[i])
  }

  /** Connects a write port with one read port, whose buffer goes to the given index. */
  function Link(w: Wires, wr: Port, rd: Port, index: int): Wires
    requires Has(w, wr) && Has(w, rd)
  {
    var ports := w.ports[wr := w.ports[wr] + [rd]];
    Wires(ports[rd := ports[rd] + [wr]], w.buffers[wr := w.buffers[wr][index := rd]], w.connected + {rd})
  }

  /** Connects a write port with a block of read ports. */
  function LinkBlock(w: Wires, wr: Port, rds: seq<Port>): (r: Wires)
    requires Has(w, wr) && Covers(w, rds)
    ensures r.ports.Keys == w.ports.Keys && r.buffers.Keys == w.buffers.Keys
  {
    if rds == [] then w else
      var n := |rds| - 1;
      Link(LinkBlock(w, wr, rds[..n]), wr, rds[n], n)
  }

  function Sum(fans: seq<int>): int {
    if fans == [] then 0 else Sum(fans[..|fans| - 1]) + fans[|fans| - 1]
  }

  /** The fan-outs of a list of write ports. */
  function Fans(s: seq<Port>): (f: seq<int>)
    ensures |f| == |s| && forall i | 0 <= i < |s| :: f[i] == s[i].fanout
  {
    if s == [] then [] else [s[0].fanout] + Fans(s[1..])
  }

  predicate AllAbove(fans: seq<int>) {
    forall i | 0 <= i < |fans| :: fans[i] > 0
  }

  /** The position of the first read port of the block of write port `k`: the sum of the earlier fan-outs. */
  function Offset(writers: seq<Port>, k: nat): int
    requires k <= |writers|
  {
    Sum(Fans(writers)[..k])
  }

  function Block(writers: seq<Port>, readers: seq<Port>, k: nat): (b: seq<Port>)
    requires k < |writers|
    ensures forall i | 0 <= i < |b| :: b[i] in readers
  {
    var from, to := Offset(writers, k), Offset(writers, k + 1);
    if 0 <= from <= to <= |readers| then readers[from..to] else []
  }

  /** Connects the first `k` write ports with consecutive blocks of read ports. */
  function LinkGroup(w: Wires, writers: seq<Port>, readers: seq<Port>, k: nat): (r: Wires)
    requires k <= |writers| && Covers(w, writers) && Covers(w, readers)
    ensures r.ports.Keys == w.ports.Keys && r.buffers.Keys == w.buffers.Keys
  {
    if k == 0 then w else
      Mark(LinkBlock(LinkGroup(w, writers, readers, k - 1), writers[k - 1], Block(writers, readers, k - 1)), writers[k - 1])
  }

  /** What is accepted: there is a read port, and when there are write ports, their fan-outs are positive and add up to
      exactly the number of read ports. */
  predicate Acceptable(writers: seq<Port>, readers: seq<Port>) {
    && 0 < |readers| && |writers| <= |readers|
    && (writers != [] ==> AllAbove(Fans(writers)) && Sum(Fans(writers)) == |readers|)
  }

  // ---------------------------------------------------------------------------------------------------------
  // What connecting means

  /** A read port is connected to a write port, and to nothing else beyond what was there before. */
  ghost predicate ReaderWired(now: Wires, was: Wires, rd: Port, wr: Port) {
    Has(now, rd) && Has(was, rd) && rd in now.connected && now.ports[rd] == was.ports[rd] + [wr]
  }

  /** A write port is connected to a list of read ports and has their buffers, and no others beyond what was there before. */
  ghost predicate WriterWired(now: Wires, was: Wires, wr: Port, rds: seq<Port>) {
    && Has(now, wr) && Has(was, wr) && now.ports[wr] == was.ports[wr] + rds
    && (forall i | 0 <= i < |rds| :: i in now.buffers[wr] && now.buffers[wr][i] == rds[i])
    && (forall i | i in now.buffers[wr] :: 0 <= i < |rds| || i in was.buffers[wr])
  }

  ghost predicate Untouched(now: Wires, was: Wires, p: Port) {
    && Has(now, p) && Has(was, p) && now.ports[p] == was.ports[p] && now.buffers[p] == was.buffers[p]
    && (p in now.connected <==> p in was.connected)
  }

  lemma LinkKeeps(r: Wires, w: Wires, wr: Port, rd: Port, p: Port, index: int)
    requires Has(r, wr) && Has(r, rd) && p != rd && wr != rd
    ensures p != wr && Untouched(r, w, p) ==> Untouched(Link(r, wr, rd, index), w, p)
    ensures p != wr && ReaderWired(r, w, p, wr) ==> ReaderWired(Link(r, wr, rd, index), w, p, wr)
  {
  }

  lemma LinkAdds(r: Wires, w: Wires, wr: Port, rds: seq<Port>, rd: Port)
    requires Has(r, wr) && Has(r, rd) && wr != rd && WriterWired(r, w, wr, rds) && Untouched(r, w, rd)
    ensures WriterWired(Link(r, wr, rd, |rds|), w, wr, rds + [rd])
    ensures ReaderWired(Link(r, wr, rd, |rds|), w, rd, wr)
  {
    assert (w.ports[wr] + rds) + [rd] == w.ports[wr] + (rds + [rd]);
  }

  /** The result for one block: the write port has the read ports appended, every read port the write port, and nothing
      else changes. */
  lemma {:induction false} BlockResult(w: Wires, wr: Port, rds: seq<Port>, p: Port)
    requires Has(w, wr) && Covers(w, rds) && NoDup(rds) && wr !in rds && Has(w, p)
    ensures WriterWired(LinkBlock(w, wr, rds), w, wr, rds)
    ensures p in rds ==> ReaderWired(LinkBlock(w, wr, rds), w, p, wr)
    ensures p != wr && p !in rds ==> Untouched(LinkBlock(w, wr, rds), w, p)
  {
    hide Link, ReaderWired;
    if rds != [] {
      hide WriterWired, Untouched;
      var n := |rds| - 1;
      var x := rds[n];
      BlockResult(w, wr, rds[..n], p);
      BlockResult(w, wr, rds[..n], x);
      assert rds == rds[..n] + [x] && x !in rds[..n];
      var r := LinkBlock(w, wr, rds[..n]);
      LinkAdds(r, w, wr, rds[..n], x);
      if p != x {
        LinkKeeps(r, w, wr, x, p, n);
      }
    }
  }

  /** One write port and all of its block. */
  ghost predicate BlockWired(now: Wires, was: Wires, writers: seq<Port>, readers: seq<Port>, k: nat)
    requires k < |writers|
  {
    var b := Block(writers, readers, k);
    && WriterWired(now, was, writers[k], b) && writers[k] in now.connected && |b| == writers[k].fanout
    && forall i | 0 <= i < |b| :: ReaderWired(now, was, b[i], writers[k])
  }

  lemma {:induction false} SumMonotone(fans: seq<int>, j: nat, k: nat)
    requires j <= k <= |fans| && AllAbove(fans)
    ensures 0 <= Sum(fans[..j]) <= Sum(fans[..k])
    ensures j < k ==> Sum(fans[..j]) + fans[j] <= Sum(fans[..k])
    decreases k
  {
    if k > 0 {
      assert fans[..k][..k - 1] == fans[..k - 1];
      SumMonotone(fans, if j < k then j else j - 1, k - 1);
    }
  }

  lemma NextOffset(writers: seq<Port>, k: nat)
    requires k < |writers|
    ensures Offset(writers, k + 1) == Offset(writers, k) + writers[k].fanout
  {
    var f := Fans(writers);
    assert f[..k + 1][..k] == f[..k];
  }

  lemma BlockIs(writers: seq<Port>, readers: seq<Port>, k: nat)
    requires k < |writers| && AllAbove(Fans(writers)) && Offset(writers, k + 1) <= |readers|
    ensures 0 <= Offset(writers, k) <= Offset(writers, k + 1)
    ensures Block(writers, readers, k) == readers[Offset(writers, k)..Offset(writers, k + 1)]
    ensures |Block(writers, readers, k)| == writers[k].fanout
    ensures NoDup(readers) ==> NoDup(Block(writers, readers, k))
  {
    NextOffset(writers, k);
    SumMonotone(Fans(writers), k, k + 1);
  }

  /** The blocks of an accepted group do not overlap. */
  lemma BlocksApart(writers: seq<Port>, readers: seq<Port>, j: nat, k: nat)
    requires j < k < |writers| && AllAbove(Fans(writers)) && Offset(writers, k + 1) <= |readers| && NoDup(readers)
    ensures forall x | x in Block(writers, readers, j) :: x !in Block(writers, readers, k)
  {
    hide *;
    OffsetsOrdered(writers, j, k);
    BlockIs(writers, readers, j);
    BlockIs(writers, readers, k);
    SlicesApart(readers, Offset(writers, j), Offset(writers, j + 1), Offset(writers, k), Offset(writers, k + 1));
  }

  lemma OffsetsOrdered(writers: seq<Port>, j: nat, k: nat)
    requires j < k < |writers| && AllAbove(Fans(writers))
    ensures Offset(writers, j + 1) <= Offset(writers, k) <= Offset(writers, k + 1)
  {
    SumsOrdered(Fans(writers), j, k);
  }

  lemma SumsOrdered(fans: seq<int>, j: nat, k: nat)
    requires j < k < |fans| && AllAbove(fans)
    ensures Sum(fans[..j + 1]) <= Sum(fans[..k]) <= Sum(fans[..k + 1])
  {
    hide *;
    SumMonotone(fans, j + 1, k);
    SumMonotone(fans, k, k + 1);
  }

  lemma SlicesApart(s: seq<Port>, a: int, b: int, c: int, d: int)
    requires 0 <= a <= b <= c <= d <= |s| && NoDup(s)
    ensures forall x | x in s[a..b] :: x !in s[c..d]
  {
    forall x | x in s[a..b] ensures x !in s[c..d] {
      var i :| a <= i < b && s[i] == x;
      assert forall m | c <= m < d :: s[m] != s[i];
    }
  }

  /** What a port has got stays when later steps do not touch it, and counts from the start if earlier ones have not. */
  lemma Carry(l: Wires, r: Wires, w: Wires, p: Port, wr: Port, rds: seq<Port>)
    ensures Untouched(l, r, p) && WriterWired(r, w, p, rds) ==> WriterWired(l, w, p, rds)
    ensures Untouched(l, r, p) && ReaderWired(r, w, p, wr) ==> ReaderWired(l, w, p, wr)
    ensures Untouched(l, r, p) && Untouched(r, w, p) ==> Untouched(l, w, p)
    ensures WriterWired(l, r, p, rds) && Untouched(r, w, p) ==> WriterWired(l, w, p, rds)
    ensures ReaderWired(l, r, p, wr) && Untouched(r, w, p) ==> ReaderWired(l, w, p, wr)
  {
  }

  /** Marking a write port as connected. */
  function Mark(l: Wires, wr: Port): Wires {
    l.(connected := l.connected + {wr})
  }

  lemma MarkKeeps(l: Wires, r: Wires, wr: Port, p: Port, rds: seq<Port>)
    ensures wr in Mark(l, wr).connected
    ensures WriterWired(l, r, p, rds) ==> WriterWired(Mark(l, wr), r, p, rds)
    ensures ReaderWired(l, r, p, wr) ==> ReaderWired(Mark(l, wr), r, p, wr)
    ensures Untouched(l, r, p) && p != wr ==> Untouched(Mark(l, wr), r, p)
  {
  }

  /** One step of a group, seen from a port. */
  lemma StepResult(r: Wires, w: Wires, wr: Port, rds: seq<Port>, p: Port)
    requires Has(r, wr) && Covers(r, rds) && NoDup(rds) && wr !in rds && Has(r, p)
    ensures var n := Mark(LinkBlock(r, wr, rds), wr);
            && wr in n.connected
            && (p != wr && p !in rds ==> Untouched(n, r, p))
            && (p in rds && Untouched(r, w, p) ==> ReaderWired(n, w, p, wr))
            && (Untouched(r, w, wr) ==> WriterWired(n, w, wr, rds))
  {
    hide LinkBlock, Untouched, WriterWired, ReaderWired, Mark, Has;
    var l := LinkBlock(r, wr, rds);
    BlockResult(r, wr, rds, p);
    MarkKeeps(l, r, wr, p, rds);
    MarkKeeps(l, r, wr, wr, rds);
    Carry(Mark(l, wr), r, w, p, wr, rds);
    Carry(Mark(l, wr), r, w, wr, wr, rds);
  }

  /** Wiring another write port's block does not disturb a wired block. */
  lemma OtherBlock(r: Wires, w: Wires, writers: seq<Port>, readers: seq<Port>, k: nat, wr: Port, rds: seq<Port>)
    requires Has(r, wr) && Covers(r, rds) && NoDup(rds) && wr !in rds
    requires k < |writers| && BlockWired(r, w, writers, readers, k)
    requires writers[k] != wr && writers[k] !in rds
    requires forall x | x in Block(writers, readers, k) :: x != wr && x !in rds
    ensures BlockWired(Mark(LinkBlock(r, wr, rds), wr), w, writers, readers, k)
  {
    hide LinkBlock, Mark, Block;
    var n, b := Mark(LinkBlock(r, wr, rds), wr), Block(writers, readers, k);
    StepResult(r, w, wr, rds, writers[k]);
    assert writers[k] in n.connected;
    Carry(n, r, w, writers[k], wr, b);
    hide WriterWired, Untouched;
    forall i | 0 <= i < |b| ensures ReaderWired(n, w, b[i], writers[k]) {
      StepResult(r, w, wr, rds, b[i]);
      Carry(n, r, w, b[i], writers[k], rds);
    }
  }

  /** The block that has just been wired. */
  lemma NewBlock(r: Wires, w: Wires, writers: seq<Port>, readers: seq<Port>, k: nat)
    requires k < |writers| && Has(r, writers[k])
    requires var rds := Block(writers, readers, k);
             && Covers(r, rds) && NoDup(rds) && writers[k] !in rds && |rds| == writers[k].fanout
             && forall i | 0 <= i < |rds| :: Untouched(r, w, rds[i])
    requires Untouched(r, w, writers[k])
    ensures BlockWired(Mark(LinkBlock(r, writers[k], Block(writers, readers, k)), writers[k]), w, writers, readers, k)
  {
    hide LinkBlock, Mark, Block, Untouched, ReaderWired, WriterWired;
    var wr, rds := writers[k], Block(writers, readers, k);
    StepResult(r, w, wr, rds, wr);
    forall i | 0 <= i < |rds| ensures ReaderWired(Mark(LinkBlock(r, wr, rds), wr), w, rds[i], wr) {
      StepResult(r, w, wr, rds, rds[i]);
    }
  }

  /** A port that the first `n` blocks have nothing to do with. */
  ghost predicate Outside(writers: seq<Port>, readers: seq<Port>, n: nat, p: Port)
    requires n <= |writers|
  {
    p !in writers[..n] && forall k | 0 <= k < n :: p !in Block(writers, readers, k)
  }

  /** The result for a group: every write port is wired to its block, and ports outside of the group stay as they were. */
  lemma {:induction false} GroupResult(w: Wires, writers: seq<Port>, readers: seq<Port>, n: nat)
    requires n <= |writers| && Covers(w, writers) && Covers(w, readers) && NoDup(writers + readers)
    requires AllAbove(Fans(writers)) && Offset(writers, n) <= |readers|
    ensures forall k | 0 <= k < n :: BlockWired(LinkGroup(w, writers, readers, n), w, writers, readers, k)
    ensures forall p | Has(w, p) && Outside(writers, readers, n, p) :: Untouched(LinkGroup(w, writers, readers, n), w, p)
  {
    hide BlockWired, Block, Offset, Fans, AllAbove, LinkBlock, Untouched, NoDup, Mark;
    if n > 0 {
      var r, m := LinkGroup(w, writers, readers, n - 1), n - 1;
      NextFits(writers, readers, m);
      GroupResult(w, writers, readers, m);
      GroupStep(w, r, writers, readers, m);
    } else {
      forall p | Has(w, p) ensures Untouched(w, w, p) {
        StaysSame(w, p);
      }
    }
  }

  lemma StaysSame(w: Wires, p: Port)
    requires Has(w, p)
    ensures Untouched(w, w, p)
  {
  }

  lemma NextFits(writers: seq<Port>, readers: seq<Port>, m: nat)
    requires m < |writers| && AllAbove(Fans(writers)) && Offset(writers, m + 1) <= |readers|
    ensures 0 <= Offset(writers, m) <= |readers|
  {
    SumGrows(Fans(writers), m);
  }

  lemma SumGrows(fans: seq<int>, m: nat)
    requires m < |fans| && AllAbove(fans)
    ensures 0 <= Sum(fans[..m]) <= Sum(fans[..m + 1])
  {
    hide *;
    SumMonotone(fans, m, m + 1);
  }

  /** No port occurs twice in a group. */
  lemma Separate(writers: seq<Port>, readers: seq<Port>, m: nat, k: nat)
    requires k <= m < |writers| && NoDup(writers + readers) && AllAbove(Fans(writers)) && Offset(writers, m + 1) <= |readers|
    ensures NoDup(readers) && writers[k] !in readers
    ensures k < m ==> writers[k] != writers[m] && forall x | x in Block(writers, readers, k) :: x !in Block(writers, readers, m)
    ensures forall x | x in Block(writers, readers, k) :: x in readers
  {
    hide Block, Offset, Fans;
    var s := writers + readers;
    assert forall i | 0 <= i < |readers| :: readers[i] == s[|writers| + i];
    assert writers[k] == s[k] && writers[m] == s[m];
    if k < m {
      BlocksApart(writers, readers, k, m);
    }
  }

  lemma GroupStep(w: Wires, r: Wires, writers: seq<Port>, readers: seq<Port>, m: nat)
    requires m < |writers| && Covers(w, writers) && Covers(w, readers) && NoDup(writers + readers)
    requires r.ports.Keys == w.ports.Keys && r.buffers.Keys == w.buffers.Keys
    requires AllAbove(Fans(writers)) && Offset(writers, m + 1) <= |readers|
    requires forall k | 0 <= k < m :: BlockWired(r, w, writers, readers, k)
    requires forall p | Has(w, p) && Outside(writers, readers, m, p) :: Untouched(r, w, p)
    ensures Has(r, writers[m]) && Covers(r, Block(writers, readers, m))
    ensures var n := Mark(LinkBlock(r, writers[m], Block(writers, readers, m)), writers[m]);
            && (forall k | 0 <= k <= m :: BlockWired(n, w, writers, readers, k))
            && (forall p | Has(w, p) && Outside(writers, readers, m + 1, p) :: Untouched(n, w, p))
  {
    hide BlockWired, Block, Offset, Fans, AllAbove, LinkBlock, Untouched, NoDup, Mark;
    BlockCovered(w, r, writers, readers, m);
    hide Has;
    var wr, rds := writers[m], Block(writers, readers, m);
    Separate(writers, readers, m, m);
    BlockIs(writers, readers, m);
    var n := Mark(LinkBlock(r, wr, rds), wr);
    forall k | 0 <= k <= m ensures BlockWired(n, w, writers, readers, k) {
      if k < m {
        Separate(writers, readers, m, k);
        OtherBlock(r, w, writers, readers, k, wr, rds);
      } else {
        NewIsOutside(writers, readers, m, wr);
        forall i | 0 <= i < |rds| ensures Untouched(r, w, rds[i]) {
          NewIsOutside(writers, readers, m, rds[i]);
        }
        NewBlock(r, w, writers, readers, m);
      }
    }
    forall p | Has(w, p) && Outside(writers, readers, m + 1, p) ensures Untouched(n, w, p) {
      assert writers[..m + 1] == writers[..m] + [wr];
      StepResult(r, w, wr, rds, p);
      Carry(n, r, w, p, wr, rds);
    }
  }

  lemma BlockCovered(w: Wires, r: Wires, writers: seq<Port>, readers: seq<Port>, m: nat)
    requires m < |writers| && Covers(w, writers) && Covers(w, readers)
    requires r.ports.Keys == w.ports.Keys && r.buffers.Keys == w.buffers.Keys
    ensures Has(r, writers[m]) && Has(w, writers[m])
    ensures Covers(r, Block(writers, readers, m)) && Covers(w, Block(writers, readers, m))
    ensures forall p | Has(w, p) :: Has(r, p)
  {
    hide Block;
  }

  /** The next write port and its block have not been touched yet. */
  lemma NewIsOutside(writers: seq<Port>, readers: seq<Port>, m: nat, p: Port)
    requires m < |writers| && NoDup(writers + readers) && AllAbove(Fans(writers)) && Offset(writers, m + 1) <= |readers|
    requires p == writers[m] || p in Block(writers, readers, m)
    ensures Outside(writers, readers, m, p)
  {
    hide Block, Offset, Fans, AllAbove, NoDup;
    Separate(writers, readers, m, m);
    forall k | 0 <= k < m ensures p != writers[k] && p !in Block(writers, readers, k) {
      Separate(writers, readers, m, k);
    }
  }

  // ---------------------------------------------------------------------------------------------------------
  // One group

  /** What connecting a group means: every write port has its block, or, without a write port, nothing happens. */
  ghost predicate GroupWired(now: Wires, was: Wires, writers: seq<Port>, readers: seq<Port>) {
    if writers == [] then forall i | 0 <= i < |readers| :: Untouched(now, was, readers[i])
    else forall k | 0 <= k < |writers| :: BlockWired(now, was, writers, readers, k)
  }

  /** In an accepted group, every read port is connected to one write port, the one whose block it is in. */
  lemma ReaderHasWriter(now: Wires, was: Wires, writers: seq<Port>, readers: seq<Port>, i: nat) returns (k: nat)
    requires Acceptable(writers, readers) && GroupWired(now, was, writers, readers) && writers != [] && i < |readers|
    ensures k < |writers| && Offset(writers, k) <= i < Offset(writers, k + 1)
    ensures ReaderWired(now, was, readers[i], writers[k])
  {
    hide Block, Offset, Fans, ReaderWired, WriterWired, AllAbove, Sum;
    WholeOffset(writers);
    k := FindBlock(writers, |writers|, i);
    OffsetWithin(writers, k);
    BlockIs(writers, readers, k);
    assert BlockWired(now, was, writers, readers, k);
    assert Block(writers, readers, k)[i - Offset(writers, k)] == readers[i];
  }

  lemma WholeOffset(writers: seq<Port>)
    ensures Offset(writers, |writers|) == Sum(Fans(writers))
  {
    assert Fans(writers)[..|writers|] == Fans(writers);
  }

  lemma OffsetWithin(writers: seq<Port>, k: nat)
    requires k < |writers| && AllAbove(Fans(writers))
    ensures Offset(writers, k + 1) <= Offset(writers, |writers|)
  {
    hide Fans, AllAbove, Sum;
    SumWithin(Fans(writers), k + 1);
  }

  lemma SumWithin(fans: seq<int>, k: nat)
    requires k <= |fans| && AllAbove(fans)
    ensures Sum(fans[..k]) <= Sum(fans[..|fans|])
  {
    hide *;
    SumMonotone(fans, k, |fans|);
  }

  lemma {:induction false} FindBlock(writers: seq<Port>, n: nat, i: nat) returns (k: nat)
    requires n <= |writers| && i < Offset(writers, n)
    ensures k < n && Offset(writers, k) <= i < Offset(writers, k + 1)
  {
    if Offset(writers, n - 1) <= i {
      k := n - 1;
    } else {
      k := FindBlock(writers, n - 1, i);
    }
  }

  /** Only the read ports of the blocks matter. */
  lemma {:induction false} LinkGroupPrefix(w: Wires, writers: seq<Port>, rest: seq<Port>, readers: seq<Port>, k: nat)
    requires k <= |writers| && Covers(w, writers) && Covers(w, rest) && Covers(w, readers)
    requires AllAbove(Fans(writers)) && readers <= rest && Offset(writers, k) <= |readers|
    ensures LinkGroup(w, writers, rest, k) == LinkGroup(w, writers, readers, k)
  {
    hide Block, Offset, Fans, AllAbove, LinkBlock, Mark, Has;
    if k > 0 {
      NextFits(writers, readers, k - 1);
      LinkGroupPrefix(w, writers, rest, readers, k - 1);
      BlockPrefix(writers, rest, readers, k - 1);
    }
  }

  lemma BlockPrefix(writers: seq<Port>, rest: seq<Port>, readers: seq<Port>, k: nat)
    requires k < |writers| && AllAbove(Fans(writers)) && readers <= rest && Offset(writers, k + 1) <= |readers|
    ensures Block(writers, rest, k) == Block(writers, readers, k)
  {
    hide Block, Offset, Fans, AllAbove;
    BlockIs(writers, rest, k);
    BlockIs(writers, readers, k);
  }

  /** Connects one read port to one write port, in both directions. */
  method ConnectPorts(s: seq<Port>, rd: Port, wr: Port, index: int)
    requires wr in s && rd in s && wr != rd
    modifies rd`connected, rd`connectedPorts, wr`buffers, wr`connectedPorts
    ensures Has(old(Now(s)), wr) && Has(old(Now(s)), rd) && Now(s) == Link(old(Now(s)), wr, rd, index)
  {
    ghost var was := Now(s);
    rd.connected := true;
    wr.buffers := wr.buffers[index := rd];
    wr.connectedPorts := wr.connectedPorts + [rd];
    rd.connectedPorts := rd.connectedPorts + [wr];
    forall p | p in s
      ensures p.connectedPorts == Link(was, wr, rd, index).ports[p] && p.buffers == Link(was, wr, rd, index).buffers[p]
      ensures p.connected <==> p in Link(was, wr, rd, index).connected
    {
    }
    NowIs(s, Link(was, wr, rd, index));
  }

  lemma NowIs(s: seq<Port>, w: Wires)
    requires w.ports.Keys == w.buffers.Keys == (set p | p in s) && w.connected <= w.ports.Keys
    requires forall p | p in s :: p.connectedPorts == w.ports[p] && p.buffers == w.buffers[p]
    requires forall p | p in s :: p.connected <==> p in w.connected
    ensures Now(s) == w
  {
  }

  /** Connects a write port with the read ports from position `from` on, as many as its fan-out. It is refused when one of
      them is not a read port, or when the list ends; which name the read ports have is not looked at. */
  method ConnectWrite(s: seq<Port>, i: nat, from: nat) returns (ok: bool)
    requires NoDup(s) && i < from <= |s| && s[i].fanout > 0
    modifies s
    ensures ok == (from + s[i].fanout <= |s| && forall q | from <= q < from + s[i].fanout :: s[q].key.kind == Read)
    ensures ok ==> Has(old(Now(s)), s[i]) && Covers(old(Now(s)), s[from..from + s[i].fanout])
    ensures ok ==> Now(s) == Mark(LinkBlock(old(Now(s)), s[i], s[from..from + s[i].fanout]), s[i])
  {
    hide Link, LinkBlock, Now, Linked, NoDup;
    var readPortPosition, endReadPort := from, from + s[i].fanout;
    NothingLinked(s, i, from);
    while readPortPosition < endReadPort
      invariant from <= readPortPosition <= |s| && readPortPosition <= endReadPort
      invariant forall q | from <= q < readPortPosition :: s[q].key.kind == Read
      invariant Linked(Now(s), old(Now(s)), s[i], s[from..readPortPosition])
    {
      if readPortPosition >= |s| || s[readPortPosition].key.kind != Read {
        return false;
      }
      DifferentPorts(s, i, readPortPosition);
      EachHas(s);
      LinkedNext(Now(s), old(Now(s)), s, i, from, readPortPosition);
      ConnectPorts(s, s[readPortPosition], s[i], readPortPosition - from);
      readPortPosition := readPortPosition + 1;
    }
    LinkedAll(Now(s), old(Now(s)), s[i], s[from..readPortPosition]);
    MarkConnected(s, s[i]);
    ok := true;
  }

  method MarkConnected(s: seq<Port>, wr: Port)
    requires wr in s
    modifies wr`connected
    ensures Now(s) == Mark(old(Now(s)), wr)
  {
    wr.connected := true;
  }

  lemma EachHas(s: seq<Port>)
    ensures forall i | 0 <= i < |s| :: Has(Now(s), s[i])
  {
  }

  lemma DifferentPorts(s: seq<Port>, i: nat, j: nat)
    requires NoDup(s) && i < j < |s|
    ensures s[i] != s[j]
  {
  }

  ghost predicate Linked(now: Wires, was: Wires, wr: Port, rds: seq<Port>) {
    Has(was, wr) && Covers(was, rds) && now == LinkBlock(was, wr, rds)
  }

  lemma NothingLinked(s: seq<Port>, i: nat, from: nat)
    requires i < |s| && from <= |s|
    ensures Linked(Now(s), Now(s), s[i], s[from..from])
  {
  }

  lemma LinkedAll(now: Wires, was: Wires, wr: Port, rds: seq<Port>)
    requires Linked(now, was, wr, rds)
    ensures Has(was, wr) && Covers(was, rds) && now == LinkBlock(was, wr, rds)
  {
  }

  lemma LinkedNext(now: Wires, was: Wires, s: seq<Port>, i: nat, from: nat, pos: nat)
    requires i < |s| && from <= pos < |s| && Linked(now, was, s[i], s[from..pos]) && Has(now, s[i]) && Has(now, s[pos])
    ensures Linked(Link(now, s[i], s[pos], pos - from), was, s[i], s[from..pos + 1])
  {
    hide Link, LinkBlock;
    LinkBlockNext(was, s[i], s[from..pos], s[pos]);
    assert s[from..pos + 1] == s[from..pos] + [s[pos]];
  }

  lemma LinkBlockNext(w: Wires, wr: Port, rds: seq<Port>, rd: Port)
    requires Has(w, wr) && Covers(w, rds) && Has(w, rd)
    ensures Covers(w, rds + [rd]) && Has(LinkBlock(w, wr, rds), wr) && Has(LinkBlock(w, wr, rds), rd)
    ensures LinkBlock(w, wr, rds + [rd]) == Link(LinkBlock(w, wr, rds), wr, rd, |rds|)
  {
    assert (rds + [rd])[..|rds|] == rds;
  }

  /** The checks that are made while a group is connected: as many ports as the fan-outs ask for follow, and all of them
      are read ports. */
  predicate PortChecks(s: seq<Port>, i: nat, w: nat)
    requires i + w <= |s|
  {
    var sum := Sum(Fans(s[i..i + w]));
    && AllAbove(Fans(s[i..i + w])) && i + w + sum <= |s|
    && forall q | i + w <= q < i + w + sum :: s[q].key.kind == Read
  }

  /** Connects the write ports of a group that starts at position `i`: `w` write ports, followed by `r` read ports. It is
      refused when there is no read port, when a fan-out is not positive, or when the fan-outs do not add up. */
  method ConnectGroup(s: seq<Port>, i: nat, w: nat, r: nat) returns (ok: bool)
    requires NoDup(s) && i + w + r <= |s|
    requires forall q | i + w <= q < i + w + r :: s[q].key.kind == Read
    modifies s
    ensures ok == Acceptable(s[i..i + w], s[i + w..i + w + r])
    ensures ok ==> GroupLinked(Now(s), old(Now(s)), s[i..i + w], s[i + w..i + w + r], w)
  {
    hide Now, LinkGroup, LinkBlock, NoDup, Offset, Fans, AllAbove, Block, Mark, Covers, Has, Sum;
    var readPortPosition;
    ok, readPortPosition := ConnectBlocks(s, i, w, r);
    AcceptableIff(s, i, w, r);
    if ok {
      ok := w == 0 || readPortPosition == i + w + r;
    }
    if ok {
      WholeOffset(s[i..i + w]);
      GroupPrefix(Now(s), old(Now(s)), s[i..i + w], s[i + w..], s[i + w..i + w + r]);
    }
  }

  lemma AcceptableIff(s: seq<Port>, i: nat, w: nat, r: nat)
    requires i + w + r <= |s| && forall q | i + w <= q < i + w + r :: s[q].key.kind == Read
    ensures var sum := Sum(Fans(s[i..i + w]));
            Acceptable(s[i..i + w], s[i + w..i + w + r]) <==> 0 < r && w <= r && PortChecks(s, i, w) && (w == 0 || sum == r)
    ensures w == 0 ==> Sum(Fans(s[i..i + w])) == 0 && AllAbove(Fans(s[i..i + w]))
  {
  }

  /** The same without the final count, the assertion that can be compiled out. */
  method ConnectBlocks(s: seq<Port>, i: nat, w: nat, r: nat) returns (ok: bool, readPortPosition: nat)
    requires NoDup(s) && i + w + r <= |s|
    modifies s
    ensures ok == (0 < r && w <= r && PortChecks(s, i, w))
    ensures ok ==> readPortPosition == i + w + Sum(Fans(s[i..i + w]))
    ensures ok ==> GroupLinked(Now(s), old(Now(s)), s[i..i + w], s[i + w..], w)
  {
    hide Now, LinkGroup, LinkBlock, NoDup, Offset, Fans, AllAbove, Block, Mark, Covers, Has, Sum;
    readPortPosition := i + w;
    if r == 0 || r < w {
      return false, readPortPosition;
    }
    ghost var writers, rest := s[i..i + w], s[i + w..];
    GroupStart(s, writers, rest);
    var writePortPosition := 0;
    while writePortPosition < w
      invariant writePortPosition <= w && readPortPosition == i + w + Offset(writers, writePortPosition) <= |s|
      invariant AllAbove(Fans(writers[..writePortPosition])) && readPortPosition >= i + w
      invariant forall q | i + w <= q < readPortPosition :: s[q].key.kind == Read
      invariant GroupLinked(Now(s), old(Now(s)), writers, rest, writePortPosition)
    {
      var k := writePortPosition;
      if s[i + k].fanout <= 0 {
        NotAbove(writers, k);
        return false, readPortPosition;
      }
      NextOffset(writers, k);
      ghost var now := Now(s);
      var connect := ConnectWrite(s, i + k, readPortPosition);
      if !connect {
        StillNeeded(writers, k);
        return false, readPortPosition;
      }
      assert rest[Offset(writers, k)..Offset(writers, k) + s[i + k].fanout] == s[readPortPosition..readPortPosition + s[i + k].fanout];
      MoreAbove(writers, k);
      GroupNext(now, old(Now(s)), writers, rest, k);
      readPortPosition := readPortPosition + s[i + k].fanout;
      writePortPosition := writePortPosition + 1;
    }
    WholeOffset(writers);
    assert writers[..w] == writers;
    ok := true;
  }

  /** The read ports of the first write ports are among those that all fan-outs ask for. */
  lemma StillNeeded(writers: seq<Port>, k: nat)
    requires k < |writers|
    ensures AllAbove(Fans(writers)) ==> Offset(writers, k + 1) <= Sum(Fans(writers))
  {
    hide Offset, Fans, AllAbove, Sum;
    WholeOffset(writers);
    if AllAbove(Fans(writers)) {
      OffsetWithin(writers, k);
    }
  }

  ghost predicate GroupLinked(now: Wires, was: Wires, writers: seq<Port>, readers: seq<Port>, k: nat) {
    k <= |writers| && Covers(was, writers) && Covers(was, readers) && now == LinkGroup(was, writers, readers, k)
  }

  lemma GroupStart(s: seq<Port>, writers: seq<Port>, rest: seq<Port>)
    requires (forall i | 0 <= i < |writers| :: writers[i] in s) && forall i | 0 <= i < |rest| :: rest[i] in s
    ensures GroupLinked(Now(s), Now(s), writers, rest, 0)
    ensures Offset(writers, 0) == 0 && AllAbove(Fans(writers[..0]))
  {
    forall p | p in s ensures Has(Now(s), p) {
    }
  }

  lemma NotAbove(writers: seq<Port>, k: nat)
    requires k < |writers| && writers[k].fanout <= 0
    ensures !AllAbove(Fans(writers))
  {
    assert Fans(writers)[k] <= 0;
  }

  lemma MoreAbove(writers: seq<Port>, k: nat)
    requires k < |writers| && AllAbove(Fans(writers[..k])) && writers[k].fanout > 0
    ensures AllAbove(Fans(writers[..k + 1]))
  {
    hide Fans;
    assert forall i | 0 <= i < k :: Fans(writers[..k])[i] == writers[..k + 1][i].fanout;
  }

  lemma GroupNext(now: Wires, was: Wires, writers: seq<Port>, rest: seq<Port>, k: nat)
    requires k < |writers| && GroupLinked(now, was, writers, rest, k) && Has(now, writers[k])
    requires 0 <= Offset(writers, k) <= Offset(writers, k + 1) <= |rest|
    requires Covers(now, rest[Offset(writers, k)..Offset(writers, k + 1)])
    ensures GroupLinked(Mark(LinkBlock(now, writers[k], rest[Offset(writers, k)..Offset(writers, k + 1)]), writers[k]),
                        was, writers, rest, k + 1)
  {
    hide Offset, LinkBlock, Mark, Has;
  }

  lemma GroupPrefix(now: Wires, was: Wires, writers: seq<Port>, rest: seq<Port>, readers: seq<Port>)
    requires GroupLinked(now, was, writers, rest, |writers|) && readers <= rest
    requires AllAbove(Fans(writers)) && Offset(writers, |writers|) <= |readers|
    ensures GroupLinked(now, was, writers, readers, |writers|)
  {
    hide Offset, LinkGroup, Fans, AllAbove, Has;
    LinkGroupPrefix(was, writers, rest, readers, |writers|);
  }

  // ---------------------------------------------------------------------------------------------------------
  // All groups

  function Writers(s: seq<Port>, id: Id): seq<Port> {
    WithKey(s, Key(id, Write))
  }

  function Readers(s: seq<Port>, id: Id): seq<Port> {
    WithKey(s, Key(id, Read))
  }

  ghost predicate AllAcceptable(s: seq<Port>) {
    forall j | 0 <= j < |s| :: Acceptable(Writers(s, s[j].key.id), Readers(s, s[j].key.id))
  }

  ghost predicate AllWired(now: Wires, was: Wires, s: seq<Port>) {
    forall j | 0 <= j < |s| :: GroupWired(now, was, Writers(s, s[j].key.id), Readers(s, s[j].key.id))
  }

  /** Sorts all ports and connects every group. It succeeds exactly if every name and instance has a read port and, when it
      has write ports, positive fan-outs that add up to the number of its read ports. Then, in the order of creation, the
      write ports of each name and instance are connected to consecutive blocks of its read ports. */
  method ConnectAll(a: array<Port>) returns (ok: bool)
    requires NoDup(a[..])
    modifies a, a[..]
    ensures Arranged(a[..]) && SameByKey(a[..], old(a[..]))
    ensures ok == AllAcceptable(old(a[..]))
    ensures ok ==> AllWired(Now(old(a[..])), old(Now(a[..])), old(a[..]))
  {
    hide InOrder, Arranged, NoDup, AllAcceptable, AllWired, Now, SameByKey;
    ghost var before := a[..];
    InsertionSort(a);
    var s := a[..];
    SameGroups(s, before);
    SamePorts(s, before);
    assert forall i | 0 <= i < |s| :: s[i] in before;
    ok := ConnectSorted(s);
    SamePorts(s, before);
    SameWired(Now(s), old(Now(before)), s, before);
  }

  lemma SamePorts(s: seq<Port>, t: seq<Port>)
    requires SameByKey(s, t)
    ensures (forall p :: p in s <==> p in t) && Now(s) == Now(t)
    ensures NoDup(t) ==> NoDup(s)
  {
    hide SameByKey, WithKey;
    SameByKeyPermutes(s, t);
    forall p ensures p in s <==> p in t {
      assert p in s <==> p in multiset(s);
      assert p in t <==> p in multiset(t);
    }
    if NoDup(t) {
      OncePerPort(s, t);
    }
  }

  lemma OncePerPort(s: seq<Port>, t: seq<Port>)
    requires multiset(s) == multiset(t) && NoDup(t)
    ensures NoDup(s)
  {
    forall i, j | 0 <= i < j < |s| ensures s[i] != s[j] {
      AtMostOnce(t, s[i]);
      assert s == s[..j] + s[j..];
      assert s[i] in s[..j] && s[j] in s[j..];
      assert multiset(s) == multiset(s[..j]) + multiset(s[j..]);
    }
  }

  lemma {:induction false} AtMostOnce(t: seq<Port>, p: Port)
    requires NoDup(t)
    ensures multiset(t)[p] <= 1
  {
    if t != [] {
      AtMostOnce(t[1..], p);
      assert t == [t[0]] + t[1..];
      if p == t[0] {
        assert p !in t[1..];
      }
    }
  }

  lemma SameGroups(s: seq<Port>, t: seq<Port>)
    requires SameByKey(s, t)
    ensures AllAcceptable(s) <==> AllAcceptable(t)
  {
    hide WithKey, Acceptable, Now, NoDup;
    SamePorts(s, t);
    if AllAcceptable(s) {
      AcceptableToo(s, t);
    }
    if AllAcceptable(t) {
      AcceptableToo(t, s);
    }
  }

  lemma AcceptableToo(s: seq<Port>, t: seq<Port>)
    requires SameByKey(s, t) && AllAcceptable(s) && forall p :: p in s <==> p in t
    ensures AllAcceptable(t)
  {
    hide WithKey, Acceptable;
    forall j | 0 <= j < |t| ensures Acceptable(Writers(t, t[j].key.id), Readers(t, t[j].key.id)) {
      assert t[j] in s;
      var k :| 0 <= k < |s| && s[k] == t[j];
    }
  }

  lemma SameWired(now: Wires, was: Wires, s: seq<Port>, t: seq<Port>)
    requires SameByKey(s, t)
    ensures AllWired(now, was, s) ==> AllWired(now, was, t)
  {
    hide WithKey, GroupWired, Now, NoDup;
    SamePorts(s, t);
    if AllWired(now, was, s) {
      forall j | 0 <= j < |t| ensures GroupWired(now, was, Writers(t, t[j].key.id), Readers(t, t[j].key.id)) {
        assert t[j] in s;
        var k :| 0 <= k < |s| && s[k] == t[j];
      }
    }
  }

  /** Counts the write ports and the read ports with the name and the instance of the port at `i`. */
  method CountGroup(s: seq<Port>, i: nat) returns (w: nat, r: nat)
    requires InOrder(s) && i < |s|
    ensures GroupAt(s, i, w, r)
  {
    hide Greater, InOrder;
    var id := s[i].key.id;
    w, r := 0, 0;
    while i + w + r < |s| && s[i + w + r].key.id == id
      invariant i + w + r <= |s|
      invariant forall q | i <= q < i + w :: s[q].key == Key(id, Write)
      invariant forall q | i + w <= q < i + w + r :: s[q].key == Key(id, Read)
      decreases |s| - w - r
    {
      var num := i + w + r;
      if s[num].key.kind == Write {
        if r > 0 {
          WriteFirst(s, num - 1, num);
        }
        assert r == 0;
        w := w + 1;
      } else {
        r := r + 1;
      }
    }
  }

  lemma WriteFirst(s: seq<Port>, i: nat, j: nat)
    requires InOrder(s) && i < j < |s| && s[i].key.id == s[j].key.id
    ensures s[j].key.kind == Write ==> s[i].key.kind == Write
  {
    CompareSigns(s[i].key.id.name, s[j].key.id.name);
  }

  /** The ports from `i` on: `w` write ports and `r` read ports of one name and instance, and then another one. */
  ghost predicate GroupAt(s: seq<Port>, i: nat, w: nat, r: nat) {
    && i < |s| && 0 < w + r && i + w + r <= |s|
    && (forall q | i <= q < i + w :: s[q].key == Key(s[i].key.id, Write))
    && (forall q | i + w <= q < i + w + r :: s[q].key == Key(s[i].key.id, Read))
    && (i + w + r < |s| ==> s[i + w + r].key.id != s[i].key.id)
  }

  /** A group starts where the name or the instance changes. */
  ghost predicate StartsAt(s: seq<Port>, i: nat) {
    0 < i < |s| ==> s[i - 1].key.id != s[i].key.id
  }

  lemma GroupElsewhere(s: seq<Port>, i: nat, w: nat, r: nat)
    requires InOrder(s) && GroupAt(s, i, w, r) && StartsAt(s, i)
    ensures forall q | (0 <= q < i) || (i + w + r <= q < |s|) :: s[q].key.id != s[i].key.id
  {
    hide Greater;
    var e := i + w + r;
    assert s[e - 1].key.id == s[i].key.id;
    forall q | (0 <= q < i) || (e <= q < |s|) ensures s[q].key.id != s[i].key.id {
      if q < i - 1 {
        OrderLaws(s[q].key, s[i - 1].key, s[i].key);
      } else if q > e {
        OrderLaws(s[e - 1].key, s[e].key, s[q].key);
      }
    }
  }

  /** A group is all ports of its name and instance. */
  lemma GroupIsWhole(s: seq<Port>, i: nat, w: nat, r: nat)
    requires InOrder(s) && GroupAt(s, i, w, r) && StartsAt(s, i)
    ensures Writers(s, s[i].key.id) == s[i..i + w] && Readers(s, s[i].key.id) == s[i + w..i + w + r]
  {
    GroupElsewhere(s, i, w, r);
    hide InOrder, WithKey;
    var a, b, c, d := s[..i], s[i..i + w], s[i + w..i + w + r], s[i + w + r..];
    assert s == a + b + c + d;
    PartsOfGroup(a, b, c, d, s[i].key.id);
  }

  lemma PartsOfGroup(a: seq<Port>, b: seq<Port>, c: seq<Port>, d: seq<Port>, id: Id)
    requires (forall q | 0 <= q < |a| :: a[q].key.id != id) && forall q | 0 <= q < |d| :: d[q].key.id != id
    requires (forall q | 0 <= q < |b| :: b[q].key == Key(id, Write)) && forall q | 0 <= q < |c| :: c[q].key == Key(id, Read)
    ensures Writers(a + b + c + d, id) == b && Readers(a + b + c + d, id) == c
  {
    hide WithKey;
    Four(a, b, c, d, Key(id, Write));
    Four(a, b, c, d, Key(id, Read));
    forall k | k == Key(id, Write) || k == Key(id, Read) ensures WithKey(a, k) == [] && WithKey(d, k) == [] {
      WithoutKey(a, k);
      WithoutKey(d, k);
    }
    AllWithKey(b, Key(id, Write));
    WithoutKey(b, Key(id, Read));
    AllWithKey(c, Key(id, Read));
    WithoutKey(c, Key(id, Write));
  }

  lemma {:induction false} WithKeyMembers(s: seq<Port>, k: Key)
    ensures forall p | p in WithKey(s, k) :: p in s && p.key == k
  {
    if s != [] {
      WithKeyMembers(s[1..], k);
    }
  }

  /** The groups before position `i` are connected, and the ports from there on are as they were. */
  ghost predicate Progress(now: Wires, was: Wires, s: seq<Port>, i: nat) {
    && Covers(now, s) && Covers(was, s)
    && (forall j | 0 <= j < |s| && j < i :: Acceptable(Writers(s, s[j].key.id), Readers(s, s[j].key.id)))
    && (forall j | 0 <= j < |s| && j < i :: GroupWired(now, was, Writers(s, s[j].key.id), Readers(s, s[j].key.id)))
    && (forall j | 0 <= j < |s| && j >= i :: Untouched(now, was, s[j]))
  }

  method ConnectSorted(s: seq<Port>) returns (ok: bool)
    requires InOrder(s) && NoDup(s)
    modifies s
    ensures ok == AllAcceptable(s)
    ensures ok ==> AllWired(Now(s), old(Now(s)), s)
  {
    hide InOrder, NoDup, Acceptable, Now, Progress, GroupWired, GroupLinked, WithKey;
    var i := 0;
    NothingDone(s);
    while i < |s|
      invariant i <= |s| && StartsAt(s, i) && Progress(Now(s), old(Now(s)), s, i)
    {
      var w, r := CountGroup(s, i);
      GroupIsWhole(s, i, w, r);
      ghost var prev := Now(s);
      ok := ConnectGroup(s, i, w, r);
      if !ok {
        return;
      }
      ProgressStep(Now(s), prev, old(Now(s)), s, i, w, r);
      i := i + w + r;
    }
    AllDone(Now(s), old(Now(s)), s);
    ok := true;
  }

  lemma NothingDone(s: seq<Port>)
    ensures Progress(Now(s), Now(s), s, 0)
  {
  }

  lemma AllDone(now: Wires, was: Wires, s: seq<Port>)
    requires Progress(now, was, s, |s|)
    ensures AllAcceptable(s) && AllWired(now, was, s)
  {
    hide Acceptable, GroupWired;
  }

  lemma BlockCarry(n: Wires, r: Wires, w: Wires, writers: seq<Port>, readers: seq<Port>, k: nat)
    requires k < |writers| && BlockWired(n, r, writers, readers, k)
    requires Untouched(r, w, writers[k]) && forall i | 0 <= i < |readers| :: Untouched(r, w, readers[i])
    ensures BlockWired(n, w, writers, readers, k)
  {
    hide Untouched, WriterWired, ReaderWired;
    var b := Block(writers, readers, k);
    Carry(n, r, w, writers[k], writers[k], b);
    forall i | 0 <= i < |b| ensures ReaderWired(n, w, b[i], writers[k]) {
      assert b[i] in readers;
      Carry(n, r, w, b[i], writers[k], b);
    }
  }

  lemma BlockCarryLater(n: Wires, r: Wires, w: Wires, writers: seq<Port>, readers: seq<Port>, k: nat)
    requires k < |writers| && BlockWired(r, w, writers, readers, k)
    requires Untouched(n, r, writers[k]) && forall i | 0 <= i < |readers| :: Untouched(n, r, readers[i])
    ensures BlockWired(n, w, writers, readers, k)
  {
    var b := Block(writers, readers, k);
    assert writers[k] in n.connected;
    hide Untouched, WriterWired, ReaderWired;
    Carry(n, r, w, writers[k], writers[k], b);
    forall i | 0 <= i < |b| ensures ReaderWired(n, w, b[i], writers[k]) {
      assert b[i] in readers;
      Carry(n, r, w, b[i], writers[k], b);
    }
  }

  /** Connecting another group does not disturb a group that is connected. */
  lemma GroupCarry(n: Wires, r: Wires, w: Wires, writers: seq<Port>, readers: seq<Port>)
    requires GroupWired(r, w, writers, readers)
    requires forall i | 0 <= i < |writers| :: Untouched(n, r, writers[i])
    requires forall i | 0 <= i < |readers| :: Untouched(n, r, readers[i])
    ensures GroupWired(n, w, writers, readers)
  {
    hide Untouched, BlockWired;
    if writers == [] {
      forall i | 0 <= i < |readers| ensures Untouched(n, w, readers[i]) {
        Carry(n, r, w, readers[i], readers[i], []);
      }
    } else {
      forall k | 0 <= k < |writers| ensures BlockWired(n, w, writers, readers, k) {
        BlockCarryLater(n, r, w, writers, readers, k);
      }
    }
  }

  /** What connecting one accepted group does. */
  lemma GroupEffect(n: Wires, r: Wires, w: Wires, writers: seq<Port>, readers: seq<Port>)
    requires GroupLinked(n, r, writers, readers, |writers|) && Acceptable(writers, readers) && NoDup(writers + readers)
    requires forall i | 0 <= i < |writers| :: Untouched(r, w, writers[i])
    requires forall i | 0 <= i < |readers| :: Untouched(r, w, readers[i])
    ensures GroupWired(n, w, writers, readers)
    ensures forall p | Has(r, p) && p !in writers && p !in readers :: Untouched(n, r, p)
  {
    WholeOffset(writers);
    hide Untouched, BlockWired, Offset, Fans, AllAbove, Block, NoDup, Sum;
    if writers == [] {
      forall p | Has(r, p) ensures Untouched(n, r, p) {
        StaysSame(r, p);
      }
    } else {
      GroupResult(r, writers, readers, |writers|);
      assert writers[..|writers|] == writers;
      forall k | 0 <= k < |writers| ensures BlockWired(n, w, writers, readers, k) {
        BlockCarry(n, r, w, writers, readers, k);
      }
      forall p | Has(r, p) && p !in writers && p !in readers ensures Untouched(n, r, p) {
        NotInBlocks(writers, readers, p);
      }
    }
  }

  lemma NotInBlocks(writers: seq<Port>, readers: seq<Port>, p: Port)
    requires p !in writers && p !in readers
    ensures Outside(writers, readers, |writers|, p)
  {
    hide Block;
    assert writers[..|writers|] == writers;
  }

  /** Connecting the group at position `i`. */
  lemma ProgressStep(n: Wires, r: Wires, w: Wires, s: seq<Port>, i: nat, nw: nat, nr: nat)
    requires InOrder(s) && NoDup(s) && GroupAt(s, i, nw, nr) && StartsAt(s, i) && Progress(r, w, s, i)
    requires Acceptable(s[i..i + nw], s[i + nw..i + nw + nr])
    requires GroupLinked(n, r, s[i..i + nw], s[i + nw..i + nw + nr], nw)
    ensures Progress(n, w, s, i + nw + nr) && StartsAt(s, i + nw + nr)
  {
    hide InOrder, NoDup, Acceptable, GroupWired, GroupLinked, WithKey, Untouched;
    var e, writers, readers := i + nw + nr, s[i..i + nw], s[i + nw..i + nw + nr];
    GroupElsewhere(s, i, nw, nr);
    GroupIsWhole(s, i, nw, nr);
    SliceOnce(s, i, nw, nr);
    forall k | 0 <= k < |readers| ensures Untouched(r, w, readers[k]) {
      assert readers[k] == s[i + nw + k];
    }
    GroupEffect(n, r, w, writers, readers);
    StillCovers(n, r, writers, readers, nw, s);
    hide GroupAt;
    forall j | 0 <= j < |s| && j < e
      ensures Acceptable(Writers(s, s[j].key.id), Readers(s, s[j].key.id))
      ensures GroupWired(n, w, Writers(s, s[j].key.id), Readers(s, s[j].key.id))
    {
      if j >= i {
        assert s[j].key.id == s[i].key.id by {
          InGroup(s, i, nw, nr, j);
        }
      } else {
        EarlierGroup(n, r, w, s, i, nw, nr, j);
      }
    }
    forall j | 0 <= j < |s| && j >= e ensures Untouched(n, w, s[j]) {
      LaterPort(n, r, w, s, i, nw, nr, j);
    }
    assert StartsAt(s, e) by {
      GroupEnds(s, i, nw, nr);
    }
  }

  lemma StillCovers(n: Wires, r: Wires, writers: seq<Port>, readers: seq<Port>, k: nat, s: seq<Port>)
    requires GroupLinked(n, r, writers, readers, k) && Covers(r, s)
    ensures Covers(n, s)
  {
  }

  lemma InGroup(s: seq<Port>, i: nat, nw: nat, nr: nat, j: nat)
    requires GroupAt(s, i, nw, nr) && i <= j < i + nw + nr
    ensures s[j].key.id == s[i].key.id
  {
  }

  lemma GroupEnds(s: seq<Port>, i: nat, nw: nat, nr: nat)
    requires GroupAt(s, i, nw, nr)
    ensures StartsAt(s, i + nw + nr)
  {
    InGroup(s, i, nw, nr, i + nw + nr - 1);
  }

  lemma SliceOnce(s: seq<Port>, i: nat, nw: nat, nr: nat)
    requires NoDup(s) && i + nw + nr <= |s|
    ensures NoDup(s[i..i + nw] + s[i + nw..i + nw + nr])
  {
    assert s[i..i + nw] + s[i + nw..i + nw + nr] == s[i..i + nw + nr];
  }

  /** A port of another name or instance is not in the group. */
  lemma NotInGroup(s: seq<Port>, i: nat, nw: nat, nr: nat, p: Port)
    requires GroupAt(s, i, nw, nr) && p.key.id != s[i].key.id
    ensures p !in s[i..i + nw] && p !in s[i + nw..i + nw + nr]
  {
  }

  lemma EarlierGroup(n: Wires, r: Wires, w: Wires, s: seq<Port>, i: nat, nw: nat, nr: nat, j: nat)
    requires GroupAt(s, i, nw, nr) && j < i < |s| && s[j].key.id != s[i].key.id
    requires GroupWired(r, w, Writers(s, s[j].key.id), Readers(s, s[j].key.id)) && Covers(r, s)
    requires forall p | Has(r, p) && p !in s[i..i + nw] && p !in s[i + nw..i + nw + nr] :: Untouched(n, r, p)
    ensures GroupWired(n, w, Writers(s, s[j].key.id), Readers(s, s[j].key.id))
  {
    hide GroupWired, WithKey, Untouched, GroupAt, Has;
    var id := s[j].key.id;
    WithKeyMembers(s, Key(id, Write));
    WithKeyMembers(s, Key(id, Read));
    var writers, readers := Writers(s, id), Readers(s, id);
    forall k | 0 <= k < |writers| ensures Untouched(n, r, writers[k]) {
      assert writers[k] in writers;
      NotInGroup(s, i, nw, nr, writers[k]);
    }
    forall k | 0 <= k < |readers| ensures Untouched(n, r, readers[k]) {
      assert readers[k] in readers;
      NotInGroup(s, i, nw, nr, readers[k]);
    }
    GroupCarry(n, r, w, writers, readers);
  }

  lemma LaterPort(n: Wires, r: Wires, w: Wires, s: seq<Port>, i: nat, nw: nat, nr: nat, j: nat)
    requires GroupAt(s, i, nw, nr) && i <= j < |s| && s[j].key.id != s[i].key.id && Has(r, s[j])
    requires Untouched(r, w, s[j])
    requires forall p | Has(r, p) && p !in s[i..i + nw] && p !in s[i + nw..i + nw + nr] :: Untouched(n, r, p)
    ensures Untouched(n, w, s[j])
  {
    hide Untouched, GroupAt, Has;
    NotInGroup(s, i, nw, nr, s[j]);
    Carry(n, r, w, s[j], s[j], []);
  }

  // ---------------------------------------------------------------------------------------------------------
  // What the checks on single ports do not see

  /** The checks on single ports accept a group whose fan-out exceeds its read ports, if a group without write ports follows: then a read port of
      another name is connected. Only the final count of the read ports detects it. */
  lemma PortChecksCrossGroups(wr: Port, rd: Port, other: Port)
    requires wr.key == Key(Id("A", 0), Write) && wr.fanout == 2
    requires rd.key == Key(Id("A", 0), Read) && other.key == Key(Id("B", 0), Read)
    ensures InOrder([wr, rd, other]) && GroupAt([wr, rd, other], 0, 1, 1)
    ensures PortChecks([wr, rd, other], 0, 1) && !Acceptable([wr], [rd])
    ensures Block([wr], [rd, other], 0) == [rd, other]
  {
    var s := [wr, rd, other];
    assert Compare("A", "B") == -1 && Compare("A", "A") == 0 && Compare("B", "B") == 0;
    assert s[0..1] == [wr] && Fans([wr]) == [2];
    assert [2][..1] == [2] && [2][..0] == [] && Sum([2]) == 2;
  }

  /** The ports that a port has been connected to. */
  function NewPorts(now: Wires, was: Wires, p: Port): seq<Port> {
    if p in now.ports && p in was.ports && |was.ports[p]| <= |now.ports[p]| then now.ports[p][|was.ports[p]|..] else []
  }

  /** Write ports are connected only to ports of one name and instance. */
  ghost predicate OnlyTo(now: Wires, was: Wires, writers: seq<Port>, id: Id) {
    forall wr, x | wr in writers && x in NewPorts(now, was, wr) :: x.key.id == id
  }

  /** Without the final count, the write ports of a group are connected to read ports of its own name and instance only,
      if and only if the fan-outs do not exceed the number of its read ports. */
  lemma StaysInGroupIff(now: Wires, was: Wires, s: seq<Port>, i: nat, w: nat, r: nat)
    requires GroupAt(s, i, w, r) && NoDup(s) && w > 0 && PortChecks(s, i, w)
    requires GroupLinked(now, was, s[i..i + w], s[i + w..], w)
    ensures OnlyTo(now, was, s[i..i + w], s[i].key.id) <==> Sum(Fans(s[i..i + w])) <= r
  {
    var writers, rest := s[i..i + w], s[i + w..];
    PlainGroup(s, i, w, r);
    hide *;
    BlocksAre(now, was, writers, rest);
    if Sum(Fans(writers)) <= r {
      StaysInside(now, was, writers, rest, r, s[i].key.id);
    } else {
      GoesOutside(now, was, writers, rest, r, s[i].key.id);
    }
  }

  lemma PlainGroup(s: seq<Port>, i: nat, w: nat, r: nat)
    requires GroupAt(s, i, w, r) && NoDup(s) && w > 0 && PortChecks(s, i, w)
    ensures var writers, rest := s[i..i + w], s[i + w..];
            && |writers| == w && NoDup(writers + rest) && AllAbove(Fans(writers)) && Sum(Fans(writers)) <= |rest|
            && r <= |rest| && (forall j | 0 <= j < r :: rest[j].key.id == s[i].key.id)
            && (r < |rest| ==> rest[r].key.id != s[i].key.id)
  {
    assert s[i..i + w] + s[i + w..] == s[i..];
  }

  /** A write port is connected to its block. */
  lemma BlocksAre(now: Wires, was: Wires, writers: seq<Port>, rest: seq<Port>)
    requires NoDup(writers + rest) && AllAbove(Fans(writers)) && Sum(Fans(writers)) <= |rest|
    requires GroupLinked(now, was, writers, rest, |writers|)
    ensures forall k | 0 <= k < |writers| :: NewPorts(now, was, writers[k]) == Block(writers, rest, k)
  {
    WholeOffset(writers);
    GroupResult(was, writers, rest, |writers|);
    hide NoDup, Sum, Fans, Offset, AllAbove, LinkGroup, Covers, Block;
    forall k | 0 <= k < |writers| ensures NewPorts(now, was, writers[k]) == Block(writers, rest, k) {
      assert BlockWired(now, was, writers, rest, k);
    }
  }

  lemma StaysInside(now: Wires, was: Wires, writers: seq<Port>, rest: seq<Port>, r: nat, id: Id)
    requires AllAbove(Fans(writers)) && Sum(Fans(writers)) <= r <= |rest| && forall j | 0 <= j < r :: rest[j].key.id == id
    requires forall k | 0 <= k < |writers| :: NewPorts(now, was, writers[k]) == Block(writers, rest, k)
    ensures OnlyTo(now, was, writers, id)
  {
    hide Block, Fans, AllAbove, Sum, NewPorts;
    forall wr, x | wr in writers && x in NewPorts(now, was, wr) ensures x.key.id == id {
      var k :| 0 <= k < |writers| && writers[k] == wr;
      BlockInside(writers, rest, k, r, id);
    }
  }

  lemma BlockInside(writers: seq<Port>, rest: seq<Port>, k: nat, r: nat, id: Id)
    requires AllAbove(Fans(writers)) && Sum(Fans(writers)) <= r <= |rest| && forall j | 0 <= j < r :: rest[j].key.id == id
    requires k < |writers|
    ensures forall x | x in Block(writers, rest, k) :: x.key.id == id
  {
    hide Block, Offset, Fans, AllAbove, Sum;
    WholeOffset(writers);
    OffsetWithin(writers, k);
    BlockIs(writers, rest, k);
  }

  lemma GoesOutside(now: Wires, was: Wires, writers: seq<Port>, rest: seq<Port>, r: nat, id: Id)
    requires AllAbove(Fans(writers)) && r < Sum(Fans(writers)) <= |rest| && rest[r].key.id != id
    requires forall k | 0 <= k < |writers| :: NewPorts(now, was, writers[k]) == Block(writers, rest, k)
    ensures !OnlyTo(now, was, writers, id)
  {
    hide Block, Fans, AllAbove, Sum, NewPorts;
    var k := CrossingBlock(writers, rest, r);
    assert rest[r] in NewPorts(now, was, writers[k]);
  }

  lemma CrossingBlock(writers: seq<Port>, rest: seq<Port>, r: nat) returns (k: nat)
    requires AllAbove(Fans(writers)) && r < Sum(Fans(writers)) <= |rest|
    ensures k < |writers| && rest[r] in Block(writers, rest, k)
  {
    hide Block, Offset, Fans, AllAbove, Sum;
    WholeOffset(writers);
    k := FindBlock(writers, |writers|, r);
    OffsetWithin(writers, k);
    BlockIs(writers, rest, k);
    var b := Block(writers, rest, k);
    assert b[r - Offset(writers, k)] == rest[r];
  }
}
