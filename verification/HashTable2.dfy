/** The open-addressing hash table: linear probing, and removal by putting the rest of the cluster back in. */
module HashTable2 {
  import opened Dictionary

  /** A 32-bit hash value. */
  newtype Word = x: int | 0 <= x < 0x1_0000_0000

  type Hasher = int -> Word

  /** A slot is unoccupied when its hash is 0. */
  datatype Slot = Slot(hash: int, key: int, datum: int)

  const VACANT := Slot(0, 0, 0)

  predicate Used(x: Slot) {
    x.hash != 0
  }

  /** nonzero_hash. */
  function Nonzero(h: Hasher, key: int): (w: int)
    ensures 0 < w < 0x1_0000_0000
  {
    if h(key) != 0 then h(key) as int else 0xFFFF_FFFF
  }

  /** The slot at which the probing for a hash starts. */
  function Home(hash: int, n: int): (i: int)
    requires n > 0
    ensures 0 <= i < n
  {
    hash % n
  }

  /** How many steps a probe takes from slot a to slot b of n. */
  function Dist(a: int, b: int, n: int): int {
    if a <= b then b - a else b - a + n
  }

  function After(i: int, n: int): int {
    if i + 1 == n then 0 else i + 1
  }

  type Slots = seq<Slot>

  ghost predicate OwnHash(s: Slots, h: Hasher) {
    forall i | 0 <= i < |s| && Used(s[i]) :: s[i].hash == Nonzero(h, s[i].key)
  }

  ghost predicate OneEach(s: Slots) {
    forall i, j | 0 <= i < |s| && 0 <= j < |s| && i != j && Used(s[i]) && Used(s[j]) :: s[i].key != s[j].key
  }

  ghost predicate Cleared(s: Slots) {
    forall i | 0 <= i < |s| && !Used(s[i]) :: s[i].datum == 0
  }

  /** Slot j lies between the home of the entry in slot i and i itself. */
  predicate OnWay(s: Slots, i: int, j: int)
    requires 0 <= i < |s|
  {
    Dist(Home(s[i].hash, |s|), j, |s|) < Dist(Home(s[i].hash, |s|), i, |s|)
  }

  /** No entry has an unoccupied slot between its home and itself. */
  ghost predicate Probed(s: Slots) {
    forall i, j | 0 <= i < |s| && 0 <= j < |s| && Used(s[i]) && OnWay(s, i, j) :: Used(s[j])
  }

  /** No entry was probed for across slot c. */
  ghost predicate Uncrossed(s: Slots, c: int) {
    0 <= c < |s| && forall i | 0 <= i < |s| && Used(s[i]) :: !OnWay(s, i, c)
  }

  /** The invariant. The last clause says something only of a full table: there is a slot that was filled last. */
  ghost predicate Tidy(s: Slots, h: Hasher) {
    && |s| > 0 && OwnHash(s, h) && OneEach(s) && Cleared(s) && Probed(s)
    && exists c :: Uncrossed(s, c)
  }

  /** The dictionary in the slots. */
  ghost function Contents(s: Slots): map<int, int>
    requires OneEach(s)
  {
    map i | 0 <= i < |s| && Used(s[i]) :: s[i].key := s[i].datum
  }

  function Occupied(s: Slots): nat {
    if s == [] then 0 else Occupied(s[..|s| - 1]) + if Used(s[|s| - 1]) then 1 else 0
  }

  lemma {:induction false} OccupiedUpdate(s: Slots, i: nat, x: Slot)
    requires i < |s|
    ensures Occupied(s[i := x]) == Occupied(s) + (if Used(x) then 1 else 0) - (if Used(s[i]) then 1 else 0)
  {
    var m := |s| - 1;
    if i < m {
      OccupiedUpdate(s[..m], i, x);
      assert s[i := x][..m] == s[..m][i := x];
    } else {
      assert s[i := x][..m] == s[..m];
    }
  }

  lemma {:induction false} OccupiedBound(s: Slots)
    ensures Occupied(s) <= |s|
    ensures Occupied(s) == |s| <==> forall i | 0 <= i < |s| :: Used(s[i])
  {
    if s != [] {
      var m := |s| - 1;
      OccupiedBound(s[..m]);
      assert forall i | 0 <= i < m :: s[..m][i] == s[i];
      if Occupied(s[..m]) == m && Used(s[m]) {
        forall i | 0 <= i < |s|
          ensures Used(s[i])
        {
          assert i < m ==> Used(s[..m][i]);
        }
      }
    }
  }

  lemma PrefixOneEach(s: Slots, m: nat)
    requires OneEach(s) && m <= |s|
    ensures OneEach(s[..m])
  {
    assert forall i | 0 <= i < m :: s[..m][i] == s[i];
  }

  lemma LastContents(s: Slots)
    requires OneEach(s) && s != []
    ensures var m := |s| - 1;
            && OneEach(s[..m])
            && (Used(s[m]) ==> s[m].key !in Contents(s[..m]))
            && (Used(s[m]) ==> Contents(s) == Contents(s[..m])[s[m].key := s[m].datum])
            && (!Used(s[m]) ==> Contents(s) == Contents(s[..m]))
  {
    hide OneEach, Contents;
    var m := |s| - 1;
    PrefixOneEach(s, m);
    var whole, part := Contents(s), Contents(s[..m]);
    forall k
      ensures k in part ==> k in whole && whole[k] == part[k] && (Used(s[m]) ==> k != s[m].key)
      ensures k in whole ==> k in part || (Used(s[m]) && k == s[m].key)
    {
      PrefixHolds(s, k);
    }
    if Used(s[m]) {
      HeldAt(s, m);
    }
  }

  lemma PrefixHolds(s: Slots, k: int)
    requires OneEach(s) && s != [] && OneEach(s[..|s| - 1])
    ensures var m, part := |s| - 1, Contents(s[..|s| - 1]);
            && (k in part ==> k in Contents(s) && Contents(s)[k] == part[k] && (Used(s[m]) ==> k != s[m].key))
            && (k in Contents(s) ==> k in part || (Used(s[m]) && k == s[m].key))
  {
    hide OneEach, Contents;
    var m := |s| - 1;
    if k in Contents(s[..m]) {
      var j := HolderOf(s[..m], k);
      HeldAt(s, j);
      if Used(s[m]) {
        KeysApart(s, j, m);
      }
    }
    if k in Contents(s) {
      var j := HolderOf(s, k);
      if j < m {
        HeldAt(s[..m], j);
      }
    }
  }

  lemma HolderOf(s: Slots, k: int) returns (j: int)
    requires OneEach(s) && k in Contents(s)
    ensures 0 <= j < |s| && Used(s[j]) && s[j].key == k && Contents(s)[k] == s[j].datum
  {
    j :| 0 <= j < |s| && Used(s[j]) && s[j].key == k;
  }

  lemma HeldAt(s: Slots, j: int)
    requires OneEach(s) && 0 <= j < |s| && Used(s[j])
    ensures s[j].key in Contents(s) && Contents(s)[s[j].key] == s[j].datum
  {
  }

  lemma KeysApart(s: Slots, i: int, j: int)
    requires OneEach(s) && 0 <= i < |s| && 0 <= j < |s| && i != j && Used(s[i]) && Used(s[j])
    ensures s[i].key != s[j].key
  {
  }

  /** The counter of a table is the size of its dictionary. */
  lemma {:induction false} OccupiedIsSize(s: Slots)
    requires OneEach(s)
    ensures Occupied(s) == |Contents(s)|
  {
    if s != [] {
      hide Contents, OneEach;
      LastContents(s);
      OccupiedIsSize(s[..|s| - 1]);
    } else {
      assert Contents(s) == map[];
    }
  }

  // ---------- probing ----------

  predicate Match(x: Slot, hash: int, key: int) {
    x.hash == hash && x.key == key
  }

  /** The probe from the home of hash to slot i meets only other entries. */
  ghost predicate Passed(s: Slots, hash: int, key: int, i: int)
    requires |s| > 0
  {
    forall j | 0 <= j < |s| && Dist(Home(hash, |s|), j, |s|) < Dist(Home(hash, |s|), i, |s|) ::
      Used(s[j]) && !Match(s[j], hash, key)
  }

  ghost predicate AllPassed(s: Slots, hash: int, key: int) {
    forall j | 0 <= j < |s| :: Used(s[j]) && !Match(s[j], hash, key)
  }

  /** A probe that reaches an unoccupied slot, or comes full circle, proves the key absent. */
  lemma ProbeDecides(s: Slots, h: Hasher, key: int, i: int)
    requires Tidy(s, h) && 0 <= i < |s|
    requires Passed(s, Nonzero(h, key), key, i) && !Used(s[i])
    ensures key !in Contents(s)
  {
    if key in Contents(s) {
      var k :| 0 <= k < |s| && Used(s[k]) && s[k].key == key;
      assert s[k].hash == Nonzero(h, key);
      if !OnWay(s, k, i) {
        assert Match(s[k], Nonzero(h, key), key);
      }
    }
  }

  lemma CircleDecides(s: Slots, h: Hasher, key: int)
    requires Tidy(s, h) && AllPassed(s, Nonzero(h, key), key)
    ensures key !in Contents(s)
  {
  }

  lemma MatchFound(s: Slots, h: Hasher, key: int, i: int)
    requires Tidy(s, h) && 0 <= i < |s| && Match(s[i], Nonzero(h, key), key)
    ensures key in Contents(s) && Contents(s)[key] == s[i].datum
  {
    assert Used(s[i]);
  }

  /** Nothing probes past a slot that was unoccupied until it was filled. */
  lemma FilledProbed(s: Slots, i: int, x: Slot)
    requires 0 <= i < |s| && Probed(s) && !Used(s[i]) && Used(x)
    requires forall j | 0 <= j < |s| && Dist(Home(x.hash, |s|), j, |s|) < Dist(Home(x.hash, |s|), i, |s|) :: Used(s[j])
    ensures Probed(s[i := x]) && Uncrossed(s[i := x], i)
  {
    var u := s[i := x];
    forall k, j | 0 <= k < |u| && 0 <= j < |u| && Used(u[k]) && OnWay(u, k, j)
      ensures Used(u[j]) && j != i
    {
      if k != i {
        assert OnWay(s, k, j);
      }
    }
  }

  lemma FilledOneEach(s: Slots, i: int, x: Slot)
    requires 0 <= i < |s| && OneEach(s) && !Used(s[i]) && x.key !in Contents(s)
    ensures OneEach(s[i := x])
  {
    forall j | 0 <= j < |s| && j != i && Used(s[j])
      ensures s[j].key != x.key
    {
      assert s[j].key in Contents(s);
    }
  }

  /** Filling the first unoccupied slot of a probe adds one entry and keeps the table tidy. */
  lemma Filled(s: Slots, h: Hasher, key: int, datum: int, i: int)
    requires Tidy(s, h) && 0 <= i < |s| && Passed(s, Nonzero(h, key), key, i) && !Used(s[i])
    ensures var u := s[i := Slot(Nonzero(h, key), key, datum)];
            Tidy(u, h) && Contents(u) == Contents(s)[key := datum] && Occupied(u) == Occupied(s) + 1
  {
    hide Contents, Occupied, Probed, Uncrossed, OneEach, OnWay;
    var x := Slot(Nonzero(h, key), key, datum);
    ProbeDecides(s, h, key, i);
    OccupiedUpdate(s, i, x);
    FilledProbed(s, i, x);
    FilledOneEach(s, i, x);
    UpdatedContents(s, i, x);
  }

  lemma UpdatedContents(s: Slots, i: int, x: Slot)
    requires 0 <= i < |s| && OneEach(s) && OneEach(s[i := x]) && Used(x)
    requires Used(s[i]) ==> s[i].key == x.key
    ensures Contents(s[i := x]) == Contents(s)[x.key := x.datum]
  {
    var u := s[i := x];
    var m, w := Contents(s)[x.key := x.datum], Contents(u);
    assert u[i] == x && forall j | 0 <= j < |s| && j != i :: u[j] == s[j];
    forall k | k in m
      ensures k in w && w[k] == m[k]
    {
      if k == x.key {
        assert Used(u[i]);
      } else {
        var j :| 0 <= j < |s| && Used(s[j]) && s[j].key == k;
        assert Used(u[j]) && u[j].key == k;
      }
    }
    forall k | k in w
      ensures k in m
    {
      var j :| 0 <= j < |u| && Used(u[j]) && u[j].key == k;
      assert j != i ==> Used(s[j]);
    }
  }

  // ---------- removal ----------

  function Emptied(s: Slots, i: int): Slots
    requires 0 <= i < |s|
  {
    s[i := Slot(0, s[i].key, 0)]
  }

  /** The slot d steps on from p. */
  function Ahead(p: int, d: int, n: int): int {
    if p + d < n then p + d else if p + d < 2 * n then p + d - n else p + d - 2 * n
  }

  /**
   What holds once the clean-up has done every slot less than d steps on from p: only entries still to come, and not
   past slot c, may be cut off from their homes, and only by slots already done.
   */
  ghost predicate Patched(s: Slots, p: int, d: int, c: int) {
    && 0 <= p < |s| && 0 < d && Uncrossed(s, c)
    && (forall i | 0 <= i < |s| && d <= Dist(p, i, |s|) < Dist(p, c, |s|) :: Used(s[i]))
    && (forall i, j | 0 <= i < |s| && 0 <= j < |s| && Used(s[i]) && OnWay(s, i, j) && !Used(s[j]) ::
          d <= Dist(p, i, |s|) <= Dist(p, c, |s|) && Dist(p, j, |s|) < d)
  }

  /** A slot no probe crosses and with no gap before it: the first unoccupied one after p, or the uncrossed one. */
  lemma ClusterEnd(s: Slots, p: int) returns (c: int)
    requires 0 <= p < |s| && Probed(s) && exists c' :: Uncrossed(s, c')
    ensures Uncrossed(s, c)
    ensures forall i | 0 <= i < |s| && 0 < Dist(p, i, |s|) < Dist(p, c, |s|) :: Used(s[i])
  {
    var c' :| Uncrossed(s, c');
    c := After(p, |s|);
    while Used(s[c]) && c != c' && c != p
      invariant 0 <= c < |s| && (c == p || 0 < Dist(p, c, |s|))
      invariant forall i | 0 <= i < |s| && 0 < Dist(p, i, |s|) && (c == p || Dist(p, i, |s|) < Dist(p, c, |s|)) ::
                  Used(s[i])
      decreases if c == p then 0 else |s| - Dist(p, c, |s|)
    {
      c := After(c, |s|);
    }
    if c == p {
      c := c';
    }
  }

  lemma PatchStart(s: Slots, p: int, c: int)
    requires 0 <= p < |s| && Probed(s) && Used(s[p]) && Uncrossed(s, c)
    requires forall i | 0 <= i < |s| && 0 < Dist(p, i, |s|) < Dist(p, c, |s|) :: Used(s[i])
    ensures Patched(Emptied(s, p), p, 1, c)
    ensures Dist(p, c, |s|) < Dist(p, Home(s[p].hash, |s|), |s|) || p == Home(s[p].hash, |s|) || Dist(p, c, |s|) == 0
  {
    var u, n := Emptied(s, p), |s|;
    forall i | 0 <= i < n && Used(u[i])
      ensures !OnWay(u, i, c)
    {
      assert !OnWay(s, i, c);
    }
    forall i, j | 0 <= i < n && 0 <= j < n && Used(u[i]) && OnWay(u, i, j) && !Used(u[j])
      ensures 1 <= Dist(p, i, n) <= Dist(p, c, n) && Dist(p, j, n) < 1
    {
      assert OnWay(s, i, j);
      assert j == p;
      assert !OnWay(s, i, c);
    }
    assert !OnWay(s, p, c);
  }

  /** The clean-up may stop at a slot d steps on that is unoccupied or the home of the removed entry. */
  lemma PatchEnd(s: Slots, p: int, d: int, c: int, first: int)
    requires Patched(s, p, d, c) && d <= |s| + 1 && 0 <= first < |s|
    requires !Used(s[Ahead(p, d, |s|)]) || Ahead(p, d, |s|) == first
    requires Dist(p, c, |s|) < Dist(p, first, |s|) || p == first || Dist(p, c, |s|) == 0
    ensures Probed(s)
  {
  }

  /** Where the entry of slot q goes when it is taken out and inserted again. */
  ghost predicate Landing(s: Slots, q: int, r: int)
    requires 0 <= q < |s|
  {
    && 0 <= r < |s|
    && (r == q || (!Used(s[r]) && OnWay(s, q, r)))
    && forall j | 0 <= j < |s| && Dist(Home(s[q].hash, |s|), j, |s|) < Dist(Home(s[q].hash, |s|), r, |s|) :: Used(s[j])
  }

  function Moved(s: Slots, q: int, r: int): Slots
    requires 0 <= q < |s| && 0 <= r < |s|
  {
    Emptied(s, q)[r := s[q]]
  }

  lemma MovedUncrossed(s: Slots, q: int, r: int, c: int)
    requires 0 <= q < |s| && Used(s[q]) && Landing(s, q, r) && Uncrossed(s, c)
    ensures Uncrossed(Moved(s, q, r), c)
  {
    var u := Moved(s, q, r);
    forall i | 0 <= i < |u| && Used(u[i])
      ensures !OnWay(u, i, c)
    {
      assert !OnWay(s, q, c);
      if i != r {
        assert Used(s[i]) && !OnWay(s, i, c);
      }
    }
  }

  /** Putting one entry back brings the clean-up one slot on. */
  lemma PatchStep(s: Slots, p: int, d: int, c: int, r: int)
    requires Patched(s, p, d, c) && d <= |s|
    requires var q := Ahead(p, d, |s|); Used(s[q]) && Landing(s, q, r)
    ensures Patched(Moved(s, Ahead(p, d, |s|), r), p, d + 1, c)
  {
    var n := |s|;
    var q := Ahead(p, d, n);
    var u := Moved(s, q, r);
    MovedUncrossed(s, q, r, c);
    if r != q {
      assert OnWay(s, q, r);
    }
    forall i, j | 0 <= i < n && 0 <= j < n && Used(u[i]) && OnWay(u, i, j) && !Used(u[j])
      ensures d + 1 <= Dist(p, i, n) <= Dist(p, c, n) && Dist(p, j, n) < d + 1
    {
      if i != r {
        assert OnWay(s, i, j);
        assert !OnWay(s, i, c);
      }
    }
  }

  lemma EmptiedOneEach(s: Slots, p: int)
    requires 0 <= p < |s| && OneEach(s)
    ensures OneEach(Emptied(s, p))
  {
  }

  lemma EmptiedContents(s: Slots, p: int)
    requires 0 <= p < |s| && Used(s[p]) && OneEach(s)
    ensures OneEach(Emptied(s, p)) && Contents(Emptied(s, p)) == Contents(s) - {s[p].key}
    ensures Occupied(Emptied(s, p)) == Occupied(s) - 1
  {
    hide Occupied;
    OccupiedUpdate(s, p, Slot(0, s[p].key, 0));
    EmptiedOneEach(s, p);
    EmptiedMap(s, p);
  }

  lemma EmptiedMap(s: Slots, p: int)
    requires 0 <= p < |s| && Used(s[p]) && OneEach(s) && OneEach(Emptied(s, p))
    ensures Contents(Emptied(s, p)) == Contents(s) - {s[p].key}
  {
    var u := Emptied(s, p);
    assert forall j | 0 <= j < |s| && j != p :: u[j] == s[j];
    hide OneEach, Contents;
    var m, w := Contents(s) - {s[p].key}, Contents(u);
    forall k | k in m
      ensures k in w && w[k] == m[k]
    {
      var j := HolderOf(s, k);
      HeldAt(u, j);
    }
    forall k | k in w
      ensures k in m
    {
      var j := HolderOf(u, k);
      HeldAt(s, j);
      KeysApart(s, j, p);
    }
  }

  lemma MovedContents(s: Slots, q: int, r: int)
    requires 0 <= q < |s| && 0 <= r < |s| && Used(s[q]) && OneEach(s) && (r == q || !Used(s[r]))
    ensures OneEach(Moved(s, q, r)) && Contents(Moved(s, q, r)) == Contents(s)
    ensures Occupied(Moved(s, q, r)) == Occupied(s)
  {
    hide Contents, Occupied;
    var u, w := Emptied(s, q), Moved(s, q, r);
    EmptiedContents(s, q);
    OccupiedUpdate(u, r, s[q]);
    assert OneEach(w) by {
      forall i, j | 0 <= i < |w| && 0 <= j < |w| && i != j && Used(w[i]) && Used(w[j])
        ensures w[i].key != w[j].key
      {
        var i', j' := if i == r then q else i, if j == r then q else j;
        assert Used(s[i']) && Used(s[j']) && w[i].key == s[i'].key && w[j].key == s[j'].key;
      }
    }
    UpdatedContents(u, r, s[q]);
    HeldAt(s, q);
  }

  // ---------- the primes a table's size is taken from ----------

  const PRIMES: seq<int> := [
    11, 17, 37, 67, 131, 257, 521, 1031, 2053, 4099, 8209, 16411, 32771, 65537, 131101, 262147, 524309, 1048583,
    2097169, 4194319, 8388617, 16777259, 33554467, 67108879, 134217757, 268435459, 536870923, 1073741827,
    2147483659, 4294967291
  ]

  const LARGEST := 4294967291

  lemma EntryOdd(i: nat)
    requires i < 30
    ensures PRIMES[i] % 2 == 1 && 11 <= PRIMES[i] <= LARGEST
  {
  }

  /** The sizes a table can have: the entries of dict_prime_geq's table. */
  predicate TableSize(n: int): (b: bool)
    ensures b ==> n % 2 == 1 && 11 <= n <= LARGEST
  {
    assert n in PRIMES ==> n % 2 == 1 && 11 <= n <= LARGEST by {
      if n in PRIMES {
        var i :| 0 <= i < |PRIMES| && PRIMES[i] == n;
        EntryOdd(i);
      }
    }
    n in PRIMES
  }

  /** No entry of the table from place i on is large enough and smaller than p. */
  ghost predicate NoneBetween(n: int, i: nat, p: int) {
    forall j | i <= j < |PRIMES| :: PRIMES[j] < n || p <= PRIMES[j]
  }

  /** dict_prime_geq, from a place in the table on: the least entry there that is large enough, or the largest. */
  function PrimeFrom(n: int, i: nat): (p: int)
    requires i <= 30
    ensures TableSize(p) && (p >= n || p == LARGEST)
    ensures NoneBetween(n, i, p)
    decreases 30 - i
  {
    if i == 30 then LARGEST else if PRIMES[i] >= n then PRIMES[i] else PrimeFrom(n, i + 1)
  }

  /** hashtable2_search and hashtable2_remove probe alike: the slot of the key, or -1. */
  method Probe(table: array<Slot>, key: int, hash: int) returns (slot: int)
    requires table.Length > 0 && hash != 0
    ensures slot >= 0 ==> slot < table.Length && Match(table[slot], hash, key)
    ensures slot < 0 ==>
              || AllPassed(table[..], hash, key)
              || exists i | 0 <= i < table.Length :: !Used(table[i]) && Passed(table[..], hash, key, i)
  {
    var first := Home(hash, table.Length);
    var node := first;
    while true
      invariant 0 <= node < table.Length && Passed(table[..], hash, key, node)
      decreases table.Length - Dist(first, node, table.Length)
    {
      if !Used(table[node]) {
        return -1;
      }
      if Match(table[node], hash, key) {
        return node;
      }
      node := After(node, table.Length);
      if node == first {
        assert AllPassed(table[..], hash, key);
        return -1;
      }
    }
  }

  /** insert: the slot of the key, old or new, or -1 when there is no room. */
  method InsertSlot(table: array<Slot>, key: int, hash: int) returns (slot: int, inserted: bool)
    requires table.Length > 0 && hash != 0
    requires Cleared(table[..])
    modifies table
    ensures !inserted ==> table[..] == old(table[..])
    ensures inserted ==>
              && 0 <= slot < table.Length && !Used(old(table[slot])) && Passed(old(table[..]), hash, key, slot)
              && table[..] == old(table[..])[slot := Slot(hash, key, 0)]
    ensures !inserted && slot >= 0 ==> slot < table.Length && Match(table[slot], hash, key)
    ensures slot < 0 ==> !inserted && AllPassed(table[..], hash, key)
  {
    var first := Home(hash, table.Length);
    var node := first;
    while true
      invariant 0 <= node < table.Length && Passed(table[..], hash, key, node)
      invariant table[..] == old(table[..])
      decreases table.Length - Dist(first, node, table.Length)
    {
      if !Used(table[node]) {
        assert !Used(table[..][node]) && table[node].datum == 0;
        table[node] := Slot(hash, key, table[node].datum);
        return node, true;
      }
      if Match(table[node], hash, key) {
        return node, false;
      }
      node := After(node, table.Length);
      if node == first {
        assert AllPassed(table[..], hash, key);
        return -1, false;
      }
    }
  }

  class HashTable2 {
    const hashFunc: Hasher
    var table: array<Slot>
    var size: int
    var count: int

    ghost predicate Valid()
      reads this, table
    {
      && size == table.Length && TableSize(size)
      && Tidy(table[..], hashFunc)
      && count == Occupied(table[..])
    }

    ghost function Entries(): map<int, int>
      reads this, table
      requires Valid()
    {
      Contents(table[..])
    }

    /** hashtable2_new. */
    constructor (h: Hasher, initialSize: int)
      requires initialSize > 0
      ensures Valid() && Entries() == map[] && hashFunc == h && fresh(table)
      ensures size == PrimeFrom(initialSize, 0)
    {
      hashFunc, count := h, 0;
      size := PrimeFrom(initialSize, 0);
      table := new Slot[PrimeFrom(initialSize, 0)](_ => VACANT);
      new;
      EmptyTable(table[..], h);
    }

    /** hashtable2_search. */
    method Search(key: int) returns (slot: int)
      requires Valid()
      ensures slot >= 0 <==> key in Entries()
      ensures slot >= 0 ==> slot < size && Used(table[slot])
      ensures slot >= 0 ==> table[slot].key == key && table[slot].datum == Entries()[key]
    {
      slot := Probe(table, key, Nonzero(hashFunc, key));
      ghost var s := table[..];
      if slot >= 0 {
        MatchFound(s, hashFunc, key, slot);
      } else if AllPassed(s, Nonzero(hashFunc, key), key) {
        CircleDecides(s, hashFunc, key);
      } else {
        ghost var i :| 0 <= i < table.Length && !Used(table[i]) && Passed(s, Nonzero(hashFunc, key), key, i);
        ProbeDecides(s, hashFunc, key, i);
      }
    }
  
    /** hashtable2_resize: the same dictionary in a table of another size, unless it would not fit. */
    method Resize(newSize: int) returns (done: bool)
      requires Valid() && newSize > 0
      modifies this
      ensures Valid() && Entries() == old(Entries()) && count == old(count)
      ensures done <==> old(count) <= PrimeFrom(newSize, 0)
      ensures size == if done then PrimeFrom(newSize, 0) else old(size)
      ensures table == old(table) || fresh(table)
    {
      hide OwnHash, OneEach, Cleared, Probed, Contents, Occupied;
      ghost var s := table[..];
      OccupiedBound(s);
      var n := PrimeFrom(newSize, 0);
      if size == n {
        return true;
      }
      if count > n {
        return false;
      }
      var newTable := new Slot[n](_ => VACANT);
      EmptyTable(newTable[..], hashFunc);
      WholeTable(s);
      var i := 0;
      while i < size
        invariant count == old(count) && table == old(table)
        invariant 0 <= i <= size == |s| && s == table[..] == old(table[..])
        invariant Tidy(newTable[..], hashFunc) && OneEach(s[..i])
        invariant Contents(newTable[..]) == Contents(s[..i]) && Occupied(newTable[..]) == Occupied(s[..i])
      {
        RehashStep(s, i);
        if Used(table[i]) {
          ghost var t := newTable[..];
          OwnHashAt(s, hashFunc, i);
          var slot, inserted := InsertSlot(newTable, table[i].key, table[i].hash);
          RehashInserts(s, i, t, hashFunc, slot, inserted);
          newTable[slot] := newTable[slot].(datum := table[i].datum);
          assert newTable[..] == t[slot := table[i]];
        }
        i := i + 1;
      }
      assert s[..i] == s;
      table, size := newTable, n;
      done := true;
    }

    /** hashtable2_insert. Only a table of the largest prime can be full, and then it reports so. */
    method Insert(key: int) returns (slot: int, inserted: bool)
      requires Valid()
      modifies this, table
      ensures Valid() && (table == old(table) || fresh(table))
      ensures inserted <==> key !in old(Entries()) && slot >= 0
      ensures Entries() == if inserted then old(Entries())[key := 0] else old(Entries())
      ensures slot >= 0 ==> slot < size && Used(table[slot]) && table[slot].key == key
      ensures slot < 0 ==> key !in old(Entries()) && count == size
      ensures old(size) < LARGEST ==> slot >= 0 && count < size
      ensures size == if 3 * old(count) >= 2 * old(size) && old(count) <= PrimeFrom(old(size) + 1, 0)
                      then PrimeFrom(old(size) + 1, 0) else old(size)
    {
      hide OwnHash, OneEach, Probed, Contents, Occupied, Passed, AllPassed, Uncrossed, Home, Dist, Nonzero;
      hide TableSize, PrimeFrom;
      OccupiedBound(table[..]);
      if 3 * count >= 2 * size {
        var _ := Resize(size + 1);
      }
      ghost var s := table[..];
      OccupiedBound(s);
      var hash := Nonzero(hashFunc, key);
      slot, inserted := InsertSlot(table, key, hash);
      InsertOutcome(s, hashFunc, key, slot, inserted);
      if inserted {
        count := count + 1;
      }
    }

    /** Writing through the datum pointer that an insertion or a search returned. */
    method Store(slot: int, datum: int)
      requires Valid() && 0 <= slot < size && Used(table[slot])
      modifies table
      ensures Valid() && Entries() == old(Entries())[old(table[slot].key) := datum]
    {
      ghost var s := table[..];
      StoreKeepsTidy(s, hashFunc, slot, datum);
      table[slot] := table[slot].(datum := datum);
      assert table[..] == s[slot := s[slot].(datum := datum)];
    }

    /** One round of remove_cleanup: the entry at node is taken out and inserted again; its assertions hold. */
    method Reinsert(node: int, ghost p: int, ghost d: int, ghost c: int)
      requires table.Length > 0 && 0 <= p < table.Length && 0 < d <= table.Length && node == Ahead(p, d, table.Length)
      requires Used(table[node]) && OwnHash(table[..], hashFunc) && OneEach(table[..]) && Cleared(table[..])
      requires Patched(table[..], p, d, c)
      modifies table
      ensures OwnHash(table[..], hashFunc) && OneEach(table[..]) && Cleared(table[..])
      ensures Patched(table[..], p, d + 1, c)
      ensures OneEach(old(table[..])) && Contents(table[..]) == Contents(old(table[..]))
      ensures Occupied(table[..]) == Occupied(old(table[..]))
    {
      hide OwnHash, OneEach, Cleared, Probed, Contents, Occupied, Patched, Passed, AllPassed, Landing, Uncrossed;
      ghost var s := table[..];
      var x := table[node];
      table[node] := Slot(0, x.key, 0);
      assert table[..] == Emptied(s, node);
      TakenOut(s, hashFunc, node);
      var slot, inserted := InsertSlot(table, x.key, x.hash);
      PutBack(s, hashFunc, node, slot, inserted);
      assert inserted && slot >= 0 && table[slot].datum == 0;
      table[slot] := table[slot].(datum := x.datum);
      assert table[..] == Moved(s, node, slot);
      PatchStep(s, p, d, c, slot);
      MovedContents(s, node, slot);
      MovedTidy(s, hashFunc, node, slot);
    }

    /** remove_cleanup: the slots after a removed entry are taken out and inserted again, one by one. */
    method RemoveCleanup(first: int, start: int, ghost p: int, ghost c: int)
      requires size == table.Length > 1 && 0 <= first < size && 0 <= p < size && start == After(p, size)
      requires OwnHash(table[..], hashFunc) && OneEach(table[..]) && Cleared(table[..])
      requires Patched(table[..], p, 1, c)
      requires Dist(p, c, size) < Dist(p, first, size) || p == first || Dist(p, c, size) == 0
      modifies table
      ensures OwnHash(table[..], hashFunc) && OneEach(table[..]) && Cleared(table[..]) && Probed(table[..])
      ensures exists c :: Uncrossed(table[..], c)
      ensures OneEach(old(table[..])) && Contents(table[..]) == Contents(old(table[..]))
      ensures Occupied(table[..]) == Occupied(old(table[..]))
    {
      hide OwnHash, OneEach, Cleared, Probed, Contents, Occupied, Patched, Passed, AllPassed, Landing, Uncrossed;
      var node := start;
      ghost var d := 1;
      while true
        invariant size == table.Length && node == Ahead(p, d, size) && 0 < d < Turns(p, first, size)
        invariant OwnHash(table[..], hashFunc) && OneEach(table[..]) && Cleared(table[..])
        invariant Patched(table[..], p, d, c)
        invariant Contents(table[..]) == Contents(old(table[..])) && Occupied(table[..]) == Occupied(old(table[..]))
        decreases size - d
      {
        if !Used(table[node]) {
          break;
        }
        Reinsert(node, p, d, c);
        node, d := After(node, size), d + 1;
        if node == first {
          break;
        }
      }
      PatchEnd(table[..], p, d, c, first);
      PatchedUncrossed(table[..], p, d, c);
    }

    /** hashtable2_remove, with remove_node. */
    method Remove(key: int) returns (result: MaybeEntry)
      requires Valid()
      modifies this, table
      ensures Valid() && table == old(table) && size == old(size)
      ensures result == if key in old(Entries()) then Entry(key, old(Entries())[key]) else NoEntry
      ensures Entries() == old(Entries()) - {key}
    {
      hide OwnHash, OneEach, Cleared, Probed, Contents, Occupied, Patched, Passed, AllPassed, Uncrossed;
      ghost var s := table[..];
      var node := Search(key);
      if node < 0 {
        assert Entries() - {key} == Entries();
        return NoEntry;
      }
      var first := Home(Nonzero(hashFunc, key), size);
      result := Entry(table[node].key, table[node].datum);
      ghost var c := RemovalStart(s, hashFunc, node);
      EmptiedContents(s, node);
      table[node] := Slot(0, table[node].key, 0);
      assert table[..] == Emptied(s, node);
      count := count - 1;
      RemoveCleanup(first, After(node, size), node, c);
    }
  }

  /** The number of steps after which the clean-up is back at first. */
  function Turns(p: int, first: int, n: int): int {
    if Dist(p, first, n) <= 1 then Dist(p, first, n) + n else Dist(p, first, n)
  }

  lemma {:induction false} AllVacant(s: Slots)
    requires forall i | 0 <= i < |s| :: s[i] == VACANT
    ensures Occupied(s) == 0
  {
    if s != [] {
      AllVacant(s[..|s| - 1]);
    }
  }

  lemma EmptyTable(s: Slots, h: Hasher)
    requires |s| > 0 && forall i | 0 <= i < |s| :: s[i] == VACANT
    ensures Tidy(s, h) && Contents(s) == map[] && Occupied(s) == 0
  {
    AllVacant(s);
    assert Uncrossed(s, 0);
  }

  lemma WholeTable(s: Slots)
    ensures OneEach(s[..0]) && Contents(s[..0]) == map[] && Occupied(s[..0]) == 0 && s[..|s|] == s
  {
  }

  lemma RehashStep(s: Slots, i: int)
    requires 0 <= i < |s| && OneEach(s)
    ensures OneEach(s[..i]) && OneEach(s[..i + 1])
    ensures Used(s[i]) ==> s[i].key !in Contents(s[..i])
    ensures Used(s[i]) ==> Contents(s[..i + 1]) == Contents(s[..i])[s[i].key := s[i].datum]
    ensures !Used(s[i]) ==> Contents(s[..i + 1]) == Contents(s[..i])
    ensures Occupied(s[..i + 1]) == Occupied(s[..i]) + (if Used(s[i]) then 1 else 0) <= Occupied(s)
  {
    PrefixOneEach(s, i);
    PrefixOneEach(s, i + 1);
    LastContents(s[..i + 1]);
    assert s[..i + 1][..i] == s[..i];
    OccupiedPrefix(s, i + 1);
  }

  lemma {:induction false} OccupiedPrefix(s: Slots, m: nat)
    requires m <= |s|
    ensures Occupied(s[..m]) <= Occupied(s)
  {
    if m < |s| {
      OccupiedPrefix(s[..|s| - 1], m);
      assert s[..|s| - 1][..m] == s[..m];
    } else {
      assert s[..m] == s;
    }
  }

  lemma OwnHashAt(s: Slots, h: Hasher, i: int)
    requires OwnHash(s, h) && 0 <= i < |s| && Used(s[i])
    ensures s[i].hash == Nonzero(h, s[i].key)
  {
  }

  /** Rehashing never meets a key twice and never runs out of room. */
  lemma RehashInserts(s: Slots, i: int, t: Slots, h: Hasher, slot: int, inserted: bool)
    requires 0 <= i < |s| && Used(s[i]) && s[i].hash == Nonzero(h, s[i].key)
    requires Tidy(t, h) && s[i].key !in Contents(t) && Occupied(t) < |t|
    requires inserted ==> 0 <= slot < |t| && !Used(t[slot]) && Passed(t, s[i].hash, s[i].key, slot)
    requires !inserted && slot >= 0 ==> slot < |t| && Match(t[slot], s[i].hash, s[i].key)
    requires slot < 0 ==> !inserted && AllPassed(t, s[i].hash, s[i].key)
    ensures inserted
    ensures var u := t[slot := s[i]];
            && Tidy(u, h) && Contents(u) == Contents(t)[s[i].key := s[i].datum] && Occupied(u) == Occupied(t) + 1
  {
    OccupiedBound(t);
    if !inserted && slot >= 0 {
      MatchFound(t, h, s[i].key, slot);
    }
    Filled(t, h, s[i].key, s[i].datum, slot);
  }

  lemma InsertOutcome(s: Slots, h: Hasher, key: int, slot: int, inserted: bool)
    requires Tidy(s, h)
    requires inserted ==> 0 <= slot < |s| && !Used(s[slot]) && Passed(s, Nonzero(h, key), key, slot)
    requires !inserted && slot >= 0 ==> slot < |s| && Match(s[slot], Nonzero(h, key), key)
    requires slot < 0 ==> !inserted && AllPassed(s, Nonzero(h, key), key)
    ensures inserted <==> key !in Contents(s) && slot >= 0
    ensures slot < 0 ==> key !in Contents(s) && Occupied(s) == |s|
    ensures inserted ==>
              var u := s[slot := Slot(Nonzero(h, key), key, 0)];
              Tidy(u, h) && Contents(u) == Contents(s)[key := 0] && Occupied(u) == Occupied(s) + 1
  {
    OccupiedBound(s);
    if inserted {
      Filled(s, h, key, 0, slot);
      ProbeDecides(s, h, key, slot);
    } else if slot >= 0 {
      MatchFound(s, h, key, slot);
    } else {
      CircleDecides(s, h, key);
    }
  }

  lemma StoreKeepsTidy(s: Slots, h: Hasher, slot: int, datum: int)
    requires Tidy(s, h) && 0 <= slot < |s| && Used(s[slot])
    ensures var u := s[slot := s[slot].(datum := datum)];
            Tidy(u, h) && Contents(u) == Contents(s)[s[slot].key := datum] && Occupied(u) == Occupied(s)
  {
    hide Occupied, Contents;
    var x := s[slot].(datum := datum);
    var u := s[slot := x];
    OccupiedUpdate(s, slot, x);
    var c :| Uncrossed(s, c);
    forall i, j | 0 <= i < |s| && 0 <= j < |s| && Used(u[i]) && OnWay(u, i, j)
      ensures Used(u[j]) && j != c
    {
      assert OnWay(s, i, j);
    }
    assert Uncrossed(u, c);
    UpdatedContents(s, slot, x);
  }

  lemma PatchedUncrossed(s: Slots, p: int, d: int, c: int)
    requires Patched(s, p, d, c)
    ensures exists c :: Uncrossed(s, c)
  {
  }

  lemma TakenOut(s: Slots, h: Hasher, q: int)
    requires 0 <= q < |s| && Used(s[q]) && OwnHash(s, h) && Cleared(s)
    ensures OwnHash(Emptied(s, q), h) && Cleared(Emptied(s, q)) && s[q].hash == Nonzero(h, s[q].key)
  {
  }

  /** The assertions of remove_cleanup: the entry taken out always goes back in, into an empty slot. */
  lemma PutBack(s: Slots, h: Hasher, q: int, slot: int, inserted: bool)
    requires 0 <= q < |s| && Used(s[q]) && OwnHash(s, h) && OneEach(s)
    requires var u := Emptied(s, q);
             && (inserted ==> 0 <= slot < |s| && !Used(u[slot]) && Passed(u, s[q].hash, s[q].key, slot))
             && (!inserted && slot >= 0 ==> slot < |s| && Match(u[slot], s[q].hash, s[q].key))
             && (slot < 0 ==> !inserted && AllPassed(u, s[q].hash, s[q].key))
    ensures inserted && slot >= 0 && Landing(s, q, slot) && (slot == q || !Used(s[slot]))
  {
    var u := Emptied(s, q);
    assert !Used(u[q]);
    if inserted {
      assert forall j | 0 <= j < |s| && Used(u[j]) :: Used(s[j]);
    }
  }

  lemma MovedTidy(s: Slots, h: Hasher, q: int, r: int)
    requires 0 <= q < |s| && 0 <= r < |s| && Used(s[q]) && OwnHash(s, h) && Cleared(s)
    ensures OwnHash(Moved(s, q, r), h) && Cleared(Moved(s, q, r))
  {
  }

  lemma RemovalStart(s: Slots, h: Hasher, p: int) returns (c: int)
    requires Tidy(s, h) && 0 <= p < |s| && Used(s[p])
    ensures Patched(Emptied(s, p), p, 1, c)
    ensures var first := Home(s[p].hash, |s|);
            Dist(p, c, |s|) < Dist(p, first, |s|) || p == first || Dist(p, c, |s|) == 0
    ensures OwnHash(Emptied(s, p), h) && OneEach(Emptied(s, p)) && Cleared(Emptied(s, p))
    ensures s[p].hash == Nonzero(h, s[p].key)
  {
    hide Patched, Contents, Occupied, OnWay;
    c := ClusterEnd(s, p);
    PatchStart(s, p, c);
    EmptiedContents(s, p);
  }
}
