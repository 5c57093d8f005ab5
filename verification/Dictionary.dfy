/** What an ordered dictionary is: its entries in the order of their keys, and what each operation makes of them. */
module Dictionary {

  /** What a removal or a selection reports: one entry, or none. */
  datatype MaybeEntry = NoEntry | Entry(key: int, datum: int)

  type Entries = seq<(int, int)>

  ghost predicate Ascending(s: Entries) {
    forall i, j | 0 <= i < j < |s| :: s[i].0 < s[j].0
  }

  ghost predicate KeysBelow(s: Entries, k: int) {
    forall i | 0 <= i < |s| :: s[i].0 < k
  }

  ghost predicate KeysAbove(s: Entries, k: int) {
    forall i | 0 <= i < |s| :: k < s[i].0
  }

  /** How many entries have a key below k. */
  function Rank(s: Entries, k: int): (r: nat)
    ensures r <= |s|
  {
    if s == [] || s[0].0 >= k then 0 else 1 + Rank(s[1..], k)
  }

  lemma {:induction false} RankSplits(s: Entries, before: Entries, after: Entries, k: int)
    requires s == before + after && KeysBelow(before, k) && (after != [] ==> k <= after[0].0)
    ensures Rank(s, k) == |before|
    decreases |before|
  {
    if before != [] {
      assert s[1..] == before[1..] + after;
      RankSplits(s[1..], before[1..], after, k);
    }
  }

  ghost predicate HasKey(s: Entries, k: int) {
    exists i :: 0 <= i < |s| && s[i].0 == k
  }

  function WithEntry(s: Entries, k: int, d: int): Entries {
    s[..Rank(s, k)] + [(k, d)] + s[Rank(s, k)..]
  }

  /** The sequence without the entry of key k, which it holds. */
  function WithoutEntry(s: Entries, k: int): Entries
    requires Rank(s, k) < |s|
  {
    s[..Rank(s, k)] + s[Rank(s, k) + 1..]
  }

  function Removing(s: Entries, k: int): (r: MaybeEntry)
    ensures r.Entry? ==> Rank(s, k) < |s|
  {
    if Rank(s, k) < |s| && s[Rank(s, k)].0 == k then Entry(k, s[Rank(s, k)].1) else NoEntry
  }

  function Remaining(s: Entries, k: int): Entries {
    if Removing(s, k).Entry? then WithoutEntry(s, k) else s
  }

  function Selected(s: Entries, n: nat): MaybeEntry {
    if n < |s| then Entry(s[n].0, s[n].1) else NoEntry
  }

  lemma EntryInserted(a: Entries, b: Entries, k: int, d: int)
    requires Ascending(a + b) && KeysBelow(a, k) && KeysAbove(b, k)
    ensures a + [(k, d)] + b == WithEntry(a + b, k, d)
    ensures Ascending(a + [(k, d)] + b)
    ensures !HasKey(a + b, k)
  {
    RankSplits(a + b, a, b, k);
    hide Rank;
    var s := a + [(k, d)] + b;
    forall i, j | 0 <= i < j < |s|
      ensures s[i].0 < s[j].0
    {
      assert i < |a| ==> s[i] == (a + b)[i];
      assert i > |a| ==> s[i] == (a + b)[i - 1];
      assert j < |a| ==> s[j] == (a + b)[j];
      assert j > |a| ==> s[j] == (a + b)[j - 1];
    }
    forall i | 0 <= i < |a + b|
      ensures (a + b)[i].0 != k
    {
      assert i >= |a| ==> (a + b)[i] == b[i - |a|];
    }
  }

  lemma EntryErased(a: Entries, b: Entries, k: int, d: int)
    requires Ascending(a + [(k, d)] + b)
    ensures Rank(a + [(k, d)] + b, k) == |a|
    ensures a + b == WithoutEntry(a + [(k, d)] + b, k)
    ensures Ascending(a + b)
    ensures HasKey(a + [(k, d)] + b, k)
  {
    var s := a + [(k, d)] + b;
    AscendingParts(a, (k, d), b);
    assert s == a + ([(k, d)] + b);
    RankSplits(s, a, [(k, d)] + b, k);
    assert s[|a|] == (k, d);
    forall i, j | 0 <= i < j < |a + b|
      ensures (a + b)[i].0 < (a + b)[j].0
    {
      assert (a + b)[i] == if i < |a| then s[i] else s[i + 1];
      assert (a + b)[j] == if j < |a| then s[j] else s[j + 1];
    }
  }

  /** Removing the entry just inserted gives back the entries there were: the two dictionary updates are inverse. */
  lemma EraseUndoesInsert(s: Entries, k: int, d: int)
    requires Ascending(s) && !HasKey(s, k)
    ensures Rank(WithEntry(s, k, d), k) < |WithEntry(s, k, d)|
    ensures WithoutEntry(WithEntry(s, k, d), k) == s
  {
    var a, b := s[..Rank(s, k)], s[Rank(s, k)..];
    assert s == a + b;
    RankBounds(s, k);
    EntryInserted(a, b, k, d);
    EntryErased(a, b, k, d);
  }

  lemma {:induction false} RankBounds(s: Entries, k: int)
    requires Ascending(s) && !HasKey(s, k)
    ensures KeysBelow(s[..Rank(s, k)], k) && KeysAbove(s[Rank(s, k)..], k)
  {
    if s != [] {
      assert s[0].0 != k;
      if s[0].0 < k {
        var tail := s[1..];
        assert forall i | 0 <= i < |tail| :: tail[i] == s[i + 1];
        RankBounds(tail, k);
        var r := Rank(tail, k);
        assert s[..r + 1] == [s[0]] + tail[..r];
        assert s[r + 1..] == tail[r..];
      }
    }
  }

  lemma AscendingParts(a: Entries, e: (int, int), b: Entries)
    requires Ascending(a + [e] + b)
    ensures KeysBelow(a, e.0) && KeysAbove(b, e.0) && Ascending(a) && Ascending(b)
  {
    var s := a + [e] + b;
    assert s[|a|] == e;
    assert forall i | 0 <= i < |a| :: s[i] == a[i];
    assert forall i | 0 <= i < |b| :: s[|a| + 1 + i] == b[i];
  }

  lemma Regroup(p: Entries, l: Entries, e: Entries, r: Entries, q: Entries)
    ensures p + (l + e + r) + q == p + l + (e + r + q) == (p + l + e) + r + q == (p + l) + e + (r + q)
  {
    assert (p + (l + e + r) + q)[|p|..|p| + |l| + |e| + |r|] == l + e + r;
  }

  lemma SplitAtEntry(p: Entries, l: Entries, e: (int, int), r: Entries, q: Entries)
    requires Ascending(p + (l + [e] + r) + q)
    ensures KeysBelow(p + l, e.0) && KeysAbove(r + q, e.0)
    ensures KeysBelow(p + l + [e], e.0 + 1) && KeysAbove([e] + r + q, e.0 - 1)
  {
    Regroup(p, l, [e], r, q);
    AscendingParts(p + l, e, r + q);
    assert [e] + r + q == [e] + (r + q);
  }

  lemma EntryTakenFrom(p: Entries, l: Entries, k: int, d: int, r: Entries, q: Entries)
    requires Ascending(p + (l + [(k, d)] + r) + q)
    ensures var s := p + (l + [(k, d)] + r) + q;
            && Removing(s, k) == Entry(k, d) && p + l + r + q == Remaining(s, k)
            && Ascending(Remaining(s, k)) && |Remaining(s, k)| + 1 == |s|
  {
    hide Ascending, WithoutEntry, Rank;
    var a, b := p + l, r + q;
    var s := a + [(k, d)] + b;
    assert p + (l + [(k, d)] + r) + q == s;
    assert a + b == p + l + r + q;
    EntryErased(a, b, k, d);
    assert s[|a|] == (k, d);
  }

  /** What a rank means in a sorted sequence. */
  lemma {:induction false} RankMeaning(s: Entries, cut: int, i: nat)
    requires Ascending(s) && i < |s|
    ensures s[i].0 < cut <==> i < Rank(s, cut)
  {
    if s[0].0 < cut {
      var tail := s[1..];
      assert forall j | 0 <= j < |tail| :: tail[j] == s[j + 1];
      if i > 0 {
        RankMeaning(tail, cut, i - 1);
      }
    } else if i > 0 {
      assert s[0].0 < s[i].0;
    }
  }

  lemma BelowNext(a: Entries, e: (int, int), k: int)
    requires KeysBelow(a, k) && e.0 == k
    ensures KeysBelow(a + [e], k + 1)
  {
  }

  lemma RankOfKey(s: Entries, i: nat)
    requires Ascending(s) && i < |s|
    ensures Rank(s, s[i].0) == i && Rank(s, s[i].0 + 1) == i + 1
  {
    hide Rank;
    var a, b, k := s[..i], s[i + 1..], s[i].0;
    assert s == a + [s[i]] + b;
    AscendingParts(a, s[i], b);
    hide Ascending;
    assert s == a + ([s[i]] + b);
    RankSplits(s, a, [s[i]] + b, k);
    BelowNext(a, s[i], k);
    RankSplits(s, a + [s[i]], b, k + 1);
  }
}
