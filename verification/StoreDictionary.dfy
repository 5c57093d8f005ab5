/**
 The link between the two halves: the entries that the trees and the skip list keep in order, read as the map
 that the bucket store works on, with the same effect of every operation the store performs on its dictionary.
 */
module StoreDictionary {
  import opened Dictionary
  import Histogram

  ghost function MapOf(s: Entries): map<int, int> {
    if s == [] then map[]
    else var last := s[|s| - 1]; MapOf(s[..|s| - 1])[last.0 := last.1]
  }

  lemma Init(s: Entries)
    requires Ascending(s) && s != []
    ensures Ascending(s[..|s| - 1])
  {
  }

  /** The map has the keys of the entries, each with its datum. */
  lemma {:induction false} MapHolds(s: Entries, k: int)
    requires Ascending(s)
    ensures k in MapOf(s) <==> HasKey(s, k)
    ensures forall i | 0 <= i < |s| && s[i].0 == k :: k in MapOf(s) && MapOf(s)[k] == s[i].1
  {
    if s != [] {
      var n := |s| - 1;
      var p := s[..n];
      Init(s);
      MapHolds(p, k);
      assert forall i | 0 <= i < n :: p[i] == s[i];
      if s[n].0 != k && HasKey(s, k) {
        var i :| 0 <= i < |s| && s[i].0 == k;
        assert p[i].0 == k;
      }
      if HasKey(p, k) {
        var i :| 0 <= i < |p| && p[i].0 == k;
        assert s[i].0 == k;
      }
    }
  }

  lemma MapAt(s: Entries, i: int)
    requires Ascending(s) && 0 <= i < |s|
    ensures s[i].0 in MapOf(s) && MapOf(s)[s[i].0] == s[i].1
  {
    MapHolds(s, s[i].0);
  }

  /** The dictionary's count is the map's size. */
  lemma {:induction false} CountIsSize(s: Entries)
    requires Ascending(s)
    ensures |MapOf(s)| == |s|
  {
    if s != [] {
      var n := |s| - 1;
      Init(s);
      CountIsSize(s[..n]);
      MapHolds(s[..n], s[n].0);
      assert !HasKey(s[..n], s[n].0);
      assert MapOf(s).Keys == MapOf(s[..n]).Keys + {s[n].0};
    }
  }

  /** Inserting an entry is updating the map at a new key. */
  lemma InsertIsUpdate(s: Entries, k: int, d: int)
    requires Ascending(s) && !HasKey(s, k)
    ensures MapOf(WithEntry(s, k, d)) == MapOf(s)[k := d]
  {
    hide MapOf, Rank;
    var a, b := s[..Rank(s, k)], s[Rank(s, k)..];
    assert s == a + b;
    RankBounds(s, k);
    EntryInserted(a, b, k, d);
    var u := WithEntry(s, k, d);
    SameBut(s, u, Rank(s, k), k, d);
  }

  /** u is s with one entry more, at place p. */
  ghost predicate OneMore(s: Entries, u: Entries, p: int, e: (int, int)) {
    && 0 <= p <= |s| && |u| == |s| + 1 && u[p] == e
    && (forall i | 0 <= i < p :: u[i] == s[i])
    && (forall i | p < i < |u| :: u[i] == s[i - 1])
  }

  lemma OtherKeysStay(s: Entries, u: Entries, p: int, e: (int, int), k: int)
    requires Ascending(s) && Ascending(u) && OneMore(s, u, p, e) && k != e.0
    ensures k in MapOf(u) <==> k in MapOf(s)
    ensures k in MapOf(u) ==> MapOf(u)[k] == MapOf(s)[k]
  {
    hide MapOf, Ascending;
    MapHolds(s, k);
    MapHolds(u, k);
    if HasKey(s, k) {
      var i :| 0 <= i < |s| && s[i].0 == k;
      assert u[if i < p then i else i + 1] == s[i];
      MapAt(s, i);
      MapAt(u, if i < p then i else i + 1);
    }
    if HasKey(u, k) {
      var i :| 0 <= i < |u| && u[i].0 == k;
      assert s[if i < p then i else i - 1] == u[i];
      MapAt(s, if i < p then i else i - 1);
    }
  }

  lemma KeyIsNew(s: Entries, u: Entries, p: int, e: (int, int))
    requires Ascending(u) && OneMore(s, u, p, e)
    ensures !HasKey(s, e.0)
  {
    forall i | 0 <= i < |s|
      ensures s[i].0 != e.0
    {
      assert u[if i < p then i else i + 1] == s[i];
    }
  }

  /** Two sorted sequences, the second with one entry more, as maps. */
  lemma SameBut(s: Entries, u: Entries, p: int, k: int, d: int)
    requires Ascending(s) && Ascending(u) && OneMore(s, u, p, (k, d))
    ensures MapOf(u) == MapOf(s)[k := d] && k !in MapOf(s)
  {
    hide MapOf;
    MapAt(u, p);
    MapHolds(s, k);
    KeyIsNew(s, u, p, (k, d));
    forall x | x != k
      ensures x in MapOf(u) <==> x in MapOf(s)
      ensures x in MapOf(u) ==> MapOf(u)[x] == MapOf(s)[x]
    {
      OtherKeysStay(s, u, p, (k, d), x);
    }
  }

  lemma RemovedEntry(s: Entries, i: int)
    requires Ascending(s) && 0 <= i < |s| && Rank(s, s[i].0) == i
    ensures Ascending(WithoutEntry(s, s[i].0)) && OneMore(WithoutEntry(s, s[i].0), s, i, s[i])
  {
    hide Rank;
    var u := WithoutEntry(s, s[i].0);
    assert forall j | 0 <= j < |u| :: u[j] == s[if j < i then j else j + 1];
  }

  /** Removing a key is taking it out of the map, and reports what the map held. */
  lemma RemoveIsMinus(s: Entries, k: int)
    requires Ascending(s)
    ensures MapOf(Remaining(s, k)) == MapOf(s) - {k}
    ensures Removing(s, k) == if k in MapOf(s) then Entry(k, MapOf(s)[k]) else NoEntry
  {
    hide MapOf;
    MapHolds(s, k);
    if HasKey(s, k) {
      var i :| 0 <= i < |s| && s[i].0 == k;
      RankOfKey(s, i);
      RemovedEntry(s, i);
      SameBut(WithoutEntry(s, k), s, i, k, s[i].1);
      assert MapOf(s) - {k} == MapOf(WithoutEntry(s, k));
    } else if Rank(s, k) < |s| {
      assert s[Rank(s, k)].0 != k;
    }
  }

  /** Stepping through the entries is what the store's iterators do on the map. */
  lemma StepsAgree(s: Entries, i: int)
    requires Ascending(s) && 0 <= i < |s|
    ensures Histogram.Next(MapOf(s), s[i].0) == if i + 1 < |s| then Histogram.At(s[i + 1].0) else Histogram.Invalid
    ensures Histogram.Prev(MapOf(s), s[i].0) == if i > 0 then Histogram.At(s[i - 1].0) else Histogram.Invalid
  {
    hide MapOf;
    forall k | k in MapOf(s)
      ensures exists j :: 0 <= j < |s| && s[j].0 == k
    {
      MapHolds(s, k);
    }
    if i + 1 < |s| {
      MapAt(s, i + 1);
    }
    if i > 0 {
      MapAt(s, i - 1);
    }
  }

  lemma EndsAgree(s: Entries)
    requires Ascending(s)
    ensures Histogram.First(MapOf(s)) == if s != [] then Histogram.At(s[0].0) else Histogram.Invalid
    ensures Histogram.Last(MapOf(s)) == if s != [] then Histogram.At(s[|s| - 1].0) else Histogram.Invalid
  {
    hide MapOf;
    CountIsSize(s);
    forall k | k in MapOf(s)
      ensures exists j :: 0 <= j < |s| && s[j].0 == k
    {
      MapHolds(s, k);
    }
    if s != [] {
      MapAt(s, 0);
      MapAt(s, |s| - 1);
    } else {
      assert MapOf(s) == map[];
    }
  }
}
