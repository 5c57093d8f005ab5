/** Facts about finite sets that the verifier does not volunteer. */
module Collections {

  lemma Inhabited<T>(s: set<T>) returns (x: T)
    requires s != {}
    ensures x in s
  {
    x :| x in s;
  }

  lemma InhabitedBag<T>(s: multiset<T>) returns (x: T)
    requires s != multiset{}
    ensures x in s
  {
    x :| x in s;
  }

  lemma {:induction false} Subset<T>(a: set<T>, b: set<T>)
    requires a <= b
    ensures |a| <= |b|
    ensures |a| == |b| ==> a == b
  {
    if a != {} {
      var x :| x in a;
      Subset(a - {x}, b - {x});
    } else {
      assert |b| == 0 ==> b == {};
    }
  }
}
