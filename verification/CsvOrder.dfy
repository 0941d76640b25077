/**
 controller/workitem.go, the columns of ConvertWorkItemsToCSV once more: when does the order in which Go hands out
 the fields of a work item type show in the columns of an export?
 */
module CsvOrder {
  import opened Prelude
  import opened CsvLayout

  // The first type that has a label brings it with this key.
  ghost predicate Brings(wits: seq<WorkItemType>, n: nat, key: string)
    requires n < |wits|
  {
    var before, after := ColumnMap(wits[..n]), ColumnMap(wits[..n + 1]);
    key in after && key !in before && after[key] !in before.Values
  }

  ghost predicate BringsTwice(wits: seq<WorkItemType>, n: nat, k: string, l: string)
    requires n < |wits|
  {
    k != l && Brings(wits, n, k) && Brings(wits, n, l) && ColumnMap(wits[..n + 1])[k] == ColumnMap(wits[..n + 1])[l]
  }

  // No type brings one label with two keys.
  ghost predicate Settled(wits: seq<WorkItemType>) {
    forall n, k, l :: 0 <= n < |wits| ==> !BringsTwice(wits, n, k, l)
  }

  // ---- Columns only grow ----

  ghost predicate Extends(a: map<string, string>, b: map<string, string>) {
    a.Keys <= b.Keys && forall k :: k in a ==> b[k] == a[k]
  }

  lemma ExtendsTransitive(a: map<string, string>, b: map<string, string>, c: map<string, string>)
    requires Extends(a, b) && Extends(b, c)
    ensures Extends(a, c)
  {
  }

  lemma ColumnsStep(wits: seq<WorkItemType>, n: nat)
    requires n < |wits|
    ensures Extends(ColumnMap(wits[..n]), ColumnMap(wits[..n + 1]))
  {
    ColumnMapOneMore(wits, n);
  }

  lemma {:induction false} ColumnsGrow(wits: seq<WorkItemType>, n: nat, m: nat)
    requires n <= m <= |wits|
    ensures Extends(ColumnMap(wits[..n]), ColumnMap(wits[..m]))
    decreases m - n
  {
    if n < m {
      ColumnsStep(wits, m - 1);
      ColumnsGrow(wits, n, m - 1);
      ExtendsTransitive(ColumnMap(wits[..n]), ColumnMap(wits[..m - 1]), ColumnMap(wits[..m]));
    }
  }

  lemma DistinctBelow(a: map<string, string>, b: map<string, string>, k: string, l: string)
    requires Extends(a, b) && DistinctLabels(b)
    ensures k in a && l in a && a[k] == a[l] ==> k == l
  {
  }

  lemma DistinctIsSettled(wits: seq<WorkItemType>)
    requires DistinctLabels(ColumnMap(wits))
    ensures Settled(wits)
  {
    assert wits[..|wits|] == wits;
    forall n, k, l | 0 <= n < |wits|
      ensures !BringsTwice(wits, n, k, l)
    {
      ColumnsGrow(wits, n + 1, |wits|);
      DistinctBelow(ColumnMap(wits[..n + 1]), ColumnMap(wits), k, l);
    }
  }

  // ---- Which key a label gets ----

  lemma ListedValues(cm: map<string, string>, keys: seq<string>, labels: seq<string>)
    requires Lists(cm, keys, labels)
    ensures Elements(labels) == cm.Values
  {
    forall l | l in labels
      ensures l in cm.Values
    {
      var i :| 0 <= i < |labels| && labels[i] == l;
      assert cm[keys[i]] == l;
    }
    forall k | k in cm
      ensures cm[k] in labels
    {
      assert k in Elements(keys);
      var i :| 0 <= i < |keys| && keys[i] == k;
      assert labels[i] == cm[k];
    }
  }

  // `key` stands beside the first occurrence of the label.
  ghost predicate IsFirst(keys: seq<string>, labels: seq<string>, l: string, key: string) {
    |keys| == |labels| && exists i :: 0 <= i < |labels| && labels[i] == l && l !in labels[..i] && keys[i] == key
  }

  lemma FirstAtIsFirst(keys: seq<string>, labels: seq<string>, l: string)
    requires |keys| == |labels| && l in labels
    ensures IsFirst(keys, labels, l, keys[FirstAt(labels, l)])
  {
    var i := FirstAt(labels, l);
    assert labels[i] == l && l !in labels[..i];
  }

  lemma FirstBefore(labels: seq<string>, l: string, i: nat, j: nat)
    requires i < |labels| && j < |labels| && labels[j] == l && l !in labels[..i]
    ensures i <= j
  {
  }

  lemma FirstInPrefix(keys: seq<string>, labels: seq<string>, m: nat, l: string, key: string)
    requires m <= |keys| == |labels| && l in labels[..m] && IsFirst(keys, labels, l, key)
    ensures IsFirst(keys[..m], labels[..m], l, key)
  {
    var i :| 0 <= i < |labels| && labels[i] == l && l !in labels[..i] && keys[i] == key;
    var j :| 0 <= j < m && labels[..m][j] == l;
    FirstBefore(labels, l, i, j);
    assert labels[..m][i] == l && keys[..m][i] == key;
    assert labels[..m][..i] == labels[..i];
  }

  lemma OldValue(before: map<string, string>, after: map<string, string>, key: string)
    requires Extends(before, after) && key in before
    ensures key in after && after[key] in before.Values
  {
    assert after[key] == before[key];
  }

  // A label that is new with type `n - 1` stands first beside a key with which that type brings it.
  lemma FirstIsBrought(wits: seq<WorkItemType>, n: nat, keys: seq<string>, labels: seq<string>, l: string, key: string)
    requires 0 < n <= |wits| && PrefixListed(wits, keys, labels, n) && IsFirst(keys, labels, l, key)
    requires l in ColumnMap(wits[..n]).Values && l !in ColumnMap(wits[..n - 1]).Values
    ensures Brings(wits, n - 1, key) && ColumnMap(wits[..n])[key] == l
  {
    var before, cm := ColumnMap(wits[..n - 1]), ColumnMap(wits[..n]);
    var m := |cm|;
    ListedValues(cm, keys[..m], labels[..m]);
    assert l in Elements(labels[..m]);
    FirstInPrefix(keys, labels, m, l, key);
    FirstIsListed(cm, keys[..m], labels[..m], l, key);
    ColumnsStep(wits, n - 1);
    if key in before {
      OldValue(before, cm, key);
      assert false;
    }
  }

  lemma FirstIsListed(cm: map<string, string>, keys: seq<string>, labels: seq<string>, l: string, key: string)
    requires Lists(cm, keys, labels) && IsFirst(keys, labels, l, key)
    ensures key in cm && cm[key] == l
  {
  }

  lemma OldKeyOldLabel(wits: seq<WorkItemType>, n: nat, keys: seq<string>, labels: seq<string>, i: nat)
    requires 0 < n <= |wits| && Collected(wits, n, keys, labels) && i < |keys|
    ensures keys[i] in ColumnMap(wits[..n]) && ColumnMap(wits[..n])[keys[i]] == labels[i]
    ensures keys[i] in ColumnMap(wits[..n - 1]) ==> labels[i] in ColumnMap(wits[..n - 1]).Values
  {
    CollectedIsListed(wits, n, keys, labels);
    ColumnsStep(wits, n - 1);
    if keys[i] in ColumnMap(wits[..n - 1]) {
      assert ColumnMap(wits[..n - 1])[keys[i]] == labels[i];
    }
  }

  // The type with which a label comes.
  lemma {:induction false} ComesWith(wits: seq<WorkItemType>, n: nat, l: string) returns (m: nat)
    requires n <= |wits| && l in ColumnMap(wits[..n]).Values
    ensures 0 < m <= n && l in ColumnMap(wits[..m]).Values && l !in ColumnMap(wits[..m - 1]).Values
  {
    m := n;
    if l in ColumnMap(wits[..n - 1]).Values {
      m := ComesWith(wits, n - 1, l);
    }
  }

  // When the types are settled each label gets the same key in every order.
  lemma SameFirst(wits: seq<WorkItemType>, p: seq<string>, lp: seq<string>, q: seq<string>, lq: seq<string>,
                  l: string, k1: string, k2: string)
    requires Settled(wits) && Visited(wits, p, lp) && Visited(wits, q, lq)
    requires IsFirst(p, lp, l, k1) && IsFirst(q, lq, l, k2)
    ensures k1 == k2
  {
    LabelsOfColumns(wits, |wits|, p, lp, l);
    var n := ComesWith(wits, |wits|, l);
    assert PrefixListed(wits, p, lp, n) && PrefixListed(wits, q, lq, n);
    FirstIsBrought(wits, n, p, lp, l, k1);
    FirstIsBrought(wits, n, q, lq, l, k2);
    assert !BringsTwice(wits, n - 1, k1, k2);
  }

  lemma LabelsOfColumns(wits: seq<WorkItemType>, n: nat, keys: seq<string>, labels: seq<string>, l: string)
    requires n <= |wits| && Collected(wits, n, keys, labels)
    ensures l in labels <==> l in ColumnMap(wits[..n]).Values
    ensures l in labels ==> n > 0
  {
    CollectedIsListed(wits, n, keys, labels);
    ListedValues(ColumnMap(wits[..n]), keys, labels);
    assert l in labels <==> l in Elements(labels);
  }

  // ---- Sorted labels ----

  lemma HeadIsLeast(s: seq<string>, x: string)
    requires Sorted(s) && x in s
    ensures LexLe(s[0], x)
  {
    LexTotal(x, x);
    var i :| 0 <= i < |s| && s[i] == x;
  }

  lemma {:induction false} SortedBagIsUnique(a: seq<string>, b: seq<string>)
    requires Sorted(a) && Sorted(b) && multiset(a) == multiset(b)
    ensures a == b
    decreases |a|
  {
    assert |multiset(a)| == |multiset(b)|;
    if a != [] {
      SameLeast(a, b);
      BagTail(a);
      BagTail(b);
      SortedBagIsUnique(a[1..], b[1..]);
      assert a == [a[0]] + a[1..] && b == [b[0]] + b[1..];
    }
  }

  lemma BagTail(s: seq<string>)
    requires s != []
    ensures multiset(s[1..]) == multiset(s) - multiset{s[0]}
  {
    assert s == [s[0]] + s[1..];
  }

  lemma SameLeast(a: seq<string>, b: seq<string>)
    requires Sorted(a) && Sorted(b) && multiset(a) == multiset(b) && a != [] && b != []
    ensures a[0] == b[0]
  {
    assert a[0] in multiset(b) && b[0] in multiset(a);
    HeadIsLeast(a, b[0]);
    HeadIsLeast(b, a[0]);
    LexTotal(a[0], b[0]);
  }

  // The labels of the same columns in another order are the same bag.
  lemma {:induction false} SameBagOfLabels(cm: map<string, string>, p: seq<string>, lp: seq<string>, q: seq<string>, lq: seq<string>)
    requires Lists(cm, p, lp) && Lists(cm, q, lq)
    ensures multiset(lp) == multiset(lq)
    decreases |p|
  {
    ListsDistinct(cm, p, lp);
    ListsDistinct(cm, q, lq);
    if p != [] {
      var k, rest := p[0], cm - {p[0]};
      assert k in Elements(p) && k in Elements(q);
      var j :| 0 <= j < |q| && q[j] == k;
      ListsWithout(cm, p, lp, 0);
      ListsWithout(cm, q, lq, j);
      SameBagOfLabels(rest, Without(p, 0), Without(lp, 0), Without(q, j), Without(lq, j));
      BagWithout(lp, 0);
      BagWithout(lq, j);
    }
  }

  function Without(s: seq<string>, i: nat): seq<string>
    requires i < |s|
  {
    s[..i] + s[i + 1..]
  }

  lemma BagWithout(s: seq<string>, i: nat)
    requires i < |s|
    ensures multiset(s) == multiset(Without(s, i)) + multiset{s[i]}
  {
    assert s == s[..i] + [s[i]] + s[i + 1..];
  }

  lemma ListsWithout(cm: map<string, string>, keys: seq<string>, labels: seq<string>, i: nat)
    requires Lists(cm, keys, labels) && i < |keys|
    ensures Lists(cm - {keys[i]}, Without(keys, i), Without(labels, i))
  {
    ElementsWithout(keys, i);
    var k, l := Without(keys, i), Without(labels, i);
    forall j | 0 <= j < |k|
      ensures k[j] in cm && k[j] != keys[i] && cm[k[j]] == l[j]
    {
      var h := if j < i then j else j + 1;
      assert k[j] == keys[h] && l[j] == labels[h];
    }
  }

  lemma ElementsWithout(s: seq<string>, i: nat)
    requires NoRepeats(s) && i < |s|
    ensures NoRepeats(Without(s, i)) && Elements(Without(s, i)) == Elements(s) - {s[i]}
  {
    var t := Without(s, i);
    forall x
      ensures x in t <==> x in s && x != s[i]
    {
      if x in s && x != s[i] {
        var j :| 0 <= j < |s| && s[j] == x;
        assert t[if j < i then j else j - 1] == x;
      }
    }
  }

  // ---- Settled types have one layout ----

  lemma OneLayout(wits: seq<WorkItemType>, k1: seq<string>, l1: seq<string>, k2: seq<string>, l2: seq<string>)
    requires Settled(wits) && IsLayout(wits, k1, l1) && IsLayout(wits, k2, l2)
    ensures k1 == k2 && l1 == l2
  {
    var p, lp :| Visited(wits, p, lp) && LayoutFrom(p, lp, k1, l1);
    var q, lq :| Visited(wits, q, lq) && LayoutFrom(q, lq, k2, l2);
    VisitsSort(wits, p, lp, q, lq);
    forall i | 0 <= i < |k1|
      ensures k1[i] == k2[i]
    {
      FirstAtIsFirst(p, lp, l1[i]);
      FirstAtIsFirst(q, lq, l1[i]);
      SameFirst(wits, p, lp, q, lq, l1[i], k1[i], k2[i]);
    }
  }

  lemma VisitsSort(wits: seq<WorkItemType>, p: seq<string>, lp: seq<string>, q: seq<string>, lq: seq<string>)
    requires Visited(wits, p, lp) && Visited(wits, q, lq)
    ensures Sort(lp) == Sort(lq)
  {
    CollectedIsListed(wits, |wits|, p, lp);
    CollectedIsListed(wits, |wits|, q, lq);
    SameBagOfLabels(ColumnMap(wits[..|wits|]), p, lp, q, lq);
    SortSorts(lp);
    SortSorts(lq);
    SortedBagIsUnique(Sort(lp), Sort(lq));
  }

  // ---- Unsettled types do not ----

  lemma {:induction false} Listing(s: set<string>) returns (q: seq<string>)
    ensures NoRepeats(q) && Elements(q) == s
    decreases s
  {
    q := [];
    if s != {} {
      var x :| x in s;
      var rest := Listing(s - {x});
      assert x !in Elements(rest);
      q := rest + [x];
      assert Elements(q) == Elements(rest) + {x};
    }
  }

  // The columns of type `n` behind those before it, beginning with `head`.
  lemma CollectOne(wits: seq<WorkItemType>, n: nat, keys: seq<string>, labels: seq<string>, head: seq<string>)
    returns (k: seq<string>, l: seq<string>)
    requires n < |wits| && Collected(wits, n, keys, labels) && NoRepeats(head)
    requires Elements(head) <= ColumnMap(wits[..n + 1]).Keys - ColumnMap(wits[..n]).Keys
    ensures Collected(wits, n + 1, k, l) && keys + head <= k && labels <= l
  {
    var before, after := ColumnMap(wits[..n]), ColumnMap(wits[..n + 1]);
    CollectedIsListed(wits, n, keys, labels);
    ColumnsStep(wits, n);
    var rest := Listing(after.Keys - before.Keys - Elements(head));
    k, l := keys + head + rest, LabelsAlong(after, keys + head + rest);
    DisjointParts(keys, head, rest);
    assert Elements(k) == after.Keys;
    AlongIsListed(after, k);
    AlongExtends(before, keys, labels, after, k);
    CollectedOneMore(wits, n, keys, labels, k, l);
  }

  function LabelsAlong(cm: map<string, string>, keys: seq<string>): seq<string> {
    seq(|keys|, i requires 0 <= i < |keys| => if keys[i] in cm then cm[keys[i]] else "")
  }

  lemma AlongIsListed(cm: map<string, string>, keys: seq<string>)
    requires NoRepeats(keys) && Elements(keys) == cm.Keys
    ensures Lists(cm, keys, LabelsAlong(cm, keys))
  {
    forall i | 0 <= i < |keys|
      ensures keys[i] in cm
    {
      assert keys[i] in Elements(keys);
    }
  }

  lemma AlongExtends(before: map<string, string>, keys: seq<string>, labels: seq<string>, after: map<string, string>, k: seq<string>)
    requires Lists(before, keys, labels) && Extends(before, after) && keys <= k
    ensures labels <= LabelsAlong(after, k)
  {
  }

  lemma DisjointParts(a: seq<string>, b: seq<string>, c: seq<string>)
    requires NoRepeats(a) && NoRepeats(b) && NoRepeats(c)
    requires Elements(a) !! Elements(b) && Elements(a) !! Elements(c) && Elements(b) !! Elements(c)
    ensures NoRepeats(a + b + c) && Elements(a + b + c) == Elements(a) + Elements(b) + Elements(c)
  {
    JoinedParts(a, b);
    JoinedParts(a + b, c);
  }

  lemma JoinedParts(a: seq<string>, b: seq<string>)
    requires NoRepeats(a) && NoRepeats(b) && Elements(a) !! Elements(b)
    ensures NoRepeats(a + b) && Elements(a + b) == Elements(a) + Elements(b)
  {
    forall i, j | 0 <= i < |a| && 0 <= j < |b|
      ensures a[i] != b[j]
    {
      assert a[i] in Elements(a) && b[j] in Elements(b);
    }
  }

  lemma {:induction false} CollectOn(wits: seq<WorkItemType>, n: nat, keys: seq<string>, labels: seq<string>)
    returns (k: seq<string>, l: seq<string>)
    requires n <= |wits| && Collected(wits, n, keys, labels)
    ensures Visited(wits, k, l) && keys <= k && labels <= l
    decreases |wits| - n
  {
    k, l := keys, labels;
    if n < |wits| {
      var k1, l1 := CollectOne(wits, n, keys, labels, []);
      k, l := CollectOn(wits, n + 1, k1, l1);
    }
  }

  lemma {:induction false} SomeVisit(wits: seq<WorkItemType>, n: nat) returns (k: seq<string>, l: seq<string>)
    requires n <= |wits|
    ensures Collected(wits, n, k, l)
    decreases n
  {
    if n == 0 {
      k, l := [], [];
      PrefixWhole(wits, k, l, 0);
    } else {
      var k1, l1 := SomeVisit(wits, n - 1);
      k, l := CollectOne(wits, n - 1, k1, l1, []);
    }
  }

  // In some order of visiting, the label that type `n` brings with `key` is given that key.
  lemma VisitWith(wits: seq<WorkItemType>, n: nat, key: string) returns (k: seq<string>, l: seq<string>)
    requires n < |wits| && Brings(wits, n, key)
    ensures Visited(wits, k, l) && IsFirst(k, l, ColumnMap(wits[..n + 1])[key], key)
  {
    var x := ColumnMap(wits[..n + 1])[key];
    var k0, l0 := SomeVisit(wits, n);
    assert Elements([key]) == {key};
    var k1, l1 := CollectOne(wits, n, k0, l0, [key]);
    k, l := CollectOn(wits, n + 1, k1, l1);
    var m := |k0|;
    LabelsOfColumns(wits, n, k0, l0, x);
    assert (k0 + [key])[m] == key;
    assert k1[m] == key && k[m] == key;
    OldKeyOldLabel(wits, n + 1, k1, l1, m);
    assert l[m] == x && l[..m] == l0;
  }

  // The layout of a visit gives each label its first key.
  lemma LayoutOf(wits: seq<WorkItemType>, k: seq<string>, l: seq<string>, x: string, key: string)
    returns (keys: seq<string>, labels: seq<string>, i: nat)
    requires Visited(wits, k, l) && IsFirst(k, l, x, key)
    ensures IsLayout(wits, keys, labels)
    ensures i < |keys| == |labels| && labels[i] == x
    ensures forall j :: 0 <= j < |keys| && labels[j] == x ==> keys[j] == key
  {
    var f :| 0 <= f < |l| && l[f] == x && x !in l[..f] && k[f] == key;
    FirstIsUnique(l, x, f);
    labels := Sort(l);
    SortedAreThere(l);
    keys := seq(|labels|, j requires 0 <= j < |labels| => if labels[j] in l then k[FirstAt(l, labels[j])] else "");
    assert LayoutFrom(k, l, keys, labels);
    i :| 0 <= i < |labels| && labels[i] == x;
  }

  ghost predicate OrderShows(wits: seq<WorkItemType>) {
    exists k1, l1, k2, l2 :: IsLayout(wits, k1, l1) && IsLayout(wits, k2, l2) && (k1 != k2 || l1 != l2)
  }

  lemma TwoLayouts(wits: seq<WorkItemType>, n: nat, k: string, l: string)
    requires n < |wits| && BringsTwice(wits, n, k, l)
    ensures OrderShows(wits)
  {
    var x := ColumnMap(wits[..n + 1])[k];
    var p, lp := VisitWith(wits, n, k);
    var q, lq := VisitWith(wits, n, l);
    var k1, l1, i := LayoutOf(wits, p, lp, x, k);
    var k2, l2, j := LayoutOf(wits, q, lq, x, l);
    assert k1[i] == k;
    assert i < |k2| && l2[i] == x ==> k2[i] == l;
  }

  // The order in which fields are visited shows in the columns of an export exactly when some type brings the
  // same label with two keys.
  lemma OrderShowsIff(wits: seq<WorkItemType>)
    ensures OrderShows(wits) <==> !Settled(wits)
  {
    if Settled(wits) {
      forall k1, l1, k2, l2 | IsLayout(wits, k1, l1) && IsLayout(wits, k2, l2)
        ensures k1 == k2 && l1 == l2
      {
        OneLayout(wits, k1, l1, k2, l2);
      }
    } else {
      var n, k, l :| 0 <= n < |wits| && BringsTwice(wits, n, k, l);
      TwoLayouts(wits, n, k, l);
    }
  }
}
