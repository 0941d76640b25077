/**
 controller/workitem.go, the first half of ConvertWorkItemsToCSV: the columns of an export are collected
 from the fields of all work item types, in the order maps hand them out, and then sorted by label.
 */
module CsvLayout {
  import opened Prelude
  import opened Paths

  const TYPE_KEY := "_type"
  const PARENT_KEY := "_parent"
  const CHILDREN_KEY := "_children"
  const FIXED_KEYS := [TYPE_KEY, PARENT_KEY, CHILDREN_KEY]
  const FIXED_LABELS := ["_Type", "_Parent", "_Children"]

  // `fields` maps the key of a field to its label.
  datatype WorkItemType = WorkItemType(id: Uuid, name: string, fields: map<string, string>)

  // ---- Ordering labels ----

  // Byte-wise order, which on text is the order of the code points.
  predicate LexLe(a: string, b: string) {
    a == "" || (b != "" && (a[0] < b[0] || (a[0] == b[0] && LexLe(a[1..], b[1..]))))
  }

  // A text comes before another if it is the beginning of it, or has the smaller character where they first differ.
  lemma {:induction false} LexLeMeans(a: string, b: string)
    ensures LexLe(a, b) <==> a <= b || exists k :: DifferAt(a, b, k) && a[k] < b[k]
  {
    if a != "" && b != "" && a[0] == b[0] {
      LexLeMeans(a[1..], b[1..]);
      assert a <= b <==> a[1..] <= b[1..] by {
        assert a == [a[0]] + a[1..] && b == [b[0]] + b[1..];
      }
      if k :| DifferAt(a[1..], b[1..], k) && a[1..][k] < b[1..][k] {
        DifferShifted(a, b, k + 1);
      }
      forall k | DifferAt(a, b, k) && a[k] < b[k]
        ensures DifferAt(a[1..], b[1..], k - 1) && a[1..][k - 1] < b[1..][k - 1]
      {
        DifferShifted(a, b, k);
      }
    } else if a != "" && b != "" {
      assert DifferAt(a, b, 0);
      assert forall k :: DifferAt(a, b, k) ==> k == 0;
    }
  }

  predicate DifferAt(a: string, b: string, k: int) {
    0 <= k < |a| && k < |b| && a[k] != b[k] && forall h :: 0 <= h < k ==> a[h] == b[h]
  }

  lemma DifferShifted(a: string, b: string, k: nat)
    requires a != "" && b != "" && a[0] == b[0]
    ensures k > 0 ==> (DifferAt(a, b, k) <==> DifferAt(a[1..], b[1..], k - 1))
    ensures k == 0 ==> !DifferAt(a, b, k)
  {
    if k > 0 && DifferAt(a[1..], b[1..], k - 1) {
      forall h | 0 <= h < k
        ensures a[h] == b[h]
      {
        assert h > 0 ==> a[h] == a[1..][h - 1] && b[h] == b[1..][h - 1];
      }
    }
  }

  lemma {:induction false} LexTotal(a: string, b: string)
    ensures LexLe(a, b) || LexLe(b, a)
    ensures LexLe(a, b) && LexLe(b, a) ==> a == b
  {
    if a != "" && b != "" && a[0] == b[0] {
      LexTotal(a[1..], b[1..]);
      assert a == [a[0]] + a[1..] && b == [b[0]] + b[1..];
    }
  }

  lemma {:induction false} LexTransitive(a: string, b: string, c: string)
    requires LexLe(a, b) && LexLe(b, c)
    ensures LexLe(a, c)
  {
    if a != "" && a[0] == b[0] && b[0] == c[0] {
      LexTransitive(a[1..], b[1..], c[1..]);
    }
  }

  predicate Sorted(s: seq<string>) {
    forall i, j :: 0 <= i < j < |s| ==> LexLe(s[i], s[j])
  }

  // sort.Strings
  function Sort(s: seq<string>): seq<string> {
    if s == [] then [] else Insert(s[0], Sort(s[1..]))
  }

  function Insert(x: string, s: seq<string>): seq<string> {
    if s == [] || LexLe(x, s[0]) then [x] + s else [s[0]] + Insert(x, s[1..])
  }

  lemma {:induction false} InsertAdds(x: string, s: seq<string>)
    ensures multiset(Insert(x, s)) == multiset(s) + multiset{x}
  {
    if s != [] && !LexLe(x, s[0]) {
      InsertAdds(x, s[1..]);
      assert s == [s[0]] + s[1..];
    }
  }

  // Nothing comes before what is at least each label.
  lemma SortedBehind(x: string, s: seq<string>)
    requires Sorted(s) && forall y :: y in s ==> LexLe(x, y)
    ensures Sorted([x] + s)
  {
  }

  lemma {:induction false} InsertSorts(x: string, s: seq<string>)
    requires Sorted(s)
    ensures Sorted(Insert(x, s))
  {
    if s == [] || LexLe(x, s[0]) {
      forall y | y in s
        ensures LexLe(x, y)
      {
        var i :| 0 <= i < |s| && s[i] == y;
        if i > 0 {
          LexTransitive(x, s[0], s[i]);
        }
      }
      SortedBehind(x, s);
    } else {
      LexTotal(x, s[0]);
      InsertSorts(x, s[1..]);
      forall y | y in Insert(x, s[1..])
        ensures LexLe(s[0], y)
      {
        InsertedIsThere(x, s[1..], y);
      }
      SortedBehind(s[0], Insert(x, s[1..]));
    }
  }

  lemma InsertedIsThere(x: string, s: seq<string>, y: string)
    requires y in Insert(x, s)
    ensures y == x || y in s
  {
    InsertAdds(x, s);
    assert y in multiset(Insert(x, s));
    assert y in multiset(s) <==> y in s;
  }

  lemma {:induction false} SortSorts(s: seq<string>)
    ensures Sorted(Sort(s)) && multiset(Sort(s)) == multiset(s)
    ensures |Sort(s)| == |s|
  {
    if s != [] {
      SortSorts(s[1..]);
      InsertSorts(s[0], Sort(s[1..]));
      InsertAdds(s[0], Sort(s[1..]));
      assert s == [s[0]] + s[1..];
    }
    assert |multiset(Sort(s))| == |multiset(s)|;
  }

  // ---- Repetition and multiplicity ----

  lemma TwicePlaced(s: seq<string>, i: nat, j: nat)
    requires i < j < |s| && s[i] == s[j]
    ensures multiset(s)[s[i]] >= 2
  {
    var front, back := s[..j], s[j..];
    assert s == front + back;
    assert front[i] == s[i] && back[0] == s[i];
    assert s[i] in multiset(front) && s[i] in multiset(back);
  }

  lemma {:induction false} TwiceCounted(s: seq<string>, x: string) returns (i: nat, j: nat)
    requires multiset(s)[x] >= 2
    ensures i < j < |s| && s[i] == x && s[j] == x
  {
    var t := s[1..];
    assert s == [s[0]] + t;
    if s[0] == x {
      assert x in multiset(t);
      assert x in t;
      i := 0;
      j :| 1 <= j < |s| && t[j - 1] == x;
    } else {
      i, j := TwiceCounted(t, x);
      i, j := i + 1, j + 1;
    }
  }

  lemma SameBagRepeats(a: seq<string>, b: seq<string>)
    requires multiset(a) == multiset(b) && !NoRepeats(a)
    ensures !NoRepeats(b)
  {
    var i, j :| 0 <= i < j < |a| && a[i] == a[j];
    TwicePlaced(a, i, j);
    var k, l := TwiceCounted(b, a[i]);
  }

  lemma SameBagSameRepeats(a: seq<string>, b: seq<string>)
    requires multiset(a) == multiset(b)
    ensures NoRepeats(a) <==> NoRepeats(b)
  {
    if !NoRepeats(a) {
      SameBagRepeats(a, b);
    }
    if !NoRepeats(b) {
      SameBagRepeats(b, a);
    }
  }

  // ---- The columns ----

  function Ids(wits: seq<WorkItemType>): set<Uuid> {
    set w | w in wits :: w.id
  }

  // Key and label of every column: each type counts once, and the first type with a key gives its label.
  function ColumnMap(wits: seq<WorkItemType>): map<string, string> {
    if wits == [] then map[]
    else
      var n := |wits| - 1;
      var before := ColumnMap(wits[..n]);
      if wits[n].id in Ids(wits[..n]) then before else wits[n].fields + before
  }

  predicate DistinctLabels(cm: map<string, string>) {
    forall k, l {:trigger cm[k], cm[l]} :: k in cm && l in cm && k != l ==> cm[k] != cm[l]
  }

  // Keys and labels side by side, one place for each column.
  ghost predicate Lists(cm: map<string, string>, keys: seq<string>, labels: seq<string>) {
    && |keys| == |labels|
    && NoRepeats(keys)
    && Elements(keys) == cm.Keys
    && forall i :: 0 <= i < |keys| ==> keys[i] in cm && cm[keys[i]] == labels[i]
  }

  // The columns of the first `n` types come first.
  ghost predicate PrefixListed(wits: seq<WorkItemType>, keys: seq<string>, labels: seq<string>, n: nat)
    requires n <= |wits|
  {
    var cm := ColumnMap(wits[..n]);
    |cm| <= |keys| == |labels| && Lists(cm, keys[..|cm|], labels[..|cm|])
  }

  // The columns of the first `n` types as they are collected: type after type, and in any order within one type.
  ghost predicate Collected(wits: seq<WorkItemType>, n: nat, keys: seq<string>, labels: seq<string>)
    requires n <= |wits|
  {
    && |keys| == |labels| == |ColumnMap(wits[..n])|
    && forall m :: 0 <= m <= n ==> PrefixListed(wits, keys, labels, m)
  }

  ghost predicate Visited(wits: seq<WorkItemType>, keys: seq<string>, labels: seq<string>) {
    Collected(wits, |wits|, keys, labels)
  }

  lemma CollectedIsListed(wits: seq<WorkItemType>, n: nat, keys: seq<string>, labels: seq<string>)
    requires n <= |wits| && Collected(wits, n, keys, labels)
    ensures Lists(ColumnMap(wits[..n]), keys, labels)
  {
    assert PrefixListed(wits, keys, labels, n);
    assert keys[..|keys|] == keys && labels[..|keys|] == labels;
  }

  lemma PrefixKept(wits: seq<WorkItemType>, keys: seq<string>, labels: seq<string>, k: seq<string>, l: seq<string>, n: nat)
    requires n <= |wits| && PrefixListed(wits, keys, labels, n)
    requires keys <= k && labels <= l && |k| == |l|
    ensures PrefixListed(wits, k, l, n)
  {
    var m := |ColumnMap(wits[..n])|;
    assert k[..m] == keys[..m] && l[..m] == labels[..m];
  }

  lemma PrefixWhole(wits: seq<WorkItemType>, keys: seq<string>, labels: seq<string>, n: nat)
    requires n <= |wits| && Lists(ColumnMap(wits[..n]), keys, labels)
    ensures PrefixListed(wits, keys, labels, n) && |keys| == |ColumnMap(wits[..n])|
  {
    ListsDistinct(ColumnMap(wits[..n]), keys, labels);
    assert keys[..|keys|] == keys && labels[..|keys|] == labels;
  }

  lemma CollectedOneMore(wits: seq<WorkItemType>, n: nat, keys: seq<string>, labels: seq<string>, k: seq<string>, l: seq<string>)
    requires n < |wits| && Collected(wits, n, keys, labels)
    requires Lists(ColumnMap(wits[..n + 1]), k, l) && keys <= k && labels <= l
    ensures Collected(wits, n + 1, k, l)
  {
    PrefixWhole(wits, k, l, n + 1);
    forall m | 0 <= m <= n
      ensures PrefixListed(wits, k, l, m)
    {
      PrefixKept(wits, keys, labels, k, l, m);
    }
  }

  // Collected columns, sorted by label; each label gets the first key collected with it.
  ghost predicate LayoutFrom(collectedKeys: seq<string>, collectedLabels: seq<string>, keys: seq<string>, labels: seq<string>)
    requires |collectedKeys| == |collectedLabels|
  {
    && labels == Sort(collectedLabels) && |keys| == |labels|
    && forall i :: 0 <= i < |keys| ==>
         labels[i] in collectedLabels && keys[i] == collectedKeys[FirstAt(collectedLabels, labels[i])]
  }

  // What an export may use as its field columns.
  ghost predicate IsLayout(wits: seq<WorkItemType>, keys: seq<string>, labels: seq<string>) {
    exists k, l :: Visited(wits, k, l) && LayoutFrom(k, l, keys, labels)
  }

  // The labels in order, each with a key it belongs to, and keys repeated exactly when labels are.
  ghost predicate Fits(cm: map<string, string>, keys: seq<string>, labels: seq<string>) {
    && |keys| == |labels| == |cm|
    && Sorted(labels)
    && (forall i :: 0 <= i < |keys| ==> keys[i] in cm && cm[keys[i]] == labels[i])
    && (forall k :: k in cm ==> cm[k] in labels)
    && (NoRepeats(keys) <==> DistinctLabels(cm))
  }

  lemma ListsDistinct(cm: map<string, string>, keys: seq<string>, labels: seq<string>)
    requires Lists(cm, keys, labels)
    ensures NoRepeats(labels) <==> DistinctLabels(cm)
    ensures |keys| == |cm|
  {
    SizeOfElements(keys);
    if NoRepeats(labels) {
      forall k, l | k in cm && l in cm && k != l
        ensures cm[k] != cm[l]
      {
        assert k in Elements(keys) && l in Elements(keys);
        var i :| 0 <= i < |keys| && keys[i] == k;
        var j :| 0 <= j < |keys| && keys[j] == l;
        assert labels[i] != labels[j];
      }
    }
    if DistinctLabels(cm) {
      forall i, j | 0 <= i < j < |labels|
        ensures labels[i] != labels[j]
      {
        assert cm[keys[i]] != cm[keys[j]];
      }
    }
  }

  // Collects the columns type by type and field by field.
  method CollectColumns(wits: seq<WorkItemType>) returns (keys: seq<string>, labels: seq<string>)
    ensures Visited(wits, keys, labels)
  {
    keys, labels := [], [];
    var processed: set<Uuid> := {};
    var i := 0;
    PrefixWhole(wits, keys, labels, 0);
    while i < |wits|
      invariant i <= |wits|
      invariant processed == Ids(wits[..i])
      invariant Collected(wits, i, keys, labels)
    {
      var wit := wits[i];
      ColumnMapOneMore(wits, i);
      CollectedIsListed(wits, i, keys, labels);
      var k, l := keys, labels;
      if wit.id !in processed {
        processed := processed + {wit.id};
        k, l := AddFields(wit.fields, ColumnMap(wits[..i]), keys, labels);
      }
      CollectedOneMore(wits, i, keys, labels, k, l);
      keys, labels := k, l;
      i := i + 1;
    }
  }

  lemma ColumnMapOneMore(wits: seq<WorkItemType>, n: nat)
    requires n < |wits|
    ensures ColumnMap(wits[..n + 1]) ==
            if wits[n].id in Ids(wits[..n]) then ColumnMap(wits[..n]) else wits[n].fields + ColumnMap(wits[..n])
    ensures Ids(wits[..n + 1]) == Ids(wits[..n]) + {wits[n].id}
  {
    assert wits[..n + 1] == wits[..n] + [wits[n]];
    assert wits[..n + 1][..n] == wits[..n];
  }

  function Restrict(fields: map<string, string>, keys: set<string>): map<string, string> {
    map k | k in fields && k in keys :: fields[k]
  }

  // Adds the fields of one type, in any order, behind the columns there are.
  method AddFields(fields: map<string, string>, ghost cm: map<string, string>, keys0: seq<string>, labels0: seq<string>)
    returns (keys: seq<string>, labels: seq<string>)
    requires Lists(cm, keys0, labels0)
    ensures Lists(fields + cm, keys, labels)
    ensures keys0 <= keys && labels0 <= labels
  {
    keys, labels := keys0, labels0;
    var fieldKeys := InSomeOrder(fields.Keys);
    var i := 0;
    assert Restrict(fields, Elements(fieldKeys[..0])) + cm == cm;
    while i < |fieldKeys|
      invariant i <= |fieldKeys| && keys0 <= keys && labels0 <= labels
      invariant Lists(Restrict(fields, Elements(fieldKeys[..i])) + cm, keys, labels)
    {
      var key := fieldKeys[i];
      assert key in Elements(fieldKeys);
      assert Elements(fieldKeys[..i + 1]) == Elements(fieldKeys[..i]) + {key};
      RestrictMore(fields, Elements(fieldKeys[..i]), key, cm);
      ghost var now := Restrict(fields, Elements(fieldKeys[..i])) + cm;
      assert key in keys <==> key in Elements(keys);
      assert key in keys <==> key in now;
      if key !in keys {
        ListsAppend(now, keys, labels, key, fields[key]);
        keys, labels := keys + [key], labels + [fields[key]];
      }
      i := i + 1;
    }
    assert fieldKeys[..i] == fieldKeys;
    assert Restrict(fields, fields.Keys) == fields;
  }

  lemma RestrictMore(fields: map<string, string>, done: set<string>, key: string, cm: map<string, string>)
    requires key in fields
    ensures var now := Restrict(fields, done) + cm;
            Restrict(fields, done + {key}) + cm == if key in now then now else now[key := fields[key]]
  {
  }

  lemma ListsAppend(cm: map<string, string>, keys: seq<string>, labels: seq<string>, k: string, l: string)
    requires Lists(cm, keys, labels) && k !in keys
    ensures Lists(cm[k := l], keys + [k], labels + [l])
  {
    assert Elements(keys + [k]) == Elements(keys) + {k};
    assert k !in cm by {
      assert k !in Elements(keys);
    }
  }

  // The first place at which a label stands.
  function FirstAt(labels: seq<string>, l: string): (i: nat)
    requires l in labels
    ensures i < |labels| && labels[i] == l && l !in labels[..i]
  {
    if labels[0] == l then 0 else 1 + FirstAt(labels[1..], l)
  }

  // The key for each of the sorted labels, found by comparing labels.
  method PairKeys(sorted: seq<string>, labels: seq<string>, keys: seq<string>) returns (r: seq<string>)
    requires |keys| == |labels| && (forall l :: l in sorted ==> l in labels)
    ensures |r| == |sorted|
    ensures forall i :: 0 <= i < |sorted| ==> r[i] == keys[FirstAt(labels, sorted[i])]
  {
    r := [];
    var i := 0;
    while i < |sorted|
      invariant i <= |sorted| && |r| == i
      invariant forall h :: 0 <= h < i ==> r[h] == keys[FirstAt(labels, sorted[h])]
    {
      assert sorted[i] in sorted;
      var j := 0;
      while labels[j] != sorted[i]
        invariant j < |labels| && sorted[i] !in labels[..j]
        decreases |labels| - j
      {
        j := j + 1;
        if j == |labels| {
          assert false;
        }
      }
      FirstIsUnique(labels, sorted[i], j);
      r := r + [keys[j]];
      i := i + 1;
    }
  }

  lemma FirstIsUnique(labels: seq<string>, l: string, j: nat)
    requires j < |labels| && labels[j] == l && l !in labels[..j]
    ensures l in labels && FirstAt(labels, l) == j
  {
    var i := FirstAt(labels, l);
    assert forall h :: 0 <= h < j ==> labels[..j][h] == labels[h];
    assert forall h :: 0 <= h < i ==> labels[..i][h] == labels[h];
  }

  ghost predicate Paired(cm: map<string, string>, sorted: seq<string>, paired: seq<string>) {
    && |paired| == |sorted|
    && (forall i :: 0 <= i < |paired| ==> paired[i] in cm && cm[paired[i]] == sorted[i])
    && (forall i, j :: 0 <= i < j < |paired| && sorted[i] == sorted[j] ==> paired[i] == paired[j])
  }

  lemma FirstKeysArePaired(cm: map<string, string>, keys: seq<string>, labels: seq<string>, sorted: seq<string>, paired: seq<string>)
    requires Lists(cm, keys, labels) && |paired| == |sorted|
    requires forall i :: 0 <= i < |sorted| ==> sorted[i] in labels && paired[i] == keys[FirstAt(labels, sorted[i])]
    ensures Paired(cm, sorted, paired)
  {
    forall i | 0 <= i < |paired|
      ensures paired[i] in cm && cm[paired[i]] == sorted[i]
    {
      var j := FirstAt(labels, sorted[i]);
      assert cm[keys[j]] == labels[j];
    }
  }

  lemma PairedFits(cm: map<string, string>, keys: seq<string>, labels: seq<string>, sorted: seq<string>, paired: seq<string>)
    requires Lists(cm, keys, labels) && Paired(cm, sorted, paired)
    requires Sorted(sorted) && multiset(sorted) == multiset(labels) && |sorted| == |labels|
    ensures Fits(cm, paired, sorted)
  {
    ListsDistinct(cm, keys, labels);
    SameBagSameRepeats(labels, sorted);
    forall k | k in cm
      ensures cm[k] in sorted
    {
      assert k in Elements(keys);
      var i :| 0 <= i < |keys| && keys[i] == k;
      assert labels[i] in multiset(labels);
    }
    PairedRepeats(cm, sorted, paired);
  }

  // Equal labels are given the same key, so the keys are distinct exactly when the labels are.
  lemma PairedRepeats(cm: map<string, string>, sorted: seq<string>, paired: seq<string>)
    requires Paired(cm, sorted, paired)
    ensures NoRepeats(paired) <==> NoRepeats(sorted)
  {
    if !NoRepeats(paired) {
      var i, j :| 0 <= i < j < |paired| && paired[i] == paired[j];
      assert sorted[i] == sorted[j];
    }
  }

  // Every layout pairs labels and keys as it should.
  lemma LayoutFits(wits: seq<WorkItemType>, keys: seq<string>, labels: seq<string>)
    requires IsLayout(wits, keys, labels)
    ensures Fits(ColumnMap(wits), keys, labels)
  {
    var k, l :| Visited(wits, k, l) && LayoutFrom(k, l, keys, labels);
    CollectedIsListed(wits, |wits|, k, l);
    assert wits[..|wits|] == wits;
    SortSorts(l);
    FirstKeysArePaired(ColumnMap(wits), k, l, labels, keys);
    PairedFits(ColumnMap(wits), k, l, labels, keys);
  }

  // The field columns of an export.
  method Layout(wits: seq<WorkItemType>) returns (keys: seq<string>, labels: seq<string>)
    ensures IsLayout(wits, keys, labels)
  {
    var columnKeys, columnLabels := CollectColumns(wits);
    labels := Sort(columnLabels);
    SortedAreThere(columnLabels);
    keys := PairKeys(labels, columnLabels, columnKeys);
    assert LayoutFrom(columnKeys, columnLabels, keys, labels);
  }

  lemma SortedAreThere(s: seq<string>)
    ensures forall l :: l in Sort(s) <==> l in s
  {
    SortSorts(s);
    forall l
      ensures l in Sort(s) <==> l in s
    {
      assert l in multiset(Sort(s)) <==> l in multiset(s);
    }
  }
}
