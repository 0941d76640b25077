/**
 What a reader of an export finds in it, told of the work items, their types, parents and children themselves:
 every cell of every line, for the exports with and without a limit.
 */
module CsvCells {
  import opened Prelude
  import opened Paths
  import opened Strconv
  import opened CsvLayout
  import opened CsvOrder
  import opened CsvExport

  // ---- Types ----

  predicate FirstType(wits: seq<WorkItemType>, i: int, id: Uuid) {
    0 <= i < |wits| && wits[i].id == id && forall h :: 0 <= h < i ==> wits[h].id != id
  }

  lemma {:induction false} TypeIsFirst(wits: seq<WorkItemType>, id: Uuid)
    ensures TypeOf(wits, id).None? <==> forall h :: 0 <= h < |wits| ==> wits[h].id != id
    ensures TypeOf(wits, id).Some? ==> exists i :: FirstType(wits, i, id) && TypeOf(wits, id) == Some(wits[i])
  {
    if wits != [] {
      var rest := wits[1..];
      TypeIsFirst(rest, id);
      if wits[0].id == id {
        assert FirstType(wits, 0, id);
      } else {
        assert forall h :: 0 <= h < |rest| ==> wits[h + 1] == rest[h];
        if TypeOf(rest, id).Some? {
          var i :| FirstType(rest, i, id) && TypeOf(rest, id) == Some(rest[i]);
          assert FirstType(wits, i + 1, id);
        } else {
          forall h | 0 <= h < |wits|
            ensures wits[h].id != id
          {
            assert h > 0 ==> wits[h] == rest[h - 1];
          }
        }
      }
    }
  }

  // ---- Parents ----

  predicate FirstParent(parents: seq<ParentEntry>, i: int, id: Uuid) {
    0 <= i < |parents| && parents[i].child == id && forall h :: 0 <= h < i ==> parents[h].child != id
  }

  predicate NoParent(parents: seq<ParentEntry>, id: Uuid) {
    forall h :: 0 <= h < |parents| ==> parents[h].child != id
  }

  lemma {:induction false} ParentIsFirst(id: Uuid, parents: seq<ParentEntry>, numbers: map<Uuid, int>)
    ensures NoParent(parents, id) ==> ParentCell(id, parents, numbers) == Some("")
    ensures forall i :: FirstParent(parents, i, id) ==>
              ParentCell(id, parents, numbers) == if parents[i].id in numbers then Some(Itoa(numbers[parents[i].id])) else None
    ensures NoParent(parents, id) || exists i :: FirstParent(parents, i, id)
  {
    if parents != [] {
      var rest := parents[1..];
      ParentIsFirst(id, rest, numbers);
      if parents[0].child == id {
        assert FirstParent(parents, 0, id);
      } else {
        assert NoParent(parents, id) ==> NoParent(rest, id);
        forall i | FirstParent(parents, i, id)
          ensures ParentCell(id, parents, numbers) == if parents[i].id in numbers then Some(Itoa(numbers[parents[i].id])) else None
        {
          assert FirstParent(rest, i - 1, id);
        }
        if NoParent(rest, id) {
          assert NoParent(parents, id);
        } else {
          var i :| FirstParent(rest, i, id);
          assert FirstParent(parents, i + 1, id);
        }
      }
    }
  }

  // ---- Children ----

  // The places of the links that lead from `id`, in order.
  predicate ChildPlaces(id: Uuid, links: seq<ChildLink>, places: seq<nat>) {
    && (forall j :: 0 <= j < |places| ==> places[j] < |links| && links[places[j]].source == id)
    && (forall j, k :: 0 <= j < k < |places| ==> places[j] < places[k])
    && (forall i :: 0 <= i < |links| && links[i].source == id ==> i in places)
  }

  predicate Numbers(links: seq<ChildLink>, places: seq<nat>, numbers: map<Uuid, int>, texts: seq<string>) {
    && |texts| == |places|
    && forall j :: 0 <= j < |places| ==>
         places[j] < |links| && links[places[j]].target in numbers && texts[j] == Itoa(numbers[links[places[j]].target])
  }

  predicate ChildrenKnown(id: Uuid, links: seq<ChildLink>, numbers: map<Uuid, int>) {
    forall i :: 0 <= i < |links| && links[i].source == id ==> links[i].target in numbers
  }

  lemma {:induction false} ChildrenAreNumbered(id: Uuid, links: seq<ChildLink>, numbers: map<Uuid, int>) returns (places: seq<nat>)
    ensures ChildNumbers(id, links, numbers).Some? <==> ChildrenKnown(id, links, numbers)
    ensures ChildNumbers(id, links, numbers).Some? ==>
              ChildPlaces(id, links, places) && Numbers(links, places, numbers, ChildNumbers(id, links, numbers).value)
  {
    places := [];
    if links != [] {
      var n := |links| - 1;
      var before := links[..n];
      places := ChildrenAreNumbered(id, before, numbers);
      assert ChildrenKnown(id, links, numbers) <==>
             ChildrenKnown(id, before, numbers) && (links[n].source == id ==> links[n].target in numbers) by {
        assert forall i :: 0 <= i < n ==> before[i] == links[i];
      }
      if ChildNumbers(id, links, numbers).Some? && links[n].source == id {
        OneMoreChild(id, links, numbers, places);
        places := places + [n];
      }
    }
  }

  lemma OneMoreChild(id: Uuid, links: seq<ChildLink>, numbers: map<Uuid, int>, places: seq<nat>)
    requires links != [] && links[|links| - 1].source == id && ChildNumbers(id, links, numbers).Some?
    requires var before := links[..|links| - 1];
             && ChildNumbers(id, before, numbers).Some? && ChildPlaces(id, before, places)
             && Numbers(before, places, numbers, ChildNumbers(id, before, numbers).value)
    ensures ChildPlaces(id, links, places + [|links| - 1])
    ensures Numbers(links, places + [|links| - 1], numbers, ChildNumbers(id, links, numbers).value)
  {
    var n := |links| - 1;
    var more := places + [n];
    assert more[|places|] == n;
    forall i | 0 <= i < |links| && links[i].source == id
      ensures i in more
    {
      if i < n {
        assert links[..n][i].source == id;
        assert i in places;
      }
    }
  }

  // One line of text for each entry.
  lemma {:induction false} JoinIs(lines: seq<string>, last: string)
    ensures Join([]) == "" && Join([last]) == last
    ensures lines != [] ==> Join(lines + [last]) == Join(lines) + "\n" + last
  {
    if |lines| > 1 {
      JoinIs(lines[1..], last);
      assert (lines + [last])[1..] == lines[1..] + [last];
    } else if |lines| == 1 {
      assert (lines + [last])[1..] == [last];
    }
  }

  // ---- Cells ----

  ghost predicate IsTypeName(wits: seq<WorkItemType>, wi: WorkItem, cell: string) {
    exists i :: FirstType(wits, i, wi.wtype) && cell == wits[i].name
  }

  ghost predicate IsParentNumber(c: Context, wi: WorkItem, cell: string) {
    if NoParent(c.parents, wi.id) then cell == ""
    else exists i :: FirstParent(c.parents, i, wi.id) && c.parents[i].id in c.numbers && cell == Itoa(c.numbers[c.parents[i].id])
  }

  ghost predicate IsChildList(c: Context, wi: WorkItem, cell: string) {
    exists places, texts, lines ::
      && ChildPlaces(wi.id, c.links, places) && Numbers(c.links, places, c.numbers, texts)
      && Sorted(lines) && multiset(lines) == multiset(texts) && cell == Join(lines)
  }

  ghost predicate IsFieldText(wits: seq<WorkItemType>, wi: WorkItem, key: string, cell: string) {
    exists i :: FirstType(wits, i, wi.wtype) && cell == if key in wits[i].fields && key in wi.values then wi.values[key] else ""
  }

  // What the cell in the column of `key` has to be.
  ghost predicate CellIs(c: Context, wi: WorkItem, key: string, cell: string) {
    if key == "_type" then IsTypeName(c.wits, wi, cell)
    else if key == "_parent" then IsParentNumber(c, wi, cell)
    else if key == "_children" then IsChildList(c, wi, cell)
    else IsFieldText(c.wits, wi, key, cell)
  }

  // A row can be made exactly when the number, the type, the parent and all children are known.
  lemma RowOkIff(wi: WorkItem, c: Context)
    ensures RowOk(wi, c) <==>
            && wi.number.Some?
            && (exists i :: 0 <= i < |c.wits| && c.wits[i].id == wi.wtype)
            && (forall i :: FirstParent(c.parents, i, wi.id) ==> c.parents[i].id in c.numbers)
            && ChildrenKnown(wi.id, c.links, c.numbers)
  {
    TypeIsFirst(c.wits, wi.wtype);
    ParentIsFirst(wi.id, c.parents, c.numbers);
    var places := ChildrenAreNumbered(wi.id, c.links, c.numbers);
  }

  lemma CellMeans(key: string, wi: WorkItem, c: Context)
    requires RowOk(wi, c)
    ensures CellIs(c, wi, key, Cell(key, wi, c))
  {
    if key == PARENT_KEY {
      ParentIsFirst(wi.id, c.parents, c.numbers);
    } else if key == CHILDREN_KEY {
      var places := ChildrenAreNumbered(wi.id, c.links, c.numbers);
      var texts := ChildNumbers(wi.id, c.links, c.numbers).value;
      SortSorts(texts);
      assert Cell(key, wi, c) == Join(Sort(texts));
    } else {
      TypeIsFirst(c.wits, wi.wtype);
    }
  }

  // The whole line of a work item: type, parent and children, and then its fields.
  ghost predicate LineIs(c: Context, keys: seq<string>, wi: WorkItem, line: seq<string>) {
    && |line| == 3 + |keys|
    && CellIs(c, wi, "_type", line[0]) && CellIs(c, wi, "_parent", line[1]) && CellIs(c, wi, "_children", line[2])
    && forall j :: 0 <= j < |keys| ==> CellIs(c, wi, keys[j], line[3 + j])
  }

  lemma RowMeans(c: Context, keys: seq<string>, wi: WorkItem)
    requires RowOk(wi, c)
    ensures LineIs(c, keys, wi, Row(FIXED_KEYS + keys, wi, c))
  {
    var all := FIXED_KEYS + keys;
    CellMeans(all[0], wi, c);
    CellMeans(all[1], wi, c);
    CellMeans(all[2], wi, c);
    forall j | 0 <= j < |keys|
      ensures CellIs(c, wi, keys[j], Row(all, wi, c)[3 + j])
    {
      assert all[3 + j] == keys[j];
      CellMeans(keys[j], wi, c);
    }
  }

  // ---- Labels ----

  // A type counts unless one before it has the same ID.
  predicate Counts(wits: seq<WorkItemType>, i: int) {
    0 <= i < |wits| && forall h :: 0 <= h < i ==> wits[h].id != wits[i].id
  }

  // The first type that has the key.
  predicate FirstWith(wits: seq<WorkItemType>, i: int, key: string) {
    && Counts(wits, i) && key in wits[i].fields
    && forall h :: 0 <= h < i && Counts(wits, h) ==> key !in wits[h].fields
  }

  ghost predicate LabelBelongs(wits: seq<WorkItemType>, key: string, l: string) {
    exists i :: FirstWith(wits, i, key) && wits[i].fields[key] == l
  }

  // There is a column for each key of a type, with the label that the first type with the key has for it.
  lemma {:induction false} ColumnMeans(wits: seq<WorkItemType>, key: string)
    ensures key in ColumnMap(wits) <==> exists i :: FirstWith(wits, i, key)
    ensures key in ColumnMap(wits) ==> LabelBelongs(wits, key, ColumnMap(wits)[key])
  {
    if wits != [] {
      var n := |wits| - 1;
      var before := wits[..n];
      ColumnMeans(before, key);
      IdIsThere(before, wits[n].id);
      assert wits[n].id in Ids(before) <==> !Counts(wits, n);
      FirstInPart(wits, key);
      if key in ColumnMap(before) {
        var i :| FirstWith(before, i, key) && before[i].fields[key] == ColumnMap(before)[key];
        assert FirstWith(wits, i, key) && wits[i].fields[key] == ColumnMap(wits)[key];
      } else if key in ColumnMap(wits) {
        assert FirstWith(wits, n, key) && wits[n].fields[key] == ColumnMap(wits)[key];
      }
    }
  }

  lemma FirstInPart(wits: seq<WorkItemType>, key: string)
    requires wits != []
    ensures var n := |wits| - 1;
            && (forall i :: FirstWith(wits[..n], i, key) <==> i < n && FirstWith(wits, i, key))
            && ((forall i :: !FirstWith(wits[..n], i, key)) ==> (FirstWith(wits, n, key) <==> Counts(wits, n) && key in wits[n].fields))
  {
    var n := |wits| - 1;
    var before := wits[..n];
    assert forall i :: Counts(before, i) <==> i < n && Counts(wits, i);
    if forall i :: !FirstWith(before, i, key) {
      NoneWith(before, key, n);
    }
  }

  lemma {:induction false} NoneWith(wits: seq<WorkItemType>, key: string, m: nat)
    requires m <= |wits| && forall i :: !FirstWith(wits, i, key)
    ensures forall h :: 0 <= h < m && Counts(wits, h) ==> key !in wits[h].fields
  {
    if m > 0 {
      NoneWith(wits, key, m - 1);
      assert !FirstWith(wits, m - 1, key);
    }
  }

  lemma IdIsThere(wits: seq<WorkItemType>, id: Uuid)
    ensures id in Ids(wits) <==> exists h :: 0 <= h < |wits| && wits[h].id == id
  {
    if id in Ids(wits) {
      var w :| w in wits && w.id == id;
      var h :| 0 <= h < |wits| && wits[h] == w;
    }
  }

  // The header names the three fixed columns and then gives each key the label that belongs to it.
  ghost predicate HeaderIs(wits: seq<WorkItemType>, keys: seq<string>, line: seq<string>) {
    && |line| == 3 + |keys| && line[0] == "_Type" && line[1] == "_Parent" && line[2] == "_Children"
    && forall j :: 0 <= j < |keys| ==> LabelBelongs(wits, keys[j], line[3 + j])
  }

  lemma LabelsBelong(wits: seq<WorkItemType>, keys: seq<string>, labels: seq<string>, j: nat)
    requires Fits(ColumnMap(wits), keys, labels) && j < |keys|
    ensures LabelBelongs(wits, keys[j], labels[j])
  {
    ColumnMeans(wits, keys[j]);
  }

  lemma HeaderMeans(wits: seq<WorkItemType>, keys: seq<string>, labels: seq<string>)
    requires IsLayout(wits, keys, labels)
    ensures HeaderIs(wits, keys, FIXED_LABELS + labels)
  {
    LayoutFits(wits, keys, labels);
    AllLabelsBelong(wits, keys, labels);
    HeaderShape(wits, keys, labels);
  }

  lemma AllLabelsBelong(wits: seq<WorkItemType>, keys: seq<string>, labels: seq<string>)
    requires Fits(ColumnMap(wits), keys, labels)
    ensures forall j :: 0 <= j < |keys| ==> LabelBelongs(wits, keys[j], labels[j])
  {
    forall j | 0 <= j < |keys|
      ensures LabelBelongs(wits, keys[j], labels[j])
    {
      LabelsBelong(wits, keys, labels, j);
    }
  }

  lemma HeaderShape(wits: seq<WorkItemType>, keys: seq<string>, labels: seq<string>)
    requires |keys| == |labels| && forall j :: 0 <= j < |keys| ==> LabelBelongs(wits, keys[j], labels[j])
    ensures HeaderIs(wits, keys, FIXED_LABELS + labels)
  {
    var line := FIXED_LABELS + labels;
    assert forall j :: 0 <= j < |keys| ==> line[3 + j] == labels[j];
  }

  // ---- Exports ----

  // An export without limit goes through exactly when each row can be made with the links and parents of its window.
  lemma GoesThroughIff(src: Source, start: int)
    requires 0 <= start < |src.results|
    ensures WindowsOk(src, start, WindowCount(src, start)) <==>
            forall i :: 0 <= i < |src.results| - start ==> RowOk(src.results[start + i], ContextAt(src, start + i / 100 * 100, 100))
  {
    var n := |src.results| - start;
    if WindowsOk(src, start, WindowCount(src, start)) {
      forall i | 0 <= i < n
        ensures RowOk(src.results[start + i], ContextAt(src, start + i / 100 * 100, 100))
      {
        assert WindowOk(src, start, i / 100);
        assert Window(src, start + i / 100 * 100, 100)[i % 100] == src.results[start + i];
      }
    } else {
      var k :| 0 <= k < WindowCount(src, start) && !WindowOk(src, start, k);
      var o := start + k * 100;
      var h :| 0 <= h < |Window(src, o, 100)| && !RowOk(Window(src, o, 100)[h], ContextAt(src, o, 100));
      assert (k * 100 + h) / 100 == k;
      assert src.results[start + (k * 100 + h)] == Window(src, o, 100)[h];
    }
  }

  // Line by line and cell by cell: an export without limit is a header and one line for each result.
  lemma WholeExportCells(src: Source, start: int, r: Response, layouts: seq<seq<string>>, labels: seq<string>, i: nat)
    requires WrittenOut(src, start, r, layouts, labels) && Settled(src.wits) && start + i < |src.results|
    ensures r.Response? && !r.more && |r.grid| == 1 + |src.results| - start
    ensures HeaderIs(src.wits, layouts[0], r.grid[0])
    ensures LineIs(ContextAt(src, start + i / 100 * 100, 100), layouts[0], src.results[start + i], r.grid[1 + i])
  {
    WholeExport(src, start, r, layouts, labels, 0);
    WholeExport(src, start, r, layouts, labels, 1 + i);
    HeaderMeans(src.wits, layouts[0], labels);
    ExpectedLineMeans(src, start, layouts[0], labels, i);
  }

  lemma ExpectedLineMeans(src: Source, start: int, keys: seq<string>, labels: seq<string>, i: nat)
    requires 0 <= start && start + i < |src.results| && WindowsOk(src, start, WindowCount(src, start))
    ensures LineIs(ContextAt(src, start + i / 100 * 100, 100), keys, src.results[start + i], ExpectedLine(src, start, keys, labels, 1 + i))
  {
    GoesThroughIff(src, start);
    RowMeans(ContextAt(src, start + i / 100 * 100, 100), keys, src.results[start + i]);
  }

  // With a limit there are at most that many lines, and the note says whether there are more results.
  lemma LimitedExportCells(src: Source, offset: int, limit: int, r: Response, layouts: seq<seq<string>>, labels: seq<string>, i: nat)
    requires LimitedOk(src, offset, limit, r, layouts, labels) && r.Response?
    requires 0 <= offset && i < limit && offset + i < |src.results|
    ensures r.more <==> offset + limit < |src.results|
    ensures |r.grid| == 1 + Least(limit, |src.results| - offset) && |layouts| == 1
    ensures HeaderIs(src.wits, layouts[0], r.grid[0])
    ensures LineIs(ContextAt(src, offset, limit + 1), layouts[0], src.results[offset + i], r.grid[1 + i])
  {
    LimitedShape(src, offset, limit, r, layouts, labels);
    HeaderMeans(src.wits, layouts[0], labels);
    WindowMeans(src, offset, limit, i);
    RowsMean(Window(src, offset, limit), ContextAt(src, offset, limit + 1), layouts[0], i);
  }

  lemma LimitedShape(src: Source, offset: int, limit: int, r: Response, layouts: seq<seq<string>>, labels: seq<string>)
    requires LimitedOk(src, offset, limit, r, layouts, labels) && r.Response?
    requires 0 <= offset < |src.results| && 0 < limit
    ensures var wis, c := Window(src, offset, limit), ContextAt(src, offset, limit + 1);
            && RowsOk(wis, c) && |layouts| == 1 && IsLayout(src.wits, layouts[0], labels)
            && |wis| == Least(limit, |src.results| - offset)
            && r.grid == [FIXED_LABELS + labels] + Rows(FIXED_KEYS + layouts[0], wis, c)
            && (r.more <==> offset + limit < |src.results|)
  {
  }

  lemma WindowMeans(src: Source, offset: int, limit: int, i: nat)
    requires 0 <= offset && i < limit && offset + i < |src.results|
    ensures i < |Window(src, offset, limit)| && Window(src, offset, limit)[i] == src.results[offset + i]
  {
  }

  // One conversion: line by line the rows of its work items.
  lemma RowsMean(wis: seq<WorkItem>, c: Context, keys: seq<string>, i: nat)
    requires RowsOk(wis, c) && i < |wis|
    ensures |Rows(FIXED_KEYS + keys, wis, c)| == |wis|
    ensures LineIs(c, keys, wis[i], Rows(FIXED_KEYS + keys, wis, c)[i])
  {
    RowMeans(c, keys, wis[i]);
  }
}
