/**
 controller/workitem.go, the second half of ConvertWorkItemsToCSV, and controller/search.go, WorkitemsCSV:
 work items become rows with the help of a cache of numbers, and an export without limit fetches them
 window by window.
 */
module CsvExport {
  import opened Prelude
  import opened Paths
  import opened Strconv
  import opened CsvLayout
  import opened CsvOrder

  // `values` holds the text of each field; a number that is no integer is None.
  datatype WorkItem = WorkItem(id: Uuid, wtype: Uuid, number: Option<int>, values: map<string, string>)

  datatype ParentEntry = ParentEntry(child: Uuid, id: Uuid)

  datatype ChildLink = ChildLink(source: Uuid, target: Uuid)

  // What the rows of one conversion are made of. `numbers` are the work items the database can load.
  datatype Context = Context(wits: seq<WorkItemType>, links: seq<ChildLink>, parents: seq<ParentEntry>, numbers: map<Uuid, int>)

  // ---- A row, without any cache ----

  function TypeOf(wits: seq<WorkItemType>, id: Uuid): Option<WorkItemType> {
    if wits == [] then None
    else if wits[0].id == id then Some(wits[0])
    else TypeOf(wits[1..], id)
  }

  function NumberOf(numbers: map<Uuid, int>, id: Uuid): Option<string> {
    if id in numbers then Some(Itoa(numbers[id])) else None
  }

  // The number of the first parent entry for `id`, empty without one, None if it cannot be resolved.
  function ParentCell(id: Uuid, parents: seq<ParentEntry>, numbers: map<Uuid, int>): Option<string> {
    if parents == [] then Some("")
    else if parents[0].child == id then NumberOf(numbers, parents[0].id)
    else ParentCell(id, parents[1..], numbers)
  }

  function ChildNumbers(id: Uuid, links: seq<ChildLink>, numbers: map<Uuid, int>): Option<seq<string>> {
    if links == [] then Some([])
    else
      var last := links[|links| - 1];
      match ChildNumbers(id, links[..|links| - 1], numbers)
      case None => None
      case Some(found) =>
        if last.source != id then Some(found)
        else match NumberOf(numbers, last.target)
          case None => None
          case Some(n) => Some(found + [n])
  }

  function Join(lines: seq<string>): string {
    if lines == [] then ""
    else if |lines| == 1 then lines[0]
    else lines[0] + "\n" + Join(lines[1..])
  }

  predicate RowOk(wi: WorkItem, c: Context) {
    && wi.number.Some?
    && TypeOf(c.wits, wi.wtype).Some?
    && ParentCell(wi.id, c.parents, c.numbers).Some?
    && ChildNumbers(wi.id, c.links, c.numbers).Some?
  }

  function OrEmpty(o: Option<string>): string {
    if o.Some? then o.value else ""
  }

  function ChildrenCell(id: Uuid, links: seq<ChildLink>, numbers: map<Uuid, int>): Option<string> {
    var found := ChildNumbers(id, links, numbers);
    if found.None? then None else Some(Join(Sort(found.value)))
  }

  // What stands in one column of the row of `wi`, if that row can be made.
  function Cell(key: string, wi: WorkItem, c: Context): string {
    var wit := TypeOf(c.wits, wi.wtype);
    if key == TYPE_KEY then (if wit.Some? then wit.value.name else "")
    else if key == PARENT_KEY then OrEmpty(ParentCell(wi.id, c.parents, c.numbers))
    else if key == CHILDREN_KEY then OrEmpty(ChildrenCell(wi.id, c.links, c.numbers))
    else if wit.Some? && key in wit.value.fields && key in wi.values then wi.values[key]
    else ""
  }

  function Row(keys: seq<string>, wi: WorkItem, c: Context): seq<string> {
    seq(|keys|, i requires 0 <= i < |keys| => Cell(keys[i], wi, c))
  }

  predicate RowsOk(wis: seq<WorkItem>, c: Context) {
    forall i :: 0 <= i < |wis| ==> RowOk(wis[i], c)
  }

  function Rows(keys: seq<string>, wis: seq<WorkItem>, c: Context): seq<seq<string>> {
    seq(|wis|, i requires 0 <= i < |wis| => Row(keys, wis[i], c))
  }

  // ---- The number cache ----

  class NumberCache {
    var entries: map<Uuid, string>

    constructor ()
      ensures entries == map[]
    {
      entries := map[];
    }

    ghost predicate Valid(numbers: map<Uuid, int>)
      reads this
    {
      forall id :: id in entries ==> NumberOf(numbers, id) == Some(entries[id])
    }

    method Put(id: Uuid, number: string)
      modifies this
      ensures entries == old(entries)[id := number]
    {
      entries := entries[id := number];
    }

    // The cached number, or else the one from the database, which is cached then.
    method Resolve(id: Uuid, numbers: map<Uuid, int>) returns (r: Option<string>)
      requires Valid(numbers)
      modifies this
      ensures Valid(numbers)
      ensures r == NumberOf(numbers, id)
      ensures forall k :: k in old(entries) ==> k in entries
    {
      if id in entries {
        return Some(entries[id]);
      }
      r := NumberOf(numbers, id);
      if r.Some? {
        entries := entries[id := r.value];
      }
    }
  }

  method WriteParent(id: Uuid, parents: seq<ParentEntry>, numbers: map<Uuid, int>, cache: NumberCache) returns (r: Option<string>)
    requires cache.Valid(numbers)
    modifies cache
    ensures cache.Valid(numbers)
    ensures r == ParentCell(id, parents, numbers)
  {
    var i := 0;
    assert parents[0..] == parents;
    while i < |parents|
      invariant i <= |parents| && cache.Valid(numbers)
      invariant ParentCell(id, parents, numbers) == ParentCell(id, parents[i..], numbers)
    {
      if parents[i].child == id {
        r := cache.Resolve(parents[i].id, numbers);
        return;
      }
      assert parents[i..][1..] == parents[i + 1..];
      i := i + 1;
    }
    return Some("");
  }

  method WriteChildren(id: Uuid, links: seq<ChildLink>, numbers: map<Uuid, int>, cache: NumberCache) returns (r: Option<string>)
    requires cache.Valid(numbers)
    modifies cache
    ensures cache.Valid(numbers)
    ensures r == ChildrenCell(id, links, numbers)
  {
    var found: seq<string> := [];
    var i := 0;
    while i < |links|
      invariant i <= |links| && cache.Valid(numbers)
      invariant ChildNumbers(id, links[..i], numbers) == Some(found)
    {
      assert links[..i + 1][..i] == links[..i];
      if links[i].source == id {
        var n := cache.Resolve(links[i].target, numbers);
        if n.None? {
          MissingChild(id, links, numbers, i + 1);
          return None;
        }
        found := found + [n.value];
      }
      i := i + 1;
    }
    assert links[..i] == links;
    return Some(Join(Sort(found)));
  }

  lemma {:induction false} MissingChild(id: Uuid, links: seq<ChildLink>, numbers: map<Uuid, int>, n: nat)
    requires n <= |links| && ChildNumbers(id, links[..n], numbers).None?
    ensures ChildNumbers(id, links, numbers).None?
  {
    if n == |links| {
      assert links[..n] == links;
    } else {
      var shorter := links[..|links| - 1];
      assert shorter[..n] == links[..n];
      MissingChild(id, shorter, numbers, n);
    }
  }

  predicate CellFails(key: string, wi: WorkItem, c: Context) {
    || (key == PARENT_KEY && ParentCell(wi.id, c.parents, c.numbers).None?)
    || (key == CHILDREN_KEY && ChildrenCell(wi.id, c.links, c.numbers).None?)
  }

  method WriteCell(key: string, wi: WorkItem, wit: WorkItemType, c: Context, cache: NumberCache) returns (cell: Option<string>)
    requires cache.Valid(c.numbers) && TypeOf(c.wits, wi.wtype) == Some(wit)
    modifies cache
    ensures cache.Valid(c.numbers)
    ensures cell.None? <==> CellFails(key, wi, c)
    ensures cell.Some? ==> cell.value == Cell(key, wi, c)
  {
    if key == TYPE_KEY {
      cell := Some(wit.name);
    } else if key == PARENT_KEY {
      cell := WriteParent(wi.id, c.parents, c.numbers, cache);
    } else if key == CHILDREN_KEY {
      cell := WriteChildren(wi.id, c.links, c.numbers, cache);
    } else if key in wit.fields && key in wi.values {
      cell := Some(wi.values[key]);
    } else {
      cell := Some("");
    }
  }

  // The cells of one work item, column by column.
  method WriteRow(keys: seq<string>, wi: WorkItem, c: Context, cache: NumberCache) returns (r: Option<seq<string>>)
    requires cache.Valid(c.numbers)
    requires wi.number.Some? ==> NumberOf(c.numbers, wi.id) == Some(Itoa(wi.number.value))
    requires PARENT_KEY in keys && CHILDREN_KEY in keys
    modifies cache
    ensures cache.Valid(c.numbers)
    ensures r.Some? <==> RowOk(wi, c)
    ensures r.Some? ==> r.value == Row(keys, wi, c)
  {
    if wi.number.None? {
      return None;
    }
    cache.Put(wi.id, Itoa(wi.number.value));
    var wit := TypeOf(c.wits, wi.wtype);
    if wit.None? {
      return None;
    }
    r := WriteCells(keys, wi, wit.value, c, cache);
    assert CellFails(PARENT_KEY, wi, c) || CellFails(CHILDREN_KEY, wi, c) || RowOk(wi, c);
  }

  method WriteCells(keys: seq<string>, wi: WorkItem, wit: WorkItemType, c: Context, cache: NumberCache) returns (r: Option<seq<string>>)
    requires cache.Valid(c.numbers) && TypeOf(c.wits, wi.wtype) == Some(wit)
    modifies cache
    ensures cache.Valid(c.numbers)
    ensures r.Some? <==> forall key :: key in keys ==> !CellFails(key, wi, c)
    ensures r.Some? ==> r.value == Row(keys, wi, c)
  {
    var line: seq<string> := [];
    var i := 0;
    while i < |keys|
      invariant i <= |keys| && |line| == i && cache.Valid(c.numbers)
      invariant forall h :: 0 <= h < i ==> !CellFails(keys[h], wi, c) && line[h] == Cell(keys[h], wi, c)
    {
      var cell := WriteCell(keys[i], wi, wit, c, cache);
      if cell.None? {
        return None;
      }
      line := line + [cell.value];
      i := i + 1;
    }
    return Some(line);
  }

  // A window of results and what goes with it can be trusted while nothing changes underneath.
  predicate Stable(wis: seq<WorkItem>, numbers: map<Uuid, int>) {
    forall i :: 0 <= i < |wis| ==> wis[i].number.Some? ==> NumberOf(numbers, wis[i].id) == Some(Itoa(wis[i].number.value))
  }

  function HeaderFor(wis: seq<WorkItem>, header: bool, labels: seq<string>): seq<seq<string>> {
    if header && wis != [] then [FIXED_LABELS + labels] else []
  }

  // The whole conversion: no rows and no header for no work items; otherwise, if every row can be made, an
  // optional header and one row for each work item. The cache speeds it up and never shows.
  method ConvertWorkItemsToCSV(wis: seq<WorkItem>, c: Context, cache: NumberCache, header: bool)
    returns (grid: Option<seq<seq<string>>>, ghost keys: seq<string>, ghost labels: seq<string>)
    requires cache.Valid(c.numbers) && Stable(wis, c.numbers)
    modifies cache
    ensures cache.Valid(c.numbers)
    ensures grid.Some? <==> RowsOk(wis, c)
    ensures wis != [] ==> IsLayout(c.wits, keys, labels)
    ensures grid.Some? ==> grid.value == HeaderFor(wis, header, labels) + Rows(FIXED_KEYS + keys, wis, c)
  {
    if |wis| == 0 {
      keys, labels := [], [];
      return Some([]), [], [];
    }
    var columnKeys, columnLabels := Layout(c.wits);
    keys, labels := columnKeys, columnLabels;
    FixedKeysAreIn(columnKeys);
    var lines := WriteRows(FIXED_KEYS + columnKeys, wis, c, cache);
    if lines.None? {
      return None, keys, labels;
    }
    var top := if header then [FIXED_LABELS + columnLabels] else [];
    return Some(top + lines.value), keys, labels;
  }

  method WriteRows(keys: seq<string>, wis: seq<WorkItem>, c: Context, cache: NumberCache) returns (r: Option<seq<seq<string>>>)
    requires cache.Valid(c.numbers) && Stable(wis, c.numbers)
    requires PARENT_KEY in keys && CHILDREN_KEY in keys
    modifies cache
    ensures cache.Valid(c.numbers)
    ensures r.Some? <==> RowsOk(wis, c)
    ensures r.Some? ==> r.value == Rows(keys, wis, c)
  {
    var lines: seq<seq<string>> := [];
    var i := 0;
    while i < |wis|
      invariant i <= |wis| && |lines| == i && cache.Valid(c.numbers)
      invariant forall h :: 0 <= h < i ==> RowOk(wis[h], c) && lines[h] == Row(keys, wis[h], c)
    {
      var line := WriteRow(keys, wis[i], c, cache);
      if line.None? {
        return None;
      }
      lines := lines + [line.value];
      i := i + 1;
    }
    return Some(lines);
  }

  lemma FixedKeysAreIn(keys: seq<string>)
    ensures PARENT_KEY in FIXED_KEYS + keys && CHILDREN_KEY in FIXED_KEYS + keys
  {
    assert (FIXED_KEYS + keys)[1] == PARENT_KEY && (FIXED_KEYS + keys)[2] == CHILDREN_KEY;
  }

  // ---- The export ----

  // A query that keeps giving the same answers: `results` in order, and for each window its links and parents.
  datatype Source = Source(results: seq<WorkItem>, wits: seq<WorkItemType>, numbers: map<Uuid, int>,
                           links: (int, int) -> seq<ChildLink>, parents: (int, int) -> seq<ParentEntry>)

  const WINDOW := 100
  const MAX_LIMIT := 1000

  function Window(src: Source, offset: int, limit: int): seq<WorkItem>
    requires offset >= 0 && limit >= 0
  {
    src.results[Least(offset, |src.results|)..Least(offset + limit, |src.results|)]
  }

  function ContextAt(src: Source, offset: int, limit: int): Context {
    Context(src.wits, src.links(offset, limit), src.parents(offset, limit), src.numbers)
  }

  // What the client is sent: all lines and perhaps a note that there are more, or an error behind some lines.
  datatype Response = BadRequest(sent: seq<seq<string>>) | Response(grid: seq<seq<string>>, more: bool)

  // The rows of the first |layouts| windows, each with the columns of its own conversion.
  function Exported(src: Source, start: int, layouts: seq<seq<string>>): seq<seq<string>>
    requires start >= 0
  {
    if layouts == [] then []
    else
      var k := |layouts| - 1;
      Exported(src, start, layouts[..k]) + WindowRows(src, start, k, layouts[k])
  }

  function WindowRows(src: Source, start: int, k: nat, keys: seq<string>): seq<seq<string>>
    requires start >= 0
  {
    var o := start + k * WINDOW;
    Rows(FIXED_KEYS + keys, Window(src, o, WINDOW), ContextAt(src, o, WINDOW))
  }

  predicate WindowOk(src: Source, start: int, k: nat)
    requires start >= 0
  {
    RowsOk(Window(src, start + k * WINDOW, WINDOW), ContextAt(src, start + k * WINDOW, WINDOW))
  }

  predicate WindowsOk(src: Source, start: int, n: nat)
    requires start >= 0
  {
    forall k :: 0 <= k < n ==> WindowOk(src, start, k)
  }

  // How many windows it takes to see a short one.
  function WindowCount(src: Source, start: int): nat
    requires start >= 0
  {
    if start >= |src.results| then 1 else (|src.results| - start) / WINDOW + 1
  }

  lemma {:induction false} ExportedLength(src: Source, start: int, layouts: seq<seq<string>>)
    requires start >= 0
    ensures |Exported(src, start, layouts)| == (if start >= |src.results| then 0 else Least(|layouts| * WINDOW, |src.results| - start))
  {
    if layouts != [] {
      ExportedLength(src, start, layouts[..|layouts| - 1]);
    }
  }

  // Each result from the start on is written exactly once, in order, as the row it has in its window.
  lemma {:induction false} ExportedIsEachOnce(src: Source, start: int, layouts: seq<seq<string>>, i: nat)
    requires start >= 0 && i < |Exported(src, start, layouts)|
    ensures var w := i / WINDOW;
            && w < |layouts| && start + i < |src.results|
            && Exported(src, start, layouts)[i]
               == Row(FIXED_KEYS + layouts[w], src.results[start + i], ContextAt(src, start + w * WINDOW, WINDOW))
            && (WindowOk(src, start, w) ==> RowOk(src.results[start + i], ContextAt(src, start + w * WINDOW, WINDOW)))
  {
    var k := |layouts| - 1;
    ExportedLength(src, start, layouts);
    ExportedLength(src, start, layouts[..k]);
    var before := Exported(src, start, layouts[..k]);
    if i < |before| {
      ExportedIsEachOnce(src, start, layouts[..k], i);
    } else {
      assert i / WINDOW == k;
      assert Window(src, start + k * WINDOW, WINDOW)[i - k * WINDOW] == src.results[start + i];
    }
  }

  // ---- WorkitemsCSV ----

  method FetchWindow(src: Source, offset: int, limit: int) returns (wis: Option<seq<WorkItem>>)
    ensures wis == if offset < 0 || limit <= 0 then None else Some(Window(src, offset, limit))
  {
    if offset < 0 || limit <= 0 {
      return None;
    }
    return Some(Window(src, offset, limit));
  }

  ghost predicate HasLabels(src: Source, keys: seq<string>) {
    exists labels :: IsLayout(src.wits, keys, labels)
  }

  // Every window with a row in it has the columns of some layout.
  ghost predicate LayoutsOk(src: Source, start: int, layouts: seq<seq<string>>) {
    forall k :: 0 <= k < |layouts| && start + k * WINDOW < |src.results| ==> HasLabels(src, layouts[k])
  }

  // With a limit one more result is fetched, dropped, and mentioned in a note.
  ghost predicate LimitedOk(src: Source, offset: int, limit: int, r: Response, layouts: seq<seq<string>>, labels: seq<string>) {
    if offset < 0 || limit < 0 then r == BadRequest([])
    else
      var wis := Window(src, offset, limit);
      var c := ContextAt(src, offset, limit + 1);
      if !RowsOk(wis, c) then r == BadRequest([])
      else if wis == [] then r == Response([], offset + limit < |src.results|)
      else
        && |layouts| == 1 && IsLayout(src.wits, layouts[0], labels)
        && r == Response([FIXED_LABELS + labels] + Rows(FIXED_KEYS + layouts[0], wis, c), offset + limit < |src.results|)
  }

  // What has been sent after the first |layouts| windows.
  ghost predicate Sent(src: Source, start: int, layouts: seq<seq<string>>, labels: seq<string>, out: seq<seq<string>>)
    requires start >= 0
  {
    && layouts != [] && IsLayout(src.wits, layouts[0], labels)
    && WindowsOk(src, start, |layouts|) && LayoutsOk(src, start, layouts)
    && out == [FIXED_LABELS + labels] + Exported(src, start, layouts)
  }

  // An export that fails has sent the lines of all windows before the first that cannot be converted.
  ghost predicate FailedOk(src: Source, offset: int, r: Response, layouts: seq<seq<string>>, labels: seq<string>)
    requires offset >= 0
  {
    && r.BadRequest? && !WindowOk(src, offset, |layouts|)
    && (if layouts == [] then r.sent == [] else Sent(src, offset, layouts, labels, r.sent))
  }

  // Without a limit everything from the offset on is written, or everything up to the window that fails.
  ghost predicate UnlimitedOk(src: Source, offset: int, r: Response, layouts: seq<seq<string>>, labels: seq<string>) {
    if offset < 0 then r == BadRequest([])
    else if offset >= |src.results| then r == Response([], false)
    else if !WindowsOk(src, offset, WindowCount(src, offset)) then FailedOk(src, offset, r, layouts, labels)
    else
      && |layouts| * WINDOW >= |src.results| - offset
      && LayoutsOk(src, offset, layouts)
      && IsLayout(src.wits, layouts[0], labels)
      && r == Response([FIXED_LABELS + labels] + Exported(src, offset, layouts), false)
  }

  method WorkitemsCSV(src: Source, pageOffset: Option<int>, pageLimit: Option<int>)
    returns (r: Response, ghost layouts: seq<seq<string>>, ghost labels: seq<string>)
    requires Stable(src.results, src.numbers)
    ensures pageLimit.Some? && pageLimit.value > 1000 ==> r == BadRequest([])
    ensures pageLimit.Some? && pageLimit.value <= 1000 ==>
              LimitedOk(src, if pageOffset.Some? then pageOffset.value else 0, pageLimit.value, r, layouts, labels)
    ensures pageLimit.None? ==> UnlimitedOk(src, if pageOffset.Some? then pageOffset.value else 0, r, layouts, labels)
  {
    layouts, labels := [], [];
    if pageLimit.Some? && pageLimit.value > MAX_LIMIT {
      return BadRequest([]), [], [];
    }
    var limit := WINDOW;
    if pageLimit.Some? {
      limit := pageLimit.value + 1;
    }
    var offset := 0;
    if pageOffset.Some? {
      offset := pageOffset.value;
    }
    var fetched := FetchWindow(src, offset, limit);
    if fetched.None? {
      return BadRequest([]), [], [];
    }
    if |fetched.value| == 0 {
      return Response([], false), [], [];
    }
    var cache := new NumberCache();
    if pageLimit.Some? {
      r, layouts, labels := WriteLimited(src, offset, pageLimit.value, cache);
    } else {
      r, layouts, labels := WriteUnlimited(src, offset, cache);
    }
  }

  method WriteLimited(src: Source, offset: int, limit: int, cache: NumberCache)
    returns (r: Response, ghost layouts: seq<seq<string>>, ghost labels: seq<string>)
    requires Stable(src.results, src.numbers) && cache.Valid(src.numbers)
    requires 0 <= offset < |src.results| && 0 <= limit
    modifies cache
    ensures LimitedOk(src, offset, limit, r, layouts, labels)
  {
    var wis := Window(src, offset, limit + 1);
    var more := false;
    if |wis| >= limit + 1 {
      wis := wis[..|wis| - 1];
      more := true;
    }
    ShorterWindow(src, offset, limit);
    StableWindow(src, offset, limit);
    var grid, keys, ls := ConvertWorkItemsToCSV(wis, ContextAt(src, offset, limit + 1), cache, true);
    labels, layouts := ls, [keys];
    if grid.None? {
      return BadRequest([]), layouts, labels;
    }
    return Response(grid.value, more), layouts, labels;
  }

  // Without its last result a full window is the next smaller one; any other is that one already.
  lemma ShorterWindow(src: Source, offset: int, limit: int)
    requires offset >= 0 && limit >= 0
    ensures var wis := Window(src, offset, limit + 1);
            Window(src, offset, limit) == if |wis| >= limit + 1 then wis[..|wis| - 1] else wis
    ensures offset <= |src.results| ==> (|Window(src, offset, limit + 1)| >= limit + 1 <==> offset + limit < |src.results|)
  {
    var n := |src.results|;
    var from, to := Least(offset, n), Least(offset + limit, n);
    var longer := Least(offset + limit + 1, n);
    assert from <= to <= longer <= n;
    var wis := Window(src, offset, limit + 1);
    assert |wis| == longer - from;
    if |wis| >= limit + 1 {
      assert longer == offset + limit + 1 && from == offset;
      assert wis[..|wis| - 1] == src.results[from..to];
    } else {
      assert longer == to;
    }
  }

  lemma StableWindow(src: Source, offset: int, limit: int)
    requires Stable(src.results, src.numbers) && offset >= 0 && limit >= 0
    ensures Stable(Window(src, offset, limit), src.numbers)
  {
  }

  // Without a limit windows are fetched, converted and sent until one is short.
  method WriteUnlimited(src: Source, start: int, cache: NumberCache)
    returns (r: Response, ghost layouts: seq<seq<string>>, ghost labels: seq<string>)
    requires Stable(src.results, src.numbers) && cache.Valid(src.numbers)
    requires 0 <= start < |src.results|
    modifies cache
    ensures cache.Valid(src.numbers)
    ensures UnlimitedOk(src, start, r, layouts, labels)
  {
    var grid, keys, ls := WriteFirst(src, start, cache);
    labels, layouts := ls, [];
    if grid.None? {
      return BadRequest([]), layouts, labels;
    }
    layouts := [keys];
    var out := grid.value;
    var offset := start + WINDOW;
    while true
      invariant offset == start + |layouts| * WINDOW
      invariant offset <= |src.results| || |layouts| == 1
      invariant cache.Valid(src.numbers)
      invariant Sent(src, start, layouts, labels, out)
      decreases |src.results| + WINDOW - offset
    {
      var next, size, more := WriteNext(src, start, offset, cache, layouts, labels, out);
      if next.None? {
        return BadRequest(out), layouts, labels;
      }
      layouts := layouts + [more];
      out := out + next.value;
      if size < WINDOW {
        break;
      }
      offset := offset + size;
    }
    Finished(src, start, layouts, labels, out);
    return Response(out, false), layouts, labels;
  }

  method WriteFirst(src: Source, start: int, cache: NumberCache)
    returns (grid: Option<seq<seq<string>>>, ghost keys: seq<string>, ghost labels: seq<string>)
    requires Stable(src.results, src.numbers) && cache.Valid(src.numbers)
    requires 0 <= start < |src.results|
    modifies cache
    ensures cache.Valid(src.numbers)
    ensures grid.None? ==> !WindowOk(src, start, 0) && !WindowsOk(src, start, WindowCount(src, start))
    ensures grid.Some? ==> Sent(src, start, [keys], labels, grid.value)
  {
    var size;
    grid, size, keys, labels := WriteWindow(src, start, 0, start, cache, true);
    if grid.None? {
      FailedWindow(src, start, 0);
    } else {
      SentFirst(src, start, keys, labels);
    }
  }

  lemma SentFirst(src: Source, start: int, keys: seq<string>, labels: seq<string>)
    requires 0 <= start && WindowOk(src, start, 0) && IsLayout(src.wits, keys, labels)
    ensures Sent(src, start, [keys], labels, [FIXED_LABELS + labels] + WindowRows(src, start, 0, keys))
  {
    OneMoreWindow(src, start, [], keys, labels);
    assert [] + [keys] == [keys];
  }

  method WriteNext(src: Source, ghost start: int, offset: int, cache: NumberCache,
                   ghost layouts: seq<seq<string>>, ghost labels: seq<string>, ghost out: seq<seq<string>>)
    returns (next: Option<seq<seq<string>>>, size: nat, ghost keys: seq<string>)
    requires Stable(src.results, src.numbers) && cache.Valid(src.numbers)
    requires 0 <= start && offset == start + |layouts| * WINDOW && Sent(src, start, layouts, labels, out)
    modifies cache
    ensures cache.Valid(src.numbers)
    ensures size == |Window(src, offset, WINDOW)|
    ensures next.None? ==> !WindowOk(src, start, |layouts|) && !WindowsOk(src, start, WindowCount(src, start))
    ensures next.Some? ==> Sent(src, start, layouts + [keys], labels, out + next.value)
  {
    ghost var ls;
    next, size, keys, ls := WriteWindow(src, start, |layouts|, offset, cache, false);
    assert [] + WindowRows(src, start, |layouts|, keys) == WindowRows(src, start, |layouts|, keys);
    if next.None? {
      FailedWindow(src, start, |layouts|);
    } else {
      SentGrows(src, start, layouts, labels, out, keys, ls);
    }
  }

  method WriteWindow(src: Source, ghost start: int, ghost k: nat, offset: int, cache: NumberCache, header: bool)
    returns (grid: Option<seq<seq<string>>>, size: nat, ghost keys: seq<string>, ghost labels: seq<string>)
    requires Stable(src.results, src.numbers) && cache.Valid(src.numbers)
    requires 0 <= start && offset == start + k * WINDOW
    modifies cache
    ensures cache.Valid(src.numbers)
    ensures size == |Window(src, offset, WINDOW)|
    ensures grid.Some? <==> WindowOk(src, start, k)
    ensures offset < |src.results| ==> IsLayout(src.wits, keys, labels)
    ensures grid.Some? ==>
              grid.value == (if header && offset < |src.results| then [FIXED_LABELS + labels] else []) + WindowRows(src, start, k, keys)
  {
    var wis := Window(src, offset, WINDOW);
    size := |wis|;
    StableWindow(src, offset, WINDOW);
    grid, keys, labels := ConvertWorkItemsToCSV(wis, ContextAt(src, offset, WINDOW), cache, header);
  }

  lemma SentGrows(src: Source, start: int, layouts: seq<seq<string>>, labels: seq<string>, out: seq<seq<string>>,
                  keys: seq<string>, ls: seq<string>)
    requires 0 <= start && Sent(src, start, layouts, labels, out) && WindowOk(src, start, |layouts|)
    requires start + |layouts| * WINDOW < |src.results| ==> IsLayout(src.wits, keys, ls)
    ensures Sent(src, start, layouts + [keys], labels, out + WindowRows(src, start, |layouts|, keys))
  {
    var rows := WindowRows(src, start, |layouts|, keys);
    OneMoreWindow(src, start, layouts, keys, ls);
    assert (layouts + [keys])[0] == layouts[0];
    ConcatIsAssociative([FIXED_LABELS + labels], Exported(src, start, layouts), rows);
  }

  lemma ConcatIsAssociative<T>(a: seq<T>, b: seq<T>, c: seq<T>)
    ensures (a + b) + c == a + (b + c)
  {
  }

  lemma FailedWindow(src: Source, start: int, k: nat)
    requires 0 <= start && !WindowOk(src, start, k)
    ensures !WindowsOk(src, start, WindowCount(src, start))
  {
    assert Window(src, start + k * WINDOW, WINDOW) != [];
  }

  lemma Finished(src: Source, start: int, layouts: seq<seq<string>>, labels: seq<string>, out: seq<seq<string>>)
    requires 0 <= start < |src.results| && Sent(src, start, layouts, labels, out)
    requires start + |layouts| * WINDOW > |src.results|
    ensures UnlimitedOk(src, start, Response(out, false), layouts, labels)
  {
    assert WindowCount(src, start) <= |layouts|;
  }

  lemma OneMoreWindow(src: Source, start: int, layouts: seq<seq<string>>, keys: seq<string>, labels: seq<string>)
    requires 0 <= start && LayoutsOk(src, start, layouts)
    requires WindowsOk(src, start, |layouts|) && WindowOk(src, start, |layouts|)
    requires start + |layouts| * WINDOW < |src.results| ==> IsLayout(src.wits, keys, labels)
    ensures LayoutsOk(src, start, layouts + [keys]) && WindowsOk(src, start, |layouts| + 1)
    ensures Exported(src, start, layouts + [keys]) == Exported(src, start, layouts) + WindowRows(src, start, |layouts|, keys)
  {
    assert (layouts + [keys])[..|layouts|] == layouts;
    assert start + |layouts| * WINDOW < |src.results| ==> HasLabels(src, keys);
  }

  // With settled types all windows share one layout, so the whole export is one table.
  lemma OneTable(src: Source, start: int, layouts: seq<seq<string>>, labels: seq<string>, k: nat)
    requires 0 <= start && layouts != [] && LayoutsOk(src, start, layouts)
    requires IsLayout(src.wits, layouts[0], labels) && Settled(src.wits)
    requires k < |layouts| && start + k * WINDOW < |src.results|
    ensures layouts[k] == layouts[0]
  {
    assert HasLabels(src, layouts[k]);
    var l :| IsLayout(src.wits, layouts[k], l);
    OneLayout(src.wits, layouts[0], labels, layouts[k], l);
  }

  // Line `i` of an export that went through: the header, or the row of the next result.
  function ExpectedLine(src: Source, start: int, keys: seq<string>, labels: seq<string>, i: nat): seq<string>
    requires 0 <= start && start + i <= |src.results|
  {
    if i == 0 then FIXED_LABELS + labels
    else Row(FIXED_KEYS + keys, src.results[start + i - 1], ContextAt(src, start + (i - 1) / WINDOW * WINDOW, WINDOW))
  }

  ghost predicate WrittenOut(src: Source, start: int, r: Response, layouts: seq<seq<string>>, labels: seq<string>) {
    && 0 <= start < |src.results|
    && WindowsOk(src, start, WindowCount(src, start))
    && UnlimitedOk(src, start, r, layouts, labels)
  }

  lemma LineOfRow(src: Source, start: int, layouts: seq<seq<string>>, labels: seq<string>, i: nat)
    requires 0 <= start < |src.results| && layouts != [] && |layouts| * WINDOW >= |src.results| - start
    requires LayoutsOk(src, start, layouts) && IsLayout(src.wits, layouts[0], labels)
    requires Settled(src.wits) && start + i < |src.results|
    ensures |Exported(src, start, layouts)| == |src.results| - start
    ensures Exported(src, start, layouts)[i] == ExpectedLine(src, start, layouts[0], labels, i + 1)
  {
    ExportedLength(src, start, layouts);
    ExportedIsEachOnce(src, start, layouts, i);
    OneTable(src, start, layouts, labels, i / WINDOW);
  }

  lemma LineOf(src: Source, start: int, keys: seq<string>, labels: seq<string>, rows: seq<seq<string>>, i: nat)
    requires 0 <= start && start + i <= |src.results| && |rows| == |src.results| - start
    requires i > 0 ==> rows[i - 1] == ExpectedLine(src, start, keys, labels, i)
    ensures ([FIXED_LABELS + labels] + rows)[i] == ExpectedLine(src, start, keys, labels, i)
  {
  }

  lemma LinesFitHeader(src: Source, start: int, keys: seq<string>, labels: seq<string>, i: nat)
    requires IsLayout(src.wits, keys, labels)
    requires 0 <= start && start + i <= |src.results|
    ensures |ExpectedLine(src, start, keys, labels, i)| == 3 + |labels|
  {
  }

  // An export that goes through is a header and then one line for each result from the start to the last, in
  // order, all as wide as the header.
  lemma WholeExport(src: Source, start: int, r: Response, layouts: seq<seq<string>>, labels: seq<string>, i: nat)
    requires WrittenOut(src, start, r, layouts, labels) && Settled(src.wits)
    requires start + i <= |src.results|
    ensures r.Response? && |r.grid| == 1 + |src.results| - start
    ensures r.grid[i] == ExpectedLine(src, start, layouts[0], labels, i)
    ensures |r.grid[i]| == |r.grid[0]|
  {
    var rows := Exported(src, start, layouts);
    LineOfRow(src, start, layouts, labels, if i == 0 then 0 else i - 1);
    LineOf(src, start, layouts[0], labels, rows, i);
    LineOf(src, start, layouts[0], labels, rows, 0);
    LinesFitHeader(src, start, layouts[0], labels, i);
    LinesFitHeader(src, start, layouts[0], labels, 0);
  }

  lemma SameSent(src: Source, start: int, layouts1: seq<seq<string>>, labels1: seq<string>, out1: seq<seq<string>>,
                 layouts2: seq<seq<string>>, labels2: seq<string>, out2: seq<seq<string>>)
    requires 0 <= start && Settled(src.wits) && |layouts1| == |layouts2| && start + |layouts1| * WINDOW < |src.results|
    requires Sent(src, start, layouts1, labels1, out1) && Sent(src, start, layouts2, labels2, out2)
    ensures out1 == out2
  {
    OneLayout(src.wits, layouts1[0], labels1, layouts2[0], labels2);
    forall k | 0 <= k < |layouts1|
      ensures layouts1[k] == layouts2[k]
    {
      OneTable(src, start, layouts1, labels1, k);
      OneTable(src, start, layouts2, labels2, k);
    }
    assert layouts1 == layouts2;
  }

  lemma SameFailure(src: Source, start: int, r1: Response, layouts1: seq<seq<string>>, labels1: seq<string>,
                    r2: Response, layouts2: seq<seq<string>>, labels2: seq<string>)
    requires 0 <= start && Settled(src.wits)
    requires FailedOk(src, start, r1, layouts1, labels1) && FailedOk(src, start, r2, layouts2, labels2)
    ensures r1 == r2
  {
    assert !(|layouts1| < |layouts2|) && !(|layouts2| < |layouts1|);
    if layouts1 != [] {
      assert Window(src, start + |layouts1| * WINDOW, WINDOW) != [];
      SameSent(src, start, layouts1, labels1, r1.sent, layouts2, labels2, r2.sent);
    }
  }

  lemma SameWhole(src: Source, start: int, r1: Response, layouts1: seq<seq<string>>, labels1: seq<string>,
                  r2: Response, layouts2: seq<seq<string>>, labels2: seq<string>)
    requires Settled(src.wits)
    requires WrittenOut(src, start, r1, layouts1, labels1) && WrittenOut(src, start, r2, layouts2, labels2)
    ensures r1 == r2
  {
    WholeExport(src, start, r1, layouts1, labels1, 0);
    WholeExport(src, start, r2, layouts2, labels2, 0);
    OneLayout(src.wits, layouts1[0], labels1, layouts2[0], labels2);
    forall i | 0 <= i < |r1.grid|
      ensures r1.grid[i] == r2.grid[i]
    {
      WholeExport(src, start, r1, layouts1, labels1, i);
      WholeExport(src, start, r2, layouts2, labels2, i);
    }
    assert r1.grid == r2.grid;
  }

  // With settled types the order in which maps are visited never shows in an export, complete or cut off.
  lemma ExportIsDetermined(src: Source, start: int, r1: Response, layouts1: seq<seq<string>>, labels1: seq<string>,
                           r2: Response, layouts2: seq<seq<string>>, labels2: seq<string>)
    requires Settled(src.wits)
    requires UnlimitedOk(src, start, r1, layouts1, labels1) && UnlimitedOk(src, start, r2, layouts2, labels2)
    ensures r1 == r2
  {
    if 0 <= start < |src.results| {
      if WindowsOk(src, start, WindowCount(src, start)) {
        SameWhole(src, start, r1, layouts1, labels1, r2, layouts2, labels2);
      } else {
        SameFailure(src, start, r1, layouts1, labels1, r2, layouts2, labels2);
      }
    }
  }
}
