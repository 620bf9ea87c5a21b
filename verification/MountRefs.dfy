/** The search for other mounts of a staged directory or device in the host mount table, and what
    it means on tables of clean absolute paths. */
module MountRefs {
  import MountInfo
  import opened MountPaths

  /** A line of the table, split into fields; `Garbled` is a line whose shape or device number is
      malformed. */
  datatype Line = Garbled | Fields(device: string, root: string, target: string, fsType: string)

  datatype Entry = Entry(device: string, root: string, target: string)

  datatype Error = Malformed | NotContained | NamespaceHandle

  datatype Outcome = Refs(targets: seq<string>) | Failed(error: Error)

  /** Mount points are absolute, and so are roots except those of namespace handles. */
  predicate Acceptable(line: Line) {
    && line.Fields?
    && IsAbs(MountInfo.Unescape(line.target))
    && (IsAbs(MountInfo.Unescape(line.root)) || line.fsType == "nsfs")
  }

  function EntryOf(line: Line): Entry
    requires line.Fields?
  {
    Entry(line.device, MountInfo.Unescape(line.root), MountInfo.Unescape(line.target))
  }

  function EntriesOf(lines: seq<Line>): (es: seq<Entry>)
    requires forall i :: 0 <= i < |lines| ==> lines[i].Fields?
    ensures |es| == |lines| && forall i :: 0 <= i < |es| ==> es[i] == EntryOf(lines[i])
  {
    if lines == [] then [] else EntriesOf(lines[..|lines| - 1]) + [EntryOf(lines[|lines| - 1])]
  }

  // ----- The containing mount -----

  /** The mount that `source` lives on: the last among the longest mount points containing it. */
  ghost predicate IsContaining(es: seq<Entry>, source: string, k: int) {
    && 0 <= k < |es| && Contains(es[k].target, source)
    && forall j :: 0 <= j < |es| && Contains(es[j].target, source) ==>
                   |es[j].target| < |es[k].target| || (|es[j].target| == |es[k].target| && j <= k)
  }

  function ContainingIndex(es: seq<Entry>, source: string): (k: int)
    ensures -1 <= k < |es|
    ensures k >= 0 ==> IsContaining(es, source, k)
    ensures k < 0 ==> forall j :: 0 <= j < |es| ==> !Contains(es[j].target, source)
  {
    if es == [] then -1
    else
      var n := |es| - 1;
      var k := ContainingIndex(es[..n], source);
      if Contains(es[n].target, source) && (k < 0 || |es[n].target| >= |es[k].target|) then n else k
  }

  lemma ContainingIsUnique(es: seq<Entry>, source: string, k: int)
    requires IsContaining(es, source, k)
    ensures ContainingIndex(es, source) == k
  {
  }

  // ----- The references -----

  /** The other mount points of the same device and root, in table order. */
  function RefsOf(es: seq<Entry>, device: string, root: string, source: string): seq<string> {
    if es == [] then []
    else
      var n := |es| - 1;
      var refs := RefsOf(es[..n], device, root, source);
      if es[n].device == device && es[n].root == root && es[n].target != source then refs + [es[n].target] else refs
  }

  lemma {:induction false} RefsOfAre(es: seq<Entry>, device: string, root: string, source: string, t: string)
    ensures t in RefsOf(es, device, root, source) <==>
            exists j :: 0 <= j < |es| && es[j] == Entry(device, root, t) && t != source
  {
    if es != [] {
      var n := |es| - 1;
      RefsOfAre(es[..n], device, root, source, t);
      if exists j :: 0 <= j < |es| && es[j] == Entry(device, root, t) && t != source {
        var j :| 0 <= j < |es| && es[j] == Entry(device, root, t) && t != source;
        if j < n { assert es[..n][j] == es[j]; }
      }
      if exists j :: 0 <= j < n && es[..n][j] == Entry(device, root, t) && t != source {
        var j :| 0 <= j < n && es[..n][j] == Entry(device, root, t) && t != source;
        assert es[j] == Entry(device, root, t);
      }
      if es[n] == Entry(device, root, t) && t != source { assert es[n] == Entry(device, root, t); }
    }
  }

  function BindRefs(es: seq<Entry>, source: string): Outcome {
    var k := ContainingIndex(es, source);
    if k < 0 then Failed(NotContained)
    else if !IsAbs(es[k].root) then Failed(NamespaceHandle)
    else Refs(RefsOf(es, es[k].device, JoinRel(es[k].root, Rel(es[k].target, source)), source))
  }

  // The scans grow by one entry at a time.

  lemma EntriesGrow(lines: seq<Line>, i: nat)
    requires i < |lines| && forall j :: 0 <= j <= i ==> lines[j].Fields?
    ensures EntriesOf(lines[..i + 1]) == EntriesOf(lines[..i]) + [EntryOf(lines[i])]
  {
    assert lines[..i + 1][..i] == lines[..i];
  }

  lemma ContainingGrows(es: seq<Entry>, e: Entry, source: string)
    ensures var k := ContainingIndex(es, source);
            ContainingIndex(es + [e], source) ==
            if Contains(e.target, source) && (k < 0 || |e.target| >= |es[k].target|) then |es| else k
  {
    assert (es + [e])[..|es|] == es;
  }

  lemma RefsGrow(es: seq<Entry>, i: nat, device: string, root: string, source: string)
    requires i < |es|
    ensures RefsOf(es[..i + 1], device, root, source) == RefsOf(es[..i], device, root, source)
              + if es[i].device == device && es[i].root == root && es[i].target != source then [es[i].target] else []
  {
    assert es[..i + 1][..i] == es[..i];
  }

  /** The outcome on the lines of the table: one that is not acceptable fails the whole search. */
  function Search(lines: seq<Line>, source: string): Outcome {
    if forall i :: 0 <= i < |lines| ==> Acceptable(lines[i]) then BindRefs(EntriesOf(lines), source)
    else Failed(Malformed)
  }

  /** The search as written: one pass over the table that keeps the containing mount so far, and
      a second pass that collects the references. */
  method BindMountRefs(source: string, lines: seq<Line>) returns (r: Outcome)
    ensures r == Search(lines, source)
  {
    hide EntriesOf, ContainingIndex, RefsOf, EntryOf, Contains, Acceptable;
    var entries: seq<Entry> := [];
    var containing: int := -1;
    assert EntriesOf(lines[..0]) == [] && ContainingIndex([], source) == -1;
    for i := 0 to |lines|
      invariant forall j :: 0 <= j < i ==> Acceptable(lines[j])
      invariant forall j :: 0 <= j < i ==> lines[j].Fields?
      invariant entries == EntriesOf(lines[..i])
      invariant |entries| == i && -1 <= containing < i
      invariant containing == ContainingIndex(entries, source)
    {
      if !Acceptable(lines[i]) {
        return Failed(Malformed);
      }
      AcceptableHasFields(lines[i]);
      var e := EntryOf(lines[i]);
      EntriesGrow(lines, i);
      ContainingGrows(entries, e, source);
      if Contains(e.target, source) {
        if containing < 0 || |e.target| >= |entries[containing].target| {
          containing := i;
        }
      }
      entries := entries + [e];
    }
    assert lines[..|lines|] == lines;
    if containing < 0 {
      return Failed(NotContained);
    }
    if !IsAbs(entries[containing].root) {
      return Failed(NamespaceHandle);
    }
    var root := JoinRel(entries[containing].root, Rel(entries[containing].target, source));
    var device := entries[containing].device;
    var refs := CollectRefs(entries, device, root, source);
    return Refs(refs);
  }

  lemma AcceptableHasFields(line: Line)
    requires Acceptable(line)
    ensures line.Fields?
  {
  }

  /** The second pass of the search. */
  method CollectRefs(entries: seq<Entry>, device: string, root: string, source: string) returns (refs: seq<string>)
    ensures refs == RefsOf(entries, device, root, source)
  {
    refs := [];
    for i := 0 to |entries|
      invariant refs == RefsOf(entries[..i], device, root, source)
    {
      RefsGrow(entries, i, device, root, source);
      if entries[i].device == device && entries[i].root == root && entries[i].target != source {
        refs := refs + [entries[i].target];
      }
    }
    assert entries[..|entries|] == entries;
  }

  // ----- Clean tables -----

  type Comps = seq<string>

  /** The root of a mount: a path on its device, or a namespace handle, which is no path. */
  datatype Root = Path(comps: Comps) | Handle(text: string)

  datatype Mount = Mount(device: string, root: Root, target: Comps)

  /** The mount point is a clean absolute path, and so is the root unless it is a handle. */
  ghost predicate CleanMount(m: Mount) {
    AreComponents(m.target) && if m.root.Path? then AreComponents(m.root.comps) else !IsAbs(m.root.text)
  }

  ghost predicate CleanTable(table: seq<Mount>) {
    forall i :: 0 <= i < |table| ==> CleanMount(table[i])
  }

  function ShowRoot(root: Root): string { if root.Path? then Render(root.comps) else root.text }

  function Show(m: Mount): Entry { Entry(m.device, ShowRoot(m.root), Render(m.target)) }

  function ShowAll(table: seq<Mount>): (es: seq<Entry>)
    ensures |es| == |table| && forall i :: 0 <= i < |es| ==> es[i] == Show(table[i])
  {
    seq(|table|, i requires 0 <= i < |table| => Show(table[i]))
  }

  /** The containing mount, said on components: the last among the deepest prefixes. */
  ghost predicate IsDeepest(table: seq<Mount>, source: Comps, k: int) {
    && 0 <= k < |table| && table[k].target <= source
    && forall j :: 0 <= j < |table| && table[j].target <= source ==>
                   |table[j].target| < |table[k].target| || (|table[j].target| == |table[k].target| && j <= k)
  }

  /** What `source` is a name of: a path on some device, or something below a namespace handle. */
  ghost function Origin(table: seq<Mount>, source: Comps, k: int): (string, Root)
    requires IsDeepest(table, source, k)
  {
    match table[k].root
    case Path(root) => (table[k].device, Path(root + source[|table[k].target|..]))
    case Handle(_) => (table[k].device, table[k].root)
  }

  /** The other mount points of the same thing. */
  ghost predicate IsRef(table: seq<Mount>, source: Comps, k: int, t: Comps)
    requires IsDeepest(table, source, k)
  {
    t != source &&
    exists j :: 0 <= j < |table| && table[j].target == t && (table[j].device, table[j].root) == Origin(table, source, k)
  }

  lemma DeepestIsContaining(table: seq<Mount>, source: Comps, k: int)
    requires CleanTable(table) && AreComponents(source)
    ensures IsContaining(ShowAll(table), Render(source), k) <==> IsDeepest(table, source, k)
  {
    var es := ShowAll(table);
    if 0 <= k < |table| {
      forall j | 0 <= j < |table| ensures Contains(es[j].target, Render(source)) <==> table[j].target <= source {
        ContainsIsPrefix(table[j].target, source);
      }
      forall j | 0 <= j < |table| && table[j].target <= source && table[k].target <= source
        ensures |es[j].target| < |es[k].target| <==> |table[j].target| < |table[k].target|
        ensures |es[j].target| == |es[k].target| <==> |table[j].target| == |table[k].target|
      {
        LongerIsDeeper(table[j].target, table[k].target);
        LongerIsDeeper(table[k].target, table[j].target);
      }
    }
  }

  /** Main result on the search: it finds the deepest mount below which the source lives, exactly
      when there is one, fails if that is a namespace handle, and otherwise returns exactly the other
      mount points of the same origin. Handles elsewhere in the table make no difference. */
  lemma BindRefsMeaning(table: seq<Mount>, source: Comps)
    requires CleanTable(table) && AreComponents(source)
    ensures BindRefs(ShowAll(table), Render(source)) == Failed(NotContained) <==>
              !exists k :: IsDeepest(table, source, k)
    ensures forall k :: IsDeepest(table, source, k) ==>
              var r := BindRefs(ShowAll(table), Render(source));
              if table[k].root.Handle? then r == Failed(NamespaceHandle)
              else
                && r.Refs?
                && (forall t :: t in r.targets ==> IsClean(t))
                && (forall t :: AreComponents(t) ==> (Render(t) in r.targets <==> IsRef(table, source, k, t)))
  {
    var es := ShowAll(table);
    forall k { DeepestIsContaining(table, source, k); }
    var c := ContainingIndex(es, Render(source));
    if c >= 0 { assert IsDeepest(table, source, c); }
    forall k | IsDeepest(table, source, k)
      ensures var r := BindRefs(es, Render(source));
              if table[k].root.Handle? then r == Failed(NamespaceHandle)
              else
                && r.Refs?
                && (forall t :: t in r.targets ==> IsClean(t))
                && (forall t :: AreComponents(t) ==> (Render(t) in r.targets <==> IsRef(table, source, k, t)))
    {
      ContainingIsUnique(es, Render(source), k);
      if table[k].root.Path? { RefsMeaning(table, source, k); } else { assert CleanMount(table[k]); }
    }
  }

  /** The string entries of one device and root are the mounts of that origin. */
  lemma ShownEntry(table: seq<Mount>, device: string, root: Comps, t: Comps, j: int)
    requires CleanTable(table) && AreComponents(root) && AreComponents(t) && 0 <= j < |table|
    ensures Show(table[j]) == Entry(device, Render(root), Render(t)) <==> table[j] == Mount(device, Path(root), t)
  {
    assert CleanMount(table[j]);
    if Show(table[j]) == Entry(device, Render(root), Render(t)) {
      RenderIsAbs(root);
      RenderInjective(table[j].target, t);
      if table[j].root.Path? { RenderInjective(table[j].root.comps, root); }
    }
  }

  lemma RenderIsAbs(root: Comps)
    requires AreComponents(root)
    ensures IsAbs(Render(root))
  {
    if root != [] { JoinShape(root); }
  }

  lemma RefIsShown(table: seq<Mount>, source: Comps, k: int, t: Comps)
    requires CleanTable(table) && AreComponents(source) && AreComponents(t) && IsDeepest(table, source, k)
    requires table[k].root.Path?
    ensures var (device, root) := Origin(table, source, k);
            Render(t) in RefsOf(ShowAll(table), device, Render(root.comps), Render(source)) <==>
                IsRef(table, source, k, t)
  {
    var es := ShowAll(table);
    var (device, origin) := Origin(table, source, k);
    var root := origin.comps;
    assert CleanMount(table[k]);
    RefsOfAre(es, device, Render(root), Render(source), Render(t));
    if Render(t) == Render(source) { RenderInjective(t, source); }
    forall j | 0 <= j < |table|
      ensures es[j] == Entry(device, Render(root), Render(t)) <==> table[j] == Mount(device, Path(root), t)
    {
      ShownEntry(table, device, root, t, j);
    }
  }

  lemma BindRefsAre(table: seq<Mount>, source: Comps, k: int)
    requires CleanTable(table) && AreComponents(source) && IsDeepest(table, source, k)
    requires ContainingIndex(ShowAll(table), Render(source)) == k && table[k].root.Path?
    ensures var (device, root) := Origin(table, source, k);
            BindRefs(ShowAll(table), Render(source))
            == Refs(RefsOf(ShowAll(table), device, Render(root.comps), Render(source)))
  {
    hide RefsOf, ContainingIndex;
    var below := source[|table[k].target|..];
    assert source == table[k].target + below;
    assert CleanMount(table[k]);
    RelJoinGrafts(table[k].root.comps, table[k].target, below);
    RenderIsAbs(table[k].root.comps);
  }

  lemma RefsMeaning(table: seq<Mount>, source: Comps, k: int)
    requires CleanTable(table) && AreComponents(source) && IsDeepest(table, source, k)
    requires ContainingIndex(ShowAll(table), Render(source)) == k && table[k].root.Path?
    ensures var r := BindRefs(ShowAll(table), Render(source));
            && r.Refs?
            && (forall t :: t in r.targets ==> IsClean(t))
            && (forall t :: AreComponents(t) ==> (Render(t) in r.targets <==> IsRef(table, source, k, t)))
  {
    hide RefsOf, ContainingIndex, BindRefs, Render, AreComponents, IsDeepest, IsRef;
    BindRefsAre(table, source, k);
    var es := ShowAll(table);
    var (device, origin) := Origin(table, source, k);
    var root := origin.comps;
    forall t | t in RefsOf(es, device, Render(root), Render(source)) ensures IsClean(t) {
      RefsOfAre(es, device, Render(root), Render(source), t);
      var j :| 0 <= j < |es| && es[j] == Entry(device, Render(root), t) && t != Render(source);
      TargetsAreClean(table, j);
    }
    forall t | AreComponents(t)
      ensures Render(t) in RefsOf(es, device, Render(root), Render(source)) <==> IsRef(table, source, k, t)
    {
      RefIsShown(table, source, k, t);
    }
  }

  lemma TargetsAreClean(table: seq<Mount>, j: int)
    requires CleanTable(table) && 0 <= j < |table|
    ensures IsClean(Render(table[j].target))
  {
    assert CleanMount(table[j]);
  }

  // ----- From the lines to the mounts -----

  /** The line that the kernel writes for a mount: device, root and mount point in this order, the
      paths escaped, and handles on the namespace filesystem. */
  ghost predicate IsLineOf(line: Line, m: Mount) {
    && line.Fields?
    && line.device == m.device
    && line.root == MountInfo.Escape(if m.root.Path? then Render(m.root.comps) else m.root.text)
    && line.target == MountInfo.Escape(Render(m.target))
    && (m.root.Handle? ==> line.fsType == "nsfs")
  }

  ghost predicate AreLinesOf(lines: seq<Line>, table: seq<Mount>) {
    |lines| == |table| && forall i :: 0 <= i < |table| ==> IsLineOf(lines[i], table[i])
  }

  /** Which lines are refused: the mount point must be absolute, and so must the root unless the line
      is of the namespace filesystem. */
  lemma AcceptableIff(device: string, root: string, target: string, fsType: string)
    ensures Acceptable(Fields(device, MountInfo.Escape(root), MountInfo.Escape(target), fsType)) <==>
              "/" <= target && ("/" <= root || fsType == "nsfs")
    ensures !Acceptable(Garbled)
  {
    MountInfo.UnescapeUndoesEscape(root);
    MountInfo.UnescapeUndoesEscape(target);
  }

  lemma LineShowsMount(line: Line, m: Mount)
    requires CleanMount(m) && IsLineOf(line, m)
    ensures Acceptable(line) && EntryOf(line) == Show(m)
  {
    MountInfo.UnescapeUndoesEscape(ShowRoot(m.root));
    MountInfo.UnescapeUndoesEscape(Render(m.target));
    RenderIsAbs(m.target);
    if m.root.Path? { RenderIsAbs(m.root.comps); }
  }

  lemma LinesShowTable(lines: seq<Line>, table: seq<Mount>)
    requires CleanTable(table) && AreLinesOf(lines, table)
    ensures forall i :: 0 <= i < |lines| ==> Acceptable(lines[i])
    ensures EntriesOf(lines) == ShowAll(table)
  {
    hide Acceptable, EntryOf, Show;
    forall i | 0 <= i < |lines|
      ensures Acceptable(lines[i]) && lines[i].Fields? && EntryOf(lines[i]) == Show(table[i])
    {
      assert CleanMount(table[i]) && IsLineOf(lines[i], table[i]);
      LineShowsMount(lines[i], table[i]);
    }
  }

  /** The same of the search on what the kernel writes for the table. No line is refused. */
  lemma SearchMeaning(lines: seq<Line>, table: seq<Mount>, source: Comps)
    requires CleanTable(table) && AreLinesOf(lines, table) && AreComponents(source)
    ensures Search(lines, Render(source)) == Failed(NotContained) <==> !exists k :: IsDeepest(table, source, k)
    ensures forall k :: IsDeepest(table, source, k) ==>
              var r := Search(lines, Render(source));
              if table[k].root.Handle? then r == Failed(NamespaceHandle)
              else
                && r.Refs?
                && (forall t :: t in r.targets ==> IsClean(t))
                && (forall t :: AreComponents(t) ==> (Render(t) in r.targets <==> IsRef(table, source, k, t)))
  {
    hide AreLinesOf, CleanTable, AreComponents, IsDeepest, IsRef, BindRefs, EntriesOf, Acceptable, IsClean;
    LinesShowTable(lines, table);
    assert Search(lines, Render(source)) == BindRefs(ShowAll(table), Render(source));
    BindRefsMeaning(table, source);
    hide ShowAll, Search;
  }

  /** Any other line makes the search fail. */
  lemma RefusedLineFails(lines: seq<Line>, source: string)
    ensures Search(lines, source) == Failed(Malformed) <==> exists i :: 0 <= i < |lines| && !Acceptable(lines[i])
  {
  }
}
