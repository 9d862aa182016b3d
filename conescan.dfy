/**
 * The earlier loaders of the application file, which work on global state:
 * the open document, its path, the one `Definition` and the `tableSelect`
 * flags of the table list. They differ from the `DefinitionParse` loaders in
 * their NULL guards, in a `loadTable` that copies fewer members, and in
 * reallocating `tableSelect`.
 */
module ConeScanLoaders {
  import opened Options
  import opened XmlRecords
  import opened Definitions
  import DefinitionParsing

  /**
   * The old `loadScaling`: a NULL record or element changes nothing;
   * otherwise each string attribute that is present replaces its member, a
   * missing one keeps it, and `min`, `max` and `inc` are overwritten. This
   * is what the `DefinitionParse` loader does.
   */
  function LoadScalingGuarded(scaling: Option<Scaling>, xml: Option<Element>): (r: Option<Scaling>)
    ensures scaling.None? || xml.None? ==> r == scaling
    ensures scaling.Some? && xml.Some? ==> r.Some?
    ensures scaling.Some? && xml.Some? ==>
      var s := scaling.value;
      var x := xml.value;
      r.value.name == (if "name" in x.attrs then Some(x.attrs["name"]) else s.name)
      && r.value.units == (if "units" in x.attrs then Some(x.attrs["units"]) else s.units)
      && r.value.toexpr == (if "toexpr" in x.attrs then Some(x.attrs["toexpr"]) else s.toexpr)
      && r.value.frexpr == (if "frexpr" in x.attrs then Some(x.attrs["frexpr"]) else s.frexpr)
      && r.value.format == (if "format" in x.attrs then Some(x.attrs["format"]) else s.format)
      && r.value.storagetype == (if "storagetype" in x.attrs then Some(x.attrs["storagetype"]) else s.storagetype)
      && r.value.endian == (if "endian" in x.attrs then Some(x.attrs["endian"]) else s.endian)
      && r.value.min == Attribute(x, "min") && r.value.max == Attribute(x, "max") && r.value.inc == Attribute(x, "inc")
  {
    if xml.None? then scaling
    else if scaling.None? then scaling
    else Some(DefinitionParsing.LoadedScaling(scaling.value, xml.value))
  }

  /**
   * The old `loadTable`: a NULL record or element changes nothing;
   * otherwise `level` and `elements` are read as `IntAttribute`s and the
   * name, category and scaling name are copied when present. The address,
   * the type, the scaling binding and the sub-tables are never touched.
   */
  function LoadTableGuarded(table: Option<Table>, xml: Option<Element>): (r: Option<Table>)
    ensures table.None? || xml.None? ==> r == table
    ensures table.Some? && xml.Some? ==> r.Some?
    ensures table.Some? && xml.Some? ==>
      var t := table.value;
      var x := xml.value;
      r.value.level == IntAttribute(x, "level") && r.value.elements == IntAttribute(x, "elements")
      && r.value.name == (if "name" in x.attrs then Some(x.attrs["name"]) else t.name)
      && r.value.category == (if "category" in x.attrs then Some(x.attrs["category"]) else t.category)
      && r.value.scaling == (if "scaling" in x.attrs then Some(x.attrs["scaling"]) else t.scaling)
  {
    if table.None? then table
    else if xml.None? then table
    else
      var t := table.value;
      var x := xml.value;
      var t1 := t.(level := IntAttribute(x, "level"));
      var t2 := t1.(elements := IntAttribute(x, "elements"));
      var t3 := t2.(name := AddString(t2.name, Attribute(x, "name")));
      var t4 := t3.(category := AddString(t3.category, Attribute(x, "category")));
      Some(t4.(scaling := AddString(t4.scaling, Attribute(x, "scaling"))))
  }

  /** The old loader keeps what the newer one sets from the address, the type and the scaling list. */
  lemma LoadTableGuardedKeeps(t: Table, x: Element)
    ensures var r := LoadTableGuarded(Some(t), Some(x)).value;
      r.address == t.address && r.tableType == t.tableType && r.binding == t.binding
      && r.numTables == t.numTables && r.tables == t.tables
  {
  }

  /** Both loaders agree on what both of them read: name, category, scaling name, level and elements. */
  lemma LoadersAgree(t: Table, x: Element, scalings: seq<Scaling>)
    requires DefinitionParsing.Loadable(t, x)
    ensures var old_ := LoadTableGuarded(Some(t), Some(x)).value;
      var new_ := DefinitionParsing.LoadedTable(t, x, scalings);
      old_.name == new_.name && old_.category == new_.category && old_.scaling == new_.scaling
      && old_.level == new_.level && old_.elements == new_.elements
  {
  }

  /** A root table as the old `loadTables` leaves it: zeroed, then it and its sub-tables loaded by the old `loadTable`. */
  function OldLoadedRoot(x: Element): (t: Table)
    ensures t.numTables == |DefinitionParsing.Tables(x)| == |t.tables|
    ensures t.address == 0 && t.tableType.None? && t.binding.None?
  {
    var subs := DefinitionParsing.Tables(x);
    var root := LoadTableGuarded(Some(DefinitionParsing.AllocatedRoot(x)), Some(x)).value;
    root.(tables := seq(|subs|, j requires 0 <= j < |subs| => LoadTableGuarded(Some(ZeroTable), Some(subs[j])).value))
  }

  /**
   * The globals of the application file that the loaders use: the open
   * document, its path, the definition and the per-table selection flags
   * (NULL before the first load).
   */
  class ConeScan {
    var metadataFilePath: Option<string>
    var metadataFile: Option<Element>
    const definition: Definition
    var tableSelect: array?<bool>

    constructor ()
      ensures metadataFilePath.None? && metadataFile.None? && tableSelect == null
      ensures fresh(definition) && definition.IsZero() && definition.Valid()
    {
      metadataFilePath := None;
      metadataFile := None;
      definition := new Definition();
      tableSelect := null;
    }

    /** The old `closeMetadataFile`: drops the document and the path and clears the definition; `tableSelect` stays. */
    method CloseMetadataFile()
      modifies this, definition
      ensures metadataFile.None? && metadataFilePath.None?
      ensures definition.IsZero() && definition.Valid()
      ensures tableSelect == old(tableSelect)
    {
      if metadataFile.Some? {
        metadataFile := None;
      }
      if metadataFilePath.Some? {
        metadataFilePath := None;
      }
      definition.Clear();
    }

    /**
     * The old `loadScalings`: the count of `scaling` children is added to
     * `numScalings`, that many zeroed scalings are allocated and the
     * children are loaded into the first slots in document order.
     */
    method LoadScalings(rom: Element)
      requires definition.Valid()
      modifies definition
      ensures definition.Valid()
      ensures var recs := ChildElements(rom.children, "scaling");
        definition.numScalings == old(definition.numScalings) + |recs| && fresh(definition.scalings)
        && (forall i :: 0 <= i < |recs| ==> definition.scalings[i] == DefinitionParsing.LoadedScaling(ZeroScaling, recs[i]))
        && (forall i :: |recs| <= i < definition.scalings.Length ==> definition.scalings[i] == ZeroScaling)
      ensures definition.identity == old(definition.identity)
      ensures definition.numTables == old(definition.numTables) && definition.tables == old(definition.tables)
    {
      var recs := ChildElements(rom.children, "scaling");
      var count := CountElements(rom.children, "scaling");
      definition.numScalings := definition.numScalings + count;
      var scalings := new Scaling[definition.numScalings](_ => ZeroScaling);
      definition.scalings := scalings;
      var index := 0;
      while index < |recs|
        invariant 0 <= index <= |recs| <= scalings.Length
        invariant forall i :: 0 <= i < index ==> scalings[i] == DefinitionParsing.LoadedScaling(ZeroScaling, recs[i])
        invariant forall i :: index <= i < scalings.Length ==> scalings[i] == ZeroScaling
        modifies scalings
      {
        ghost var before := scalings[..];
        var loaded := LoadScalingGuarded(Some(scalings[index]), Some(recs[index]));
        scalings[index] := loaded.value;
        assert forall i :: 0 <= i < scalings.Length && i != index ==> scalings[i] == before[i];
        index := index + 1;
      }
    }

    /**
     * The old `loadTables`: counts and allocates the root tables, replaces
     * `tableSelect` by a cleared array of one flag per root, adds each
     * root's sub-table count to its (zero) count and allocates them, and
     * loads every root and its sub-tables in document order.
     */
    method LoadTables(rom: Element)
      requires definition.Valid()
      modifies this, definition
      ensures definition.Valid()
      ensures var roots := DefinitionParsing.Tables(rom);
        definition.numTables == |roots| && fresh(definition.tables)
        && forall i :: 0 <= i < |roots| ==> definition.tables[i] == OldLoadedRoot(roots[i])
      ensures tableSelect != null && fresh(tableSelect) && tableSelect.Length == definition.numTables
      ensures forall i :: 0 <= i < tableSelect.Length ==> !tableSelect[i]
      ensures definition.identity == old(definition.identity)
      ensures definition.numScalings == old(definition.numScalings) && definition.scalings == old(definition.scalings)
      ensures metadataFile == old(metadataFile) && metadataFilePath == old(metadataFilePath)
    {
      var roots := DefinitionParsing.Tables(rom);
      definition.numTables := 0;
      var count := CountElements(rom.children, "table");
      definition.numTables := definition.numTables + count;
      var tables := new Table[definition.numTables](_ => ZeroTable);
      definition.tables := tables;
      tableSelect := new bool[definition.numTables](_ => false);
      AllocateSubtables(tables, roots);
      LoadRoots(tables, roots);
    }
  }

  /** The second pass of the old `loadTables`: each root's sub-table count is added to the zero it starts from. */
  method AllocateSubtables(tables: array<Table>, roots: seq<Element>)
    requires tables.Length == |roots|
    requires forall i :: 0 <= i < |roots| ==> tables[i] == ZeroTable
    modifies tables
    ensures forall i :: 0 <= i < |roots| ==> tables[i] == DefinitionParsing.AllocatedRoot(roots[i])
  {
    var index := 0;
    while index < |roots|
      invariant 0 <= index <= |roots|
      invariant forall i :: 0 <= i < index ==> tables[i] == DefinitionParsing.AllocatedRoot(roots[i])
      invariant forall i :: index <= i < |roots| ==> tables[i] == ZeroTable
    {
      var n := CountElements(roots[index].children, "table");
      var t := tables[index].(numTables := tables[index].numTables + n);
      tables[index] := t.(tables := seq(t.numTables, _ => ZeroTable));
      index := index + 1;
    }
  }

  /** The last pass of the old `loadTables`. */
  method LoadRoots(tables: array<Table>, roots: seq<Element>)
    requires tables.Length == |roots|
    requires forall i :: 0 <= i < |roots| ==> tables[i] == DefinitionParsing.AllocatedRoot(roots[i])
    modifies tables
    ensures forall i :: 0 <= i < |roots| ==> tables[i] == OldLoadedRoot(roots[i])
  {
    var index := 0;
    while index < |roots|
      invariant 0 <= index <= |roots|
      invariant forall i :: 0 <= i < index ==> tables[i] == OldLoadedRoot(roots[i])
      invariant forall i :: index <= i < |roots| ==> tables[i] == DefinitionParsing.AllocatedRoot(roots[i])
    {
      var table := LoadRoot(tables[index], roots[index]);
      ghost var before := tables[..];
      tables[index] := table;
      assert forall i :: 0 <= i < |roots| && i != index ==> tables[i] == before[i];
      index := index + 1;
    }
  }

  /** One root of the old last pass: the root, then each of its sub-tables in order. */
  method LoadRoot(t: Table, x: Element) returns (r: Table)
    requires t == DefinitionParsing.AllocatedRoot(x)
    ensures r == OldLoadedRoot(x)
  {
    r := LoadTableGuarded(Some(t), Some(x)).value;
    var subs := DefinitionParsing.Tables(x);
    ghost var root := r;
    var jndex := 0;
    while jndex < |subs|
      invariant 0 <= jndex <= |subs| == |r.tables|
      invariant r == root.(tables := r.tables)
      invariant forall j :: 0 <= j < jndex ==> r.tables[j] == LoadTableGuarded(Some(ZeroTable), Some(subs[j])).value
      invariant forall j :: jndex <= j < |subs| ==> r.tables[j] == ZeroTable
    {
      var sub := LoadTableGuarded(Some(r.tables[jndex]), Some(subs[jndex])).value;
      r := r.(tables := r.tables[jndex := sub]);
      jndex := jndex + 1;
    }
  }
}
