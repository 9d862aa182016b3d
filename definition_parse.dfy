/**
 * Building a `Definition` from a parsed definition document: the
 * `DefinitionParse` handle (the open document and its file path), and the
 * loaders that read the identity block, the scalings and the two-level
 * table tree of the first `rom` element.
 */
module DefinitionParsing {
  import opened Options
  import opened CStrings
  import opened XmlRecords
  import opened Definitions

  // ---------------------------------------------------------------------
  // Scalings
  // ---------------------------------------------------------------------

  /**
   * `loadScaling`: every string attribute that is present replaces its
   * slot and a missing one leaves the slot alone; `min`, `max` and `inc`
   * are always overwritten by `FloatAttribute`, which gives 0 for a
   * missing attribute (`None` here).
   */
  function LoadedScaling(s: Scaling, x: Element): (r: Scaling)
    ensures "name" in x.attrs ==> r.name == Some(x.attrs["name"])
    ensures "name" !in x.attrs ==> r.name == s.name
    ensures r.min == Attribute(x, "min") && r.max == Attribute(x, "max") && r.inc == Attribute(x, "inc")
  {
    Scaling(
      AddString(s.name, Attribute(x, "name")),
      AddString(s.units, Attribute(x, "units")),
      AddString(s.toexpr, Attribute(x, "toexpr")),
      AddString(s.frexpr, Attribute(x, "frexpr")),
      AddString(s.format, Attribute(x, "format")),
      AddString(s.storagetype, Attribute(x, "storagetype")),
      AddString(s.endian, Attribute(x, "endian")),
      Attribute(x, "min"),
      Attribute(x, "max"),
      Attribute(x, "inc"))
  }

  /** Loaded into a zeroed record, every member of a scaling is exactly its attribute. */
  lemma LoadedScalingFromZero(x: Element)
    ensures var r := LoadedScaling(ZeroScaling, x);
      r == Scaling(Attribute(x, "name"), Attribute(x, "units"), Attribute(x, "toexpr"),
        Attribute(x, "frexpr"), Attribute(x, "format"), Attribute(x, "storagetype"),
        Attribute(x, "endian"), Attribute(x, "min"), Attribute(x, "max"), Attribute(x, "inc"))
  {
  }

  /**
   * `loadScalings`: counts the `scaling` children of `rom` into
   * `numScalings` (added to what it held), allocates that many zeroed
   * scalings and loads the children into the first slots in document
   * order.
   */
  method LoadScalings(definition: Definition, rom: Element)
    requires definition.Valid()
    modifies definition
    ensures definition.Valid()
    ensures var recs := ChildElements(rom.children, "scaling");
      definition.numScalings == old(definition.numScalings) + |recs| && fresh(definition.scalings)
      && (forall i :: 0 <= i < |recs| ==> definition.scalings[i] == LoadedScaling(ZeroScaling, recs[i]))
      && (forall i :: |recs| <= i < definition.scalings.Length ==> definition.scalings[i] == ZeroScaling)
    ensures definition.identity == old(definition.identity)
    ensures definition.numTables == old(definition.numTables) && definition.tables == old(definition.tables)
  {
    var recs := ChildElements(rom.children, "scaling");
    var count := CountElements(rom.children, "scaling");
    definition.numScalings := definition.numScalings + count;
    var scalings := new Scaling[definition.numScalings](_ => ZeroScaling);
    definition.scalings := scalings;
    var index := 0;
    while index < |recs|
      invariant 0 <= index <= |recs| <= scalings.Length
      invariant forall i :: 0 <= i < index ==> scalings[i] == LoadedScaling(ZeroScaling, recs[i])
      invariant forall i :: index <= i < scalings.Length ==> scalings[i] == ZeroScaling
      modifies scalings
    {
      ghost var before := scalings[..];
      scalings[index] := LoadedScaling(scalings[index], recs[index]);
      assert forall i :: 0 <= i < scalings.Length && i != index ==> scalings[i] == before[i];
      index := index + 1;
    }
  }

  // ---------------------------------------------------------------------
  // Tables
  // ---------------------------------------------------------------------

  /**
   * The index of the first scaling whose name is `name`; the pointer
   * `loadTable` stores. A scaling without a name never matches.
   */
  function FirstNamed(scalings: seq<Scaling>, name: string): (r: Option<nat>)
    ensures r.Some? ==> r.value < |scalings| && scalings[r.value].name == Some(name)
    ensures r.Some? ==> forall j :: 0 <= j < r.value ==> scalings[j].name != Some(name)
    ensures r.None? ==> forall j :: 0 <= j < |scalings| ==> scalings[j].name != Some(name)
  {
    if scalings == [] then None
    else if scalings[0].name == Some(name) then Some(0)
    else
      match FirstNamed(scalings[1..], name)
      case None => None
      case Some(k) => Some(k + 1)
  }

  /** What `loadTable` reads without failing: the `address` text, and a scaling name from the element or the record. */
  predicate Loadable(t: Table, x: Element) {
    "address" in x.attrs && ("scaling" in x.attrs || t.scaling.Some?)
  }

  /**
   * `loadTable`: the address is the `strtol` of the `address` attribute in
   * base 16, `level` and `elements` are `IntAttribute`s, the four strings
   * go through `definition_scaling_add_string_value`, and the binding
   * becomes the first scaling with the table's scaling name; when there is
   * none the binding is left as it was. The sub-tables are not touched.
   */
  function LoadedTable(t: Table, x: Element, scalings: seq<Scaling>): (r: Table)
    requires Loadable(t, x)
    ensures r.scaling.Some?
    ensures r.address == StrToInteger(x.attrs["address"], 16, LONG_MIN, LONG_MAX).value
    ensures LONG_MIN <= r.address <= LONG_MAX
    ensures r.level == IntAttribute(x, "level") && r.elements == IntAttribute(x, "elements")
    ensures r.name == (if "name" in x.attrs then Some(x.attrs["name"]) else t.name)
    ensures r.tableType == (if "type" in x.attrs then Some(x.attrs["type"]) else t.tableType)
    ensures r.category == (if "category" in x.attrs then Some(x.attrs["category"]) else t.category)
    ensures r.scaling == (if "scaling" in x.attrs then Some(x.attrs["scaling"]) else t.scaling)
    ensures r.binding.Some? && r.binding != t.binding ==>
      r.binding.value < |scalings| && scalings[r.binding.value].name == r.scaling
    ensures FirstNamed(scalings, r.scaling.value).Some? ==> r.binding == FirstNamed(scalings, r.scaling.value)
    ensures FirstNamed(scalings, r.scaling.value).None? ==> r.binding == t.binding
    ensures r.numTables == t.numTables && r.tables == t.tables
  {
    var scaling := AddString(t.scaling, Attribute(x, "scaling"));
    Table(
      AddString(t.name, Attribute(x, "name")),
      AddString(t.tableType, Attribute(x, "type")),
      AddString(t.category, Attribute(x, "category")),
      scaling,
      match FirstNamed(scalings, scaling.value)
      case Some(i) => Some(i)
      case None => t.binding,
      StrToInteger(x.attrs["address"], 16, LONG_MIN, LONG_MAX).value,
      IntAttribute(x, "level"),
      IntAttribute(x, "elements"),
      t.numTables,
      t.tables)
  }

  /** The binding of a loaded table is the first scaling of its name, whenever one exists. */
  lemma LoadedTableBinding(t: Table, x: Element, scalings: seq<Scaling>, i: nat)
    requires Loadable(t, x)
    requires i < |scalings| && scalings[i].name == LoadedTable(t, x, scalings).scaling
    ensures var b := LoadedTable(t, x, scalings).binding;
      b.Some? && b.value <= i && scalings[b.value].name == scalings[i].name
  {
  }

  /**
   * The usual address attribute, hex digits without "0x" and possibly some
   * trailing text, gives the clamped value of the digits.
   */
  lemma LoadedTableAddress(t: Table, x: Element, scalings: seq<Scaling>, digits: string, rest: string)
    requires Loadable(t, x) && x.attrs["address"] == digits + rest
    requires |digits| > 0 && AllDigits(digits, 16) && (digits[0] != '0' || |digits| > 1)
    requires rest == [] || !IsDigit(rest[0], 16)
    ensures LoadedTable(t, x, scalings).address == Clamp(DigitsValue(digits, 16), LONG_MIN, LONG_MAX)
  {
    HexDigitsConversion(digits, rest, LONG_MIN, LONG_MAX);
  }

  /** `loadTable` on a record: the search for the scaling is the loop over `numScalings`. */
  method LoadTable(definition: Definition, t: Table, x: Element) returns (r: Table)
    requires definition.Valid()
    requires Loadable(t, x)
    ensures r == LoadedTable(t, x, definition.scalings[..])
  {
    var scaling := AddString(t.scaling, Attribute(x, "scaling"));
    var binding := t.binding;
    var i := 0;
    while i < definition.numScalings
      invariant 0 <= i <= definition.numScalings
      invariant forall j :: 0 <= j < i ==> definition.scalings[j].name != scaling
    {
      if definition.scalings[i].name == scaling {
        binding := Some(i);
        break;
      }
      i := i + 1;
    }
    assert binding == match FirstNamed(definition.scalings[..], scaling.value)
      case Some(k) => Some(k)
      case None => t.binding;
    r := Table(
      AddString(t.name, Attribute(x, "name")),
      AddString(t.tableType, Attribute(x, "type")),
      AddString(t.category, Attribute(x, "category")),
      scaling,
      binding,
      StrToInteger(x.attrs["address"], 16, LONG_MIN, LONG_MAX).value,
      IntAttribute(x, "level"),
      IntAttribute(x, "elements"),
      t.numTables,
      t.tables);
  }

  /** The `table` children of an element, which `loadTables` visits. */
  function Tables(x: Element): seq<Element> {
    ChildElements(x.children, "table")
  }

  /** Every root table and every table under it can be loaded into a zeroed record. */
  predicate LoadableTree(rom: Element) {
    forall x :: x in Tables(rom) ==> LoadableRoot(x)
  }

  /** A root table and all its sub-tables can be loaded into zeroed records. */
  predicate LoadableRoot(x: Element) {
    Loadable(ZeroTable, x) && forall y :: y in Tables(x) ==> Loadable(ZeroTable, y)
  }

  /** A root table after the second pass of `loadTables`: zeroed, with its zeroed sub-table array. */
  function AllocatedRoot(x: Element): (t: Table)
    ensures t.numTables == |Tables(x)| == |t.tables|
  {
    ZeroTable.(numTables := |Tables(x)|, tables := seq(|Tables(x)|, _ => ZeroTable))
  }

  /** The sub-tables of a root, each loaded into its zeroed slot. */
  function LoadedSubtables(subs: seq<Element>, scalings: seq<Scaling>): (r: seq<Table>)
    requires forall y :: y in subs ==> Loadable(ZeroTable, y)
    ensures |r| == |subs|
  {
    seq(|subs|, j requires 0 <= j < |subs| => LoadedTable(ZeroTable, subs[j], scalings))
  }

  /** A root table as `loadTables` leaves it: itself and each of its sub-tables loaded. */
  function LoadedRoot(x: Element, scalings: seq<Scaling>): (t: Table)
    requires LoadableRoot(x)
    ensures t.numTables == |Tables(x)| == |t.tables|
  {
    LoadedTable(AllocatedRoot(x), x, scalings).(tables := LoadedSubtables(Tables(x), scalings))
  }

  /**
   * `loadTables`: resets `numTables`, counts the root tables, allocates
   * them zeroed, counts and allocates each root's sub-tables, and finally
   * loads every root and, after it, its sub-tables, in document order.
   */
  method LoadTables(definition: Definition, rom: Element)
    requires definition.Valid()
    requires LoadableTree(rom)
    modifies definition
    ensures definition.Valid()
    ensures var roots := Tables(rom);
      definition.numTables == |roots| && fresh(definition.tables)
      && forall i :: 0 <= i < |roots| ==> definition.tables[i] == LoadedRoot(roots[i], definition.scalings[..])
    ensures definition.identity == old(definition.identity)
    ensures definition.numScalings == old(definition.numScalings) && definition.scalings == old(definition.scalings)
  {
    var roots := Tables(rom);
    definition.numTables := 0;
    var count := CountElements(rom.children, "table");
    definition.numTables := definition.numTables + count;
    var tables := new Table[definition.numTables](_ => ZeroTable);
    definition.tables := tables;
    AllocateSubtables(tables, roots);
    LoadRoots(definition, tables, roots);
  }

  /** The second pass of `loadTables`: counts each root's sub-tables and allocates them zeroed. */
  method AllocateSubtables(tables: array<Table>, roots: seq<Element>)
    requires tables.Length == |roots|
    requires forall i :: 0 <= i < |roots| ==> tables[i] == ZeroTable
    modifies tables
    ensures forall i :: 0 <= i < |roots| ==> tables[i] == AllocatedRoot(roots[i])
  {
    var index := 0;
    while index < |roots|
      invariant 0 <= index <= |roots|
      invariant forall i :: 0 <= i < index ==> tables[i] == AllocatedRoot(roots[i])
      invariant forall i :: index <= i < |roots| ==> tables[i] == ZeroTable
    {
      var n := CountElements(roots[index].children, "table");
      var t := tables[index].(numTables := 0);
      t := t.(numTables := t.numTables + n);
      tables[index] := t.(tables := seq(n, _ => ZeroTable));
      index := index + 1;
    }
  }

  /** The last pass of `loadTables`: loads each root and then its sub-tables, in document order. */
  method LoadRoots(definition: Definition, tables: array<Table>, roots: seq<Element>)
    requires definition.Valid()
    requires tables.Length == |roots|
    requires forall i :: 0 <= i < |roots| ==> LoadableRoot(roots[i])
    requires forall i :: 0 <= i < |roots| ==> tables[i] == AllocatedRoot(roots[i])
    modifies tables
    ensures forall i :: 0 <= i < |roots| ==> tables[i] == LoadedRoot(roots[i], definition.scalings[..])
  {
    ghost var scalings := definition.scalings[..];
    var index := 0;
    while index < |roots|
      invariant 0 <= index <= |roots|
      invariant forall i :: 0 <= i < index ==> tables[i] == LoadedRoot(roots[i], scalings)
      invariant forall i :: index <= i < |roots| ==> tables[i] == AllocatedRoot(roots[i])
      invariant definition.scalings[..] == scalings
    {
      var table := LoadRoot(definition, tables[index], roots[index]);
      assert table == LoadedRoot(roots[index], scalings);
      ghost var before := tables[..];
      tables[index] := table;
      assert forall i :: 0 <= i < |roots| && i != index ==> tables[i] == before[i];
      index := index + 1;
    }
  }

  /** One root of the last pass of `loadTables`: the root itself, then its sub-tables. */
  method LoadRoot(definition: Definition, t: Table, x: Element) returns (r: Table)
    requires definition.Valid()
    requires LoadableRoot(x)
    requires t == AllocatedRoot(x)
    ensures r == LoadedRoot(x, definition.scalings[..])
  {
    r := LoadTable(definition, t, x);
    r := LoadRootSubtables(definition, r, x);
  }

  /** The inner loop of the last pass of `loadTables`: loads the sub-tables of one root in order. */
  method LoadRootSubtables(definition: Definition, t: Table, x: Element) returns (r: Table)
    requires definition.Valid()
    requires forall y :: y in Tables(x) ==> Loadable(ZeroTable, y)
    requires t.tables == AllocatedRoot(x).tables
    ensures r == t.(tables := LoadedSubtables(Tables(x), definition.scalings[..]))
  {
    var subs := Tables(x);
    r := t;
    var jndex := 0;
    while jndex < |subs|
      invariant 0 <= jndex <= |subs| == |r.tables|
      invariant r == t.(tables := r.tables)
      invariant forall j :: 0 <= j < jndex ==> r.tables[j] == LoadedTable(ZeroTable, subs[j], definition.scalings[..])
      invariant forall j :: jndex <= j < |subs| ==> r.tables[j] == ZeroTable
    {
      assert subs[jndex] in subs;
      var sub := LoadTable(definition, r.tables[jndex], subs[jndex]);
      r := r.(tables := r.tables[jndex := sub]);
      jndex := jndex + 1;
    }
  }

  // ---------------------------------------------------------------------
  // The document handle
  // ---------------------------------------------------------------------

  /** What `loadMetadataFile` needs of a `roms` document: a `rom` with a `romid`, and tables it can load. */
  predicate WellFormedRoms(root: Element) {
    var rom := FirstChildElement(root, "rom");
    rom.Some? && FirstChildElement(rom.value, "romid").Some? && LoadableTree(rom.value)
  }

  /** One more identity node extends the loop's identity by that node alone. */
  lemma AddFieldsStep(id: Identity, nodes: seq<Element>, i: nat)
    requires i < |nodes|
    ensures var before := AddFields(id, nodes[..i]);
      AddFields(id, nodes[..i + 1])
      == if nodes[i].text.Some? then AddField(before, nodes[i].tag, nodes[i].text) else before
  {
    assert nodes[..i + 1][..i] == nodes[..i];
  }

  /**
   * The `romid` loop of `loadMetadataFile`: each identity node that has a
   * first child node is passed to `definition_add_value` with its tag and
   * that node's value.
   */
  method AddIdentity(definition: Definition, nodes: seq<Element>)
    requires definition.Valid()
    modifies definition
    ensures definition.identity == AddFields(old(definition.identity), nodes)
    ensures definition.Valid()
    ensures definition.numScalings == old(definition.numScalings) && definition.scalings == old(definition.scalings)
    ensures definition.numTables == old(definition.numTables) && definition.tables == old(definition.tables)
  {
    var i := 0;
    while i < |nodes|
      invariant 0 <= i <= |nodes|
      invariant definition.identity == AddFields(old(definition.identity), nodes[..i])
      invariant definition.Valid()
      invariant definition.numScalings == old(definition.numScalings) && definition.scalings == old(definition.scalings)
      invariant definition.numTables == old(definition.numTables) && definition.tables == old(definition.tables)
    {
      var node := nodes[i];
      AddFieldsStep(old(definition.identity), nodes, i);
      if node.text.Some? {
        definition.AddValue(node.tag, node.text);
      }
      i := i + 1;
    }
    assert nodes[..|nodes|] == nodes;
  }

  /** `struct DefinitionParse`: the open document (its root element) and the copied file path. */
  class DefinitionParse {
    var metadataFile: Option<Element>
    var metadataFilePath: Option<string>

    constructor ()
      ensures metadataFile.None? && metadataFilePath.None?
    {
      metadataFile := None;
      metadataFilePath := None;
    }

    /** `setMetadataFilePath`: a non-empty path is copied and `true` returned; an empty one is refused. */
    method SetMetadataFilePath(path: string) returns (ok: bool)
      requires metadataFilePath.None?
      modifies this
      ensures ok <==> |path| > 0
      ensures ok ==> metadataFilePath == Some(path)
      ensures !ok ==> metadataFilePath.None?
      ensures metadataFile == old(metadataFile)
    {
      var len := |path|;
      if len > 0 {
        metadataFilePath := Some(path);
        return true;
      }
      return false;
    }

    /** `closeMetadataFile`: drops the document and the path and clears the definition. */
    method CloseMetadataFile(definition: Definition)
      modifies this, definition
      ensures metadataFile.None? && metadataFilePath.None?
      ensures definition.IsZero() && definition.Valid()
    {
      if metadataFile.Some? {
        metadataFile := None;
      }
      if metadataFilePath.Some? {
        metadataFilePath := None;
      }
      definition.Clear();
    }

    /**
     * `loadMetadataFile`. `loaded` is what `LoadFile` gives for the path:
     * the root element, or `None` when the file cannot be read or parsed.
     * A failed load closes everything and returns `false`. A document whose
     * root is not `roms` is kept open and nothing is loaded. For a `roms`
     * document the identity children of `rom/romid` are added one by one,
     * then the scalings and the tables are loaded, and the document is
     * released while the path stays set.
     */
    method LoadMetadataFile(definition: Definition, loaded: Option<Element>) returns (ok: bool)
      requires metadataFilePath.Some? && metadataFile.None?
      requires definition.Valid()
      requires loaded.Some? && loaded.value.tag == "roms" ==> WellFormedRoms(loaded.value)
      modifies this, definition
      ensures ok <==> loaded.Some?
      ensures !ok ==> metadataFile.None? && metadataFilePath.None? && definition.IsZero() && definition.Valid()
      ensures ok ==> metadataFilePath == old(metadataFilePath) && definition.Valid()
      ensures ok && loaded.value.tag != "roms" ==>
        metadataFile == loaded && definition.identity == old(definition.identity)
        && definition.numScalings == old(definition.numScalings) && definition.scalings == old(definition.scalings)
        && definition.numTables == old(definition.numTables) && definition.tables == old(definition.tables)
      ensures ok && loaded.value.tag == "roms" ==>
        var rom := FirstChildElement(loaded.value, "rom").value;
        var romid := FirstChildElement(rom, "romid").value;
        var recs := ChildElements(rom.children, "scaling");
        var roots := Tables(rom);
        metadataFile.None?
        && definition.identity == AddFields(old(definition.identity), romid.children)
        && definition.numScalings == old(definition.numScalings) + |recs|
        && (forall i :: 0 <= i < |recs| ==> definition.scalings[i] == LoadedScaling(ZeroScaling, recs[i]))
        && (forall i :: |recs| <= i < definition.scalings.Length ==> definition.scalings[i] == ZeroScaling)
        && definition.numTables == |roots|
        && (forall i :: 0 <= i < |roots| ==> definition.tables[i] == LoadedRoot(roots[i], definition.scalings[..]))
    {
      metadataFile := loaded;
      if loaded.None? {
        CloseMetadataFile(definition);
        return false;
      }
      var def := loaded.value;
      if def.tag == "roms" {
        var rom := FirstChildElement(def, "rom").value;
        var romID := FirstChildElement(rom, "romid").value;
        AddIdentity(definition, romID.children);
        LoadScalings(definition, rom);
        LoadTables(definition, rom);
        metadataFile := None;
      }
      return true;
    }
  }
}
