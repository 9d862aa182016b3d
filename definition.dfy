/**
 * The `Definition` record of one ECU/ROM variant: its identity fields, set
 * one `(fieldName, value)` pair at a time by `definition_add_value`, and
 * the scaling and table collections the loaders fill.
 */
module Definitions {
  import opened Options
  import opened CStrings
  import opened XmlRecords

  // ---------------------------------------------------------------------
  // get_address
  // ---------------------------------------------------------------------

  /**
   * What `get_address` does: either every character was converted and the
   * address is written, or some characters are left over and the address
   * is not written.
   */
  datatype AddressParse = Parsed(address: ULong) | Trailing(count: Positive)

  type Positive = n: nat | n > 0 witness 1

  /** The text `get_address` converts: from the first "0x" on, or all of it. */
  function AddressText(param: string): (text: string)
    ensures |text| <= |param|
  {
    var marker := FindHexMarker(param);
    if marker.Some? then param[marker.value..] else param
  }

  /** The base `get_address` converts in. */
  function AddressBase(param: string): (base: nat)
    ensures base == 10 || base == 16
  {
    if FindHexMarker(param).Some? || StrCmp(param, "abcdef") == 1 then 16 else 10
  }

  /**
   * `get_address`: from the first "0x" on, the text is read in base 16;
   * otherwise the whole text is read in base 16 when `strcmp(param,
   * "abcdef")` returns 1 and in base 10 when it does not. `strtoll` gives a
   * 64-bit result, which is stored into the 32-bit `unsigned long`.
   */
  function GetAddress(param: string): (r: AddressParse)
    ensures r.Trailing? ==> 0 < r.count <= |param|
  {
    var text := AddressText(param);
    var c := StrToInteger(text, AddressBase(param), LLONG_MIN, LLONG_MAX);
    if c.consumed < |text| then Trailing(|text| - c.consumed) else Parsed(c.value % ULONG_MODULUS)
  }

  /** The value `get_address` returns: 0, or minus the number of characters left over. */
  function AddressStatus(r: AddressParse): (status: int)
    ensures status == 0 <==> r.Parsed?
    ensures r.Trailing? ==> status == -(r.count as int)
  {
    match r
    case Parsed(_) => 0
    case Trailing(n) => -(n as int)
  }

  /** Characters before the first "0x" are ignored: parsing starts at the marker, in base 16. */
  lemma GetAddressStartsAtMarker(param: string)
    requires FindHexMarker(param).Some?
    ensures var k := FindHexMarker(param).value;
      FindHexMarker(param[k..]) == Some(0) && GetAddress(param) == GetAddress(param[k..])
  {
    var k := FindHexMarker(param).value;
    assert HexMarkerAt(param[k..], 0);
    assert param[k..][0..] == param[k..];
  }

  /** A decimal numeral is read in base 10 and stored modulo 2^32. */
  lemma DecimalAddressRoundTrip(n: nat)
    requires n <= LLONG_MAX
    ensures GetAddress(ToDigits(n, 10)) == Parsed(n % ULONG_MODULUS)
  {
    var d := ToDigits(n, 10);
    DecimalHasNoHexMarker(d);
    DigitsBelowLetters(d, "abcdef");
    assert AddressText(d) == d && AddressBase(d) == 10;
    ToDigitsValue(n, 10);
    DecimalConversion(d, []);
    assert d + [] == d;
  }

  /** "0x" followed by a hex numeral, after any text without a "0x", is read in base 16. */
  lemma HexAddressRoundTrip(prefix: string, n: nat)
    requires FindHexMarker(prefix).None?
    requires n <= LLONG_MAX
    ensures GetAddress(prefix + "0x" + ToDigits(n, 16)) == Parsed(n % ULONG_MODULUS)
  {
    var d := ToDigits(n, 16);
    var s := prefix + "0x" + d;
    var k := |prefix|;
    assert HexMarkerAt(s, k);
    forall j | 0 <= j < k ensures !HexMarkerAt(s, j) {
      if j + 1 < k {
        assert !HexMarkerAt(prefix, j);
      } else {
        assert s[j + 1] == '0';
      }
    }
    assert FindHexMarker(s) == Some(k);
    assert s[k..] == "0x" + d;
    assert AddressText(s) == "0x" + d && AddressBase(s) == 16;
    ToDigitsValue(n, 16);
    HexConversion(d, LLONG_MIN, LLONG_MAX);
  }

  /** Digits followed by a text without "0x" that does not start with 'x' contain no "0x". */
  lemma NoMarkerAfterDigits(d: string, t: string)
    requires AllDigits(d, 10)
    requires t != [] && t[0] != 'x'
    requires FindHexMarker(t).None?
    ensures FindHexMarker(d + t).None?
  {
    var s := d + t;
    forall j | 0 <= j < |s| ensures !HexMarkerAt(s, j) {
      if j + 1 < |d| {
        assert IsDigit(s[j + 1], 10);
      } else if j + 1 == |d| {
        assert s[j + 1] == t[0];
      } else if j + 1 < |s| {
        assert !HexMarkerAt(t, j - |d|);
      }
    }
  }

  /** A decimal numeral followed by other text leaves that text over: the result is minus its length. */
  lemma TrailingTextReported(n: nat, t: string)
    requires n <= LLONG_MAX
    requires t != [] && !IsDigit(t[0], 10) && t[0] != 'x'
    requires FindHexMarker(t).None?
    ensures GetAddress(ToDigits(n, 10) + t) == Trailing(|t|)
    ensures AddressStatus(GetAddress(ToDigits(n, 10) + t)) == -|t|
  {
    var d := ToDigits(n, 10);
    var s := d + t;
    NoMarkerAfterDigits(d, t);
    assert s[0] == d[0];
    DigitsBelowLetters(s, "abcdef");
    assert AddressText(s) == s && AddressBase(s) == 10;
    ToDigitsValue(n, 10);
    DecimalConversion(d, t);
  }

  // ---------------------------------------------------------------------
  // Identity fields and definition_add_value
  // ---------------------------------------------------------------------

  /** The identity part of `struct Definition`; a NULL string is `None`. */
  datatype Identity = Identity(
    xmlid: Option<string>,
    internalidaddress: ULong,
    internalidstring: Option<string>,
    ecuid: Option<string>,
    market: Option<string>,
    make: Option<string>,
    model: Option<string>,
    submodel: Option<string>,
    transmission: Option<string>,
    year: Option<string>,
    flashmethod: Option<string>,
    memmodel: Option<string>,
    checksummodule: Option<string>)

  const ZeroIdentity: Identity :=
    Identity(None, 0, None, None, None, None, None, None, None, None, None, None, None)

  /** The identity fields `definition_add_value` recognises, and `Unknown` for any other name. */
  datatype Field =
    | XmlId | InternalIdAddress | InternalIdString | EcuId | Market | Make | Model
    | SubModel | Transmission | Year | FlashMethod | MemModel | ChecksumModule
    | Unknown

  /** The name `definition_add_value` compares against for a known field. */
  function NameOf(f: Field): string
    requires f != Unknown
  {
    match f
    case XmlId => "xmlid"
    case InternalIdAddress => "internalidaddress"
    case InternalIdString => "internalidstring"
    case EcuId => "ecuid"
    case Market => "market"
    case Make => "make"
    case Model => "model"
    case SubModel => "submodel"
    case Transmission => "transmission"
    case Year => "year"
    case FlashMethod => "flashmethod"
    case MemModel => "memmodel"
    case ChecksumModule => "checksummodule"
  }

  /** The field a name selects, by the chain of `strcmp` tests in `definition_add_value`. */
  function FieldNamed(name: string): (f: Field)
    ensures f != Unknown ==> NameOf(f) == name
  {
    if name == "xmlid" then XmlId
    else if name == "internalidaddress" then InternalIdAddress
    else if name == "internalidstring" then InternalIdString
    else if name == "ecuid" then EcuId
    else if name == "market" then Market
    else if name == "make" then Make
    else if name == "model" then Model
    else if name == "submodel" then SubModel
    else if name == "transmission" then Transmission
    else if name == "year" then Year
    else if name == "flashmethod" then FlashMethod
    else if name == "memmodel" then MemModel
    else if name == "checksummodule" then ChecksumModule
    else Unknown
  }

  /** Every known field has a name that selects it in the chain. */
  lemma NameOfSelects(f: Field)
    requires f != Unknown
    ensures FieldNamed(NameOf(f)) == f
  {
  }

  /** A field held as a string slot (every known field but the numeric address). */
  predicate IsStringField(f: Field) {
    f != InternalIdAddress && f != Unknown
  }

  /** The string slot of a string field. */
  function Slot(id: Identity, f: Field): Option<string>
    requires IsStringField(f)
  {
    match f
    case XmlId => id.xmlid
    case InternalIdString => id.internalidstring
    case EcuId => id.ecuid
    case Market => id.market
    case Make => id.make
    case Model => id.model
    case SubModel => id.submodel
    case Transmission => id.transmission
    case Year => id.year
    case FlashMethod => id.flashmethod
    case MemModel => id.memmodel
    case ChecksumModule => id.checksummodule
  }

  /** Whether `(fieldName, value)` replaces a string slot: a known name with a non-NULL, non-empty value. */
  predicate SetsSlot(fieldName: string, value: Option<string>) {
    value.Some? && value.value != [] && IsStringField(FieldNamed(fieldName))
  }

  /**
   * The identity after `definition_add_value(fieldName, value)`: a NULL or
   * empty value, or an unknown name, changes nothing; a known name sets its
   * own slot to the value and no other; "internalidaddress" goes through
   * `get_address`, whose error result is ignored.
   */
  function AddField(id: Identity, fieldName: string, value: Option<string>): (r: Identity)
    ensures value.None? || value.value == [] ==> r == id
    ensures FieldNamed(fieldName) == Unknown ==> r == id
  {
    if value.None? || value.value == [] then id
    else
      match FieldNamed(fieldName)
      case XmlId => id.(xmlid := value)
      case InternalIdAddress =>
        (match GetAddress(value.value)
         case Parsed(a) => id.(internalidaddress := a)
         case Trailing(_) => id)
      case InternalIdString => id.(internalidstring := value)
      case EcuId => id.(ecuid := value)
      case Market => id.(market := value)
      case Make => id.(make := value)
      case Model => id.(model := value)
      case SubModel => id.(submodel := value)
      case Transmission => id.(transmission := value)
      case Year => id.(year := value)
      case FlashMethod => id.(flashmethod := value)
      case MemModel => id.(memmodel := value)
      case ChecksumModule => id.(checksummodule := value)
      case Unknown => id
  }

  /** A string slot changes exactly when the pair names it with a non-empty value, and then to that value. */
  lemma AddFieldSlot(id: Identity, fieldName: string, value: Option<string>, g: Field)
    requires IsStringField(g)
    ensures Slot(AddField(id, fieldName, value), g) ==
      if SetsSlot(fieldName, value) && FieldNamed(fieldName) == g then value else Slot(id, g)
  {
  }

  /**
   * The address changes only for "internalidaddress" with a non-empty value
   * that `get_address` reads completely, and then to the value read.
   */
  lemma AddFieldAddress(id: Identity, fieldName: string, value: Option<string>)
    ensures AddField(id, fieldName, value).internalidaddress ==
      if FieldNamed(fieldName) == InternalIdAddress && value.Some? && value.value != [] && GetAddress(value.value).Parsed?
      then GetAddress(value.value).address
      else id.internalidaddress
  {
  }

  /** Whether an identity node of the document writes the string slot `f`. */
  predicate WritesSlot(node: Element, f: Field) {
    node.text.Some? && SetsSlot(node.tag, node.text) && FieldNamed(node.tag) == f
  }

  /** Whether an identity node changes anything: a known tag with a non-empty first child value. */
  predicate Writes(node: Element) {
    node.text.Some? && node.text.value != [] && FieldNamed(node.tag) != Unknown
  }

  /**
   * The identity after the `romid` loop of `loadMetadataFile`: each child
   * element that has a first child node is passed to
   * `definition_add_value` with its tag and that node's value.
   */
  function AddFields(id: Identity, nodes: seq<Element>): (r: Identity)
    ensures (forall i :: 0 <= i < |nodes| ==> !Writes(nodes[i])) ==> r == id
  {
    if nodes == [] then id
    else
      var before := AddFields(id, nodes[..|nodes| - 1]);
      var node := nodes[|nodes| - 1];
      if node.text.Some? then AddField(before, node.tag, node.text) else before
  }

  /** One identity node changes slot `f` exactly when it writes it, and then to its own value. */
  lemma AddNodeSlot(before: Identity, node: Element, f: Field)
    requires IsStringField(f)
    ensures var after := if node.text.Some? then AddField(before, node.tag, node.text) else before;
      Slot(after, f) == if WritesSlot(node, f) then node.text else Slot(before, f)
  {
    if node.text.Some? {
      AddFieldSlot(before, node.tag, node.text, f);
    }
  }

  /** A string slot that no identity node writes keeps its old value. */
  lemma {:induction false} UnwrittenSlotKept(id: Identity, nodes: seq<Element>, f: Field)
    requires IsStringField(f)
    requires forall i :: 0 <= i < |nodes| ==> !WritesSlot(nodes[i], f)
    ensures Slot(AddFields(id, nodes), f) == Slot(id, f)
  {
    if nodes != [] {
      var init := nodes[..|nodes| - 1];
      UnwrittenSlotKept(id, init, f);
      AddNodeSlot(AddFields(id, init), nodes[|nodes| - 1], f);
    }
  }

  /**
   * A string slot ends up with the value of the last identity node that
   * names it with a non-empty value.
   */
  lemma {:induction false} LastWriterWins(id: Identity, nodes: seq<Element>, f: Field, i: nat)
    requires IsStringField(f)
    requires i < |nodes| && WritesSlot(nodes[i], f)
    requires forall j :: i < j < |nodes| ==> !WritesSlot(nodes[j], f)
    ensures Slot(AddFields(id, nodes), f) == nodes[i].text
  {
    var init := nodes[..|nodes| - 1];
    var node := nodes[|nodes| - 1];
    AddNodeSlot(AddFields(id, init), node, f);
    if i < |nodes| - 1 {
      LastWriterWins(id, init, f, i);
    }
  }

  // ---------------------------------------------------------------------
  // Scalings and tables
  // ---------------------------------------------------------------------

  /**
   * `struct Scaling`. The three float attributes are kept as the attribute
   * text that `FloatAttribute` converts (floating point is not modelled).
   */
  datatype Scaling = Scaling(
    name: Option<string>,
    units: Option<string>,
    toexpr: Option<string>,
    frexpr: Option<string>,
    format: Option<string>,
    storagetype: Option<string>,
    endian: Option<string>,
    min: Option<string>,
    max: Option<string>,
    inc: Option<string>)

  const ZeroScaling: Scaling := Scaling(None, None, None, None, None, None, None, None, None, None)

  /**
   * `struct Table`: a root table or one of its axis tables. `binding` is
   * the `Scaling` pointer, as an index into the definition's scalings; the
   * sub-table array is the sequence `tables`.
   */
  datatype Table = Table(
    name: Option<string>,
    tableType: Option<string>,
    category: Option<string>,
    scaling: Option<string>,
    binding: Option<nat>,
    address: int,
    level: int,
    elements: int,
    numTables: int,
    tables: seq<Table>)

  const ZeroTable: Table := Table(None, None, None, None, None, 0, 0, 0, 0, [])

  /**
   * `definition_scaling_add_string_value(&slot, value)`: a present value is
   * copied into the slot, a NULL one leaves the slot as it was.
   */
  function AddString(slot: Option<string>, value: Option<string>): (r: Option<string>)
    ensures value.Some? ==> r == value
    ensures value.None? ==> r == slot
  {
    if value.Some? then value else slot
  }

  // ---------------------------------------------------------------------
  // The record itself
  // ---------------------------------------------------------------------

  /**
   * `struct Definition`. Its thirteen identity members are held together as
   * one `Identity` value; `numScalings`/`scalings` and `numTables`/`tables`
   * are the collections the loaders allocate and fill.
   */
  class Definition {
    var identity: Identity
    var numScalings: int
    var scalings: array<Scaling>
    var numTables: int
    var tables: array<Table>

    /** The counts describe the arrays they were used to allocate. */
    predicate Valid()
      reads this
    {
      numScalings == scalings.Length && numTables == tables.Length
    }

    /** The all-zero record: NULL strings, address 0, no scalings and no tables. */
    predicate IsZero()
      reads this
    {
      identity == ZeroIdentity && numScalings == 0 && scalings.Length == 0 && numTables == 0 && tables.Length == 0
    }

    /** A record cleared with `memset` before its first use. */
    constructor ()
      ensures IsZero() && Valid()
    {
      identity := ZeroIdentity;
      numScalings, numTables := 0, 0;
      scalings := new Scaling[0];
      tables := new Table[0];
    }

    /** `definition_deinit` followed by `memset(definition, 0, ...)`. */
    method Clear()
      modifies this
      ensures IsZero() && Valid()
    {
      identity := ZeroIdentity;
      numScalings, numTables := 0, 0;
      scalings := new Scaling[0];
      tables := new Table[0];
    }

    /** `definition_add_value`: routes one pair into at most one slot of the record. */
    method AddValue(fieldName: string, value: Option<string>)
      modifies this
      ensures identity == AddField(old(identity), fieldName, value)
      ensures numScalings == old(numScalings) && scalings == old(scalings)
      ensures numTables == old(numTables) && tables == old(tables)
    {
      if value.None? {
        return;
      }
      var length := |value.value|;
      if length <= 0 {
        return;
      }
      if fieldName == "xmlid" {
        identity := identity.(xmlid := value);
      } else if fieldName == "internalidaddress" {
        var r := GetAddress(value.value);
        if r.Parsed? {
          identity := identity.(internalidaddress := r.address);
        }
        return;
      } else if fieldName == "internalidstring" {
        identity := identity.(internalidstring := value);
      } else if fieldName == "ecuid" {
        identity := identity.(ecuid := value);
      } else if fieldName == "market" {
        identity := identity.(market := value);
      } else if fieldName == "make" {
        identity := identity.(make := value);
      } else if fieldName == "model" {
        identity := identity.(model := value);
      } else if fieldName == "submodel" {
        identity := identity.(submodel := value);
      } else if fieldName == "transmission" {
        identity := identity.(transmission := value);
      } else if fieldName == "year" {
        identity := identity.(year := value);
      } else if fieldName == "flashmethod" {
        identity := identity.(flashmethod := value);
      } else if fieldName == "memmodel" {
        identity := identity.(memmodel := value);
      } else if fieldName == "checksummodule" {
        identity := identity.(checksummodule := value);
      } else {
        return;
      }
    }
  }
}
