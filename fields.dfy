/**
 * The explicit field table that stands in for Go's reflection over a form
 * struct: each field has a declared name, an exported flag, the text of its
 * `form` tag (empty when it has none), a kind, and a mutable value slot.
 */
module Fields {

  /** Bit widths of Go's sized integers; `int` and `uint` are 64 bits wide. */
  datatype Width = W8 | W16 | W32 | W64

  /** Two to the width. */
  function Modulus(w: Width): nat
  {
    match w
    case W8 => 0x100
    case W16 => 0x1_0000
    case W32 => 0x1_0000_0000
    case W64 => 0x1_0000_0000_0000_0000
  }

  /** The reflect kinds the binder tells apart. */
  datatype Kind =
    | StringKind
    | IntKind(width: Width)       // int, int8, int16, int32, int64
    | UintKind(width: Width)      // uint, uint8, uint16, uint32, uint64
    | StringSliceKind             // []string
    | SliceKind                   // a slice whose elements are not strings
    | BoolKind
    | OtherKind                   // struct, map, pointer, array, uintptr, ...

  /** The contents of one field; kinds the binder never writes keep an uninterpreted value. */
  datatype Value =
    | StrV(s: string)
    | IntV(i: int)
    | UintV(u: nat)
    | StrsV(ss: seq<string>)
    | BoolV(b: bool)
    | OpaqueV

  predicate InSignedRange(x: int, w: Width) {
    -(Modulus(w) / 2) <= x < Modulus(w) / 2
  }

  /** A value a Go field of kind `k` can hold. */
  predicate Fits(k: Kind, v: Value) {
    match k
    case StringKind => v.StrV?
    case IntKind(w) => v.IntV? && InSignedRange(v.i, w)
    case UintKind(w) => v.UintV? && v.u < Modulus(w)
    case StringSliceKind => v.StrsV?
    case BoolKind => v.BoolV?
    case SliceKind => v.OpaqueV?
    case OtherKind => v.OpaqueV?
  }

  /** Go's zero value of each kind (a nil slice reads as the empty list). */
  function Zero(k: Kind): (v: Value)
    ensures Fits(k, v)
  {
    match k
    case StringKind => StrV("")
    case IntKind(_) => IntV(0)
    case UintKind(_) => UintV(0)
    case StringSliceKind => StrsV([])
    case BoolKind => BoolV(false)
    case SliceKind => OpaqueV
    case OtherKind => OpaqueV
  }

  /**
   * What `reflect.Value.SetInt` stores into a signed field of width `w`: the low
   * bits of `x` read in two's complement.
   */
  function TruncInt(x: int, w: Width): (r: int)
    ensures InSignedRange(r, w)
    ensures (x - r) % Modulus(w) == 0
  {
    var m := Modulus(w);
    var h := m / 2;
    var y := (x + h) % m;
    assert x - (y - h) == ((x + h) / m) * m;
    y - h
  }

  /** What `reflect.Value.SetUint` stores into an unsigned field of width `w`. */
  function TruncUint(x: nat, w: Width): (r: nat)
    ensures r < Modulus(w)
    ensures (x - r) % Modulus(w) == 0
  {
    var m := Modulus(w);
    assert x - x % m == (x / m) * m;
    x % m
  }

  /** A value that already fits the width is stored unchanged. */
  lemma TruncIntInRange(x: int, w: Width)
    requires InSignedRange(x, w)
    ensures TruncInt(x, w) == x
  {
    var m, h := Modulus(w), Modulus(w) / 2;
    assert 0 <= x + h < m;
  }

  lemma TruncUintInRange(x: nat, w: Width)
    requires x < Modulus(w)
    ensures TruncUint(x, w) == x
  {
  }

  /** One declared field of a form struct. */
  datatype FieldDecl = FieldDecl(name: string, exported: bool, tag: string, kind: Kind)

  /** An addressable instance of a form struct: its field table and one slot per field. */
  class Record {
    const fields: seq<FieldDecl>
    const slots: array<Value>

    ghost predicate Valid()
      reads slots
    {
      && slots.Length == |fields|
      && forall i :: 0 <= i < |fields| ==> Fits(fields[i].kind, slots[i])
    }

    /** A zero-valued instance, as a tool's `FormStruct` returns it. */
    constructor (fields: seq<FieldDecl>)
      ensures Valid() && this.fields == fields && fresh(slots)
      ensures forall i :: 0 <= i < |fields| ==> slots[i] == Zero(fields[i].kind)
    {
      this.fields := fields;
      slots := new Value[|fields|](i requires 0 <= i < |fields| => Zero(fields[i].kind));
    }
  }
}
