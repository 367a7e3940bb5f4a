/**
 * The two walks of form.go over a form struct's fields: `ExtractFields`, which
 * derives the form schema, and `BindFormValues`, which writes submitted values
 * into the struct in place.  Reflection is replaced by the field table of a
 * `Fields.Record`; a target that is not a pointer carries only its field table.
 */
module Binding {
  import opened Wrappers
  import opened GoStrings
  import opened GoStrconv
  import opened Fields
  import opened Form

  /** What `ExtractFields` and `BindFormValues` receive as `any`. */
  datatype Target =
    | Pointer(rec: Record)                 // a pointer to a struct: its fields can be written
    | Plain(fields: seq<FieldDecl>)        // a struct passed by value
  {
    function Decls(): seq<FieldDecl>
    {
      match this
      case Pointer(rec) => rec.fields
      case Plain(fields) => fields
    }
  }

  /** The exported fields, in declaration order. */
  function Exported(decls: seq<FieldDecl>): seq<FieldDecl>
  {
    if decls == [] then []
    else
      var last := decls[|decls| - 1];
      Exported(decls[..|decls| - 1]) + if last.exported then [last] else []
  }

  lemma ExportedSnoc(decls: seq<FieldDecl>, d: FieldDecl)
    ensures Exported(decls + [d]) == Exported(decls) + if d.exported then [d] else []
  {
    assert (decls + [d])[..|decls|] == decls;
  }

  /** Taking exported fields keeps the order: it distributes over concatenation. */
  lemma {:induction false} ExportedAppend(a: seq<FieldDecl>, b: seq<FieldDecl>)
    ensures Exported(a + b) == Exported(a) + Exported(b)
  {
    if b == [] {
      assert a + b == a;
    } else {
      var n := |b| - 1;
      assert a + b == (a + b[..n]) + [b[n]];
      assert b == b[..n] + [b[n]];
      ExportedAppend(a, b[..n]);
      ExportedSnoc(a + b[..n], b[n]);
      ExportedSnoc(b[..n], b[n]);
    }
  }

  /** A field is listed exactly when it is declared and exported. */
  lemma {:induction false} ExportedMembers(decls: seq<FieldDecl>, d: FieldDecl)
    ensures d in Exported(decls) <==> d in decls && d.exported
  {
    if decls != [] {
      var n := |decls| - 1;
      ExportedMembers(decls[..n], d);
      ExportedSnoc(decls[..n], decls[n]);
      assert decls == decls[..n] + [decls[n]];
      assert d in decls <==> d in decls[..n] || d == decls[n];
    }
  }

  /** A struct whose fields are all exported is listed whole. */
  lemma {:induction false} ExportedAll(decls: seq<FieldDecl>)
    requires forall i :: 0 <= i < |decls| ==> decls[i].exported
    ensures Exported(decls) == decls
  {
    if decls != [] {
      var n := |decls| - 1;
      ExportedAll(decls[..n]);
      assert decls == decls[..n] + [decls[n]];
    }
  }

  // ---------------------------------------------------------------------------
  // ExtractFields

  /** The form schema of a field table: the description of each exported field, in order. */
  function Schema(decls: seq<FieldDecl>): seq<FieldSpec>
  {
    if decls == [] then []
    else
      var last := decls[|decls| - 1];
      Schema(decls[..|decls| - 1]) + if last.exported then [SpecOf(last.name, last.tag)] else []
  }

  lemma SchemaPrefix(decls: seq<FieldDecl>, i: nat)
    requires i < |decls|
    ensures Schema(decls[..i + 1]) ==
      Schema(decls[..i]) + if decls[i].exported then [SpecOf(decls[i].name, decls[i].tag)] else []
  {
    assert decls[..i + 1][..i] == decls[..i];
  }

  /**
   * The schema has one entry per exported field, and entry `k` is what `parseTag`
   * gives for the `k`-th exported field's name and tag.
   */
  lemma {:induction false} SchemaIsSpecs(decls: seq<FieldDecl>)
    ensures |Schema(decls)| == |Exported(decls)|
    ensures forall k :: 0 <= k < |Schema(decls)| ==>
      Schema(decls)[k] == SpecOf(Exported(decls)[k].name, Exported(decls)[k].tag)
  {
    if decls != [] {
      var n := |decls| - 1;
      SchemaIsSpecs(decls[..n]);
    }
  }

  /** Go's `ExtractFields`: the schema of the struct, whether passed by pointer or by value. */
  method ExtractFields(v: Target) returns (fields: seq<FieldSpec>)
    ensures fields == Schema(v.Decls())
  {
    var decls := v.Decls();
    fields := [];
    for i := 0 to |decls|
      invariant fields == Schema(decls[..i])
    {
      SchemaPrefix(decls, i);
      var sf := decls[i];
      if !sf.exported {
        continue;
      }
      var fs := ParseTag(sf.name, sf.tag);
      fields := fields + [fs];
    }
    assert decls[..|decls|] == decls;
  }

  // ---------------------------------------------------------------------------
  // BindFormValues, stated field by field

  /** What the binder does to one field. */
  datatype Outcome =
    | Keep               // the field is left as it was
    | Assign(v: Value)   // the field is overwritten with `v`
    | Fail               // a number does not parse: the binder stops with an error

  /** The coercion switch of `BindFormValues` for a field of kind `k` given the submitted list `vals`. */
  function Coerce(k: Kind, vals: seq<string>): (r: Outcome)
    requires |vals| > 0
    ensures r.Fail? <==> (k.IntKind? && ParseInt(vals[0]).None?) || (k.UintKind? && ParseUint(vals[0]).None?)
    ensures r.Keep? <==> k == SliceKind || k == OtherKind
  {
    match k
    case StringKind => Assign(StrV(vals[0]))
    case IntKind(w) =>
      (match ParseInt(vals[0])
       case None => Fail
       case Some(x) => Assign(IntV(TruncInt(x, w))))
    case UintKind(w) =>
      (match ParseUint(vals[0])
       case None => Fail
       case Some(u) => Assign(UintV(TruncUint(u, w))))
    case StringSliceKind => Assign(StrsV(vals))
    case SliceKind => Keep
    case BoolKind => Assign(BoolV(vals[0] == "on" || vals[0] == "true"))
    case OtherKind => Keep
  }

  /**
   * What the binder does to field `d`: unexported fields and fields whose
   * resolved name is absent from `values` or maps to an empty list are kept.
   */
  function FieldOutcome(d: FieldDecl, values: map<string, seq<string>>): (r: Outcome)
    ensures !d.exported ==> r == Keep
    ensures var n := SpecOf(d.name, d.tag).Name;
      r != Keep ==> d.exported && n in values && |values[n]| > 0 && r == Coerce(d.kind, values[n])
  {
    if !d.exported then Keep
    else
      var name := SpecOf(d.name, d.tag).Name;
      if name !in values || |values[name]| == 0 then Keep
      else Coerce(d.kind, values[name])
  }

  /** The field's value after an outcome other than failure. */
  function Applied(o: Outcome, v: Value): Value
  {
    if o.Assign? then o.v else v
  }

  /** The outcome of every field, in declaration order. */
  function Outcomes(decls: seq<FieldDecl>, values: map<string, seq<string>>): (outs: seq<Outcome>)
    ensures |outs| == |decls|
  {
    if decls == [] then []
    else Outcomes(decls[..|decls| - 1], values) + [FieldOutcome(decls[|decls| - 1], values)]
  }

  /** Entry `j` of `Outcomes` is the outcome of field `j`. */
  lemma {:induction false} OutcomeAt(decls: seq<FieldDecl>, values: map<string, seq<string>>, j: nat)
    requires j < |decls|
    ensures Outcomes(decls, values)[j] == FieldOutcome(decls[j], values)
  {
    var n := |decls| - 1;
    if j < n {
      OutcomeAt(decls[..n], values, j);
    }
  }

  /** The first failing entry. */
  function FirstFailure(outs: seq<Outcome>): (r: Option<nat>)
    ensures r.None? <==> forall i :: 0 <= i < |outs| ==> !outs[i].Fail?
    ensures r.Some? ==> r.value < |outs| && outs[r.value].Fail? && forall j :: 0 <= j < r.value ==> !outs[j].Fail?
  {
    if outs == [] then None
    else if outs[0].Fail? then Some(0)
    else
      match FirstFailure(outs[1..])
      case None => None
      case Some(k) => Some(k + 1)
  }

  /** The number of fields the binder gets through: all of them, or those before the first failure. */
  function Reached(decls: seq<FieldDecl>, values: map<string, seq<string>>): nat
  {
    FirstFailure(Outcomes(decls, values)).GetOr(|decls|)
  }

  /** Why `BindFormValues` returned an error. */
  datatype BindError =
    | NotPointer              // "dst 必须是指针"
    | ParseFailure(index: nat) // the strconv error of the field at this index

  /** The error the binder reports for a pointer target. */
  function ErrorOf(decls: seq<FieldDecl>, values: map<string, seq<string>>): Option<BindError>
  {
    match FirstFailure(Outcomes(decls, values))
    case None => None
    case Some(i) => Some(ParseFailure(i))
  }

  /**
   * Go's `BindFormValues`: a non-pointer target is refused untouched; otherwise
   * the fields are visited in declaration order and each one before the first
   * failing field gets its outcome, while that field and all later ones keep
   * their values.
   */
  method BindFormValues(dst: Target, values: map<string, seq<string>>) returns (err: Option<BindError>)
    requires dst.Pointer? ==> dst.rec.Valid()
    modifies if dst.Pointer? then {dst.rec.slots} else {}
    ensures dst.Plain? ==> err == Some(NotPointer)
    ensures dst.Pointer? ==> dst.rec.Valid()
    ensures dst.Pointer? ==> err == ErrorOf(dst.rec.fields, values)
    ensures dst.Pointer? ==> forall j :: 0 <= j < |dst.rec.fields| ==>
      dst.rec.slots[j] ==
        if j < Reached(dst.rec.fields, values)
        then Applied(Outcomes(dst.rec.fields, values)[j], old(dst.rec.slots[j]))
        else old(dst.rec.slots[j])
  {
    if !dst.Pointer? {
      return Some(NotPointer);
    }
    var rec := dst.rec;
    ghost var outs := Outcomes(rec.fields, values);
    for i := 0 to |rec.fields|
      invariant rec.Valid()
      invariant forall j :: 0 <= j < i ==> !outs[j].Fail?
      invariant forall j :: 0 <= j < |rec.fields| ==>
        rec.slots[j] == if j < i then Applied(outs[j], old(rec.slots[j])) else old(rec.slots[j])
    {
      var failed := BindField(rec, i, values);
      if failed {
        FirstFailureAt(outs, i);
        return Some(ParseFailure(i));
      }
    }
    return None;
  }

  /**
   * The body of the loop of `BindFormValues` for field `i`: resolve the field's
   * name through its tag, look it up, and write the coerced value, or report
   * that the number does not parse.
   */
  method BindField(rec: Record, i: nat, values: map<string, seq<string>>) returns (failed: bool)
    requires rec.Valid() && i < |rec.fields|
    modifies rec.slots
    ensures rec.Valid()
    ensures failed <==> Outcomes(rec.fields, values)[i].Fail?
    ensures rec.slots[i] == Applied(Outcomes(rec.fields, values)[i], old(rec.slots[i]))
    ensures forall j :: 0 <= j < |rec.fields| && j != i ==> rec.slots[j] == old(rec.slots[j])
  {
    var sf := rec.fields[i];
    ghost var o := FieldOutcome(sf, values);
    OutcomeAt(rec.fields, values, i);
    if !sf.exported {
      return false;
    }
    var spec := ParseTag(sf.name, sf.tag);
    var name := spec.Name;
    if name !in values || |values[name]| == 0 {
      return false;
    }
    var vals := values[name];
    assert o == Coerce(sf.kind, vals);
    CoerceFits(sf.kind, vals);
    match sf.kind {
      case StringKind =>
        rec.slots[i] := StrV(vals[0]);
      case IntKind(w) =>
        var iv := ParseInt(vals[0]);
        if iv.None? {
          return true;
        }
        rec.slots[i] := IntV(TruncInt(iv.value, w));
      case UintKind(w) =>
        var uv := ParseUint(vals[0]);
        if uv.None? {
          return true;
        }
        rec.slots[i] := UintV(TruncUint(uv.value, w));
      case StringSliceKind =>
        rec.slots[i] := StrsV(vals);
      case SliceKind =>
      case BoolKind =>
        rec.slots[i] := BoolV(vals[0] == "on" || vals[0] == "true");
      case OtherKind =>
    }
    return false;
  }

  /** A failing entry with no failing entry before it is the first failure. */
  lemma FirstFailureAt(outs: seq<Outcome>, i: nat)
    requires i < |outs| && outs[i].Fail?
    requires forall j :: 0 <= j < i ==> !outs[j].Fail?
    ensures FirstFailure(outs) == Some(i)
  {
  }

  /** Every value the binder writes is one the field's kind can hold. */
  lemma CoerceFits(k: Kind, vals: seq<string>)
    requires |vals| > 0
    ensures Coerce(k, vals).Assign? ==> Fits(k, Coerce(k, vals).v)
  {
  }

  /** The outcome of an erroring run names the first field whose value did not parse. */
  lemma ErrorOfReached(decls: seq<FieldDecl>, values: map<string, seq<string>>)
    ensures ErrorOf(decls, values) == None <==> Reached(decls, values) == |decls|
    ensures ErrorOf(decls, values).Some? ==>
      && ErrorOf(decls, values) == Some(ParseFailure(Reached(decls, values)))
      && Reached(decls, values) < |decls|
      && Outcomes(decls, values)[Reached(decls, values)].Fail?
  {
  }

  /**
   * Submitting nothing changes nothing and is no error, whatever the tags say:
   * `required=true` is only a hint for the page.
   */
  lemma NoValuesKeepsEverything(decls: seq<FieldDecl>)
    ensures forall j :: 0 <= j < |decls| ==> Outcomes(decls, map[])[j] == Keep
    ensures ErrorOf(decls, map[]) == None && Reached(decls, map[]) == |decls|
  {
    forall j | 0 <= j < |decls|
      ensures Outcomes(decls, map[])[j] == Keep
    {
      OutcomeAt(decls, map[], j);
    }
  }

  /** A field's outcome depends only on the values under the name its tag resolves to. */
  lemma OnlyOwnNameRead(d: FieldDecl, values: map<string, seq<string>>)
    ensures var n := SpecOf(d.name, d.tag).Name;
      FieldOutcome(d, values) == FieldOutcome(d, if n in values then map[n := values[n]] else map[])
  {
  }

  /** The binder reads each exported field under the very name the schema shows for it. */
  lemma BinderReadsSchemaNames(decls: seq<FieldDecl>, values: map<string, seq<string>>, k: nat)
    requires k < |Exported(decls)|
    ensures k < |Schema(decls)|
    ensures var d, n := Exported(decls)[k], Schema(decls)[k].Name;
      FieldOutcome(d, values) == if n !in values || |values[n]| == 0 then Keep else Coerce(d.kind, values[n])
  {
    SchemaIsSpecs(decls);
    ExportedMembers(decls, Exported(decls)[k]);
  }

  /** Every field but a `[]string` one reads only the first submitted value. */
  lemma OnlyFirstValueCounts(k: Kind, x: string, rest: seq<string>)
    requires k != StringSliceKind
    ensures Coerce(k, [x] + rest) == Coerce(k, [x])
  {
  }

  /** A checkbox is on for exactly `on` and `true`, spelled in lower case. */
  lemma BoolSpellings()
    ensures Coerce(BoolKind, ["on"]) == Assign(BoolV(true))
    ensures Coerce(BoolKind, ["true", "false"]) == Assign(BoolV(true))
    ensures Coerce(BoolKind, ["off"]) == Assign(BoolV(false))
    ensures Coerce(BoolKind, ["TRUE"]) == Assign(BoolV(false))
    ensures Coerce(BoolKind, ["1"]) == Assign(BoolV(false))
  {
  }

  /**
   * A 64-bit number written in decimal is stored cut to the field's width, so one
   * that fits the field is stored as itself.
   */
  lemma IntRoundTrip(w: Width, x: int, rest: seq<string>)
    requires MinInt64 <= x <= MaxInt64
    ensures Coerce(IntKind(w), [FormatInt(x)] + rest) == Assign(IntV(TruncInt(x, w)))
    ensures InSignedRange(x, w) ==> Coerce(IntKind(w), [FormatInt(x)] + rest) == Assign(IntV(x))
  {
    ParseIntOfFormat(x);
    if InSignedRange(x, w) {
      TruncIntInRange(x, w);
    }
  }

  /** A number outside the 64-bit range does not parse, even for a narrower field. */
  lemma IntOverflowFails(w: Width, x: int, rest: seq<string>)
    requires x < MinInt64 || MaxInt64 < x
    ensures Coerce(IntKind(w), [FormatInt(x)] + rest) == Fail
  {
    var s := FormatInt(x);
    if x < 0 {
      DecimalValueOfFormat(-x);
      assert SignAndBody(s) == (true, FormatUint(-x));
    } else {
      DecimalValueOfFormat(x);
      assert IsDigit(FormatUint(x)[0]);
      assert SignAndBody(s) == (false, FormatUint(x));
    }
  }

  lemma UintRoundTrip(w: Width, n: nat, rest: seq<string>)
    requires n <= MaxUint64
    ensures Coerce(UintKind(w), [FormatUint(n)] + rest) == Assign(UintV(TruncUint(n, w)))
    ensures n < Modulus(w) ==> Coerce(UintKind(w), [FormatUint(n)] + rest) == Assign(UintV(n))
  {
    ParseUintOfFormat(n);
    if n < Modulus(w) {
      TruncUintInRange(n, w);
    }
  }

  /** An unsigned field refuses any sign, so a negative number is a failure, not a wrap-around. */
  lemma UintRejectsSign(w: Width, body: string, rest: seq<string>)
    ensures Coerce(UintKind(w), ["-" + body] + rest) == Fail
    ensures Coerce(UintKind(w), ["+" + body] + rest) == Fail
  {
    ParseUintRejectsSign(body);
  }

  /** Cutting to eight bits: 200 in an `int8` reads as -56, 256 in a `uint8` as 0. */
  lemma NarrowFieldsWrap()
    ensures TruncInt(200, W8) == -56 && TruncInt(-129, W8) == 127
    ensures TruncUint(256, W8) == 0 && TruncUint(0x1_0001, W16) == 1
  {
  }

  /** Submitted numbers are not trimmed: a blank at either end of the text makes the parse fail. */
  lemma NumbersNotTrimmed(w: Width, s: string, rest: seq<string>)
    requires s != [] && (IsSpace(s[0]) || IsSpace(s[|s| - 1]))
    ensures Coerce(IntKind(w), [s] + rest) == Fail
    ensures Coerce(UintKind(w), [s] + rest) == Fail
  {
    assert !IsDigit(s[0]) || !IsDigit(s[|s| - 1]);
    var body := SignAndBody(s).1;
    if body != [] {
      assert body[|body| - 1] == s[|s| - 1];
      assert !IsDigit(body[0]) || !IsDigit(body[|body| - 1]);
    }
  }
}
