/** Records: what the code generated by the derive macro does, for every schema. */
module Records {
  import opened Wrappers
  import opened Values

  datatype Width = W8 | W16 | W32 | W64

  function Bits(w: Width): int {
    match w
    case W8 => 0x80
    case W16 => 0x8000
    case W32 => 0x8000_0000
    case W64 => 0x8000_0000_0000_0000
  }

  /** The field types that convert from and to values, with records nested to any depth. */
  datatype FieldType =
    | TBool
    | TCount(width: Width)
    | TInteger(width: Width)
    | TReal
    | TDuration
    | TTimestamp
    | TString
    | TAddress
    | TSubnet
    | TPort
    | TRecord(fields: seq<Field>)

  /** A field is optional if its type is written as an `Option`. */
  datatype Field = Field(optional: bool, ty: FieldType)

  /** The contents of a typed field; scalars are named by the value they convert to. */
  datatype Datum = Scalar(v: Value) | Record(slots: seq<Slot>)

  datatype Slot = Absent | Present(datum: Datum)

  datatype ConversionError = MismatchedTypes | Domain

  // ----- Typing -----

  predicate ScalarOf(ty: FieldType, v: Value) {
    match ty
    case TBool => v.Boolean?
    case TCount(_) => v.Count?
    case TInteger(_) => v.Integer?
    case TReal => v.Real?
    case TDuration => v.Timespan?
    case TTimestamp => v.Timestamp?
    case TString => v.String?
    case TAddress => v.Address?
    case TSubnet => v.Subnet?
    case TPort => v.Port?
    case TRecord(_) => false
  }

  predicate InDomain(ty: FieldType, v: Value) {
    match ty
    case TCount(w) => v.Count? && v.n < 2 * Bits(w)
    case TInteger(w) => v.Integer? && -Bits(w) <= v.i < Bits(w)
    case _ => true
  }

  predicate HasType(ty: FieldType, d: Datum)
    decreases d, 1
  {
    match d
    case Scalar(v) => ScalarOf(ty, v) && InDomain(ty, v)
    case Record(slots) => ty.TRecord? && SlotsFit(ty.fields, slots)
  }

  predicate SlotFits(f: Field, s: Slot)
    decreases s, 0
  {
    match s
    case Absent => f.optional
    case Present(d) => HasType(f.ty, d)
  }

  predicate SlotsFit(fs: seq<Field>, slots: seq<Slot>)
    decreases slots, 0
  {
    if fs == [] || slots == [] then fs == [] && slots == []
    else SlotFits(fs[0], slots[0]) && SlotsFit(fs[1..], slots[1..])
  }

  // ----- The generated encoder -----

  function Encode(d: Datum): Value
    decreases d, 1
  {
    match d
    case Scalar(v) => v
    case Record(slots) => Vector(EncodeSlots(slots))
  }

  function EncodeSlot(s: Slot): Value
    decreases s, 0
  {
    match s
    case Absent => Value.None
    case Present(d) => Encode(d)
  }

  function EncodeSlots(slots: seq<Slot>): (xs: seq<Value>)
    ensures |xs| == |slots|
    decreases slots, 0
  {
    if slots == [] then [] else [EncodeSlot(slots[0])] + EncodeSlots(slots[1..])
  }

  // ----- The generated decoder -----

  /** Elements that were not received count as `None`. */
  function At(xs: seq<Value>, i: nat): Value {
    if i < |xs| then xs[i] else Value.None
  }

  function Tail(xs: seq<Value>): seq<Value> {
    if xs == [] then [] else xs[1..]
  }

  function Decode(ty: FieldType, v: Value): Result<Datum, ConversionError>
    decreases ty, 1
  {
    match ty
    case TRecord(fs) =>
      if !v.Vector? then Err(MismatchedTypes)
      else
        var slots :- DecodeFields(fs, v.xs);
        Ok(Record(slots))
    case _ =>
      if !ScalarOf(ty, v) then Err(MismatchedTypes)
      else if !InDomain(ty, v) then Err(Domain)
      else Ok(Scalar(v))
  }

  function DecodeField(f: Field, v: Value): Result<Slot, ConversionError>
    decreases f, 0
  {
    if f.optional && v.None? then Ok(Absent)
    else
      var d :- Decode(f.ty, v);
      Ok(Present(d))
  }

  function DecodeFields(fs: seq<Field>, xs: seq<Value>): Result<seq<Slot>, ConversionError>
    decreases fs, 0
  {
    if fs == [] then Ok([])
    else
      var s :- DecodeField(fs[0], At(xs, 0));
      var rest :- DecodeFields(fs[1..], Tail(xs));
      Ok([s] + rest)
  }

  /** The decoder of a record: one iterator step for each field, leaving at the first error. */
  method DecodeRecord(fs: seq<Field>, v: Value) returns (r: Result<Datum, ConversionError>)
    ensures r == Decode(TRecord(fs), v)
  {
    if !v.Vector? {
      return Err(MismatchedTypes);
    }
    var left := v.xs;
    var slots: seq<Slot> := [];
    ghost var all := DecodeFields(fs, v.xs);
    assert fs[0..] == fs && (all.Ok? ==> [] + all.value == all.value);
    for i := 0 to |fs|
      invariant all == Prefixed(slots, DecodeFields(fs[i..], left))
    {
      assert fs[i..][1..] == fs[i + 1..];
      var next := if left == [] then Value.None else left[0];
      left := Tail(left);
      var slot := DecodeField(fs[i], next);
      if slot.Err? {
        return Err(slot.error);
      }
      ghost var rest := DecodeFields(fs[i + 1..], left);
      assert rest.Ok? ==> slots + ([slot.value] + rest.value) == slots + [slot.value] + rest.value;
      slots := slots + [slot.value];
    }
    assert fs[|fs|..] == [] && slots + [] == slots;
    r := Ok(Record(slots));
  }

  // ----- What is accepted -----

  /** A value matches a type: as a scalar in range, or as a vector that matches once padded. */
  predicate Matches(ty: FieldType, v: Value)
    decreases ty, 1
  {
    match ty
    case TRecord(fs) => v.Vector? && forall i | 0 <= i < |fs| :: MatchesField(fs[i], At(v.xs, i))
    case _ => ScalarOf(ty, v) && InDomain(ty, v)
  }

  predicate MatchesField(f: Field, v: Value)
    decreases f, 0
  {
    (f.optional && v.None?) || Matches(f.ty, v)
  }

  /** The decoder succeeds exactly on the matching values. */
  lemma {:induction false} DecodeSucceeds(ty: FieldType, v: Value)
    ensures Decode(ty, v).Ok? <==> Matches(ty, v)
    decreases ty, 1
  {
    if ty.TRecord? && v.Vector? {
      DecodeFieldsSucceeds(ty.fields, v.xs);
    }
  }

  lemma {:induction false} DecodeFieldSucceeds(f: Field, v: Value)
    ensures DecodeField(f, v).Ok? <==> MatchesField(f, v)
    decreases f, 0
  {
    DecodeSucceeds(f.ty, v);
  }

  lemma {:induction false} DecodeFieldsSucceeds(fs: seq<Field>, xs: seq<Value>)
    ensures DecodeFields(fs, xs).Ok? <==> forall i | 0 <= i < |fs| :: MatchesField(fs[i], At(xs, i))
    decreases fs, 0
  {
    if fs != [] {
      DecodeFieldSucceeds(fs[0], At(xs, 0));
      DecodeFieldsSucceeds(fs[1..], Tail(xs));
      forall i | 1 <= i < |fs| ensures At(Tail(xs), i - 1) == At(xs, i) && fs[1..][i - 1] == fs[i] {
      }
    }
  }

  /** A failing record reports the error of its first failing field in declaration order. */
  lemma {:induction false} FirstError(fs: seq<Field>, xs: seq<Value>, i: nat)
    requires i < |fs| && !MatchesField(fs[i], At(xs, i))
    requires forall j | 0 <= j < i :: MatchesField(fs[j], At(xs, j))
    ensures DecodeField(fs[i], At(xs, i)).Err?
    ensures Decode(TRecord(fs), Vector(xs)) == Err(DecodeField(fs[i], At(xs, i)).error)
  {
    DecodeFieldSucceeds(fs[0], At(xs, 0));
    if i > 0 {
      var ys := Tail(xs);
      assert MatchesField(fs[0], At(xs, 0));
      forall j | 0 <= j < i ensures fs[1..][j] == fs[j + 1] && At(ys, j) == At(xs, j + 1) {
      }
      FirstError(fs[1..], ys, i - 1);
      assert Decode(TRecord(fs[1..]), Vector(ys)).Err?;
    }
  }

  // ----- What the errors are -----

  function Converted(variant: bool, inRange: bool, v: Value): Result<Datum, ConversionError> {
    if !variant then Err(MismatchedTypes) else if !inRange then Err(Domain) else Ok(Scalar(v))
  }

  /** A scalar field takes the values of one variant; another variant is a mismatch. */
  lemma PlainFields(v: Value)
    ensures Decode(TBool, v) == Converted(v.Boolean?, true, v)
    ensures Decode(TReal, v) == Converted(v.Real?, true, v)
    ensures Decode(TDuration, v) == Converted(v.Timespan?, true, v)
    ensures Decode(TTimestamp, v) == Converted(v.Timestamp?, true, v)
    ensures Decode(TString, v) == Converted(v.String?, true, v)
    ensures Decode(TAddress, v) == Converted(v.Address?, true, v)
    ensures Decode(TSubnet, v) == Converted(v.Subnet?, true, v)
    ensures Decode(TPort, v) == Converted(v.Port?, true, v)
  {
  }

  /** The right variant outside the range of the field is a domain error. */
  lemma CountFields(v: Value)
    ensures Decode(TCount(W8), v) == Converted(v.Count?, v.Count? && v.n <= 255, v)
    ensures Decode(TCount(W16), v) == Converted(v.Count?, v.Count? && v.n <= 65_535, v)
    ensures Decode(TCount(W32), v) == Converted(v.Count?, v.Count? && v.n <= 4_294_967_295, v)
    ensures Decode(TCount(W64), v) == Converted(v.Count?, true, v)
  {
  }

  lemma IntegerFields(v: Value)
    ensures Decode(TInteger(W8), v) == Converted(v.Integer?, v.Integer? && -128 <= v.i <= 127, v)
    ensures Decode(TInteger(W16), v) == Converted(v.Integer?, v.Integer? && -32_768 <= v.i <= 32_767, v)
    ensures Decode(TInteger(W32), v) == Converted(v.Integer?, v.Integer? && -2_147_483_648 <= v.i <= 2_147_483_647, v)
    ensures Decode(TInteger(W64), v) == Converted(v.Integer?, true, v)
  {
  }

  /** The error that a value calls for: a scalar by its variant or its range, a record by not being a
      vector or by its first failing field, at any depth. */
  predicate FailsWith(ty: FieldType, v: Value, e: ConversionError)
    decreases ty, 1
  {
    match ty
    case TRecord(fs) =>
      if !v.Vector? then e.MismatchedTypes?
      else
        exists i | 0 <= i < |fs| ::
          FieldFailsWith(fs[i], At(v.xs, i), e) && forall j | 0 <= j < i :: MatchesField(fs[j], At(v.xs, j))
    case _ => if ScalarOf(ty, v) then !InDomain(ty, v) && e.Domain? else e.MismatchedTypes?
  }

  predicate FieldFailsWith(f: Field, v: Value, e: ConversionError)
    decreases f, 0
  {
    !(f.optional && v.None?) && FailsWith(f.ty, v, e)
  }

  lemma FirstFailing(fs: seq<Field>, xs: seq<Value>) returns (i: nat)
    requires exists j :: 0 <= j < |fs| && !MatchesField(fs[j], At(xs, j))
    ensures i < |fs| && !MatchesField(fs[i], At(xs, i)) && forall j | 0 <= j < i :: MatchesField(fs[j], At(xs, j))
  {
    i := 0;
    while MatchesField(fs[i], At(xs, i))
      invariant i < |fs| && forall j | 0 <= j < i :: MatchesField(fs[j], At(xs, j))
      decreases |fs| - i
    {
      i := i + 1;
    }
  }

  /** The decoder fails with exactly this error. */
  lemma {:induction false} ErrorExact(ty: FieldType, v: Value, e: ConversionError)
    ensures Decode(ty, v) == Err(e) <==> FailsWith(ty, v, e)
    decreases ty, 1
  {
    DecodeSucceeds(ty, v);
    if ty.TRecord? && v.Vector? {
      var fs, xs := ty.fields, v.xs;
      forall i | 0 <= i < |fs| ensures FieldErrorAt(fs, xs, e, i) {
        FieldErrorExact(fs[i], At(xs, i), e);
      }
      RecordErrorExact(fs, xs, e);
    }
  }

  predicate FieldErrorAt(fs: seq<Field>, xs: seq<Value>, e: ConversionError, i: nat)
    requires i < |fs|
  {
    DecodeField(fs[i], At(xs, i)) == Err(e) <==> FieldFailsWith(fs[i], At(xs, i), e)
  }

  lemma {:induction false} FieldErrorExact(f: Field, v: Value, e: ConversionError)
    ensures DecodeField(f, v) == Err(e) <==> FieldFailsWith(f, v, e)
    decreases f, 0
  {
    ErrorExact(f.ty, v, e);
  }

  lemma RecordErrorExact(fs: seq<Field>, xs: seq<Value>, e: ConversionError)
    requires forall i | 0 <= i < |fs| :: FieldErrorAt(fs, xs, e, i)
    ensures Decode(TRecord(fs), Vector(xs)) == Err(e) <==> FailsWith(TRecord(fs), Vector(xs), e)
  {
    DecodeSucceeds(TRecord(fs), Vector(xs));
    if Decode(TRecord(fs), Vector(xs)) == Err(e) {
      var i := FirstFailing(fs, xs);
      FirstError(fs, xs, i);
      assert FieldErrorAt(fs, xs, e, i);
    }
    if FailsWith(TRecord(fs), Vector(xs), e) {
      var i :| 0 <= i < |fs| && FieldFailsWith(fs[i], At(xs, i), e)
               && forall j | 0 <= j < i :: MatchesField(fs[j], At(xs, j));
      assert FieldErrorAt(fs, xs, e, i);
      DecodeFieldSucceeds(fs[i], At(xs, i));
      FirstError(fs, xs, i);
    }
  }

  lemma {:induction false} SlotEncoded(slots: seq<Slot>, i: nat)
    requires i < |slots|
    ensures EncodeSlots(slots)[i] == EncodeSlot(slots[i])
  {
    if i > 0 {
      SlotEncoded(slots[1..], i - 1);
      assert EncodeSlots(slots)[1..] == EncodeSlots(slots[1..]);
    }
  }

  /** A record is written as the vector of its fields in declaration order, unset ones as `None`. */
  lemma EncodedFields(slots: seq<Slot>, i: nat)
    requires i < |slots|
    ensures Encode(Record(slots)).Vector? && |Encode(Record(slots)).xs| == |slots|
    ensures slots[i].Absent? ==> Encode(Record(slots)).xs[i] == Value.None
    ensures slots[i].Present? && slots[i].datum.Scalar? ==> Encode(Record(slots)).xs[i] == slots[i].datum.v
    ensures slots[i].Present? && slots[i].datum.Record? ==> Encode(Record(slots)).xs[i] == Encode(slots[i].datum)
  {
    SlotEncoded(slots, i);
  }

  /** Decoding depends only on the padded elements at the declared positions: extra elements are
      discarded, and missing ones are the same as `None`. */
  lemma {:induction false} DecodePrefix(fs: seq<Field>, xs: seq<Value>, ys: seq<Value>)
    requires forall i | 0 <= i < |fs| :: At(xs, i) == At(ys, i)
    ensures DecodeFields(fs, xs) == DecodeFields(fs, ys)
    ensures Decode(TRecord(fs), Vector(xs)) == Decode(TRecord(fs), Vector(ys))
  {
    if fs != [] {
      forall i | 0 <= i < |fs[1..]| ensures At(Tail(xs), i) == At(Tail(ys), i) {
        assert At(xs, i + 1) == At(ys, i + 1);
      }
      assert At(xs, 0) == At(ys, 0);
      DecodePrefix(fs[1..], Tail(xs), Tail(ys));
    }
  }

  // ----- Schema evolution -----

  /** `b` evolved from `a`: records, at any depth, may have optional fields appended. */
  predicate Evolves(a: FieldType, b: FieldType)
    decreases a, 1
  {
    if a.TRecord? then b.TRecord? && FieldsEvolve(a.fields, b.fields) else a == b
  }

  predicate FieldEvolves(a: Field, b: Field)
    decreases a, 0
  {
    a.optional == b.optional && Evolves(a.ty, b.ty)
  }

  predicate FieldsEvolve(a: seq<Field>, b: seq<Field>)
    decreases a, 0
  {
    if a == [] then forall f | f in b :: f.optional
    else b != [] && FieldEvolves(a[0], b[0]) && FieldsEvolve(a[1..], b[1..])
  }

  /** The record with unset fields for everything that `ty` adds. */
  function Extend(ty: FieldType, d: Datum): Datum
    decreases d, 1
  {
    if d.Record? && ty.TRecord? then Record(ExtendSlots(ty.fields, d.slots)) else d
  }

  function ExtendSlot(f: Field, s: Slot): Slot
    decreases s, 0
  {
    if s.Present? then Present(Extend(f.ty, s.datum)) else Absent
  }

  function Unset(n: nat): seq<Slot> {
    if n == 0 then [] else [Absent] + Unset(n - 1)
  }

  function ExtendSlots(fs: seq<Field>, slots: seq<Slot>): seq<Slot>
    decreases slots, 0
  {
    if slots == [] || fs == [] then Unset(|fs|)
    else [ExtendSlot(fs[0], slots[0])] + ExtendSlots(fs[1..], slots[1..])
  }

  /** The record without what `ty` does not have. */
  function Project(ty: FieldType, d: Datum): Datum
    decreases d, 1
  {
    if d.Record? && ty.TRecord? then Record(ProjectSlots(ty.fields, d.slots)) else d
  }

  function ProjectSlot(f: Field, s: Slot): Slot
    decreases s, 0
  {
    if s.Present? then Present(Project(f.ty, s.datum)) else Absent
  }

  function ProjectSlots(fs: seq<Field>, slots: seq<Slot>): seq<Slot>
    decreases slots, 0
  {
    if slots == [] || fs == [] then []
    else [ProjectSlot(fs[0], slots[0])] + ProjectSlots(fs[1..], slots[1..])
  }

  /** An old encoding read with the evolved schema is the old record with the new fields unset. */
  lemma {:induction false} DecodeOld(a: FieldType, b: FieldType, d: Datum)
    requires Evolves(a, b) && HasType(a, d)
    ensures Decode(b, Encode(d)) == Ok(Extend(b, d)) && HasType(b, Extend(b, d))
    ensures Encode(d) != Value.None
    decreases d, 1
  {
    if d.Record? {
      DecodeOldSlots(a.fields, b.fields, d.slots);
    }
  }

  lemma {:induction false} DecodeOldSlot(a: Field, b: Field, s: Slot)
    requires FieldEvolves(a, b) && SlotFits(a, s)
    ensures DecodeField(b, EncodeSlot(s)) == Ok(ExtendSlot(b, s)) && SlotFits(b, ExtendSlot(b, s))
    decreases s, 0
  {
    if s.Present? { DecodeOld(a.ty, b.ty, s.datum); }
  }

  lemma {:induction false} DecodeOldSlots(a: seq<Field>, b: seq<Field>, slots: seq<Slot>)
    requires FieldsEvolve(a, b) && SlotsFit(a, slots)
    ensures DecodeFields(b, EncodeSlots(slots)) == Ok(ExtendSlots(b, slots)) && SlotsFit(b, ExtendSlots(b, slots))
    decreases slots, 0
  {
    if a == [] {
      DecodeMissing(b);
    } else {
      var xs := EncodeSlots(slots);
      DecodeOldSlot(a[0], b[0], slots[0]);
      DecodeOldSlots(a[1..], b[1..], slots[1..]);
      assert Tail(xs) == EncodeSlots(slots[1..]);
    }
  }

  lemma {:induction false} DecodeMissing(fs: seq<Field>)
    requires forall f | f in fs :: f.optional
    ensures DecodeFields(fs, []) == Ok(Unset(|fs|)) && SlotsFit(fs, Unset(|fs|))
  {
    if fs != [] {
      assert fs[0] in fs;
      DecodeMissing(fs[1..]);
      assert Unset(|fs|)[1..] == Unset(|fs| - 1);
    }
  }

  /** A new encoding read with the old schema is the projection of the new record. */
  lemma {:induction false} DecodeNew(a: FieldType, b: FieldType, d: Datum)
    requires Evolves(a, b) && HasType(b, d)
    ensures Decode(a, Encode(d)) == Ok(Project(a, d)) && HasType(a, Project(a, d))
    ensures Encode(d) != Value.None
    decreases d, 1
  {
    if d.Record? {
      DecodeNewSlots(a.fields, b.fields, d.slots);
    }
  }

  lemma {:induction false} DecodeNewSlot(a: Field, b: Field, s: Slot)
    requires FieldEvolves(a, b) && SlotFits(b, s)
    ensures DecodeField(a, EncodeSlot(s)) == Ok(ProjectSlot(a, s)) && SlotFits(a, ProjectSlot(a, s))
    decreases s, 0
  {
    if s.Present? { DecodeNew(a.ty, b.ty, s.datum); }
  }

  lemma {:induction false} DecodeNewSlots(a: seq<Field>, b: seq<Field>, slots: seq<Slot>)
    requires FieldsEvolve(a, b) && SlotsFit(b, slots)
    ensures DecodeFields(a, EncodeSlots(slots)) == Ok(ProjectSlots(a, slots)) && SlotsFit(a, ProjectSlots(a, slots))
    decreases slots, 0
  {
    if a != [] {
      var xs := EncodeSlots(slots);
      DecodeNewSlot(a[0], b[0], slots[0]);
      DecodeNewSlots(a[1..], b[1..], slots[1..]);
      assert Tail(xs) == EncodeSlots(slots[1..]);
    }
  }

  lemma {:induction false} EvolvesReflexive(ty: FieldType)
    ensures Evolves(ty, ty)
    decreases ty, 1
  {
    if ty.TRecord? { FieldsEvolveReflexive(ty.fields); }
  }

  lemma {:induction false} FieldsEvolveReflexive(fs: seq<Field>)
    ensures FieldsEvolve(fs, fs)
    decreases fs, 0
  {
    if fs != [] {
      FieldEvolvesReflexive(fs[0]);
      FieldsEvolveReflexive(fs[1..]);
    }
  }

  lemma {:induction false} FieldEvolvesReflexive(f: Field)
    ensures FieldEvolves(f, f)
    decreases f, 0
  {
    EvolvesReflexive(f.ty);
  }

  /** Reading an old encoding with the new schema and projecting back loses nothing. */
  lemma {:induction false} ProjectExtend(a: FieldType, b: FieldType, d: Datum)
    requires Evolves(a, b) && HasType(a, d)
    ensures Project(a, Extend(b, d)) == d
    decreases d, 1
  {
    if d.Record? { ProjectExtendSlots(a.fields, b.fields, d.slots); }
  }

  lemma {:induction false} ProjectExtendSlots(a: seq<Field>, b: seq<Field>, slots: seq<Slot>)
    requires FieldsEvolve(a, b) && SlotsFit(a, slots)
    ensures ProjectSlots(a, ExtendSlots(b, slots)) == slots
    decreases slots, 0
  {
    if a != [] {
      ProjectExtendSlot(a[0], b[0], slots[0]);
      ProjectExtendSlots(a[1..], b[1..], slots[1..]);
      assert ExtendSlots(b, slots)[1..] == ExtendSlots(b[1..], slots[1..]);
    }
  }

  lemma {:induction false} ProjectExtendSlot(a: Field, b: Field, s: Slot)
    requires FieldEvolves(a, b) && SlotFits(a, s)
    ensures ProjectSlot(a, ExtendSlot(b, s)) == s
    decreases s, 0
  {
    if s.Present? { ProjectExtend(a.ty, b.ty, s.datum); }
  }

  /** The plain round trip: a typed record is decoded from its own encoding. */
  lemma RoundTrip(ty: FieldType, d: Datum)
    requires HasType(ty, d)
    ensures Decode(ty, Encode(d)) == Ok(d)
  {
    EvolvesReflexive(ty);
    DecodeNew(ty, ty, d);
    ProjectTyped(ty, d);
  }

  lemma {:induction false} ProjectTyped(ty: FieldType, d: Datum)
    requires HasType(ty, d)
    ensures Project(ty, d) == d
    decreases d, 1
  {
    if d.Record? { ProjectTypedSlots(ty.fields, d.slots); }
  }

  lemma {:induction false} ProjectTypedSlots(fs: seq<Field>, slots: seq<Slot>)
    requires SlotsFit(fs, slots)
    ensures ProjectSlots(fs, slots) == slots
    decreases slots, 0
  {
    if fs != [] {
      ProjectTypedSlot(fs[0], slots[0]);
      ProjectTypedSlots(fs[1..], slots[1..]);
    }
  }

  lemma {:induction false} ProjectTypedSlot(f: Field, s: Slot)
    requires SlotFits(f, s)
    ensures ProjectSlot(f, s) == s
    decreases s, 0
  {
    if s.Present? { ProjectTyped(f.ty, s.datum); }
  }
}
