/** Go field values, nullable SQL cells, and the SQLite codec between them. */
module SqlCodec {
  import opened Options

  /** A slice, map or plain struct, known only by its identity. */
  datatype Doc = Doc(identity: string)

  /** Go types of model fields. `KJson` are slices and maps (nil-able); pointers
      go to scalars, times or structs. */
  datatype Kind = KString | KInt | KFloat | KBool | KTime | KJson | KStruct | KPtr(elem: Kind)

  /** `Nil` is a nil pointer, slice or map, and Go's untyped nil. */
  datatype GoValue =
    | Str(s: string) | Int(n: int) | Float(f: real) | Bool(b: bool)
    | Time(seconds: int, nanos: nat, zone: int)
    | Json(doc: Doc) | Struct(doc: Doc)
    | Nil | Ptr(target: GoValue)

  datatype Cell = Null | Text(s: string) | Integer(n: int) | Real(r: real)

  /** The two text encodings: RFC 3339 with whole seconds, and JSON. `timeFits` and
      `docFits` tell the times and documents that their text can represent: years of
      four digits, offsets of whole minutes within a day, numbers exact in a float64.
      `zeroDoc` is the zero value of a struct type. */
  datatype Codec = Codec(
    timeFits: (int, int) -> bool,
    docFits: Doc -> bool,
    formatTime: (int, int) -> string,
    parseTime: string -> Option<(int, int)>,
    marshal: Doc -> string,
    unmarshal: string -> Option<Doc>,
    zeroDoc: Doc,
    zeroSeconds: int)

  /** Times read back as they were, to the second; documents read back as ones with the
      same text. Zero values are among those that the text can represent and survive. */
  ghost predicate Lawful(c: Codec) {
    && (forall s, z :: c.timeFits(s, z) ==> c.formatTime(s, z) != "")
    && (forall s, z :: c.timeFits(s, z) ==> c.parseTime(c.formatTime(s, z)) == Some((s, z)))
    && c.timeFits(c.zeroSeconds, 0)
    && (forall d :: c.docFits(d) ==> c.marshal(d) != "")
    && (forall d :: c.docFits(d) ==> c.unmarshal(c.marshal(d)).Some?)
    && (forall d :: c.docFits(d) ==>
          var e := c.unmarshal(c.marshal(d));
          e.Some? ==> c.marshal(e.value) == c.marshal(d))
    && c.docFits(c.zeroDoc)
    && c.unmarshal(c.marshal(c.zeroDoc)) == Some(c.zeroDoc)
  }

  /** Values of the field's own Go type. */
  predicate Typed(k: Kind, v: GoValue) {
    match k
    case KString => v.Str?
    case KInt => v.Int?
    case KFloat => v.Float?
    case KBool => v.Bool?
    case KTime => v.Time?
    case KJson => v.Nil? || v.Json?
    case KStruct => v.Struct?
    case KPtr(elem) => v.Nil? || (v.Ptr? && Typed(elem, v.target))
  }

  predicate FieldKind(k: Kind) {
    k.KPtr? ==> !k.elem.KPtr? && !k.elem.KJson?
  }

  /** PrepareValue */
  function Encode(c: Codec, v: GoValue): Cell {
    match v
    case Str(s) => Text(s)
    case Int(n) => Integer(n)
    case Float(f) => Real(f)
    case Bool(b) => Integer(if b then 1 else 0)
    case Time(seconds, _, zone) => Text(c.formatTime(seconds, zone))
    case Json(doc) => Text(c.marshal(doc))
    case Struct(doc) => Text(c.marshal(doc))
    case Nil => Null
    case Ptr(target) => Encode(c, target)
  }

  /** reflect.Value.IsZero */
  predicate IsZero(c: Codec, v: GoValue) {
    match v
    case Str(s) => s == ""
    case Int(n) => n == 0
    case Float(f) => f == 0.0
    case Bool(b) => !b
    case Time(seconds, nanos, zone) => seconds == c.zeroSeconds && nanos == 0 && zone == 0
    case Json(_) => false
    case Struct(doc) => doc == c.zeroDoc
    case Nil => true
    case Ptr(_) => false
  }

  /** What a freshly allocated destination holds. */
  function Zero(c: Codec, k: Kind): (v: GoValue)
    ensures Typed(k, v) && IsZero(c, v)
  {
    match k
    case KString => Str("")
    case KInt => Int(0)
    case KFloat => Float(0.0)
    case KBool => Bool(false)
    case KTime => Time(c.zeroSeconds, 0, 0)
    case KStruct => Struct(c.zeroDoc)
    case KJson => Nil
    case KPtr(_) => Nil
  }

  function DecodeTime(c: Codec, s: string): Option<GoValue> {
    var t := c.parseTime(s);
    if t.None? then None else Some(Time(t.value.0, 0, t.value.1))
  }

  /** ApplyScannedValue into a zero destination; None is a scan or parse error. */
  function Decode(c: Codec, k: Kind, cell: Cell): Option<GoValue> {
    if cell.Null? then Some(Zero(c, k))
    else match k
      case KString => if cell.Text? then Some(Str(cell.s)) else None
      case KInt => if cell.Integer? then Some(Int(cell.n)) else None
      case KFloat => if cell.Real? then Some(Float(cell.r)) else None
      case KBool => if cell.Integer? && 0 <= cell.n <= 1 then Some(Bool(cell.n == 1)) else None
      case KTime => if cell.Text? then DecodeTime(c, cell.s) else None
      case KJson =>
        if !cell.Text? then None
        else if cell.s == "" then Some(Nil)
        else (var d := c.unmarshal(cell.s); if d.None? then None else Some(Json(d.value)))
      case KStruct =>
        if !cell.Text? then None
        else if cell.s == "" then Some(Struct(c.zeroDoc))
        else (var d := c.unmarshal(cell.s); if d.None? then None else Some(Struct(d.value)))
      case KPtr(elem) =>
        if cell == Text("") then Some(Nil)
        else (var v := Decode(c, elem, cell); if v.None? then None else Some(Ptr(v.value)))
  }

  /** Values whose text can represent them. A pointer to the empty string is not one:
      its text reads back as nil. */
  predicate Storable(c: Codec, v: GoValue) {
    match v
    case Time(seconds, _, zone) => c.timeFits(seconds, zone)
    case Json(doc) => c.docFits(doc)
    case Struct(doc) => c.docFits(doc)
    case Ptr(target) => target != Str("") && Storable(c, target)
    case _ => true
  }

  /** NULL, or written by the codec for a field of this type. */
  ghost predicate WrittenCell(c: Codec, k: Kind, cell: Cell) {
    cell == Null || exists v :: Typed(k, v) && Storable(c, v) && cell == Encode(c, v)
  }

  /** A value a read of such a cell can return. */
  ghost predicate Readable(c: Codec, k: Kind, v: GoValue) {
    exists cell :: WrittenCell(c, k, cell) && Decode(c, k, cell) == Some(v)
  }

  /** What a value written may come back as: itself, a time without its fraction of a
      second, a document with the same text. */
  ghost predicate SameRead(c: Codec, v: GoValue, r: GoValue) {
    match v
    case Time(seconds, _, zone) => r == Time(seconds, 0, zone)
    case Json(doc) => r.Json? && c.marshal(r.doc) == c.marshal(doc)
    case Struct(doc) => r.Struct? && c.marshal(r.doc) == c.marshal(doc)
    case Ptr(target) => r.Ptr? && SameRead(c, target, r.target)
    case _ => r == v
  }

  /** Get returns what was written. */
  ghost predicate ReadsBack(c: Codec, k: Kind, v: GoValue, cell: Cell) {
    Decode(c, k, cell).Some? && SameRead(c, v, Decode(c, k, cell).value)
  }

  lemma EncodeNull(c: Codec, k: Kind, v: GoValue)
    requires FieldKind(k) && Typed(k, v)
    ensures Encode(c, v) == Null <==> v == Nil
  {
  }

  /** Reading what the codec wrote succeeds, and writing the result again gives
      the same cell. */
  lemma ReencodeScalar(c: Codec, k: Kind, v: GoValue)
    requires Lawful(c) && !k.KPtr? && Typed(k, v) && Storable(c, v)
    ensures var r := Decode(c, k, Encode(c, v));
            r.Some? && Typed(k, r.value) && Encode(c, r.value) == Encode(c, v)
    ensures ReadsBack(c, k, v, Encode(c, v))
    ensures Decode(c, k, Encode(c, v)).value == Nil <==> v == Nil
  {
  }

  lemma Reencode(c: Codec, k: Kind, v: GoValue)
    requires Lawful(c) && FieldKind(k) && Typed(k, v) && Storable(c, v)
    ensures var r := Decode(c, k, Encode(c, v));
            r.Some? && Typed(k, r.value) && Encode(c, r.value) == Encode(c, v)
    ensures ReadsBack(c, k, v, Encode(c, v))
    ensures Decode(c, k, Encode(c, v)).value == Nil <==> v == Nil
  {
    if k.KPtr? && v.Ptr? {
      ReencodeScalar(c, k.elem, v.target);
      assert Encode(c, v) != Text("");
    } else if !k.KPtr? {
      ReencodeScalar(c, k, v);
    }
  }

  /** A readable value is what reading its own encoding returns; the zero of a
      non-pointer type besides reads from NULL. */
  lemma ReadableFixed(c: Codec, k: Kind, v: GoValue)
    requires Lawful(c) && FieldKind(k) && Readable(c, k, v)
    ensures Typed(k, v) && Decode(c, k, Encode(c, v)) == Some(v)
  {
    var cell :| WrittenCell(c, k, cell) && Decode(c, k, cell) == Some(v);
    if cell == Null {
      assert v == Zero(c, k);
    } else {
      var w :| Typed(k, w) && Storable(c, w) && cell == Encode(c, w);
      Reencode(c, k, w);
    }
  }

  // ----- Conditions on one column

  datatype Expected = Plain(v: GoValue) | Exact(v: GoValue)

  /** What the generated condition asks of a cell: IS NULL for a nil, otherwise
      equality, relaxed to admit NULL when a zero is expected of a non-pointer field. */
  predicate ColumnHolds(c: Codec, k: Kind, e: Expected, cell: Cell) {
    var want := Encode(c, e.v);
    if want == Null then cell == Null
    else cell == want || (cell == Null && e.Plain? && IsZero(c, e.v) && !k.KPtr?)
  }

  /** Get returns exactly the expected value; a pointer field may also be
      expected by the value it points to. */
  predicate ReadsAs(c: Codec, k: Kind, e: GoValue, cell: Cell) {
    var r := Decode(c, k, cell);
    r == Some(e) || (k.KPtr? && r == Some(Ptr(e)))
  }

  ghost predicate Expectable(c: Codec, k: Kind, e: GoValue) {
    Readable(c, k, e) || (k.KPtr? && Readable(c, k, Ptr(e)))
  }

  lemma EqualEncodings(c: Codec, k: Kind, cell: Cell, e: GoValue)
    requires Lawful(c) && FieldKind(k) && WrittenCell(c, k, cell) && cell != Null && Readable(c, k, e)
    ensures cell == Encode(c, e) <==> Decode(c, k, cell) == Some(e)
  {
    ReadableFixed(c, k, e);
    var v :| Typed(k, v) && Storable(c, v) && cell == Encode(c, v);
    Reencode(c, k, v);
  }

  lemma NullReads(c: Codec, k: Kind, e: GoValue)
    requires Lawful(c) && FieldKind(k) && Typed(k, e)
    ensures Decode(c, k, Null) == Some(e) <==> IsZero(c, e)
  {
  }

  /** For cells that are NULL or written by the codec, and values a read can
      return, the generated condition is true exactly when Get would return the
      expected value. */
  lemma ConditionMeansRead(c: Codec, k: Kind, e: GoValue, cell: Cell)
    requires Lawful(c) && FieldKind(k) && WrittenCell(c, k, cell) && Expectable(c, k, e)
    ensures ColumnHolds(c, k, Plain(e), cell) <==> ReadsAs(c, k, e, cell)
  {
    if Readable(c, k, e) {
      ReadableFixed(c, k, e);
      EncodeNull(c, k, e);
      NullReads(c, k, e);
      PlainNotTwice(c, k, e, cell);
      if cell != Null {
        EqualEncodings(c, k, cell, e);
      }
    } else {
      ReadableFixed(c, k, Ptr(e));
      if cell != Null {
        EqualEncodings(c, k, cell, Ptr(e));
      }
      assert Decode(c, k, cell) == Some(e) ==> Readable(c, k, e);
    }
  }

  /** A readable value of a pointer field is nil or a pointer, so it is never
      itself the target of what is read. */
  lemma PlainNotTwice(c: Codec, k: Kind, e: GoValue, cell: Cell)
    requires FieldKind(k) && Typed(k, e)
    ensures Decode(c, k, cell) != Some(Ptr(e))
  {
  }
}
