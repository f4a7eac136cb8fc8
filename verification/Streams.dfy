/** The bounded writer and the absorbing reader, walking a layout step by step. */
module Streams {
  import opened Bytes
  import opened Wrappers
  import opened Evidence
  import opened Model
  import opened LittleEndian
  import opened Codec

  /** The value has the type the layout describes. */
  predicate Shaped(s: Schema, v: Value)
    decreases s
  {
    match s
    case Enum(_) => v.Num? && v.n <= 255
    case Flag => v.Num? && v.n <= 1
    case Word(_) => v.Num? && v.n <= U32_MAX
    case Long => v.Num? && v.n <= U64_MAX
    case Signed => v.Int?
    case Ttl => v.Int?
    case Str => v.Txt?
    case Id => v.Txt?
    case Opt(item) => v.Missing? || (v.Given? && Shaped(item, v.value))
    case Lenient(item) => v.Missing? || (v.Given? && Shaped(item, v.value))
    case Rec(fields) => v.Tuple? && |v.vs| == |fields| && forall i :: 0 <= i < |fields| ==> Shaped(fields[i], v.vs[i])
    case Checked(texts) => v.Tuple? && |v.vs| == |texts| && forall i :: 0 <= i < |texts| ==> Shaped(texts[i], v.vs[i])
    case List(_, element) => v.Tuple? && forall i :: 0 <= i < |v.vs| ==> Shaped(element, v.vs[i])
    case Choice(alternatives) =>
      v.Chosen? && v.tag < |alternatives| && v.tag <= 255 && Shaped(alternatives[v.tag], v.choice)
  }

  /** Its strings and lists are within the limits a writer enforces. */
  predicate Storable(limit: nat, s: Schema, v: Value)
    requires Shaped(s, v)
    decreases s
  {
    match s
    case Str => |v.text| <= limit
    case Id => |v.text| <= limit
    case Opt(item) => v.Given? ==> Storable(limit, item, v.value)
    case Lenient(item) => v.Given? ==> Storable(limit, item, v.value)
    case Rec(fields) => forall i :: 0 <= i < |fields| ==> Storable(limit, fields[i], v.vs[i])
    case Checked(texts) => forall i :: 0 <= i < |texts| ==> Storable(limit, texts[i], v.vs[i])
    case List(max, element) =>
      |v.vs| <= max && |v.vs| <= U32_MAX && forall i :: 0 <= i < |v.vs| ==> Storable(limit, element, v.vs[i])
    case Choice(alternatives) => Storable(limit, alternatives[v.tag], v.choice)
    case _ => true
  }

  /** Its identities are valid, its lifetimes in range, and its enumerators known: what a writer does not check. */
  predicate Sane(s: Schema, v: Value)
    decreases s
  {
    match s
    case Enum(max) => v.Num? ==> v.n <= max
    case Word(max) => v.Num? ==> v.n <= max
    case Ttl => v.Int? ==> 0 <= v.i <= MAX_TTL
    case Id => v.Txt? ==> IsIdentity(v.text)
    case Opt(item) => v.Given? ==> Sane(item, v.value)
    case Lenient(item) => v.Given? ==> Sane(item, v.value)
    case Rec(fields) => v.Tuple? ==> forall i :: 0 <= i < |fields| && i < |v.vs| ==> Sane(fields[i], v.vs[i])
    case Checked(texts) =>
      v.Tuple? ==> (forall i :: 0 <= i < |texts| && i < |v.vs| ==> Sane(texts[i], v.vs[i])) && Identities(v.vs)
    case List(_, element) => v.Tuple? ==> forall i :: 0 <= i < |v.vs| ==> Sane(element, v.vs[i])
    case Choice(alternatives) => v.Chosen? && v.tag < |alternatives| ==> Sane(alternatives[v.tag], v.choice)
    case _ => true
  }

  /** What a reader can return is exactly what is typed, within the writer's limits, and sane. */
  lemma {:induction false} FitsIff(limit: nat, s: Schema, v: Value)
    requires limit <= U32_MAX
    ensures Fits(limit, s, v) <==> Shaped(s, v) && Storable(limit, s, v) && Sane(s, v)
    decreases s, 1
  {
    hide IsIdentity, Identities;
    match s {
      case Opt(item) =>
        if v.Given? {
          FitsIff(limit, item, v.value);
        }
      case Lenient(item) =>
        if v.Given? {
          FitsIff(limit, item, v.value);
        }
      case Rec(_) => RecFitsIff(limit, s, v);
      case Checked(_) => CheckedFitsIff(limit, s, v);
      case List(_, _) => ListFitsIff(limit, s, v);
      case Choice(alternatives) =>
        if v.Chosen? && v.tag < |alternatives| {
          FitsIff(limit, alternatives[v.tag], v.choice);
        }
      case _ =>
    }
  }

  lemma {:induction false} RecFitsIff(limit: nat, s: Schema, v: Value)
    requires limit <= U32_MAX && s.Rec?
    ensures Fits(limit, s, v) <==> Shaped(s, v) && Storable(limit, s, v) && Sane(s, v)
    decreases s, 0
  {
    if v.Tuple? && |v.vs| == |s.fields| {
      forall i | 0 <= i < |s.fields| {
        FitsIff(limit, s.fields[i], v.vs[i]);
      }
    }
  }

  lemma {:induction false} CheckedFitsIff(limit: nat, s: Schema, v: Value)
    requires limit <= U32_MAX && s.Checked?
    ensures Fits(limit, s, v) <==> Shaped(s, v) && Storable(limit, s, v) && Sane(s, v)
    decreases s, 0
  {
    hide Identities;
    if v.Tuple? && |v.vs| == |s.texts| {
      forall i | 0 <= i < |s.texts| {
        FitsIff(limit, s.texts[i], v.vs[i]);
      }
    }
  }

  lemma {:induction false} ListFitsIff(limit: nat, s: Schema, v: Value)
    requires limit <= U32_MAX && s.List?
    ensures Fits(limit, s, v) <==> Shaped(s, v) && Storable(limit, s, v) && Sane(s, v)
    decreases s, 0
  {
    if v.Tuple? {
      forall i | 0 <= i < |v.vs| {
        FitsIff(limit, s.element, v.vs[i]);
      }
    }
  }

  // ----- What does not fit is refused -----

  /** Its strings and lists are short enough for their lengths to be written in four bytes. */
  predicate Sized(s: Schema, v: Value)
    requires Shaped(s, v)
    decreases s
  {
    match s
    case Str => |v.text| <= U32_MAX
    case Id => |v.text| <= U32_MAX
    case Opt(item) => v.Given? ==> Sized(item, v.value)
    case Lenient(item) => v.Given? ==> Sized(item, v.value)
    case Rec(fields) => forall i :: 0 <= i < |fields| ==> Sized(fields[i], v.vs[i])
    case Checked(texts) => forall i :: 0 <= i < |texts| ==> Sized(texts[i], v.vs[i])
    case List(_, element) => |v.vs| <= U32_MAX && forall i :: 0 <= i < |v.vs| ==> Sized(element, v.vs[i])
    case Choice(alternatives) => Sized(alternatives[v.tag], v.choice)
    case _ => true
  }

  lemma {:induction false} StorableIsSized(limit: nat, s: Schema, v: Value)
    requires limit <= U32_MAX && Shaped(s, v) && Storable(limit, s, v)
    ensures Sized(s, v)
    decreases s
  {
    match s {
      case Opt(item) =>
        if v.Given? {
          StorableIsSized(limit, item, v.value);
        }
      case Lenient(item) =>
        if v.Given? {
          StorableIsSized(limit, item, v.value);
        }
      case Rec(fields) =>
        forall i | 0 <= i < |fields| {
          StorableIsSized(limit, fields[i], v.vs[i]);
        }
      case Checked(texts) =>
        forall i | 0 <= i < |texts| {
          StorableIsSized(limit, texts[i], v.vs[i]);
        }
      case List(_, element) =>
        forall i | 0 <= i < |v.vs| {
          StorableIsSized(limit, element, v.vs[i]);
        }
      case Choice(alternatives) => StorableIsSized(limit, alternatives[v.tag], v.choice);
      case _ =>
    }
  }

  /** A reader returns exactly what was written if that fits its layout and limits, and refuses everything else. */
  lemma ReadsWhatFits(limit: nat, s: Schema, v: Value, tail: bytes)
    requires Solid(s) && Shaped(s, v) && Sized(s, v)
    ensures if Fits(limit, s, v) then Get(limit, s, Enc(s, v) + tail) == Parse.Ok(v, tail)
            else Get(limit, s, Enc(s, v) + tail).Fail?
  {
    hide Fits, Get, Enc, Solid, Shaped, Sized;
    if Fits(limit, s, v) {
      RoundTrip(limit, s, v, tail);
    } else {
      UnfitFails(limit, s, v, tail);
    }
  }

  lemma {:induction false} UnfitFails(limit: nat, s: Schema, v: Value, tail: bytes)
    requires Solid(s) && Shaped(s, v) && Sized(s, v) && !Fits(limit, s, v)
    ensures Get(limit, s, Enc(s, v) + tail).Fail?
    decreases s, 1, 0
  {
    hide IsIdentity, Identities, GetWord, GetSigned, GetText, TextBytes;
    if IsScalar(s) {
      UnfitScalarFails(limit, s, v, tail);
      return;
    }
    Widths();
    match s {
      case Opt(item) => UnfitOptionFails(limit, s, item, v, tail);
      case Lenient(item) => UnfitOptionFails(limit, s, item, v, tail);
      case Rec(fields) =>
        UnfitFieldsFail(limit, fields, s, v.vs, 0, tail);
      case Checked(texts) =>
        if forall i :: 0 <= i < |texts| ==> Fits(limit, texts[i], v.vs[i]) {
          FieldsRoundTrip(limit, texts, s, v.vs, 0, tail);
          assert v.vs[0..] == v.vs;
        } else {
          UnfitFieldsFail(limit, texts, s, v.vs, 0, tail);
        }
      case List(_, element) =>
        assert Enc(s, v) + tail == ToBytes(|v.vs|, 4) + (EncItems(element, v.vs) + tail);
        WordRoundTrip(|v.vs|, 4, EncItems(element, v.vs) + tail);
        if exists i :: 0 <= i < |v.vs| && !Fits(limit, element, v.vs[i]) {
          UnfitItemsFail(limit, element, v.vs, tail);
        }
      case Choice(alternatives) =>
        var inner := Enc(alternatives[v.tag], v.choice);
        assert Enc(s, v) + tail == ToBytes(v.tag, 1) + (inner + tail);
        WordRoundTrip(v.tag, 1, inner + tail);
        UnfitFails(limit, alternatives[v.tag], v.choice, tail);
    }
  }

  lemma UnfitScalarFails(limit: nat, s: Schema, v: Value, tail: bytes)
    requires IsScalar(s) && Shaped(s, v) && Sized(s, v) && !Fits(limit, s, v)
    ensures Get(limit, s, Enc(s, v) + tail).Fail?
  {
    hide IsIdentity, GetWord, GetSigned, TextBytes;
    Widths();
    match s {
      case Enum(_) => WordRoundTrip(v.n, 1, tail);
      case Word(_) => WordRoundTrip(v.n, 4, tail);
      case Ttl => SignedRoundTrip(v.i, tail);
      case Str => UnfitTextFails(limit, v.text, tail);
      case Id =>
        if |v.text| > limit {
          UnfitTextFails(limit, v.text, tail);
        } else {
          TextRoundTrip(limit, v.text, tail);
        }
      case _ =>
    }
  }

  lemma UnfitTextFails(limit: nat, t: Text, tail: bytes)
    requires |t| > limit && |t| <= U32_MAX
    ensures GetText(limit, TextBytes(t) + tail).Fail?
  {
    Widths();
    assert TextBytes(t) + tail == ToBytes(|t|, 4) + (t + tail);
    WordRoundTrip(|t|, 4, t + tail);
  }

  lemma {:induction false} UnfitOptionFails(limit: nat, s: Schema, item: Schema, v: Value, tail: bytes)
    requires s == Opt(item) || s == Lenient(item)
    requires Solid(item) && Shaped(s, v) && Sized(s, v) && !Fits(limit, s, v)
    ensures Get(limit, s, Enc(s, v) + tail).Fail?
    decreases item, 2, 0
  {
    hide GetWord;
    assert Enc(s, v) + tail == [1] + (Enc(item, v.value) + tail);
    FlagRoundTrip(1, Enc(item, v.value) + tail);
    UnfitFails(limit, item, v.value, tail);
  }

  lemma {:induction false} UnfitFieldsFail(
    limit: nat, fields: seq<Schema>, s: Schema, vs: seq<Value>, i: nat, tail: bytes)
    requires (s.Rec? && s.fields == fields) || (s.Checked? && s.texts == fields)
    requires |vs| == |fields| && i <= |fields|
    requires forall j :: 0 <= j < |fields| ==> Solid(fields[j]) && Shaped(fields[j], vs[j]) && Sized(fields[j], vs[j])
    requires exists j :: i <= j < |fields| && !Fits(limit, fields[j], vs[j])
    ensures GetFields(limit, fields, s, i, EncFields(fields, s, vs, i) + tail).Fail?
    decreases s, 0, |fields| - i
  {
    hide Get, Enc, Fits, Solid, Shaped, Sized;
    var rest := EncFields(fields, s, vs, i + 1);
    assert EncFields(fields, s, vs, i) + tail == Enc(fields[i], vs[i]) + (rest + tail);
    if Fits(limit, fields[i], vs[i]) {
      RoundTrip(limit, fields[i], vs[i], rest + tail);
      UnfitFieldsFail(limit, fields, s, vs, i + 1, tail);
    } else {
      UnfitFails(limit, fields[i], vs[i], rest + tail);
    }
  }

  lemma {:induction false} UnfitItemsFail(limit: nat, element: Schema, vs: seq<Value>, tail: bytes)
    requires Solid(element) && forall i :: 0 <= i < |vs| ==> Shaped(element, vs[i]) && Sized(element, vs[i])
    requires exists i :: 0 <= i < |vs| && !Fits(limit, element, vs[i])
    ensures GetItems(limit, element, |vs|, EncItems(element, vs) + tail).Fail?
    decreases element, 2, |vs|
  {
    hide Get, Enc, Fits, Solid, Shaped, Sized;
    var rest := EncItems(element, vs[1..]);
    assert EncItems(element, vs) + tail == Enc(element, vs[0]) + (rest + tail);
    if Fits(limit, element, vs[0]) {
      RoundTrip(limit, element, vs[0], rest + tail);
      var i :| 0 <= i < |vs| && !Fits(limit, element, vs[i]);
      assert vs[1..][i - 1] == vs[i];
      UnfitItemsFail(limit, element, vs[1..], tail);
    } else {
      UnfitFails(limit, element, vs[0], rest + tail);
    }
  }

  // ----- How far a writer looks at its capacity -----

  /** Where in its encoding the last bytes end that a writer checks against its capacity; 0 when it checks none. */
  function CheckedEnd(s: Schema, v: Value): nat
    requires Shaped(s, v)
    decreases s, 1, 0
  {
    match s
    case Enum(_) => 0
    case Flag => 0
    case Word(_) => 4
    case Str => 4 + |v.text|
    case Id => 4 + |v.text|
    case Opt(item) => if v.Given? then After1(CheckedEnd(item, v.value)) else 0
    case Lenient(item) => if v.Given? then After1(CheckedEnd(item, v.value)) else 0
    case Rec(fields) => CheckedEndOfFields(fields, s, v.vs, 0)
    case Checked(texts) => CheckedEndOfFields(texts, s, v.vs, 0)
    case List(_, element) => 4 + CheckedEndOfItems(element, v.vs)
    case Choice(alternatives) => After1(CheckedEnd(alternatives[v.tag], v.choice))
    case _ => 8
  }

  /** Behind one unchecked byte. */
  function After1(end: nat): nat { if end == 0 then 0 else 1 + end }

  function CheckedEndOfFields(fields: seq<Schema>, s: Schema, vs: seq<Value>, i: nat): nat
    requires (s.Rec? && s.fields == fields) || (s.Checked? && s.texts == fields)
    requires |vs| == |fields| && forall j :: 0 <= j < |fields| ==> Shaped(fields[j], vs[j])
    decreases s, 0, |fields| - i
  {
    if i >= |fields| then 0
    else
      var rest := CheckedEndOfFields(fields, s, vs, i + 1);
      if rest == 0 then CheckedEnd(fields[i], vs[i]) else |Enc(fields[i], vs[i])| + rest
  }

  function CheckedEndOfItems(element: Schema, vs: seq<Value>): nat
    requires forall i :: 0 <= i < |vs| ==> Shaped(element, vs[i])
    decreases element, 2, |vs|
  {
    if vs == [] then 0
    else
      var rest := CheckedEndOfItems(element, vs[1..]);
      if rest == 0 then CheckedEnd(element, vs[0]) else |Enc(element, vs[0])| + rest
  }

  /** Bytes that end there can be appended, or none of them is checked. */
  predicate HasRoom(used: nat, end: nat, capacity: nat) {
    end == 0 || used + end <= capacity
  }

  lemma {:induction false} CheckedWithin(s: Schema, v: Value)
    requires Shaped(s, v)
    ensures CheckedEnd(s, v) <= |Enc(s, v)|
    decreases s, 1, 0
  {
    match s {
      case Opt(item) =>
        if v.Given? {
          CheckedWithin(item, v.value);
        }
      case Lenient(item) =>
        if v.Given? {
          CheckedWithin(item, v.value);
        }
      case Rec(fields) => FieldsCheckedWithin(fields, s, v.vs, 0);
      case Checked(texts) => FieldsCheckedWithin(texts, s, v.vs, 0);
      case List(_, element) => ItemsCheckedWithin(element, v.vs);
      case Choice(alternatives) => CheckedWithin(alternatives[v.tag], v.choice);
      case _ =>
    }
  }

  lemma {:induction false} FieldsCheckedWithin(fields: seq<Schema>, s: Schema, vs: seq<Value>, i: nat)
    requires (s.Rec? && s.fields == fields) || (s.Checked? && s.texts == fields)
    requires |vs| == |fields| && forall j :: 0 <= j < |fields| ==> Shaped(fields[j], vs[j])
    ensures CheckedEndOfFields(fields, s, vs, i) <= |EncFields(fields, s, vs, i)|
    decreases s, 0, |fields| - i
  {
    hide Shaped, Enc, CheckedEnd;
    if i < |fields| {
      CheckedWithin(fields[i], vs[i]);
      FieldsCheckedWithin(fields, s, vs, i + 1);
    }
  }

  lemma {:induction false} ItemsCheckedWithin(element: Schema, vs: seq<Value>)
    requires forall i :: 0 <= i < |vs| ==> Shaped(element, vs[i])
    ensures CheckedEndOfItems(element, vs) <= |EncItems(element, vs)|
    decreases element, 2, |vs|
  {
    hide Shaped, Enc, CheckedEnd;
    if vs != [] {
      CheckedWithin(element, vs[0]);
      ItemsCheckedWithin(element, vs[1..]);
    }
  }

  class ByteWriter {
    const limit: nat      // the longest string
    const capacity: nat   // the most bytes in all
    var buffer: bytes
    var ok: bool
    var error: Option<CodecError>

    constructor (limit: nat, capacity: nat)
      ensures this.limit == limit && this.capacity == capacity
      ensures buffer == [] && ok && error == None
    {
      this.limit := limit;
      this.capacity := capacity;
      buffer := [];
      ok := true;
      error := None;
    }

    /** Keeps the first error. */
    method Fail(e: CodecError)
      modifies `ok, `error
      ensures !ok && error == if old(ok) then Some(e) else old(error)
    {
      if ok {
        ok, error := false, Some(e);
      }
    }

    /** A single byte is appended without looking at the capacity. */
    method U8(n: nat)
      requires n <= 255
      modifies `buffer
      ensures buffer == old(buffer) + ToBytes(n, 1)
    {
      Widths();
      assert ToBytes(n, 1) == [LowByte(n)];
      buffer := buffer + [LowByte(n)];
    }

    method Raw(data: bytes)
      modifies this
      ensures ok <==> old(ok) && |data| <= capacity && |old(buffer)| <= capacity - |data|
      ensures ok ==> buffer == old(buffer) + data
      ensures !old(ok) ==> error == old(error)
    {
      if |data| > capacity || |buffer| > capacity - |data| {
        Fail(LengthTooLarge);
        return;
      }
      buffer := buffer + data;
    }

    method String(text: Text)
      requires limit <= U32_MAX
      modifies this
      ensures ok <==> old(ok) && |text| <= limit && |old(buffer)| + 4 + |text| <= capacity
      ensures ok ==> buffer == old(buffer) + TextBytes(text)
      ensures !old(ok) ==> error == old(error)
    {
      if |text| > limit {
        Fail(LengthTooLarge);
        return;
      }
      Raw(ToBytes(|text|, 4));
      Raw(text);
      assert ok ==> buffer == old(buffer) + ToBytes(|text|, 4) + text;
      assert old(buffer) + ToBytes(|text|, 4) + text == old(buffer) + TextBytes(text);
    }

    method Count(n: nat, max: nat)
      modifies this
      ensures ok <==> old(ok) && n <= max && n <= U32_MAX && |old(buffer)| + 4 <= capacity
      ensures ok ==> buffer == old(buffer) + ToBytes(n, 4)
      ensures !old(ok) ==> error == old(error)
    {
      if n > max || n > U32_MAX {
        Fail(CountTooLarge);
        return;
      }
      Raw(ToBytes(n, 4));
    }

    /**
     * Appends the encoding of a value. While the writer is fine it holds exactly the encodings written; it goes bad
     * exactly on a string or list over its limit, or when the last run of checked bytes would end beyond its capacity,
     * and then stays bad.
     */
    method Write(s: Schema, v: Value)
      requires limit <= U32_MAX && Shaped(s, v)
      modifies this
      ensures ok <==> old(ok) && Storable(limit, s, v) && HasRoom(|old(buffer)|, CheckedEnd(s, v), capacity)
      ensures ok ==> buffer == old(buffer) + Enc(s, v)
      ensures !old(ok) ==> error == old(error)
      decreases s, 1
    {
      hide TextBytes, TwosComplement, IsIdentity;
      if IsScalar(s) {
        WriteScalar(s, v);
        return;
      }
      match s {
        case Opt(item) => WriteOptional(s, item, v);
        case Lenient(item) => WriteOptional(s, item, v);
        case Rec(fields) => WriteFields(fields, s, v.vs);
        case Checked(texts) => WriteFields(texts, s, v.vs);
        case List(max, element) =>
          Count(|v.vs|, max);
          WriteItems(element, v.vs);
          ghost var n, items := ToBytes(|v.vs|, 4), EncItems(element, v.vs);
          Regroup(old(buffer), n, items);
        case Choice(alternatives) =>
          U8(v.tag);
          Write(alternatives[v.tag], v.choice);
          ghost var n, inner := ToBytes(v.tag, 1), Enc(alternatives[v.tag], v.choice);
          Regroup(old(buffer), n, inner);
      }
    }

    method WriteScalar(s: Schema, v: Value)
      requires limit <= U32_MAX && Shaped(s, v) && IsScalar(s)
      modifies this
      ensures ok <==> old(ok) && Storable(limit, s, v) && HasRoom(|old(buffer)|, CheckedEnd(s, v), capacity)
      ensures ok ==> buffer == old(buffer) + Enc(s, v)
      ensures !old(ok) ==> error == old(error)
    {
      hide TextBytes, TwosComplement, IsIdentity;
      match s {
        case Enum(_) => U8(v.n);
        case Flag => U8(v.n);
        case Word(_) => Raw(ToBytes(v.n, 4));
        case Long => Raw(ToBytes(v.n, 8));
        case Signed => Raw(ToBytes(TwosComplement(v.i), 8));
        case Ttl => Raw(ToBytes(TwosComplement(v.i), 8));
        case Str => String(v.text);
        case Id => String(v.text);
      }
    }

    method WriteOptional(s: Schema, item: Schema, v: Value)
      requires limit <= U32_MAX && (s == Opt(item) || s == Lenient(item)) && Shaped(s, v)
      modifies this
      ensures ok <==> old(ok) && Storable(limit, s, v) && HasRoom(|old(buffer)|, CheckedEnd(s, v), capacity)
      ensures ok ==> buffer == old(buffer) + Enc(s, v)
      ensures !old(ok) ==> error == old(error)
      decreases item, 2
    {
      Widths();
      assert ToBytes(0, 1) == [0] && ToBytes(1, 1) == [1];
      if v.Missing? {
        U8(0);
      } else {
        U8(1);
        Write(item, v.value);
        Regroup(old(buffer), [1], Enc(item, v.value));
      }
    }

    method WriteFields(fields: seq<Schema>, s: Schema, vs: seq<Value>)
      requires limit <= U32_MAX && ((s.Rec? && s.fields == fields) || (s.Checked? && s.texts == fields))
      requires |vs| == |fields| && forall i :: 0 <= i < |fields| ==> Shaped(fields[i], vs[i])
      modifies this
      ensures ok <==>
                && old(ok) && (forall i :: 0 <= i < |fields| ==> Storable(limit, fields[i], vs[i]))
                && HasRoom(|old(buffer)|, CheckedEndOfFields(fields, s, vs, 0), capacity)
      ensures ok ==> buffer == old(buffer) + EncFields(fields, s, vs, 0)
      ensures !old(ok) ==> error == old(error)
      decreases s, 0
    {
      hide Enc, Storable, Shaped, CheckedEnd;
      for i := 0 to |fields|
        invariant ok ==> old(ok) && forall j :: 0 <= j < i ==> Storable(limit, fields[j], vs[j])
        invariant ok ==> buffer + EncFields(fields, s, vs, i) == old(buffer) + EncFields(fields, s, vs, 0)
        invariant old(ok) && (forall j :: 0 <= j < |fields| ==> Storable(limit, fields[j], vs[j]))
                  && HasRoom(|old(buffer)|, CheckedEndOfFields(fields, s, vs, 0), capacity) ==>
                    ok
        invariant ok ==>
                    (HasRoom(|old(buffer)|, CheckedEndOfFields(fields, s, vs, 0), capacity) <==>
                     HasRoom(|buffer|, CheckedEndOfFields(fields, s, vs, i), capacity))
        invariant !old(ok) ==> !ok && error == old(error)
      {
        ghost var before := buffer;
        Regroup(before, Enc(fields[i], vs[i]), EncFields(fields, s, vs, i + 1));
        CheckedWithin(fields[i], vs[i]);
        Write(fields[i], vs[i]);
      }
    }

    method WriteItems(element: Schema, vs: seq<Value>)
      requires limit <= U32_MAX && forall i :: 0 <= i < |vs| ==> Shaped(element, vs[i])
      modifies this
      ensures ok <==>
                && old(ok) && (forall i :: 0 <= i < |vs| ==> Storable(limit, element, vs[i]))
                && HasRoom(|old(buffer)|, CheckedEndOfItems(element, vs), capacity)
      ensures ok ==> buffer == old(buffer) + EncItems(element, vs)
      ensures !old(ok) ==> error == old(error)
      decreases element, 2
    {
      hide Enc, Storable, Shaped, CheckedEnd;
      assert vs[0..] == vs;
      for i := 0 to |vs|
        invariant ok ==> old(ok) && forall j :: 0 <= j < i ==> Storable(limit, element, vs[j])
        invariant ok ==> buffer + EncItems(element, vs[i..]) == old(buffer) + EncItems(element, vs)
        invariant old(ok) && (forall j :: 0 <= j < |vs| ==> Storable(limit, element, vs[j]))
                  && HasRoom(|old(buffer)|, CheckedEndOfItems(element, vs), capacity) ==>
                    ok
        invariant ok ==>
                    (HasRoom(|old(buffer)|, CheckedEndOfItems(element, vs), capacity) <==>
                     HasRoom(|buffer|, CheckedEndOfItems(element, vs[i..]), capacity))
        invariant !old(ok) ==> !ok && error == old(error)
      {
        ghost var before := buffer;
        assert vs[i..][0] == vs[i] && vs[i..][1..] == vs[i + 1..];
        Regroup(before, Enc(element, vs[i]), EncItems(element, vs[i + 1..]));
        CheckedWithin(element, vs[i]);
        Write(element, vs[i]);
      }
      assert vs[|vs|..] == [];
    }
  }

  class ByteReader {
    const data: bytes
    const limit: nat
    var offset: nat
    var ok: bool
    var error: Option<CodecError>

    ghost predicate Valid()
      reads this
    {
      offset <= |data| && (ok <==> error == None)
    }

    ghost function Unread(): bytes
      requires Valid()
      reads this
    {
      data[offset..]
    }

    constructor (data: bytes, limit: nat)
      ensures this.data == data && this.limit == limit
      ensures Valid() && ok && Unread() == data
    {
      this.data := data;
      this.limit := limit;
      offset := 0;
      ok := true;
      error := None;
    }

    method Fail(e: CodecError)
      requires Valid()
      modifies `ok, `error
      ensures Valid() && !ok && error == if old(ok) then Some(e) else old(error)
    {
      if ok {
        ok, error := false, Some(e);
      }
    }

    method Need(n: nat) returns (enough: bool)
      requires Valid()
      modifies `ok, `error
      ensures Valid()
      ensures enough <==> old(ok) && n <= |old(Unread())|
      ensures enough ==> ok
      ensures !enough ==> !ok && error == if old(ok) then Some(Truncated) else old(error)
    {
      if !ok {
        return false;
      }
      if n > |data| - offset {
        Fail(Truncated);
        return false;
      }
      enough := true;
    }

    /** The state agrees with the outcome of a parse of what was unread before. */
    twostate predicate After<T>(p: Parse<T>, v: T)
      reads this
    {
      && Valid()
      && (!old(ok) ==> !ok && error == old(error))
      && (old(ok) ==>
            match p
            case Ok(w, rest) => ok && v == w && Unread() == rest
            case Fail(e) => error == Some(e))
    }

    method Scalar(width: nat) returns (n: nat)
      requires Valid()
      modifies `offset, `ok, `error
      ensures After(GetWord(old(Unread()), width), n)
      ensures n < Pow256(width)
    {
      var enough := Need(width);
      if !enough {
        return 0;
      }
      Bounded(data[offset..offset + width]);
      assert data[offset..][..width] == data[offset..offset + width];
      assert data[offset..][width..] == data[offset + width..];
      n := FromBytes(data[offset..offset + width]);
      offset := offset + width;
    }

    method String() returns (text: Text)
      requires Valid()
      modifies `offset, `ok, `error
      ensures After(GetText(limit, old(Unread())), text)
    {
      var length := Scalar(4);
      if !ok {
        return [];
      }
      if length > limit {
        Fail(LengthTooLarge);
        return [];
      }
      var enough := Need(length);
      if !enough {
        return [];
      }
      assert data[offset..][..length] == data[offset..offset + length];
      assert data[offset..][length..] == data[offset + length..];
      text := data[offset..offset + length];
      offset := offset + length;
    }

    method Bounded8(width: nat, max: nat) returns (v: Value)
      requires Valid()
      modifies `offset, `ok, `error
      ensures After(GetBounded(old(Unread()), width, max), v)
    {
      var n := Scalar(width);
      if !ok || n > max {
        Fail(InvalidEnum);
        return Num(0);
      }
      v := Num(n);
    }

    method SignedWord() returns (i: i64)
      requires Valid()
      modifies `offset, `ok, `error
      ensures After(GetSigned(old(Unread())), i)
    {
      Widths();
      var n := Scalar(8);
      i := FromTwosComplement(n);
    }

    method ReadScalar(s: Schema) returns (v: Value)
      requires Valid() && IsScalar(s)
      modifies `offset, `ok, `error
      ensures After(Get(limit, s, old(Unread())), v)
    {
      hide GetWord, GetText, GetSigned, GetBounded, IsIdentity;
      match s {
        case Enum(max) => v := Bounded8(1, max);
        case Flag =>
          var n := Scalar(1);
          if ok && n > 1 {
            Fail(InvalidValue);
          }
          v := Num(n);
        case Word(max) => v := Bounded8(4, max);
        case Long =>
          var n := Scalar(8);
          v := Num(n);
        case Signed =>
          var i := SignedWord();
          v := Int(i);
        case Ttl =>
          var i := SignedWord();
          if i < 0 || i > MAX_TTL {
            Fail(InvalidValue);
          }
          v := Int(i);
        case Str =>
          var t := String();
          v := Txt(t);
        case Id =>
          var t := String();
          if ok && !IsIdentity(t) {
            Fail(InvalidIdentity);
          }
          v := Txt(t);
      }
    }

    /** Reads one value: what the parse of the unread bytes yields, or its error, which sticks. */
    method Read(s: Schema) returns (v: Value)
      requires Valid()
      modifies `offset, `ok, `error
      ensures After(Get(limit, s, old(Unread())), v)
      decreases s, 1
    {
      hide GetWord, IsIdentity, Identities;
      if IsScalar(s) {
        v := ReadScalar(s);
        return;
      }
      match s {
        case Opt(item) => v := ReadOptional(s, item);
        case Lenient(item) => v := ReadOptional(s, item);
        case Rec(fields) =>
          var vs := ReadFields(fields, s);
          v := Tuple(vs);
        case Checked(texts) =>
          var vs := ReadFields(texts, s);
          if ok && !Identities(vs) {
            Fail(InvalidIdentity);
          }
          v := Tuple(vs);
        case List(max, element) => v := ReadList(max, element);
        case Choice(alternatives) =>
          var tag := Scalar(1);
          if !ok {
            return Missing;
          }
          if tag >= |alternatives| {
            Fail(InvalidEnum);
            return Missing;
          }
          var choice := Read(alternatives[tag]);
          v := Chosen(tag, choice);
      }
    }

    method ReadOptional(s: Schema, item: Schema) returns (v: Value)
      requires Valid() && (s == Opt(item) || s == Lenient(item))
      modifies `offset, `ok, `error
      ensures After(Get(limit, s, old(Unread())), v)
      decreases item, 2
    {
      hide GetWord;
      var flag := Scalar(1);
      if !ok || flag == 0 {
        return Missing;
      }
      if flag != 1 {
        if s.Opt? {
          Fail(InvalidValue);
        }
        return Missing;
      }
      var value := Read(item);
      v := Given(value);
    }

    method ReadFields(fields: seq<Schema>, s: Schema) returns (vs: seq<Value>)
      requires Valid() && ((s.Rec? && s.fields == fields) || (s.Checked? && s.texts == fields))
      modifies `offset, `ok, `error
      ensures After(GetFields(limit, fields, s, 0, old(Unread())), vs)
      decreases s, 0
    {
      hide Get;
      vs := [];
      ghost var start := Unread();
      ContinuesFirst(GetFields(limit, fields, s, 0, start), error);
      for i := 0 to |fields|
        invariant Valid()
        invariant !old(ok) ==> !ok && error == old(error)
        invariant old(ok) ==> Continues(GetFields(limit, fields, s, 0, start), vs, ok, error,
                                        GetFields(limit, fields, s, i, Unread()))
      {
        ghost var whole := GetFields(limit, fields, s, 0, start);
        var v := Read(fields[i]);
        if old(ok) && ok {
          ContinuesNext(whole, vs, error, v, GetFields(limit, fields, s, i + 1, Unread()));
        }
        vs := vs + [v];
      }
      assert vs + [] == vs;
    }

    method ReadList(max: nat, element: Schema) returns (v: Value)
      requires Valid()
      modifies `offset, `ok, `error
      ensures After(Get(limit, List(max, element), old(Unread())), v)
      decreases element, 3
    {
      hide GetWord;
      var n := Scalar(4);
      if !ok {
        return Missing;
      }
      if n > max || n > |data| - offset {
        Fail(CountTooLarge);
        return Missing;
      }
      var vs := ReadItems(element, n);
      v := Tuple(vs);
    }

    method ReadItems(element: Schema, n: nat) returns (vs: seq<Value>)
      requires Valid() && ok
      modifies `offset, `ok, `error
      ensures After(GetItems(limit, element, n, old(Unread())), vs)
      decreases element, 2
    {
      hide Get;
      vs := [];
      ghost var start := Unread();
      ContinuesFirst(GetItems(limit, element, n, start), error);
      for i := 0 to n
        invariant Valid()
        invariant Continues(GetItems(limit, element, n, start), vs, ok, error, GetItems(limit, element, n - i, Unread()))
      {
        var v := Read(element);
        if !ok {
          return;
        }
        ContinuesNext(GetItems(limit, element, n, start), vs, error, v,
                      GetItems(limit, element, n - i - 1, Unread()));
        vs := vs + [v];
      }
      assert vs + [] == vs;
    }
  }

  /** After the values `done`, what is left of a parse is `rest`; or the parse has failed. */
  ghost predicate Continues(
    whole: Parse<seq<Value>>, done: seq<Value>, ok: bool, error: Option<CodecError>, rest: Parse<seq<Value>>)
  {
    if ok then
      match rest
      case Ok(vs, bs) => whole == Ok(done + vs, bs)
      case Fail(e) => whole == Fail(e)
    else whole.Fail? && error == Some(whole.error)
  }

  lemma ContinuesFirst(whole: Parse<seq<Value>>, error: Option<CodecError>)
    ensures Continues(whole, [], true, error, whole)
  {
    if whole.Ok? {
      assert [] + whole.value == whole.value;
    }
  }

  lemma ContinuesNext(
    whole: Parse<seq<Value>>, done: seq<Value>, error: Option<CodecError>, v: Value, next: Parse<seq<Value>>)
    requires Continues(whole, done, true, error,
                       if next.Ok? then Parse.Ok([v] + next.value, next.rest) else next)
    ensures Continues(whole, done + [v], true, error, next)
  {
    if next.Ok? {
      assert done + ([v] + next.value) == (done + [v]) + next.value;
    }
  }
}
