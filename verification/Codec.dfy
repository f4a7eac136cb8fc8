/**
 * The canonical encoding: what a bounded writer appends and a bounded reader accepts, for every layout made of
 * fixed-width integers, checked strings, strict optional flags, tagged alternatives and counted lists.
 */
module Codec {
  import opened Bytes
  import opened Evidence
  import opened Model
  import opened LittleEndian

  datatype CodecError = Truncated | LengthTooLarge | CountTooLarge | InvalidEnum | InvalidIdentity | InvalidValue

  const U32_MAX: nat := 0xFFFF_FFFF
  const MAX_TTL: int := 86_400_000

  /** How a value is laid out in bytes. */
  datatype Schema =
    | Enum(max: nat)                  // one byte, at most `max`
    | Flag                            // one byte, 0 or 1
    | Word(max: nat)                  // four bytes, at most `max`
    | Long                            // eight bytes
    | Signed                          // eight bytes, two's complement
    | Ttl                             // as Signed, between nothing and a day
    | Str                             // a length and that many bytes
    | Id                              // as Str, a valid identity
    | Opt(item: Schema)               // a strict flag, then the item if it is set
    | Lenient(item: Schema)           // as Opt, but any flag other than 1 reads as unset
    | Rec(fields: seq<Schema>)
    | Checked(texts: seq<Schema>)     // as Rec; its strings are checked as identities after all of it was read
    | List(maxCount: nat, element: Schema)
    | Choice(alternatives: seq<Schema>)

  datatype Value =
    | Num(n: nat)
    | Int(i: i64)
    | Txt(text: Text)
    | Missing
    | Given(value: Value)
    | Tuple(vs: seq<Value>)
    | Chosen(tag: nat, choice: Value)

  datatype Parse<T> = Ok(value: T, rest: bytes) | Fail(error: CodecError)

  // ----- Which values a layout holds -----

  predicate Identities(vs: seq<Value>) {
    forall i :: 0 <= i < |vs| && vs[i].Txt? ==> IsIdentity(vs[i].text)
  }

  /** The values a reader with this string limit can return. */
  predicate Fits(limit: nat, s: Schema, v: Value)
    decreases s
  {
    match s
    case Enum(max) => v.Num? && v.n <= max && v.n <= 255
    case Flag => v.Num? && v.n <= 1
    case Word(max) => v.Num? && v.n <= max && v.n <= U32_MAX
    case Long => v.Num? && v.n <= U64_MAX
    case Signed => v.Int?
    case Ttl => v.Int? && 0 <= v.i <= MAX_TTL
    case Str => v.Txt? && |v.text| <= limit && |v.text| <= U32_MAX
    case Id => v.Txt? && |v.text| <= limit && |v.text| <= U32_MAX && IsIdentity(v.text)
    case Opt(item) => v.Missing? || (v.Given? && Fits(limit, item, v.value))
    case Lenient(item) => v.Missing? || (v.Given? && Fits(limit, item, v.value))
    case Rec(fields) => v.Tuple? && |v.vs| == |fields| && forall i :: 0 <= i < |fields| ==> Fits(limit, fields[i], v.vs[i])
    case Checked(texts) =>
      v.Tuple? && |v.vs| == |texts| && (forall i :: 0 <= i < |texts| ==> Fits(limit, texts[i], v.vs[i]))
      && Identities(v.vs)
    case List(max, element) =>
      v.Tuple? && |v.vs| <= max && |v.vs| <= U32_MAX && forall i :: 0 <= i < |v.vs| ==> Fits(limit, element, v.vs[i])
    case Choice(alternatives) =>
      v.Chosen? && v.tag < |alternatives| && v.tag <= 255 && Fits(limit, alternatives[v.tag], v.choice)
  }

  // ----- Writing -----

  function TwosComplement(i: i64): (n: u64) {
    if i < 0 then i + 0x1_0000_0000_0000_0000 else i
  }

  function FromTwosComplement(n: u64): (i: i64) {
    if n >= 0x8000_0000_0000_0000 then n - 0x1_0000_0000_0000_0000 else n
  }

  function TextBytes(t: Text): bytes { ToBytes(|t|, 4) + t }

  function Enc(s: Schema, v: Value): bytes
    decreases s, 1, 0
  {
    match s
    case Enum(_) => if v.Num? then ToBytes(v.n, 1) else []
    case Flag => if v.Num? then ToBytes(v.n, 1) else []
    case Word(_) => if v.Num? then ToBytes(v.n, 4) else []
    case Long => if v.Num? then ToBytes(v.n, 8) else []
    case Signed => if v.Int? then ToBytes(TwosComplement(v.i), 8) else []
    case Ttl => if v.Int? then ToBytes(TwosComplement(v.i), 8) else []
    case Str => if v.Txt? then TextBytes(v.text) else []
    case Id => if v.Txt? then TextBytes(v.text) else []
    case Opt(item) => if v.Given? then [1] + Enc(item, v.value) else [0]
    case Lenient(item) => if v.Given? then [1] + Enc(item, v.value) else [0]
    case Rec(fields) => if v.Tuple? then EncFields(fields, s, v.vs, 0) else []
    case Checked(texts) => if v.Tuple? then EncFields(texts, s, v.vs, 0) else []
    case List(_, element) => if v.Tuple? then ToBytes(|v.vs|, 4) + EncItems(element, v.vs) else []
    case Choice(alternatives) =>
      if v.Chosen? && v.tag < |alternatives| then ToBytes(v.tag, 1) + Enc(alternatives[v.tag], v.choice) else []
  }

  /** The encodings of the fields from `i` on; `s` is the layout they belong to. */
  function EncFields(fields: seq<Schema>, s: Schema, vs: seq<Value>, i: nat): bytes
    requires (s.Rec? && s.fields == fields) || (s.Checked? && s.texts == fields)
    decreases s, 0, |fields| - i
  {
    if i >= |fields| || i >= |vs| then [] else Enc(fields[i], vs[i]) + EncFields(fields, s, vs, i + 1)
  }

  function EncItems(element: Schema, vs: seq<Value>): bytes
    decreases element, 2, |vs|
  {
    if vs == [] then [] else Enc(element, vs[0]) + EncItems(element, vs[1..])
  }

  // ----- Reading -----

  function GetWord(bs: bytes, width: nat): Parse<nat> {
    if |bs| < width then Fail(Truncated) else Ok(FromBytes(bs[..width]), bs[width..])
  }

  function GetText(limit: nat, bs: bytes): Parse<Text> {
    match GetWord(bs, 4)
    case Fail(e) => Fail(e)
    case Ok(n, rest) =>
      if n > limit then Fail(LengthTooLarge)
      else if |rest| < n then Fail(Truncated)
      else Ok(rest[..n], rest[n..])
  }

  function GetSigned(bs: bytes): Parse<i64> {
    match GetWord(bs, 8)
    case Fail(e) => Fail(e)
    case Ok(n, rest) =>
      Bounded(bs[..8]);
      Widths();
      Ok(FromTwosComplement(n), rest)
  }

  function Get(limit: nat, s: Schema, bs: bytes): Parse<Value>
    decreases s, 1, 0
  {
    match s
    case Enum(max) => GetBounded(bs, 1, max)
    case Flag =>
      (match GetWord(bs, 1)
       case Fail(e) => Fail(e)
       case Ok(n, rest) => if n > 1 then Fail(InvalidValue) else Ok(Num(n), rest))
    case Word(max) => GetBounded(bs, 4, max)
    case Long =>
      (match GetWord(bs, 8)
       case Fail(e) => Fail(e)
       case Ok(n, rest) => Ok(Num(n), rest))
    case Signed =>
      (match GetSigned(bs)
       case Fail(e) => Fail(e)
       case Ok(i, rest) => Ok(Int(i), rest))
    case Ttl =>
      (match GetSigned(bs)
       case Fail(e) => Fail(e)
       case Ok(i, rest) => if 0 <= i <= MAX_TTL then Ok(Int(i), rest) else Fail(InvalidValue))
    case Str =>
      (match GetText(limit, bs)
       case Fail(e) => Fail(e)
       case Ok(t, rest) => Ok(Txt(t), rest))
    case Id =>
      (match GetText(limit, bs)
       case Fail(e) => Fail(e)
       case Ok(t, rest) => if IsIdentity(t) then Ok(Txt(t), rest) else Fail(InvalidIdentity))
    case Opt(item) =>
      (match GetWord(bs, 1)
       case Fail(e) => Fail(e)
       case Ok(n, rest) =>
         if n == 0 then Ok(Missing, rest)
         else if n != 1 then Fail(InvalidValue)
         else GetGiven(Get(limit, item, rest)))
    case Lenient(item) =>
      (match GetWord(bs, 1)
       case Fail(e) => Fail(e)
       case Ok(n, rest) => if n != 1 then Ok(Missing, rest) else GetGiven(Get(limit, item, rest)))
    case Rec(fields) =>
      (match GetFields(limit, fields, s, 0, bs)
       case Fail(e) => Fail(e)
       case Ok(vs, rest) => Ok(Tuple(vs), rest))
    case Checked(texts) =>
      (match GetFields(limit, texts, s, 0, bs)
       case Fail(e) => Fail(e)
       case Ok(vs, rest) => if Identities(vs) then Ok(Tuple(vs), rest) else Fail(InvalidIdentity))
    case List(max, element) =>
      (match GetWord(bs, 4)
       case Fail(e) => Fail(e)
       case Ok(n, rest) =>
         if n > max || n > |rest| then Fail(CountTooLarge)
         else
           match GetItems(limit, element, n, rest)
           case Fail(e) => Fail(e)
           case Ok(vs, after) => Ok(Tuple(vs), after))
    case Choice(alternatives) =>
      (match GetWord(bs, 1)
       case Fail(e) => Fail(e)
       case Ok(n, rest) =>
         if n >= |alternatives| then Fail(InvalidEnum)
         else
           match Get(limit, alternatives[n], rest)
           case Fail(e) => Fail(e)
           case Ok(v, after) => Ok(Chosen(n, v), after))
  }

  function GetBounded(bs: bytes, width: nat, max: nat): Parse<Value> {
    match GetWord(bs, width)
    case Fail(e) => Fail(e)
    case Ok(n, rest) => if n > max then Fail(InvalidEnum) else Ok(Num(n), rest)
  }

  function GetGiven(p: Parse<Value>): Parse<Value> {
    match p
    case Fail(e) => Fail(e)
    case Ok(v, rest) => Ok(Given(v), rest)
  }

  function GetFields(limit: nat, fields: seq<Schema>, s: Schema, i: nat, bs: bytes): Parse<seq<Value>>
    requires (s.Rec? && s.fields == fields) || (s.Checked? && s.texts == fields)
    decreases s, 0, |fields| - i
  {
    if i >= |fields| then Ok([], bs)
    else
      match Get(limit, fields[i], bs)
      case Fail(e) => Fail(e)
      case Ok(v, rest) =>
        match GetFields(limit, fields, s, i + 1, rest)
        case Fail(e) => Fail(e)
        case Ok(vs, after) => Ok([v] + vs, after)
  }

  function GetItems(limit: nat, element: Schema, n: nat, bs: bytes): Parse<seq<Value>>
    decreases element, 2, n
  {
    if n == 0 then Ok([], bs)
    else
      match Get(limit, element, bs)
      case Fail(e) => Fail(e)
      case Ok(v, rest) =>
        match GetItems(limit, element, n - 1, rest)
        case Fail(e) => Fail(e)
        case Ok(vs, after) => Ok([v] + vs, after)
  }

  // ----- Layouts whose lists cannot hold empty elements -----

  /** Every encoding takes at least one byte. */
  predicate Wide(s: Schema)
    decreases s
  {
    match s
    case Rec(fields) => fields != [] && Wide(fields[0])
    case Checked(texts) => texts != [] && Wide(texts[0])
    case _ => true
  }

  predicate Solid(s: Schema)
    decreases s
  {
    match s
    case Opt(item) => Solid(item)
    case Lenient(item) => Solid(item)
    case Rec(fields) => forall i :: 0 <= i < |fields| ==> Solid(fields[i])
    case Checked(texts) => forall i :: 0 <= i < |texts| ==> Solid(texts[i])
    case List(_, element) => Wide(element) && Solid(element)
    case Choice(alternatives) => forall i :: 0 <= i < |alternatives| ==> Solid(alternatives[i])
    case _ => true
  }

  /** No lenient flag anywhere: every accepted byte means something. */
  predicate Strict(s: Schema)
    decreases s
  {
    match s
    case Lenient(_) => false
    case Opt(item) => Strict(item)
    case Rec(fields) => forall i :: 0 <= i < |fields| ==> Strict(fields[i])
    case Checked(texts) => forall i :: 0 <= i < |texts| ==> Strict(texts[i])
    case List(_, element) => Strict(element)
    case Choice(alternatives) => forall i :: 0 <= i < |alternatives| ==> Strict(alternatives[i])
    case _ => true
  }

  lemma {:induction false} WideIsNotEmpty(limit: nat, s: Schema, v: Value)
    requires Wide(s) && Fits(limit, s, v)
    ensures |Enc(s, v)| >= 1
    decreases s
  {
    match s {
      case Rec(fields) => WideIsNotEmpty(limit, fields[0], v.vs[0]);
      case Checked(texts) => WideIsNotEmpty(limit, texts[0], v.vs[0]);
      case _ =>
    }
  }

  lemma {:induction false} ItemsAreWide(limit: nat, element: Schema, vs: seq<Value>)
    requires Wide(element) && forall i :: 0 <= i < |vs| ==> Fits(limit, element, vs[i])
    ensures |EncItems(element, vs)| >= |vs|
    decreases |vs|
  {
    if vs != [] {
      WideIsNotEmpty(limit, element, vs[0]);
      ItemsAreWide(limit, element, vs[1..]);
    }
  }

  // ----- Decoding inverts encoding -----

  lemma WordRoundTrip(n: nat, width: nat, tail: bytes)
    requires n < Pow256(width)
    ensures GetWord(ToBytes(n, width) + tail, width) == Ok(n, tail)
  {
    var bs := ToBytes(n, width) + tail;
    assert bs[..width] == ToBytes(n, width) && bs[width..] == tail;
    FromTo(n, width);
  }

  lemma TextRoundTrip(limit: nat, t: Text, tail: bytes)
    requires |t| <= limit && |t| <= U32_MAX
    ensures GetText(limit, TextBytes(t) + tail) == Ok(t, tail)
  {
    Widths();
    assert TextBytes(t) + tail == ToBytes(|t|, 4) + (t + tail);
    WordRoundTrip(|t|, 4, t + tail);
    assert (t + tail)[..|t|] == t && (t + tail)[|t|..] == tail;
  }

  lemma SignedRoundTrip(i: i64, tail: bytes)
    ensures GetSigned(ToBytes(TwosComplement(i), 8) + tail) == Ok(i, tail)
  {
    Widths();
    WordRoundTrip(TwosComplement(i), 8, tail);
  }

  lemma FlagRoundTrip(n: nat, tail: bytes)
    requires n <= 255
    ensures GetWord([n as byte] + tail, 1) == Ok(n, tail)
  {
    Widths();
    assert ToBytes(n, 1) == [n as byte];
    WordRoundTrip(n, 1, tail);
  }

  /** A reader returns what was written, and consumes exactly its bytes. */
  lemma {:induction false} RoundTrip(limit: nat, s: Schema, v: Value, tail: bytes)
    requires Fits(limit, s, v) && Solid(s)
    ensures Get(limit, s, Enc(s, v) + tail) == Ok(v, tail)
    decreases s, 1, 0
  {
    hide IsIdentity, GetWord, GetSigned, GetText, TextBytes;
    Widths();
    match s {
      case Enum(_) => WordRoundTrip(v.n, 1, tail);
      case Flag => WordRoundTrip(v.n, 1, tail);
      case Word(_) => WordRoundTrip(v.n, 4, tail);
      case Long => WordRoundTrip(v.n, 8, tail);
      case Signed => SignedRoundTrip(v.i, tail);
      case Ttl => SignedRoundTrip(v.i, tail);
      case Str => TextRoundTrip(limit, v.text, tail);
      case Id => TextRoundTrip(limit, v.text, tail);
      case Opt(item) => OptRoundTrip(limit, s, item, v, tail);
      case Lenient(item) => OptRoundTrip(limit, s, item, v, tail);
      case Rec(fields) =>
        FieldsRoundTrip(limit, fields, s, v.vs, 0, tail);
        assert v.vs[0..] == v.vs;
      case Checked(texts) =>
        FieldsRoundTrip(limit, texts, s, v.vs, 0, tail);
        assert v.vs[0..] == v.vs;
      case List(_, element) =>
        assert Enc(s, v) + tail == ToBytes(|v.vs|, 4) + (EncItems(element, v.vs) + tail);
        WordRoundTrip(|v.vs|, 4, EncItems(element, v.vs) + tail);
        ItemsAreWide(limit, element, v.vs);
        ItemsRoundTrip(limit, element, v.vs, tail);
      case Choice(alternatives) =>
        var inner := Enc(alternatives[v.tag], v.choice);
        assert Enc(s, v) + tail == ToBytes(v.tag, 1) + (inner + tail);
        WordRoundTrip(v.tag, 1, inner + tail);
        RoundTrip(limit, alternatives[v.tag], v.choice, tail);
    }
  }

  lemma {:induction false} OptRoundTrip(limit: nat, s: Schema, item: Schema, v: Value, tail: bytes)
    requires s == Opt(item) || s == Lenient(item)
    requires Fits(limit, s, v) && Solid(item)
    ensures Get(limit, s, Enc(s, v) + tail) == Ok(v, tail)
    decreases item, 2, 0
  {
    hide GetWord;
    if v.Given? {
      assert Enc(s, v) + tail == [1] + (Enc(item, v.value) + tail);
      FlagRoundTrip(1, Enc(item, v.value) + tail);
      RoundTrip(limit, item, v.value, tail);
    } else {
      FlagRoundTrip(0, tail);
    }
  }

  lemma {:induction false} FieldsRoundTrip(
    limit: nat, fields: seq<Schema>, s: Schema, vs: seq<Value>, i: nat, tail: bytes)
    requires (s.Rec? && s.fields == fields) || (s.Checked? && s.texts == fields)
    requires |vs| == |fields| && i <= |fields|
    requires forall j :: 0 <= j < |fields| ==> Fits(limit, fields[j], vs[j]) && Solid(fields[j])
    ensures GetFields(limit, fields, s, i, EncFields(fields, s, vs, i) + tail) == Ok(vs[i..], tail)
    decreases s, 0, |fields| - i
  {
    hide Get, Enc, Fits, Solid;
    if i < |fields| {
      var rest := EncFields(fields, s, vs, i + 1);
      assert EncFields(fields, s, vs, i) + tail == Enc(fields[i], vs[i]) + (rest + tail);
      RoundTrip(limit, fields[i], vs[i], rest + tail);
      FieldsRoundTrip(limit, fields, s, vs, i + 1, tail);
      assert vs[i..] == [vs[i]] + vs[i + 1..];
    } else {
      assert vs[i..] == [] && EncFields(fields, s, vs, i) + tail == tail;
    }
  }

  lemma {:induction false} ItemsRoundTrip(limit: nat, element: Schema, vs: seq<Value>, tail: bytes)
    requires Solid(element) && forall i :: 0 <= i < |vs| ==> Fits(limit, element, vs[i])
    ensures GetItems(limit, element, |vs|, EncItems(element, vs) + tail) == Ok(vs, tail)
    decreases element, 2, |vs|
  {
    hide Get, Enc, Fits, Solid;
    if vs != [] {
      var rest := EncItems(element, vs[1..]);
      assert EncItems(element, vs) + tail == Enc(element, vs[0]) + (rest + tail);
      RoundTrip(limit, element, vs[0], rest + tail);
      ItemsRoundTrip(limit, element, vs[1..], tail);
      assert vs == [vs[0]] + vs[1..];
    }
  }

  // ----- Encoding inverts decoding -----

  lemma WordCanonical(bs: bytes, width: nat, n: nat, rest: bytes)
    requires GetWord(bs, width) == Ok(n, rest)
    ensures n < Pow256(width) && bs == ToBytes(n, width) + rest && |bs| == width + |rest|
  {
    Bounded(bs[..width]);
    ToFrom(bs[..width]);
    assert bs == bs[..width] + bs[width..];
  }

  lemma TextCanonical(limit: nat, bs: bytes, t: Text, rest: bytes)
    requires GetText(limit, bs) == Ok(t, rest)
    ensures |t| <= limit && |t| <= U32_MAX && bs == TextBytes(t) + rest
  {
    Widths();
    var after := bs[4..];
    WordCanonical(bs, 4, |t|, after);
    assert after == t + rest;
    assert bs == ToBytes(|t|, 4) + (t + rest);
  }

  lemma SignedCanonical(bs: bytes, i: i64, rest: bytes)
    requires GetSigned(bs) == Ok(i, rest)
    ensures bs == ToBytes(TwosComplement(i), 8) + rest
  {
    Widths();
    WordCanonical(bs, 8, FromBytes(bs[..8]), rest);
  }

  lemma FlagCanonical(bs: bytes, n: nat, rest: bytes)
    requires GetWord(bs, 1) == Ok(n, rest)
    ensures n <= 255 && bs == [n as byte] + rest
  {
    Widths();
    WordCanonical(bs, 1, n, rest);
    assert ToBytes(n, 1) == [n as byte];
  }

  /** Whatever a reader accepts is the one encoding of what it returns. */
  lemma {:induction false} Canonical(limit: nat, s: Schema, bs: bytes, v: Value, rest: bytes)
    requires Strict(s) && Get(limit, s, bs) == Ok(v, rest)
    ensures Fits(limit, s, v) && bs == Enc(s, v) + rest
    decreases s, 1, 0
  {
    hide Get, Enc, Fits;
    match s {
      case Opt(item) => OptCanonical(limit, item, bs, v, rest);
      case Lenient(_) =>
      case Rec(fields) => RecCanonical(limit, fields, bs, v, rest);
      case Checked(texts) => CheckedCanonical(limit, texts, bs, v, rest);
      case List(max, element) => ListCanonical(limit, max, element, bs, v, rest);
      case Choice(alternatives) => ChoiceCanonical(limit, s, alternatives, bs, v, rest);
      case _ => ScalarCanonical(limit, s, bs, v, rest);
    }
  }

  lemma {:induction false} RecCanonical(limit: nat, fields: seq<Schema>, bs: bytes, v: Value, rest: bytes)
    requires Strict(Rec(fields)) && Get(limit, Rec(fields), bs) == Ok(v, rest)
    ensures Fits(limit, Rec(fields), v) && bs == Enc(Rec(fields), v) + rest
    decreases Rec(fields), 0, |fields| + 1
  {
    hide GetWord, IsIdentity, Identities, EncFields, GetFields;
    FieldsCanonical(limit, fields, Rec(fields), [], bs, v.vs, rest);
    assert [] + v.vs == v.vs;
  }

  lemma {:induction false} CheckedCanonical(limit: nat, fields: seq<Schema>, bs: bytes, v: Value, rest: bytes)
    requires Strict(Checked(fields)) && Get(limit, Checked(fields), bs) == Ok(v, rest)
    ensures Fits(limit, Checked(fields), v) && bs == Enc(Checked(fields), v) + rest
    decreases Checked(fields), 0, |fields| + 1
  {
    hide GetWord, IsIdentity, Identities, EncFields, GetFields;
    FieldsCanonical(limit, fields, Checked(fields), [], bs, v.vs, rest);
    assert [] + v.vs == v.vs;
  }

  predicate IsScalar(s: Schema) {
    s.Enum? || s.Flag? || s.Word? || s.Long? || s.Signed? || s.Ttl? || s.Str? || s.Id?
  }

  lemma ScalarCanonical(limit: nat, s: Schema, bs: bytes, v: Value, rest: bytes)
    requires IsScalar(s) && Get(limit, s, bs) == Ok(v, rest)
    ensures Fits(limit, s, v) && bs == Enc(s, v) + rest
  {
    hide IsIdentity, GetWord, GetSigned, GetText, TextBytes, FromTwosComplement, TwosComplement;
    Widths();
    match s {
      case Enum(_) => WordCanonical(bs, 1, v.n, rest);
      case Flag => WordCanonical(bs, 1, v.n, rest);
      case Word(_) => WordCanonical(bs, 4, v.n, rest);
      case Long => WordCanonical(bs, 8, v.n, rest);
      case Signed => SignedCanonical(bs, v.i, rest);
      case Ttl => SignedCanonical(bs, v.i, rest);
      case Str => TextCanonical(limit, bs, v.text, rest);
      case Id => TextCanonical(limit, bs, v.text, rest);
    }
  }

  lemma {:induction false} OptCanonical(limit: nat, item: Schema, bs: bytes, v: Value, rest: bytes)
    requires Strict(item) && Get(limit, Opt(item), bs) == Ok(v, rest)
    ensures Fits(limit, Opt(item), v) && bs == Enc(Opt(item), v) + rest
    decreases item, 2, 0
  {
    hide GetWord;
    var flag := GetWord(bs, 1);
    FlagCanonical(bs, flag.value, flag.rest);
    if flag.value == 1 {
      Canonical(limit, item, flag.rest, v.value, rest);
      assert bs == [1] + (Enc(item, v.value) + rest);
    }
  }

  lemma {:induction false} ListCanonical(limit: nat, max: nat, element: Schema, bs: bytes, v: Value, rest: bytes)
    requires Strict(element) && Get(limit, List(max, element), bs) == Ok(v, rest)
    ensures Fits(limit, List(max, element), v) && bs == Enc(List(max, element), v) + rest
    decreases element, 3, 0
  {
    hide GetWord, IsIdentity;
    var count := GetWord(bs, 4);
    WordCanonical(bs, 4, count.value, count.rest);
    Widths();
    ItemsCanonical(limit, element, count.value, count.rest, v.vs, rest);
    Regroup(ToBytes(|v.vs|, 4), EncItems(element, v.vs), rest);
  }

  lemma {:induction false} ChoiceCanonical(
    limit: nat, s: Schema, alternatives: seq<Schema>, bs: bytes, v: Value, rest: bytes)
    requires s == Choice(alternatives) && Strict(s) && Get(limit, s, bs) == Ok(v, rest)
    ensures Fits(limit, s, v) && bs == Enc(s, v) + rest
    decreases s, 0, 0
  {
    hide GetWord, IsIdentity;
    var tag := GetWord(bs, 1);
    WordCanonical(bs, 1, tag.value, tag.rest);
    Widths();
    Canonical(limit, alternatives[v.tag], tag.rest, v.choice, rest);
    Regroup(ToBytes(v.tag, 1), Enc(alternatives[v.tag], v.choice), rest);
  }

  lemma {:induction false} FieldsCanonical(
    limit: nat, fields: seq<Schema>, s: Schema, before: seq<Value>, bs: bytes, vs: seq<Value>, rest: bytes)
    requires (s.Rec? && s.fields == fields) || (s.Checked? && s.texts == fields)
    requires |before| <= |fields| && (forall j :: 0 <= j < |fields| ==> Strict(fields[j]))
    requires GetFields(limit, fields, s, |before|, bs) == Ok(vs, rest)
    ensures |vs| == |fields| - |before|
    ensures forall j :: |before| <= j < |fields| ==> Fits(limit, fields[j], vs[j - |before|])
    ensures bs == EncFields(fields, s, before + vs, |before|) + rest
    decreases s, 0, |fields| - |before|
  {
    hide Get, Enc, Fits, Strict;
    var i := |before|;
    if i < |fields| {
      var first := Get(limit, fields[i], bs);
      Canonical(limit, fields[i], bs, first.value, first.rest);
      var more := before + [vs[0]];
      FieldsCanonical(limit, fields, s, more, first.rest, vs[1..], rest);
      assert before + vs == more + vs[1..] && (before + vs)[i] == vs[0];
      Regroup(Enc(fields[i], vs[0]), EncFields(fields, s, before + vs, i + 1), rest);
    } else {
      assert EncFields(fields, s, before + vs, i) == [];
    }
  }

  lemma Regroup(a: bytes, b: bytes, c: bytes)
    ensures a + (b + c) == (a + b) + c
  {
  }

  lemma {:induction false} ItemsCanonical(
    limit: nat, element: Schema, n: nat, bs: bytes, vs: seq<Value>, rest: bytes)
    requires Strict(element) && GetItems(limit, element, n, bs) == Ok(vs, rest)
    ensures |vs| == n && (forall i :: 0 <= i < |vs| ==> Fits(limit, element, vs[i]))
    ensures bs == EncItems(element, vs) + rest
    decreases element, 2, n
  {
    if n > 0 {
      var first := Get(limit, element, bs);
      Canonical(limit, element, bs, first.value, first.rest);
      ItemsCanonical(limit, element, n - 1, first.rest, vs[1..], rest);
      hide Get, Enc, Fits, Strict;
      Regroup(Enc(element, vs[0]), EncItems(element, vs[1..]), rest);
    }
  }

  // ----- Consequences -----

  lemma EncodingIsPrefixFree(limit: nat, s: Schema, v: Value, w: Value, tail: bytes, other: bytes)
    requires Solid(s) && Fits(limit, s, v) && Fits(limit, s, w)
    requires Enc(s, v) + tail == Enc(s, w) + other
    ensures v == w && tail == other
  {
    RoundTrip(limit, s, v, tail);
    RoundTrip(limit, s, w, other);
  }

  /** A lenient flag is not canonical: every byte other than 1 reads as unset. */
  lemma LenientFlagIsAmbiguous(limit: nat, item: Schema, flag: byte, tail: bytes)
    requires flag != 1
    ensures Get(limit, Lenient(item), [flag] + tail) == Ok(Missing, tail)
  {
    FlagRoundTrip(flag as nat, tail);
  }
}
