/** Checking what handlers store against the schema, and what follows: no entity store that the indexer
    ever holds, retains or rolls back to has an entity with a validation error. */
module SchemaStore {
  import opened ChainModel
  import opened Bytes
  import opened HeapLayout
  import opened Streaming
  import opened Replay
  import opened HistoryWindow
  import opened Sync
  import opened Runs
  import DecimalText

  datatype ScalarKind = IdKind | BytesKind | StringKind | BooleanKind | IntKind | Int8Kind | TimestampKind
                      | BigIntKind | DecimalKind | ReferenceKind

  /** A field's kind by its name in the schema; anything else names an entity. */
  function KindNamed(name: string): ScalarKind {
    if name == "ID" then IdKind
    else if name == "Bytes" then BytesKind
    else if name == "String" then StringKind
    else if name == "Boolean" || name == "Bool" then BooleanKind
    else if name == "Int" then IntKind
    else if name == "Int8" then Int8Kind
    else if name == "Timestamp" then TimestampKind
    else if name == "BigInt" then BigIntKind
    else if name == "BigDecimal" then DecimalKind
    else ReferenceKind
  }

  datatype Field = Field(name: Text, kind: string, list: bool, required: bool, derived: bool)

  /** The fields of each entity type. */
  type Schema = map<Text, map<Text, Field>>

  /** What a handler asks of the store; arguments may be absent. */
  datatype Call =
    | Set(entity: Option<Text>, id: Option<Text>, data: Option<EntityData>)
    | Remove(entity: Option<Text>, id: Option<Text>)

  type Store = map<(Text, Text), EntityData>

  datatype Error = MissingType | UnknownType | MissingData | MissingId | DerivedField(key: Text) | Undeclared(key: Text)
                 | Required(field: Text) | NullItem(field: Text, index: nat) | WrongItem(field: Text, index: nat)
                 | NotAList(field: Text) | WrongKind(field: Text) | IdMismatch

  predicate ScalarMatches(kind: string, v: StoreValue) {
    match KindNamed(kind)
    case IdKind => v.String? || v.Raw?
    case BytesKind => v.Raw?
    case StringKind => v.String?
    case BooleanKind => v.Bool?
    case IntKind => v.Int?
    case Int8Kind => v.Int8? || v.Int?
    case TimestampKind => v.Timestamp? || v.BigInt?
    case BigIntKind => v.BigInt?
    case DecimalKind => v.Decimal?
    case ReferenceKind => v.String? || v.Raw?
  }

  /** Which fields a value may be stored in, value by value: any name that is not one of the schema language's scalar
      types refers to an entity by its identifier, and takes text or bytes. */
  lemma KindsOfValue(kind: string, v: StoreValue)
    ensures ScalarMatches(kind, v) <==>
              match v
              case Null => false
              case Array(_) => false
              case Bool(_) => kind in ["Boolean", "Bool"]
              case Int(_) => kind in ["Int", "Int8"]
              case Int8(_) => kind == "Int8"
              case BigInt(_) => kind in ["BigInt", "Timestamp"]
              case Timestamp(_) => kind == "Timestamp"
              case Decimal(_, _) => kind == "BigDecimal"
              case String(_) =>
                kind !in ["Bytes", "Boolean", "Bool", "Int", "Int8", "Timestamp", "BigInt", "BigDecimal"]
              case Raw(_) =>
                kind !in ["String", "Boolean", "Bool", "Int", "Int8", "Timestamp", "BigInt", "BigDecimal"]
  {
  }

  // ----- identifiers -----

  function Codes(s: string): seq<int> {
    if s == "" then [] else [s[0] as int] + Codes(s[1..])
  }

  function HexDigit(n: int): int {
    if n < 10 then 48 + n else 87 + n
  }

  function HexCodes(bytes: seq<byte>): seq<int> {
    if bytes == [] then [] else
      var b: int := bytes[0];
      [HexDigit(b / 16), HexDigit(b % 16)] + HexCodes(bytes[1..])
  }

  /** The text an `id` value stands for. */
  function StoreValueId(v: StoreValue): Option<seq<int>> {
    match v
    case String(t) => Some(t)
    case Raw(bytes) => Some([48, 120] + HexCodes(bytes))
    case BigInt(n) => Some(Codes(DecimalText.IntText(n)))
    case Int(n) => Some(Codes(DecimalText.IntText(n)))
    case Int8(n) => Some(Codes(DecimalText.IntText(n)))
    case Timestamp(n) => Some(Codes(DecimalText.IntText(n)))
    case _ => None
  }

  lemma {:induction false} CodesAt(s: string, i: nat)
    requires i < |s|
    ensures |Codes(s)| == |s| && Codes(s)[i] == s[i] as int
  {
    if |s| > 1 { CodesAt(s[1..], if i == 0 then 0 else i - 1); }
  }

  /** What a hexadecimal digit stands for. */
  function DigitValue(c: int): int {
    if '0' as int <= c <= '9' as int then c - '0' as int else if 'a' as int <= c <= 'f' as int then 10 + c - 'a' as int
    else -1
  }

  lemma {:induction false} HexReads(bytes: seq<byte>, i: nat)
    requires i < |bytes|
    ensures |HexCodes(bytes)| == 2 * |bytes|
    ensures 0 <= DigitValue(HexCodes(bytes)[2 * i]) < 16 && 0 <= DigitValue(HexCodes(bytes)[2 * i + 1]) < 16
    ensures 16 * DigitValue(HexCodes(bytes)[2 * i]) + DigitValue(HexCodes(bytes)[2 * i + 1]) == bytes[i] as int
  {
    var b: int := bytes[0];
    assert 0 <= b / 16 < 16 && 16 * (b / 16) + b % 16 == b;
    var rest := HexCodes(bytes[1..]);
    if i > 0 {
      var j := i - 1;
      HexReads(bytes[1..], j);
      assert HexCodes(bytes)[2 * i] == rest[2 * j] && HexCodes(bytes)[2 * i + 1] == rest[2 * j + 1];
    } else if |bytes| > 1 {
      HexReads(bytes[1..], 0);
    }
  }

  /** Bytes stand for the text of `0x` and two lower-case digits for each byte. */
  lemma BytesId(bytes: seq<byte>, i: nat)
    requires i < |bytes|
    ensures var id := StoreValueId(Raw(bytes));
            && id.Some? && |id.value| == 2 + 2 * |bytes| && id.value[..2] == Codes("0x")
            && 0 <= DigitValue(id.value[2 + 2 * i]) < 16 && 0 <= DigitValue(id.value[3 + 2 * i]) < 16
            && 16 * DigitValue(id.value[2 + 2 * i]) + DigitValue(id.value[3 + 2 * i]) == bytes[i] as int
  {
    HexReads(bytes, i);
    CodesAt("0x", 0);
    CodesAt("0x", 1);
  }

  predicate IsSpace(c: int) {
    9 <= c <= 13 || c == 32 || c == 0x85 || c == 0xA0 || c == 0x1680 || 0x2000 <= c <= 0x200A
    || c == 0x2028 || c == 0x2029 || c == 0x202F || c == 0x205F || c == 0x3000
  }

  function TrimStart(s: seq<int>): seq<int> {
    if s != [] && IsSpace(s[0]) then TrimStart(s[1..]) else s
  }

  function TrimEnd(s: seq<int>): seq<int> {
    if s != [] && IsSpace(s[|s| - 1]) then TrimEnd(s[..|s| - 1]) else s
  }

  function Lower(c: int): int {
    if 65 <= c <= 90 then c + 32 else c
  }

  predicate SameIgnoringCase(a: seq<int>, b: seq<int>) {
    |a| == |b| && forall i :: 0 <= i < |a| ==> Lower(a[i]) == Lower(b[i])
  }

  predicate Hexish(s: seq<int>) {
    |s| >= 2 && s[0] == 48 && Lower(s[1]) == 120
  }

  /** Identifiers are compared without surrounding space, and hexadecimal ones without case. */
  predicate IdsMatch(left: seq<int>, right: seq<int>) {
    var a, b := TrimEnd(TrimStart(left)), TrimEnd(TrimStart(right));
    if Hexish(a) || Hexish(b) then SameIgnoringCase(a, b) else a == b
  }

  predicate Tight(s: seq<int>) {
    s == [] || (!IsSpace(s[0]) && !IsSpace(s[|s| - 1]))
  }

  /** Hexadecimal identifiers start with `0x`, in either case. */
  predicate Prefixed(s: seq<int>) {
    Codes("0x") <= s || Codes("0X") <= s
  }

  lemma HexishPrefixed(s: seq<int>)
    ensures Hexish(s) <==> Prefixed(s)
  {
    CodesAt("0x", 0);
    CodesAt("0x", 1);
    CodesAt("0X", 0);
    CodesAt("0X", 1);
    assert Prefixed(s) <==> |s| >= 2 && s[0] == '0' as int && (s[1] == 'x' as int || s[1] == 'X' as int);
  }

  /** Equal but for the case of letters. */
  predicate CaseApart(a: int, b: int) {
    a == b || ('A' as int <= a <= 'Z' as int && b == a + 'a' as int - 'A' as int)
    || ('A' as int <= b <= 'Z' as int && a == b + 'a' as int - 'A' as int)
  }

  /** Without space around them, identifiers match when they are the same, or both hexadecimal and the same but for
      case. */
  lemma TightMatch(a: seq<int>, b: seq<int>)
    requires Tight(a) && Tight(b)
    ensures IdsMatch(a, b)
       <==> a == b || (Prefixed(a) && Prefixed(b) && |a| == |b| && forall i :: 0 <= i < |a| ==> CaseApart(a[i], b[i]))
  {
    HexishPrefixed(a);
    HexishPrefixed(b);
    assert SameIgnoringCase(a, b) <==> |a| == |b| && forall i :: 0 <= i < |a| ==> CaseApart(a[i], b[i]);
  }

  lemma {:induction false} StartTrimmed(s: seq<int>, c: int)
    requires IsSpace(c)
    ensures TrimEnd(TrimStart(s + [c])) == TrimEnd(TrimStart(s))
  {
    var more := s + [c];
    if s == [] {
      assert more == [c] && more[1..] == [];
    } else if IsSpace(s[0]) {
      assert more[1..] == s[1..] + [c];
      StartTrimmed(s[1..], c);
    } else {
      assert more[..|s|] == s;
    }
  }

  /** Space around an identifier does not matter. */
  lemma SpacedMatch(s: seq<int>, c: int)
    requires IsSpace(c)
    ensures IdsMatch([c] + s, s) && IdsMatch(s + [c], s)
  {
    assert ([c] + s)[1..] == s;
    StartTrimmed(s, c);
  }

  /** Matching identifiers fall into classes: the relation is an equivalence. */
  lemma IdsMatchClasses(a: seq<int>, b: seq<int>, c: seq<int>)
    ensures IdsMatch(a, a) && (IdsMatch(a, b) ==> IdsMatch(b, a))
    ensures IdsMatch(a, b) && IdsMatch(b, c) ==> IdsMatch(a, c)
  {
  }

  // ----- validation -----

  const ID_FIELD: Text := [105, 100]

  function KeyError(fields: map<Text, Field>, k: Text): Option<Error> {
    if k !in fields then Some(Undeclared(k))
    else if fields[k].derived then Some(DerivedField(k))
    else None
  }

  function ItemError(f: Field, v: StoreValue, index: nat): Option<Error> {
    if v.Null? then Some(NullItem(f.name, index))
    else if !ScalarMatches(f.kind, v) then Some(WrongItem(f.name, index))
    else None
  }

  /** What is wrong with a field's value. */
  predicate ValueError(f: Field, v: StoreValue, e: Error) {
    if f.list then
      if v.Array? then exists i :: 0 <= i < |v.values| && ItemError(f, v.values[i], i) == Some(e)
      else e == NotAList(f.name)
    else !ScalarMatches(f.kind, v) && e == WrongKind(f.name)
  }

  predicate FieldError(f: Field, data: EntityData, e: Error) {
    && !f.derived
    && if f.name in data && !data[f.name].Null? then ValueError(f, data[f.name], e)
       else f.required && e == Required(f.name)
  }

  predicate IdClash(id: Option<Text>, data: EntityData) {
    && id.Some? && ID_FIELD in data && StoreValueId(data[ID_FIELD]).Some?
    && !IdsMatch(id.value, StoreValueId(data[ID_FIELD]).value)
  }

  /** Exactly the errors a `store.set` has. */
  ghost predicate Finds(schema: Schema, c: Call, e: Error) {
    c.Set?
    && if c.entity.None? then e == MissingType
       else if c.entity.value !in schema then e == UnknownType
       else if c.data.None? then e == MissingData
       else
         var fields, data := schema[c.entity.value], c.data.value;
         || (c.id.None? && e == MissingId)
         || (exists k :: k in data && KeyError(fields, k) == Some(e))
         || (exists n :: n in fields && FieldError(fields[n], data, e))
         || (IdClash(c.id, data) && e == IdMismatch)
  }

  /** A set whose data names another entity than the one it is stored under is refused. */
  lemma OtherIdRefused(schema: Schema, c: Call)
    requires c.Set? && c.id.Some? && c.data.Some? && Codes("id") in c.data.value
    requires var own := StoreValueId(c.data.value[Codes("id")]); own.Some? && !IdsMatch(c.id.value, own.value)
    ensures !Acceptable(schema, c)
  {
    CodesAt("id", 0);
    CodesAt("id", 1);
    assert Codes("id") == ID_FIELD;
  }

  predicate HasType(f: Field, v: StoreValue) {
    if f.list then
      v.Array? && forall i :: 0 <= i < |v.values| ==> !v.values[i].Null? && ScalarMatches(f.kind, v.values[i])
    else ScalarMatches(f.kind, v)
  }

  predicate FieldHolds(f: Field, data: EntityData) {
    f.derived || (if f.name in data && !data[f.name].Null? then HasType(f, data[f.name]) else !f.required)
  }

  /** An entity that fits the schema: only declared stored fields, required ones present and not null,
      every value of its kind, and an `id` that agrees with the key it is stored under. */
  predicate Fits(schema: Schema, entity: Text, id: Text, data: EntityData) {
    && entity in schema
    && (forall k :: k in data ==> k in schema[entity] && !schema[entity][k].derived)
    && (forall n :: n in schema[entity] ==> FieldHolds(schema[entity][n], data))
    && !IdClash(Some(id), data)
  }

  predicate Acceptable(schema: Schema, c: Call) {
    c.Set? ==> c.entity.Some? && c.id.Some? && c.data.Some? && Fits(schema, c.entity.value, c.id.value, c.data.value)
  }

  lemma FieldSound(f: Field, data: EntityData)
    ensures FieldHolds(f, data) <==> forall e :: !FieldError(f, data, e)
  {
    if !FieldHolds(f, data) {
      if f.name in data && !data[f.name].Null? {
        var v := data[f.name];
        if f.list && v.Array? {
          var i :| 0 <= i < |v.values| && (v.values[i].Null? || !ScalarMatches(f.kind, v.values[i]));
          assert FieldError(f, data, ItemError(f, v.values[i], i).value);
        } else {
          assert FieldError(f, data, if f.list then NotAList(f.name) else WrongKind(f.name));
        }
      } else {
        assert FieldError(f, data, Required(f.name));
      }
    }
  }

  /** A set has no error exactly when it is acceptable. */
  lemma FindsNothing(schema: Schema, c: Call)
    ensures Acceptable(schema, c) <==> forall e :: !Finds(schema, c, e)
  {
    if c.Set? {
      if c.entity.None? {
        assert Finds(schema, c, MissingType);
      } else if c.entity.value !in schema {
        assert Finds(schema, c, UnknownType);
      } else if c.data.None? {
        assert Finds(schema, c, MissingData);
      } else {
        CheckedSound(schema, c, schema[c.entity.value], c.data.value);
      }
    }
  }

  lemma CheckedSound(schema: Schema, c: Call, fields: map<Text, Field>, data: EntityData)
    requires c.Set? && c.entity.Some? && c.entity.value in schema
    requires fields == schema[c.entity.value] && c.data == Some(data)
    ensures Acceptable(schema, c) <==> forall e :: !Finds(schema, c, e)
  {
    forall n | n in fields ensures FieldHolds(fields[n], data) <==> forall e :: !FieldError(fields[n], data, e) {
      FieldSound(fields[n], data);
    }
    if !Acceptable(schema, c) {
      if c.id.None? {
        assert Finds(schema, c, MissingId);
      } else if k :| k in data && (k !in fields || fields[k].derived) {
        assert Finds(schema, c, KeyError(fields, k).value);
      } else if n :| n in fields && !FieldHolds(fields[n], data) {
        var e :| FieldError(fields[n], data, e);
        assert Finds(schema, c, e);
      } else {
        assert Finds(schema, c, IdMismatch);
      }
    }
  }

  method ValidateFieldValue(f: Field, v: StoreValue) returns (errors: seq<Error>)
    ensures forall e :: e in errors <==> ValueError(f, v, e)
  {
    errors := [];
    if f.list {
      if v.Array? {
        for i := 0 to |v.values|
          invariant forall e :: e in errors <==> exists j :: 0 <= j < i && ItemError(f, v.values[j], j) == Some(e)
        {
          var item := v.values[i];
          ghost var before := errors;
          if item.Null? {
            errors := errors + [NullItem(f.name, i)];
          } else if !ScalarMatches(f.kind, item) {
            errors := errors + [WrongItem(f.name, i)];
          }
          assert forall e :: e in errors <==> e in before || ItemError(f, v.values[i], i) == Some(e);
        }
      } else {
        errors := [NotAList(f.name)];
      }
    } else if !ScalarMatches(f.kind, v) {
      errors := [WrongKind(f.name)];
    }
  }

  method ValidateKeys(fields: map<Text, Field>, data: EntityData) returns (errors: seq<Error>)
    ensures forall e :: e in errors <==> exists k :: k in data && KeyError(fields, k) == Some(e)
  {
    errors := [];
    var todo := data.Keys;
    while todo != {}
      invariant todo <= data.Keys
      invariant forall e :: e in errors <==> exists k :: k in data && k !in todo && KeyError(fields, k) == Some(e)
      decreases |todo|
    {
      var k :| k in todo;
      ghost var before, rest := errors, todo;
      if k !in fields {
        errors := errors + [Undeclared(k)];
      } else if fields[k].derived {
        errors := errors + [DerivedField(k)];
      }
      todo := todo - {k};
      assert forall e :: e in errors <==> e in before || KeyError(fields, k) == Some(e);
    }
  }

  method ValidateFields(fields: map<Text, Field>, data: EntityData) returns (errors: seq<Error>)
    ensures forall e :: e in errors <==> exists n :: n in fields && FieldError(fields[n], data, e)
  {
    errors := [];
    var todo := fields.Keys;
    while todo != {}
      invariant todo <= fields.Keys
      invariant forall e :: e in errors <==> exists n :: n in fields && n !in todo && FieldError(fields[n], data, e)
      decreases |todo|
    {
      var n :| n in todo;
      var f := fields[n];
      ghost var before := errors;
      var found: seq<Error> := [];
      if !f.derived {
        if f.name in data && !data[f.name].Null? {
          found := ValidateFieldValue(f, data[f.name]);
        } else if f.required {
          found := [Required(f.name)];
        }
      }
      errors := errors + found;
      todo := todo - {n};
      assert forall e :: e in found <==> FieldError(f, data, e);
      assert forall e :: e in errors <==> e in before || FieldError(f, data, e);
    }
  }

  /** All errors of one `store.set`, and no others. */
  method ValidateStoreSet(schema: Schema, c: Call) returns (errors: seq<Error>)
    requires c.Set?
    ensures forall e :: e in errors <==> Finds(schema, c, e)
    ensures errors == [] <==> Acceptable(schema, c)
  {
    FindsNothing(schema, c);
    if c.entity.None? {
      errors := [MissingType];
    } else if c.entity.value !in schema {
      errors := [UnknownType];
    } else if c.data.None? {
      errors := [MissingData];
    } else {
      var fields, data := schema[c.entity.value], c.data.value;
      var missing := if c.id.None? then [MissingId] else [];
      var keys := ValidateKeys(fields, data);
      var values := ValidateFields(fields, data);
      errors := missing + keys + values + (if IdClash(c.id, data) then [IdMismatch] else []);
      assert forall e :: e in errors <==>
                 e in missing || e in keys || e in values || (IdClash(c.id, data) && e == IdMismatch);
    }
    assert errors == [] <==> forall e :: e !in errors by { if errors != [] { assert errors[0] in errors; } }
  }

  // ----- a handler's run -----

  /** The store after the calls: a set or a removal with a missing argument does nothing. */
  function RunCalls(store: Store, calls: seq<Call>): Store {
    if calls == [] then store
    else
      var before, c := RunCalls(store, calls[..|calls| - 1]), calls[|calls| - 1];
      if c.entity.None? || c.id.None? then before
      else if c.Remove? then before - {(c.entity.value, c.id.value)}
      else if c.data.None? then before
      else before[(c.entity.value, c.id.value) := c.data.value]
  }

  /** The call sets or removes the entity: none of its arguments is missing. */
  predicate Writes(c: Call, k: (Text, Text)) {
    c.entity == Some(k.0) && c.id == Some(k.1) && (c.Set? ==> c.data.Some?)
  }

  /** An entity that no call writes stays as it is. */
  lemma {:induction false} UnwrittenStays(store: Store, calls: seq<Call>, k: (Text, Text))
    requires forall c :: c in calls ==> !Writes(c, k)
    ensures k in RunCalls(store, calls) <==> k in store
    ensures k in store ==> RunCalls(store, calls)[k] == store[k]
  {
    if calls != [] {
      var n := |calls| - 1;
      assert calls[n] in calls;
      UnwrittenStays(store, calls[..n], k);
    }
  }

  /** Otherwise the last call that writes it decides: it is gone after a removal, and has the set's data after a set. */
  lemma {:induction false} LastWriteDecides(store: Store, calls: seq<Call>, k: (Text, Text), i: nat)
    requires i < |calls| && Writes(calls[i], k) && forall j :: i < j < |calls| ==> !Writes(calls[j], k)
    ensures k in RunCalls(store, calls) <==> calls[i].Set?
    ensures calls[i].Set? ==> RunCalls(store, calls)[k] == calls[i].data.value
  {
    if i < |calls| - 1 { LastWriteDecides(store, calls[..|calls| - 1], k, i); }
  }

  /** How many sets have errors. */
  function Failing(schema: Schema, calls: seq<Call>): nat {
    if calls == [] then 0
    else Failing(schema, calls[..|calls| - 1]) + if Acceptable(schema, calls[|calls| - 1]) then 0 else 1
  }

  function Total(found: seq<seq<Error>>): nat {
    if found == [] then 0 else Total(found[..|found| - 1]) + |found[|found| - 1]|
  }

  /** The errors of all sets of a run, and how many there are; there are none exactly when no set fails. */
  method ValidateStoreSets(schema: Schema, calls: seq<Call>) returns (count: nat, found: seq<seq<Error>>)
    ensures |found| == |calls| && count == Total(found)
    ensures forall i, e :: 0 <= i < |calls| ==> (e in found[i] <==> Finds(schema, calls[i], e))
    ensures count == 0 <==> Failing(schema, calls) == 0
  {
    count, found := 0, [];
    for i := 0 to |calls|
      invariant |found| == i && count == Total(found)
      invariant forall j, e :: 0 <= j < i ==> (e in found[j] <==> Finds(schema, calls[j], e))
      invariant count == 0 <==> Failing(schema, calls[..i]) == 0
    {
      assert calls[..i + 1][..i] == calls[..i];
      var errors: seq<Error> := [];
      if calls[i].Set? { errors := ValidateStoreSet(schema, calls[i]); }
      assert (found + [errors])[..i] == found;
      found, count := found + [errors], count + |errors|;
    }
    assert calls[..|calls|] == calls;
  }

  predicate StoreValid(schema: Schema, store: Store) {
    forall k :: k in store ==> Fits(schema, k.0, k.1, store[k])
  }

  /** A run without a failing set keeps the store valid. */
  lemma {:induction false} RunKeepsValid(schema: Schema, store: Store, calls: seq<Call>)
    requires StoreValid(schema, store) && Failing(schema, calls) == 0
    ensures StoreValid(schema, RunCalls(store, calls))
  {
    if calls != [] { RunKeepsValid(schema, store, calls[..|calls| - 1]); }
  }

  // ----- the indexer -----

  /** What a handler does to a store: nothing that returns, or calls and requested data sources. */
  type Program = (Store, Item) -> Option<(seq<Call>, seq<Create>)>

  function Validated(schema: Schema, program: Program): (Store, Item) -> Outcome<Store> {
    (store, x) =>
      var r := program(store, x);
      if r.None? then Trap
      else Ran(RunCalls(store, r.value.0), r.value.1, Failing(schema, r.value.0))
  }

  /** A property of stores that clean handler runs keep. */
  ghost predicate Invariant<S(!new)>(cfg: Config<S>, p: S -> bool) {
    forall s: S, x: Item :: p(s) && Clean(cfg, s, x) ==> p(cfg.handler(s, x).store)
  }

  lemma ValidatedInvariant(schema: Schema, program: Program, cfg: Config<Store>)
    requires cfg.handler == Validated(schema, program)
    ensures Invariant(cfg, s => StoreValid(schema, s))
  {
    var p := (s: Store) => StoreValid(schema, s);
    forall s: Store, x: Item | p(s) && Clean(cfg, s, x) ensures p(cfg.handler(s, x).store) {
      RunKeepsValid(schema, s, program(s, x).value.0);
    }
  }

  /** A pass that meets a log whose sets fail validation stops there: it has the state of the walk before that
      log, and the log's calls, on that very store, fail. */
  lemma FailingLogStops(schema: Schema, program: Program, cfg: Config<Store>, chain: seq<RawLog>, args: PassArgs,
                        e: Engine<Store>)
    requires cfg.handler == Validated(schema, program) && Wf(cfg, e)
    requires e.ok && Pass(cfg, chain, args, e).halt == Invalid
    ensures var r := Pass(cfg, chain, args, e);
            && WalkP(cfg, e, PassLogs(chain, args)) == r.eng.(ok := false)
            && exists l, x ::
                 l in PassLogs(chain, args) && x in FreshAt(cfg, r.eng, l) && FailsOn(schema, program, r.eng.store, x)
  {
    InvalidPass(cfg, chain, args, e);
    var r := Pass(cfg, chain, args, e);
    var l :|
      && l in PassLogs(chain, args) && FreshAt(cfg, r.eng, l) != []
      && HasErrors(cfg, r.eng.store, FreshAt(cfg, r.eng, l)[0]);
    var x := FreshAt(cfg, r.eng, l)[0];
    assert x in FreshAt(cfg, r.eng, l) && FailsOn(schema, program, r.eng.store, x);
  }

  predicate FailsOn(schema: Schema, program: Program, store: Store, x: Item) {
    program(store, x).Some? && Failing(schema, program(store, x).value.0) > 0
  }

  // ----- every reachable store -----

  ghost predicate AllHold<S>(p: S -> bool, h: seq<Entry<S>>) {
    forall e :: e in h ==> p(e.store)
  }

  ghost predicate RunHolds<S>(p: S -> bool, r: Run<S>) {
    p(r.eng.store) && AllHold(p, r.history)
  }

  lemma {:induction false} ItemsHold<S(!new)>(cfg: Config<S>, p: S -> bool, args: PassArgs, r: Run<S>, items: seq<Item>)
    requires Invariant(cfg, p) && RunHolds(p, r)
    ensures RunHolds(p, RunItems(cfg, args, r, items))
    decreases items
  {
    if r.halt == Running && items != [] {
      ItemsHold(cfg, p, args, RunItem(cfg, args, r, items[0]), items[1..]);
    }
  }

  lemma {:induction false} LogsHold<S(!new)>(cfg: Config<S>, p: S -> bool, args: PassArgs, r: Run<S>, logs: seq<RawLog>)
    requires Invariant(cfg, p) && RunHolds(p, r)
    ensures RunHolds(p, RunLogs(cfg, args, r, logs))
    decreases logs
  {
    if r.halt == Running && logs != [] {
      var s := RunItems(cfg, args, r, FreshAt(cfg, r.eng, logs[0]));
      ItemsHold(cfg, p, args, r, FreshAt(cfg, r.eng, logs[0]));
      LogsHold(cfg, p, args, Close(args, s, logs), logs[1..]);
    }
  }

  ghost predicate SnapshotHolds<S>(p: S -> bool, stored: Option<Snapshot<S>>) {
    stored.Some? ==> p(stored.value.store) && AllHold(p, stored.value.history)
  }

  lemma {:induction false} UpToHolds<S>(p: S -> bool, h: seq<Entry<S>>, block: nat)
    requires AllHold(p, h)
    ensures AllHold(p, UpTo(h, block))
  {
    if h != [] { UpToHolds(p, h[1..], block); }
  }

  lemma PolicyHolds<S>(p: S -> bool, loaded: Option<Snapshot<S>>, args: SyncArgs)
    requires SnapshotHolds(p, loaded)
    ensures var r := ApplyReorgPolicy(loaded, args); r.Ok? ==> SnapshotHolds(p, r.value)
  {
    if loaded.Some? {
      var s := loaded.value;
      var safe := FindSafe(s.history, args.depth, args.hashAt);
      if safe.Some? {
        assert safe.value in s.history;
        UpToHolds(p, s.history, safe.value.to);
      }
    }
  }

  lemma NextHolds<S(!new)>(p: S -> bool, previous: Option<Snapshot<S>>, args: SyncArgs, pa: PassArgs, r: Run<S>)
    requires SnapshotHolds(p, previous) && RunHolds(p, r)
    ensures SnapshotHolds(p, Some(NextSnapshot(previous, args, pa, RunOf(r))))
  {
    var current := Entry(pa.from, pa.to, pa.hashAt(pa.to), RunOf(r).complete, r.eng.store, Persist(r.eng.dyn));
    var h := if previous.Some? then previous.value.history else [];
    var es := Incoming(if previous.Some? then Some(EntryOf(previous.value)) else None, r.history, current);
    forall e | e in PushAll(h, es, args.historyLimit) ensures p(e.store) { PushAllSubset(h, es, args.historyLimit, e); }
  }

  /** One cycle, whatever the chain, the options and the RPC's answers: scan, resume, rollback or reset. */
  lemma CycleHolds<S(!new)>(cfg: Config<S>, initial: S, p: S -> bool, chain: seq<RawLog>, st: Stored<S>, args: SyncArgs,
                            fails: bool)
    requires Invariant(cfg, p) && p(initial) && SnapshotHolds(p, st.snapshot)
    ensures SnapshotHolds(p, Cycle(cfg, initial, chain, st, args, fails).snapshot)
  {
    var loaded := if args.reset then None else st.snapshot;
    PolicyHolds(p, loaded, args);
    var previous := ApplyReorgPolicy(loaded, args);
    if !fails && previous.Ok? {
      var pa := PassArgsFor(args, previous.value);
      var e := StartEngine(initial, previous.value, if previous.value.None? then [] else st.trace);
      LogsHold(cfg, p, pa, StartRun(e), PassLogs(chain, pa));
      NextHolds(p, previous.value, args, pa, Pass(cfg, chain, pa, e));
    }
  }

  /** Any sequence of cycles, each on its own chain. */
  function Reached<S>(cfg: Config<S>, initial: S, cycles: seq<(seq<RawLog>, SyncArgs, bool)>): Stored<S> {
    if cycles == [] then Stored(None, [])
    else
      var c := cycles[|cycles| - 1];
      Cycle(cfg, initial, c.0, Reached(cfg, initial, cycles[..|cycles| - 1]), c.1, c.2)
  }

  lemma {:induction false} ReachedHolds<S(!new)>(cfg: Config<S>, initial: S, p: S -> bool,
                                                 cycles: seq<(seq<RawLog>, SyncArgs, bool)>)
    requires Invariant(cfg, p) && p(initial)
    ensures SnapshotHolds(p, Reached(cfg, initial, cycles).snapshot)
  {
    if cycles != [] {
      var n := |cycles| - 1;
      ReachedHolds(cfg, initial, p, cycles[..n]);
      CycleHolds(cfg, initial, p, cycles[n].0, Reached(cfg, initial, cycles[..n]), cycles[n].1, cycles[n].2);
    }
  }

  /** Starting empty, every snapshot and every retained entry that any sequence of cycles leads to fits
      the schema, for every program the handlers may be. */
  lemma EveryReachableStoreFits(schema: Schema, program: Program, cfg: Config<Store>,
                                cycles: seq<(seq<RawLog>, SyncArgs, bool)>)
    requires cfg.handler == Validated(schema, program)
    ensures var st := Reached(cfg, map[], cycles).snapshot;
            st.Some? ==> StoreValid(schema, st.value.store)
                         && forall e :: e in st.value.history ==> StoreValid(schema, e.store)
  {
    var p := (s: Store) => StoreValid(schema, s);
    ValidatedInvariant(schema, program, cfg);
    ReachedHolds(cfg, map[], p, cycles);
  }
}
