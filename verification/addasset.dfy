/**
 The asset-creation page: how a new asset record is built from the form,
 which of the fetched assets the page lists, and how a save updates that
 list.
 */
module AddAsset {
  import opened Wrappers
  import opened Text
  import opened JsNumbers
  import opened JsValues
  import Seqs

  /** The form state: field name to the text typed into it. Every input
      reports a string; a field never touched is absent (`undefined`). */
  type Form = map<string, string>

  /** `form[key]` */
  function FormValue(form: Form, key: string): (v: RawValue)
    ensures v.Undefined? || v.Str?
  {
    if key in form then Str(form[key]) else Undefined
  }

  /** `toNumber(v)`: `parseFloat(String(v).trim())`, or 0 when that is not
      finite. Commas are not removed, so "1,200" reads as 1. */
  function ToNumber(v: RawValue): (r: real)
    ensures v.Num? ==> r == v.x
    ensures v.Str? && !StartsNumeric(Trim(v.s)) ==> r == 0.0
    ensures v.Str? && StartsWith(StripSign(Trim(v.s)).1, "Infinity") ==> r == 0.0
  {
    match v
    // `String(x)` of a finite number is a literal that `parseFloat` reads back as `x`
    case Num(x) => x
    case _ => TextToNumber(ToText(v))
  }

  /** `toNumber` of the text `String(v)` gives. */
  function TextToNumber(s: string): (r: real)
    ensures !StartsNumeric(Trim(s)) ==> r == 0.0
    ensures StartsWith(StripSign(Trim(s)).1, "Infinity") ==> r == 0.0
  {
    var t := Trim(s);
    TrimStartOfTrimmed(t);
    InfinityIsNotFinite(t);
    FiniteOrZero(ParseFloat(t))
  }

  lemma InfinityIsNotFinite(t: string)
    requires TrimStart(t) == t
    ensures StartsWith(StripSign(t).1, "Infinity") ==> FiniteOrZero(ParseFloat(t)) == 0.0
  {
  }

  lemma TrimStartOfTrimmed(t: string)
    requires |t| > 0 ==> !IsWhitespace(t[0])
    ensures TrimStart(t) == t
  {
  }

  // ---------------------------------------------------------------------
  // Building the record

  /** One `maybeAdd(key, asNumber)` call of the submit handler. */
  datatype OptionalField = OptionalField(key: string, asNumber: bool)

  /** The `maybeAdd` calls in the order the submit handler makes them. The
      category is not consulted: every call is made for every category, and
      `purchasePrice` is added twice, once for stocks and once for crypto. */
  const OptionalFields: seq<OptionalField> := [
    OptionalField("location", false), OptionalField("size", false), OptionalField("type", false),
    OptionalField("weight", false), OptionalField("purity", false),
    OptionalField("ticker", false), OptionalField("shares", true), OptionalField("purchasePrice", true),
    OptionalField("coin", false), OptionalField("quantity", true), OptionalField("purchasePrice", true),
    OptionalField("fundName", false), OptionalField("units", true), OptionalField("nav", true)
  ]

  /** The fields every record has. */
  const BaseKeys: set<string> := {"category", "name", "purchaseValue", "purchaseDate", "currentValue"}

  /** The optional fields stored as numbers, and those stored as trimmed text. */
  const NumericKeys: set<string> := {"shares", "purchasePrice", "quantity", "units", "nav"}
  const TextKeys: set<string> := {"location", "size", "type", "weight", "purity", "ticker", "coin", "fundName"}

  /** Whether the form supplies `key`: present and not blank once trimmed. */
  predicate IsSupplied(form: Form, key: string) {
    key in form && Trim(form[key]) != ""
  }

  /** The value `maybeAdd` stores for a supplied field. */
  function Coerce(form: Form, field: OptionalField): (v: RawValue)
    requires field.key in form
    ensures field.asNumber <==> v.Num?
    ensures field.asNumber ==> v.x == ToNumber(Str(form[field.key]))
    ensures !field.asNumber ==> v.Str? && Trim(v.s) == v.s && v.s == Trim(form[field.key])
  {
    TrimIdempotent(form[field.key]);
    if field.asNumber then Num(ToNumber(Str(form[field.key]))) else Str(Trim(form[field.key]))
  }

  /** `maybeAdd(field.key, field.asNumber)` */
  function MaybeAdd(rec: Record, form: Form, field: OptionalField): (r: Record)
    ensures IsSupplied(form, field.key) ==> r == rec[field.key := Coerce(form, field)]
    ensures !IsSupplied(form, field.key) ==> r == rec
  {
    var k := field.key;
    if FormValue(form, k) != Undefined && Trim(ToText(FormValue(form, k))) != "" then
      rec[k := Coerce(form, field)]
    else rec
  }

  /** The last call in `fields` for `k`, if there is one. */
  function LastCall(fields: seq<OptionalField>, k: string): (c: Option<OptionalField>)
    ensures c.Some? ==> c.value.key == k
    decreases |fields|
  {
    if |fields| == 0 then None
    else
      var later := LastCall(fields[1..], k);
      if later.Some? then later else if fields[0].key == k then Some(fields[0]) else None
  }

  /** `k in o ? o[k]` as an option. */
  function Lookup(o: Record, k: string): Option<RawValue> {
    if k in o then Some(o[k]) else None
  }

  /** What `k` holds after the calls of `fields`: the value its last call
      stores when the form supplies it, otherwise what it held before. */
  function Expected(rec: Record, form: Form, fields: seq<OptionalField>, k: string): Option<RawValue> {
    match LastCall(fields, k)
    case Some(f) => if IsSupplied(form, k) then Some(Coerce(form, f)) else Lookup(rec, k)
    case None => Lookup(rec, k)
  }

  /** One call followed by the rest has the effect `Expected` describes. */
  lemma MaybeAddStep(rec: Record, form: Form, fields: seq<OptionalField>, k: string)
    requires |fields| > 0
    ensures Expected(MaybeAdd(rec, form, fields[0]), form, fields[1..], k) == Expected(rec, form, fields, k)
  {
    var later := LastCall(fields[1..], k);
    var rec' := MaybeAdd(rec, form, fields[0]);
    if fields[0].key != k {
      assert Lookup(rec', k) == Lookup(rec, k);
    } else if later.None? {
      assert LastCall(fields, k) == Some(fields[0]);
    } else {
      assert LastCall(fields, k) == later;
      assert !IsSupplied(form, k) ==> Lookup(rec', k) == Lookup(rec, k);
    }
  }

  /** The `maybeAdd` calls of `fields`, one after another: each key ends up
      as its last call leaves it. */
  function AddAll(rec: Record, form: Form, fields: seq<OptionalField>): (r: Record)
    ensures forall k :: Lookup(r, k) == Expected(rec, form, fields, k)
    decreases |fields|
  {
    if |fields| == 0 then rec
    else
      var r := AddAll(MaybeAdd(rec, form, fields[0]), form, fields[1..]);
      assert forall k :: Lookup(r, k) == Expected(rec, form, fields, k) by {
        forall k ensures Lookup(r, k) == Expected(rec, form, fields, k) {
          MaybeAddStep(rec, form, fields, k);
        }
      }
      r
  }

  /** `(form.name || "").trim()` */
  function NameOf(form: Form): (s: string)
    ensures s == if "name" in form then Trim(form["name"]) else ""
  {
    var name := FormValue(form, "name");
    assert Trim("") == "" by { TrimOfTrimmed(""); }
    Trim(ToText(if IsTruthy(name) then name else Str("")))
  }

  /** `form.purchaseDate || ""` */
  function DateOf(form: Form): (s: string)
    ensures s == if "purchaseDate" in form then form["purchaseDate"] else ""
  {
    var date := FormValue(form, "purchaseDate");
    ToText(if IsTruthy(date) then date else Str(""))
  }

  /** The five fields every new record starts with. */
  function BaseFields(category: string, name: string, purchaseValue: real, purchaseDate: string,
                      currentValue: real): (base: Record)
    ensures base.Keys == BaseKeys
    ensures base["category"] == Str(category) && base["name"] == Str(name)
    ensures base["purchaseValue"] == Num(purchaseValue) && base["purchaseDate"] == Str(purchaseDate)
    ensures base["currentValue"] == Num(currentValue)
  {
    map[
      "category" := Str(category),
      "name" := Str(name),
      "purchaseValue" := Num(purchaseValue),
      "purchaseDate" := Str(purchaseDate),
      "currentValue" := Num(currentValue)
    ]
  }

  /** The five base fields: the route's category, the trimmed name ("" when
      missing), the purchase date as typed ("" when missing) and both values
      through `ToNumber`. */
  ghost predicate HasBaseFields(category: string, form: Form, r: Record) {
    && BaseKeys <= r.Keys
    && r["category"] == Str(category)
    && r["name"] == Str(if "name" in form then Trim(form["name"]) else "")
    && r["purchaseValue"] == Num(ToNumber(FormValue(form, "purchaseValue")))
    && r["purchaseDate"] == Str(if "purchaseDate" in form then form["purchaseDate"] else "")
    && r["currentValue"] == Num(ToNumber(FormValue(form, "currentValue")))
  }

  /** Nothing but base, numeric and text keys; a numeric or text key exactly
      when the form supplies it, numeric ones through `ToNumber`, text ones
      trimmed. */
  ghost predicate HasOptionalFields(form: Form, r: Record) {
    && r.Keys <= BaseKeys + NumericKeys + TextKeys
    && (forall k :: k in NumericKeys + TextKeys ==> (k in r <==> IsSupplied(form, k)))
    && (forall k :: k in NumericKeys && k in r ==> k in form && r[k] == Num(ToNumber(Str(form[k]))))
    && (forall k :: k in TextKeys && k in r ==> k in form && r[k] == Str(Trim(form[k])))
  }

  /** The asset object the submit handler builds from the route's category
      and the form. */
  function BuildRecord(category: string, form: Form): (r: Record)
    ensures HasBaseFields(category, form, r)
    ensures HasOptionalFields(form, r)
  {
    OptionalFieldsTable();
    BuildWith(category, form, OptionalFields)
  }

  /** The base record followed by the `maybeAdd` calls of `fields`. */
  function BuildWith(category: string, form: Form, fields: seq<OptionalField>): (r: Record)
    requires FollowsKindTable(fields)
    ensures HasBaseFields(category, form, r)
    ensures HasOptionalFields(form, r)
  {
    var base := Base(category, form);
    AddOptionalFields(base, form, fields);
    KeepsBaseFields(category, form, base, AddAll(base, form, fields));
    AddAll(base, form, fields)
  }

  /** The object literal the submit handler starts from. */
  function Base(category: string, form: Form): (base: Record)
    ensures base.Keys == BaseKeys
  {
    BaseFields(category, NameOf(form), ToNumber(FormValue(form, "purchaseValue")), DateOf(form),
               ToNumber(FormValue(form, "currentValue")))
  }

  lemma KeepsBaseFields(category: string, form: Form, base: Record, r: Record)
    requires base == Base(category, form)
    requires forall k :: k in BaseKeys ==> k in r && r[k] == base[k]
    ensures HasBaseFields(category, form, r)
  {
    assert "category" in BaseKeys && "name" in BaseKeys && "purchaseValue" in BaseKeys;
    assert "purchaseDate" in BaseKeys && "currentValue" in BaseKeys;
  }

  /** The key each `maybeAdd` call of the submit handler ends with: numeric
      keys as numbers, text keys as text, nothing for any other key. */
  function KindTable(k: string): Option<OptionalField> {
    if k in NumericKeys + TextKeys then Some(OptionalField(k, k in NumericKeys)) else None
  }

  ghost predicate FollowsKindTable(fields: seq<OptionalField>) {
    forall k :: LastCall(fields, k) == KindTable(k)
  }

  /** No key is both a base field and an optional one, or both numeric and text. */
  lemma KeyTablesDisjoint()
    ensures BaseKeys !! NumericKeys + TextKeys
    ensures NumericKeys !! TextKeys
  {
  }

  /** Calls that follow the kind table leave the base fields alone and add
      exactly the supplied numeric and text fields, each coerced by its kind. */
  lemma AddOptionalFields(base: Record, form: Form, fields: seq<OptionalField>)
    requires base.Keys == BaseKeys
    requires FollowsKindTable(fields)
    ensures forall k :: k in BaseKeys ==> k in AddAll(base, form, fields) && AddAll(base, form, fields)[k] == base[k]
    ensures HasOptionalFields(form, AddAll(base, form, fields))
  {
    var r := AddAll(base, form, fields);
    KeyTablesDisjoint();
    forall k ensures Lookup(r, k) == OptionalFieldOutcome(base, form, k) {
      OutcomeAt(base, form, fields, k);
    }
    forall k | k in r ensures k in BaseKeys + NumericKeys + TextKeys {
      assert Lookup(r, k).Some?;
    }
    forall k | k in BaseKeys ensures k in r && r[k] == base[k] {
      assert k !in NumericKeys + TextKeys;
      assert Lookup(r, k) == Lookup(base, k);
    }
    forall k | k in NumericKeys + TextKeys ensures k in r <==> IsSupplied(form, k) {
      assert Lookup(r, k).Some? <==> IsSupplied(form, k);
    }
    forall k | k in NumericKeys && k in r ensures k in form && r[k] == Num(ToNumber(Str(form[k]))) {
      assert Lookup(r, k) == OptionalFieldOutcome(base, form, k);
    }
    forall k | k in TextKeys && k in r ensures k in form && r[k] == Str(Trim(form[k])) {
      assert k !in NumericKeys;
      assert Lookup(r, k) == OptionalFieldOutcome(base, form, k);
    }
  }

  lemma OutcomeAt(base: Record, form: Form, fields: seq<OptionalField>, k: string)
    requires base.Keys == BaseKeys
    requires FollowsKindTable(fields)
    ensures Lookup(AddAll(base, form, fields), k) == OptionalFieldOutcome(base, form, k)
  {
    assert LastCall(fields, k) == KindTable(k);
    if k in NumericKeys + TextKeys {
      ExpectedOfSome(base, form, fields, k, OptionalField(k, k in NumericKeys));
    } else {
      ExpectedOfNone(base, form, fields, k);
    }
  }

  lemma ExpectedOfSome(base: Record, form: Form, fields: seq<OptionalField>, k: string, f: OptionalField)
    requires LastCall(fields, k) == Some(f)
    ensures Expected(base, form, fields, k) == if IsSupplied(form, k) then Some(Coerce(form, f)) else Lookup(base, k)
  {
  }

  lemma ExpectedOfNone(base: Record, form: Form, fields: seq<OptionalField>, k: string)
    requires LastCall(fields, k) == None
    ensures Expected(base, form, fields, k) == Lookup(base, k)
  {
  }

  /** What the fixed calls leave under `k`. */
  function OptionalFieldOutcome(base: Record, form: Form, k: string): Option<RawValue> {
    if k !in NumericKeys + TextKeys then Lookup(base, k)
    else if !IsSupplied(form, k) then None
    else if k in NumericKeys then Some(Num(ToNumber(Str(form[k]))))
    else Some(Str(Trim(form[k])))
  }

  lemma OptionalFieldsTable()
    ensures FollowsKindTable(OptionalFields)
  {
    forall k ensures LastCall(OptionalFields, k) == KindTable(k) {
      LastCallOfOptionalFields(k);
    }
  }

  /** The last `maybeAdd` call for every key, read off the fixed list. */
  lemma LastCallOfOptionalFields(k: string)
    ensures LastCall(OptionalFields, k) == KindTable(k)
  {
    if k in NumericKeys + TextKeys {
      var i := LastIndexOf(k);
      LastCallAt(OptionalFields, k, i);
    } else {
      OptionalFieldKinds();
      LastCallNone(OptionalFields, k);
    }
  }

  lemma {:induction false} LastCallAt(fields: seq<OptionalField>, k: string, i: nat)
    requires i < |fields| && fields[i].key == k
    requires forall j :: i < j < |fields| ==> fields[j].key != k
    ensures LastCall(fields, k) == Some(fields[i])
    decreases |fields|
  {
    if i == 0 {
      LastCallNone(fields[1..], k);
    } else {
      LastCallAt(fields[1..], k, i - 1);
    }
  }

  lemma {:induction false} LastCallNone(fields: seq<OptionalField>, k: string)
    requires forall j :: 0 <= j < |fields| ==> fields[j].key != k
    ensures LastCall(fields, k) == None
    decreases |fields|
  {
    if |fields| > 0 {
      LastCallNone(fields[1..], k);
    }
  }

  /** Every `maybeAdd` call names a numeric or a text key, with the numeric
      flag set exactly for the numeric ones. */
  lemma OptionalFieldKinds()
    ensures forall i :: 0 <= i < |OptionalFields| ==>
              OptionalFields[i].key in NumericKeys + TextKeys
              && (OptionalFields[i].asNumber <==> OptionalFields[i].key in NumericKeys)
  {
  }

  /** The index of the last `maybeAdd` call for `k` in the fixed list. */
  function LastIndexOf(k: string): (i: nat)
    requires k in NumericKeys + TextKeys
    ensures i < |OptionalFields| && OptionalFields[i].key == k && OptionalFields[i].asNumber == (k in NumericKeys)
    ensures forall j :: i < j < |OptionalFields| ==> OptionalFields[j].key != k
  {
    if k == "location" then 0 else if k == "size" then 1 else if k == "type" then 2
    else if k == "weight" then 3 else if k == "purity" then 4 else if k == "ticker" then 5
    else if k == "shares" then 6 else if k == "coin" then 8 else if k == "quantity" then 9
    else if k == "purchasePrice" then 10 else if k == "fundName" then 11
    else if k == "units" then 12 else 13
  }

  // ---------------------------------------------------------------------
  // Properties of the built record

  /** Two records that agree on every key are the same record. */
  lemma RecordsAgree(a: Record, b: Record)
    requires forall k :: Lookup(a, k) == Lookup(b, k)
    ensures a == b
  {
    forall k | k in a ensures k in b && a[k] == b[k] {
      assert Lookup(a, k) == Lookup(b, k);
    }
    forall k | k in b ensures k in a {
      assert Lookup(a, k) == Lookup(b, k);
    }
  }

  /** Call lists that end the same way for every key build the same record. */
  lemma SameLastCalls(rec: Record, form: Form, a: seq<OptionalField>, b: seq<OptionalField>)
    requires forall k :: LastCall(a, k) == LastCall(b, k)
    ensures AddAll(rec, form, a) == AddAll(rec, form, b)
  {
    forall k ensures Lookup(AddAll(rec, form, a), k) == Lookup(AddAll(rec, form, b), k) {
      assert LastCall(a, k) == LastCall(b, k);
    }
    RecordsAgree(AddAll(rec, form, a), AddAll(rec, form, b));
  }

  /** The last call for `k` in `a + b` is its last call in `b`, or failing
      that its last call in `a`. */
  lemma {:induction false} LastCallAppend(a: seq<OptionalField>, b: seq<OptionalField>, k: string)
    ensures LastCall(a + b, k) == if LastCall(b, k).Some? then LastCall(b, k) else LastCall(a, k)
    decreases |a|
  {
    if |a| == 0 {
      assert a + b == b;
    } else {
      assert (a + b)[1..] == a[1..] + b;
      LastCallAppend(a[1..], b, k);
    }
  }

  lemma {:induction false} LastCallPresent(fields: seq<OptionalField>, k: string, j: nat)
    requires j < |fields| && fields[j].key == k
    ensures LastCall(fields, k).Some?
    decreases |fields|
  {
    if j > 0 {
      LastCallPresent(fields[1..], k, j - 1);
    }
  }

  /** A call that a later call for the same key overrides can be dropped
      without changing the record, whatever either call's numeric flag. */
  lemma DropShadowedCall(rec: Record, form: Form, fields: seq<OptionalField>, i: nat, j: nat)
    requires i < j < |fields| && fields[j].key == fields[i].key
    ensures AddAll(rec, form, WithoutCall(fields, i)) == AddAll(rec, form, fields)
  {
    var pre, x, post := fields[..i], fields[i], fields[i + 1..];
    assert fields == pre + [x] + post;
    forall k ensures LastCall(pre + post, k) == LastCall(fields, k) {
      LastCallAppend(pre, post, k);
      LastCallAppend(pre + [x], post, k);
      LastCallAppend(pre, [x], k);
      if k == x.key {
        LastCallPresent(post, k, j - i - 1);
      } else {
        assert LastCall([x], k) == None by {
          assert [x][1..] == [];
        }
      }
    }
    SameLastCalls(rec, form, pre + post, fields);
  }

  /** `fields` without its `i`th call. */
  function WithoutCall(fields: seq<OptionalField>, i: nat): (r: seq<OptionalField>)
    requires i < |fields|
    ensures |r| == |fields| - 1
  {
    fields[..i] + fields[i + 1..]
  }

  /** The submit handler calls `maybeAdd("purchasePrice", true)` twice; the
      first call (the stocks one) has no effect on the record. */
  lemma PurchasePriceAddedOnce(category: string, form: Form)
    ensures OptionalFields[7] == OptionalFields[10] == OptionalField("purchasePrice", true)
    ensures BuildRecord(category, form) == AddAll(Base(category, form), form, WithoutCall(OptionalFields, 7))
  {
    BuildRecordAddsAll(category, form);
    StocksPriceShadowed(Base(category, form), form);
  }

  lemma BuildRecordAddsAll(category: string, form: Form)
    ensures BuildRecord(category, form) == AddAll(Base(category, form), form, OptionalFields)
  {
  }

  lemma StocksPriceShadowed(rec: Record, form: Form)
    ensures AddAll(rec, form, OptionalFields) == AddAll(rec, form, WithoutCall(OptionalFields, 7))
  {
    DropShadowedCall(rec, form, OptionalFields, 7, 10);
  }

  /** A key no call names passes through the calls untouched. */
  lemma UntouchedKey(rec: Record, form: Form, fields: seq<OptionalField>, key: string, v: RawValue)
    requires LastCall(fields, key) == None
    ensures AddAll(rec[key := v], form, fields) == AddAll(rec, form, fields)[key := v]
  {
    var a, b := AddAll(rec[key := v], form, fields), AddAll(rec, form, fields)[key := v];
    forall k ensures Lookup(a, k) == Lookup(b, k) {
      assert Lookup(a, k) == Expected(rec[key := v], form, fields, k);
      if k != key {
        assert Lookup(rec[key := v], k) == Lookup(rec, k);
        assert Expected(rec[key := v], form, fields, k) == Expected(rec, form, fields, k);
        assert Lookup(b, k) == Lookup(AddAll(rec, form, fields), k);
      } else {
        assert Expected(rec[key := v], form, fields, k) == Lookup(rec[key := v], k);
      }
    }
    RecordsAgree(a, b);
  }

  /** The route's category reaches only the `category` field: every
      `maybeAdd` call is made whatever the category, so the same form under
      two categories gives records that differ in that field alone. */
  lemma CategoryOnlySetsCategory(c1: string, c2: string, form: Form)
    ensures BuildRecord(c1, form) == BuildRecord(c2, form)["category" := Str(c1)]
  {
    BuildRecordAddsAll(c1, form);
    BuildRecordAddsAll(c2, form);
    BaseCategory(c1, c2, form);
    CategoryUntouched(Base(c2, form), form, Str(c1));
  }

  lemma BaseCategory(c1: string, c2: string, form: Form)
    ensures Base(c1, form) == Base(c2, form)["category" := Str(c1)]
  {
    BaseFieldsCategory(c1, c2, NameOf(form), ToNumber(FormValue(form, "purchaseValue")), DateOf(form),
                       ToNumber(FormValue(form, "currentValue")));
  }

  lemma BaseFieldsCategory(c1: string, c2: string, name: string, purchaseValue: real, purchaseDate: string,
                           currentValue: real)
    ensures BaseFields(c1, name, purchaseValue, purchaseDate, currentValue)
            == BaseFields(c2, name, purchaseValue, purchaseDate, currentValue)["category" := Str(c1)]
  {
    var b := BaseFields(c2, name, purchaseValue, purchaseDate, currentValue);
    var b1, b2 := BaseFields(c1, name, purchaseValue, purchaseDate, currentValue), b["category" := Str(c1)];
    assert b1.Keys == b2.Keys;
    forall k | k in b1 ensures b1[k] == b2[k] {
      if k != "category" {
        assert k in BaseKeys - {"category"};
        assert b2[k] == b[k];
      }
    }
  }

  lemma CategoryUntouched(rec: Record, form: Form, v: RawValue)
    ensures AddAll(rec["category" := v], form, OptionalFields) == AddAll(rec, form, OptionalFields)["category" := v]
  {
    LastCallOfOptionalFields("category");
    KeyTablesDisjoint();
    assert KindTable("category") == None;
    UntouchedKey(rec, form, OptionalFields, "category", v);
  }

  /** The two predicates pin the record down: at most one record meets both. */
  lemma ContractDeterminesRecord(category: string, form: Form, r1: Record, r2: Record)
    requires HasBaseFields(category, form, r1) && HasOptionalFields(form, r1)
    requires HasBaseFields(category, form, r2) && HasOptionalFields(form, r2)
    ensures r1 == r2
  {
    BaseFieldsDetermined(category, form, r1, r2);
    OptionalFieldsDetermined(form, r1, r2);
    forall k ensures Lookup(r1, k) == Lookup(r2, k) {
      if k in BaseKeys {
        assert k in r1 && k in r2 && r1[k] == r2[k];
      }
    }
    RecordsAgree(r1, r2);
  }

  lemma BaseFieldsDetermined(category: string, form: Form, r1: Record, r2: Record)
    requires HasBaseFields(category, form, r1) && HasBaseFields(category, form, r2)
    ensures forall k :: k in BaseKeys ==> k in r1 && k in r2 && r1[k] == r2[k]
  {
    assert r1["category"] == r2["category"] && r1["name"] == r2["name"];
    assert r1["purchaseValue"] == r2["purchaseValue"] && r1["purchaseDate"] == r2["purchaseDate"];
    assert r1["currentValue"] == r2["currentValue"];
    forall k | k in BaseKeys ensures k in r1 && k in r2 && r1[k] == r2[k] {
      BaseKeysCases(k);
    }
  }

  lemma BaseKeysCases(k: string)
    requires k in BaseKeys
    ensures k == "category" || k == "name" || k == "purchaseValue" || k == "purchaseDate" || k == "currentValue"
  {
  }

  lemma OptionalFieldsDetermined(form: Form, r1: Record, r2: Record)
    requires HasOptionalFields(form, r1) && HasOptionalFields(form, r2)
    ensures forall k :: k !in BaseKeys ==> Lookup(r1, k) == Lookup(r2, k)
  {
    KeyTablesDisjoint();
    forall k | k !in BaseKeys ensures Lookup(r1, k) == Lookup(r2, k) {
      if k in NumericKeys {
        assert k in r1 <==> k in r2;
      } else if k in TextKeys {
        assert k in r1 <==> k in r2;
      } else {
        assert k !in r1 && k !in r2;
      }
    }
  }

  /** The form fields the submit handler reads. */
  const ReadKeys: set<string> := {"name", "purchaseValue", "purchaseDate", "currentValue"} + NumericKeys + TextKeys

  /** Form entries the handler does not read leave no trace in the record. */
  lemma UnreadFormKeysIgnored(category: string, form1: Form, form2: Form)
    requires forall k :: k in ReadKeys ==> FormValue(form1, k) == FormValue(form2, k)
    ensures BuildRecord(category, form1) == BuildRecord(category, form2)
  {
    var r1 := BuildRecord(category, form1);
    assert "name" in ReadKeys && "purchaseValue" in ReadKeys;
    assert "purchaseDate" in ReadKeys && "currentValue" in ReadKeys;
    BaseFieldsFromReadKeys(category, form1, form2, r1);
    OptionalFieldsFromReadKeys(form1, form2, r1);
    ContractDeterminesRecord(category, form2, r1, BuildRecord(category, form2));
  }

  lemma BaseFieldsFromReadKeys(category: string, form1: Form, form2: Form, r: Record)
    requires FormValue(form1, "name") == FormValue(form2, "name")
    requires FormValue(form1, "purchaseValue") == FormValue(form2, "purchaseValue")
    requires FormValue(form1, "purchaseDate") == FormValue(form2, "purchaseDate")
    requires FormValue(form1, "currentValue") == FormValue(form2, "currentValue")
    requires HasBaseFields(category, form1, r)
    ensures HasBaseFields(category, form2, r)
  {
  }

  lemma OptionalFieldsFromReadKeys(form1: Form, form2: Form, r: Record)
    requires forall k :: k in NumericKeys + TextKeys ==> FormValue(form1, k) == FormValue(form2, k)
    requires HasOptionalFields(form1, r)
    ensures HasOptionalFields(form2, r)
  {
    forall k | k in NumericKeys + TextKeys ensures (k in form1 <==> k in form2) && (k in form1 ==> form1[k] == form2[k]) {
      assert FormValue(form1, k) == FormValue(form2, k);
    }
  }

  /** The built record always carries the route's category, so it belongs on
      the page it was added from. */
  lemma BuiltRecordInCategory(category: string, form: Form)
    ensures InCategory(category, BuildRecord(category, form))
  {
    assert "category" in BaseKeys;
  }

  // ---------------------------------------------------------------------
  // Reading numbers from the form

  /** `toNumber` of text whose ends are not whitespace is `parseFloat` of
      that text, or 0. */
  lemma ToNumberOfTrimmed(t: string)
    requires |t| > 0 ==> !IsWhitespace(t[0]) && !IsWhitespace(t[|t| - 1])
    ensures ToNumber(Str(t)) == FiniteOrZero(ParseFloat(t))
  {
    TrimOfTrimmed(t);
  }

  /** `String(v)` of `undefined`, `null` or a boolean is a word, which
      `parseFloat` rejects, so those read as 0. */
  lemma ToNumberOfWord(v: RawValue)
    requires v.Undefined? || v.Null? || v.Bool?
    ensures ToNumber(v) == 0.0
  {
    ToNumberOfText(v);
    WordText(v);
    WordIsNotANumber(ToText(v));
  }

  lemma ToNumberOfText(v: RawValue)
    requires !v.Num?
    ensures ToNumber(v) == TextToNumber(ToText(v))
  {
  }

  /** "undefined", "null", "true" and "false" start with a lower-case letter
      and end in one. */
  lemma WordText(v: RawValue)
    requires v.Undefined? || v.Null? || v.Bool?
    ensures var t := ToText(v); |t| > 0 && 'a' <= t[0] <= 'z' && !IsWhitespace(t[|t| - 1])
  {
    var t := ToText(v);
    assert t[0] in "untf" && t[|t| - 1] in "dle";
    LetterEnds(t);
  }

  lemma LetterEnds(t: string)
    requires |t| > 0 && t[0] in "untf" && t[|t| - 1] in "dle"
    ensures 'a' <= t[0] <= 'z' && !IsWhitespace(t[|t| - 1])
  {
  }

  /** Text that starts with a lower-case letter is not a number. */
  lemma WordIsNotANumber(t: string)
    requires |t| > 0 && 'a' <= t[0] <= 'z' && !IsWhitespace(t[|t| - 1])
    ensures TextToNumber(t) == 0.0
  {
    assert !IsWhitespace(t[0]) && !IsWhitespace(t[|t| - 1]);
    TrimStartOfTrimmed(t);
    var b := StripSign(t).1;
    assert b == t;
    assert !StartsWith(b, "Infinity") by {
      if |b| >= 8 {
        assert b[..8][0] == b[0] != 'I';
      }
    }
    assert !StartsNumeric(TrimStart(t));
    assert ParseFloat(t).NaN?;
    ToNumberOfTrimmed(t);
  }

  /** `toNumber` reads the decimal, with any sign, at the front of the text
      once the surrounding whitespace is trimmed, and ignores whatever text
      follows that cannot extend it. */
  lemma ToNumberReadsLeadingDecimal(ws: string, sign: string, i: Digits, f: Digits, tail: string)
    requires AllWhitespace(ws)
    requires IsSign(sign)
    requires |i| + |f| > 0
    requires EndsLiteral(tail)
    ensures ToNumber(Str(ws + sign + i + FractionText(f) + tail)) == DecimalValue(sign == "-", i, f)
  {
    var s := ws + sign + i + FractionText(f) + tail;
    assert s == ws + (sign + i + FractionText(f)) + tail;
    TrimmedDecimal(ws, sign, i, f, tail);
    ParseFloatSignedDecimal(sign, i, f, TrimEnd(tail));
    ToNumberOfStr(s);
  }

  /** Trimming leaves the signed decimal and the tail without its trailing
      whitespace, which still cannot extend the literal. */
  lemma TrimmedDecimal(ws: string, sign: string, i: Digits, f: Digits, tail: string)
    requires AllWhitespace(ws)
    requires IsSign(sign)
    requires |i| + |f| > 0
    requires EndsLiteral(tail)
    ensures Trim(ws + (sign + i + FractionText(f)) + tail) == sign + i + FractionText(f) + TrimEnd(tail)
    ensures EndsLiteral(TrimEnd(tail))
  {
    DecimalTextEnds(sign, i, f);
    TrimAround(ws, sign + i + FractionText(f), tail);
    TrimEndIsPrefix(tail);
  }

  /** `toNumber` of text is `parseFloat` of its trim, or 0 when not finite. */
  lemma ToNumberOfStr(s: string)
    ensures ToNumber(Str(s)) == FiniteOrZero(ParseFloat(Trim(s)))
  {
  }

  /** A signed decimal text starts with a sign, a digit or a point, and ends
      with a digit. */
  lemma DecimalTextEnds(sign: string, i: Digits, f: Digits)
    requires IsSign(sign)
    requires |i| + |f| > 0
    ensures var d := sign + i + FractionText(f);
            |d| > 0 && !IsWhitespace(d[0]) && !IsWhitespace(d[|d| - 1])
  {
    var d := sign + i + FractionText(f);
    if |f| > 0 {
      assert d[|d| - 1] == f[|f| - 1];
    } else {
      assert d[|d| - 1] == i[|i| - 1];
    }
    if |sign| > 0 {
      assert d[0] == sign[0];
    } else if |i| > 0 {
      assert d[0] == i[0];
    } else {
      assert d[0] == '.';
    }
  }

  /** Commas are not removed: the number ends at the first comma, so
      "1,200" reads as 1. */
  lemma CommaEndsTheNumber(i: Digits, rest: string)
    requires |i| > 0
    ensures ToNumber(Str(i + "," + rest)) == DigitsValue(i) as real
  {
    IntegerText(i);
    assert "" + "" + i + FractionText("") + ("," + rest) == i + "," + rest;
    ToNumberReadsLeadingDecimal("", "", i, "", "," + rest);
  }

  /** A run of digits is the literal with no fraction, and denotes its value. */
  lemma IntegerText(i: Digits)
    ensures DecimalText(false, i, "") == i
    ensures DecimalValue(false, i, "") == DigitsValue(i) as real
  {
    assert DigitsValue("") == 0 && Pow10(0) == 1;
  }

  /** A natural number typed into the form reads as that number. */
  lemma ToNumberOfNatText(n: nat)
    ensures ToNumber(Str(NatToDigits(n))) == ToNumber(Num(n as real))
  {
    var s := NatToDigits(n);
    assert IsDigit(s[0]) && IsDigit(s[|s| - 1]);
    ToNumberOfTrimmed(s);
    NatRoundTrip(n);
  }

  // ---------------------------------------------------------------------
  // The page's asset list

  /** `a.category === category` */
  predicate InCategory(category: string, a: Record) {
    Get(a, "category") == Str(category)
  }

  function InCategoryTest(category: string): Record -> bool {
    a => InCategory(category, a)
  }

  /** `data.filter((a) => a.category === category)` */
  function CategoryAssets(data: seq<Record>, category: string): (r: seq<Record>)
    ensures |r| <= |data|
    ensures forall i :: 0 <= i < |r| ==> InCategory(category, r[i])
  {
    Seqs.Filter(InCategoryTest(category), data)
  }

  /** Each asset of the category appears as often as it was fetched, every
      other asset not at all. */
  lemma CategoryAssetsCount(data: seq<Record>, category: string, a: Record)
    ensures multiset(CategoryAssets(data, category))[a] == if InCategory(category, a) then multiset(data)[a] else 0
  {
    Seqs.FilterMultiplicity(InCategoryTest(category), data, a);
  }

  /** The filter keeps the fetched order: it distributes over concatenation. */
  lemma CategoryAssetsAppend(a: seq<Record>, b: seq<Record>, category: string)
    ensures CategoryAssets(a + b, category) == CategoryAssets(a, category) + CategoryAssets(b, category)
  {
    Seqs.FilterAppend(InCategoryTest(category), a, b);
  }

  /** Appending a saved record of the category at the end of the page's list
      gives the list a fresh fetch would show once the store has appended it. */
  lemma SaveMatchesRefetch(data: seq<Record>, category: string, saved: Record)
    requires InCategory(category, saved)
    ensures CategoryAssets(data + [saved], category) == CategoryAssets(data, category) + [saved]
  {
    Seqs.FilterSnoc(InCategoryTest(category), data, saved);
  }

  /** The page: the listed assets and the form. */
  datatype Page = Page(assets: seq<Record>, form: Form)

  /** The form `resetForm` leaves: the four base inputs, empty. */
  const EmptyForm: Form := map["name" := "", "purchaseValue" := "", "purchaseDate" := "", "currentValue" := ""]

  /** The list request on entering the page: `data` is the decoded array, or
      `None` when the request, the decoding or the filter throws (the error
      is only logged). */
  function AfterFetch(page: Page, category: string, data: Option<seq<Record>>): (p: Page)
    ensures data.None? ==> p == page
    ensures p.form == page.form
    ensures data.Some? ==> p.assets == CategoryAssets(data.value, category)
    ensures data.Some? ==> forall a :: multiset(p.assets)[a] == if InCategory(category, a) then multiset(data.value)[a] else 0
  {
    match data
    case None => page
    case Some(fetched) =>
      forall a ensures multiset(CategoryAssets(fetched, category))[a]
                       == if InCategory(category, a) then multiset(fetched)[a] else 0 {
        CategoryAssetsCount(fetched, category, a);
      }
      page.(assets := CategoryAssets(fetched, category))
  }

  /** How the POST of a new record ends. */
  datatype SaveReply =
    | NetworkError
      /** The server answered; `body` is `None` when it is not JSON, so
          `res.json()` throws. */
    | Response(status: int, body: Option<Record>)

  /** The save as the handler is written: any JSON body is appended and the
      form reset, whatever the status. */
  function AfterSaveAsWritten(page: Page, reply: SaveReply): (p: Page)
    ensures reply.Response? && reply.body.Some? ==>
              |p.assets| == |page.assets| + 1 && p.assets[..|page.assets|] == page.assets
              && p.assets[|page.assets|] == reply.body.value && p.form == EmptyForm
    ensures !(reply.Response? && reply.body.Some?) ==> p == page
  {
    match reply
    case Response(_, Some(saved)) => Page(page.assets + [saved], EmptyForm)
    case _ => page
  }

  /** An error reply with a JSON body lands in the list as if it were an asset. */
  lemma ErrorReplyIsListed(page: Page)
    ensures var reply := Response(500, Some(map["error" := Str("Failed to save")]));
            !IsOk(reply.status) && AfterSaveAsWritten(page, reply).assets[|page.assets|] == reply.body.value
  {
  }

  /** The save with the status checked: only a 2xx reply with a JSON body
      adds the record and resets the form; every failure leaves the page as
      it was. */
  function AfterSave(page: Page, reply: SaveReply): (p: Page)
    ensures !(reply.Response? && IsOk(reply.status) && reply.body.Some?) ==> p == page
    ensures reply.Response? && IsOk(reply.status) && reply.body.Some? ==>
              |p.assets| == |page.assets| + 1 && p.assets[..|page.assets|] == page.assets
              && p.assets[|page.assets|] == reply.body.value && p.form == EmptyForm
  {
    match reply
    case Response(status, Some(saved)) =>
      if IsOk(status) then
        var assets := page.assets + [saved];
        assert assets[..|page.assets|] == page.assets;
        Page(assets, EmptyForm)
      else page
    case _ => page
  }

  /** On a successful reply the two versions agree. */
  lemma SaveVersionsAgreeOnSuccess(page: Page, reply: SaveReply)
    requires reply.Response? && IsOk(reply.status)
    ensures AfterSave(page, reply) == AfterSaveAsWritten(page, reply)
  {
  }
}
