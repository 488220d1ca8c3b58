/** Validation of imported word data (`validateWords`) and the duplicate-word report
    (`checkDuplicates`). */
module Validator {
  import opened Wrappers
  import Seqs

  /** A parsed JSON value. An absent property reads as `undefined`, modelled by None. */
  datatype Json =
    | JNull
    | JBool(b: bool)
    | JNumber(n: real)
    | JString(s: string)
    | JArray(items: seq<Json>)
    | JObject(fields: map<string, Json>)

  datatype ValidationError = ValidationError(index: int, field: string, message: string)

  datatype ValidationResult = ValidationResult(valid: bool, errors: seq<ValidationError>)

  /** `typeof v === 'object' && v !== null`: arrays count as objects. */
  predicate IsObject(v: Json) {
    v.JObject? || v.JArray?
  }

  /** `v[key]` on a value that passed `IsObject`; arrays have none of the keys read here. */
  function Prop(v: Json, key: string): (r: Option<Json>)
    ensures r.Some? ==> v.JObject? && key in v.fields && r.value == v.fields[key]
    ensures v.JObject? && key in v.fields ==> r.Some?
  {
    if v.JObject? && key in v.fields then Some(v.fields[key]) else None
  }

  /** `v && typeof v === 'string'`: a string that is not empty (the only falsy string). */
  predicate IsNonEmptyString(v: Option<Json>) {
    v.Some? && v.value.JString? && v.value.s != ""
  }

  /** The optional fields that must be strings when present. */
  const STRING_FIELDS: seq<string> := [
    "pronunciation", "katakana", "type", "contextMeaning", "example",
    "translation", "sentenceBreakdown", "wordByWordTranslation", "note"]

  const ROOT_ERROR := ValidationError(-1, "root", "Word data must be an array")

  /** The number a string of decimal digits denotes, most significant digit first. */
  function DecimalValue(s: string): nat
    requires forall i :: 0 <= i < |s| ==> '0' <= s[i] <= '9'
  {
    if s == [] then 0
    else 10 * DecimalValue(s[..|s| - 1]) + (s[|s| - 1] - '0') as nat
  }

  /** Decimal digits of a natural number, as a template literal writes it: no leading
      zero, and the digits read back as `n`. */
  function NatToString(n: nat): (s: string)
    ensures |s| >= 1
    ensures forall i :: 0 <= i < |s| ==> '0' <= s[i] <= '9'
    ensures n < 10 ==> s == ['0' + n as char]
    ensures |s| > 1 ==> s[0] != '0'
    ensures DecimalValue(s) == n
    decreases n
  {
    if n < 10 then ['0' + n as char] else NatToString(n / 10) + ['0' + (n % 10) as char]
  }

  // ---------------------------------------------------------------------------------
  // The error list, as a function of the input.

  function RequiredMessage(field: string): string {
    "Missing or invalid \"" + field + "\" field"
  }

  function FieldTypeMessage(field: string): string {
    "Invalid type for \"" + field + "\" field (expected string)"
  }

  /** The field name `derivatives[k]`, and `derivatives[k].word` for a missing word. */
  function DerivativeField(k: nat): string {
    "derivatives[" + NatToString(k) + "]"
  }

  const NOT_OBJECT_MESSAGE := "Word must be an object"
  const DERIVATIVES_MESSAGE := "Invalid type for \"derivatives\" field (expected array)"
  const DERIVATIVE_NOT_OBJECT_MESSAGE := "Derivative must be an object"
  const DERIVATIVE_WORD_MESSAGE := "Missing or invalid \"word\" field in derivative"

  /** The error for a required field (`word` or `meaning`) that is not a non-empty string. */
  function RequiredError(index: int, w: Json, field: string): (r: seq<ValidationError>)
    ensures r == [] <==> IsNonEmptyString(Prop(w, field))
    ensures |r| <= 1
    ensures forall e :: e in r ==> e.index == index && e.field == field
  {
    if IsNonEmptyString(Prop(w, field)) then []
    else [ValidationError(index, field, RequiredMessage(field))]
  }

  /** The error for an optional field present with a non-string value. */
  function FieldTypeError(index: int, w: Json, field: string): (r: seq<ValidationError>)
    ensures r == [] <==> Prop(w, field).None? || Prop(w, field).value.JString?
    ensures |r| <= 1
    ensures forall e :: e in r ==> e.index == index && e.field == field
  {
    var v := Prop(w, field);
    if v.Some? && !v.value.JString? then
      [ValidationError(index, field, FieldTypeMessage(field))]
    else []
  }

  /** The optional-field errors, in the order of `fields`. */
  function FieldTypeErrors(index: int, w: Json, fields: seq<string>): (r: seq<ValidationError>)
    ensures forall e :: e in r ==> e.index == index
    ensures |r| <= |fields|
  {
    if fields == [] then []
    else FieldTypeErrors(index, w, fields[..|fields| - 1]) + FieldTypeError(index, w, fields[|fields| - 1])
  }

  /** The error for the derivative at position `k`: not an object, or without a word. */
  function DerivativeError(index: int, k: nat, d: Json): (r: seq<ValidationError>)
    ensures r == [] <==> IsObject(d) && IsNonEmptyString(Prop(d, "word"))
    ensures |r| <= 1
    ensures forall e :: e in r ==> e.index == index
    ensures forall e :: e in r ==>
      (e.field == DerivativeField(k) <==> !IsObject(d)) &&
      (e.field == DerivativeField(k) + ".word" <==> IsObject(d))
  {
    if !IsObject(d) then
      [ValidationError(index, DerivativeField(k), DERIVATIVE_NOT_OBJECT_MESSAGE)]
    else if !IsNonEmptyString(Prop(d, "word")) then
      [ValidationError(index, DerivativeField(k) + ".word",
                       DERIVATIVE_WORD_MESSAGE)]
    else []
  }

  /** The errors of the first `n` derivatives. */
  function DerivativeErrors(index: int, ds: seq<Json>, n: nat): (r: seq<ValidationError>)
    requires n <= |ds|
    ensures forall e :: e in r ==> e.index == index
    ensures |r| <= n
  {
    if n == 0 then [] else DerivativeErrors(index, ds, n - 1) + DerivativeError(index, n - 1, ds[n - 1])
  }

  /** The errors of the `derivatives` field: none when absent, one when not an array. */
  function DerivativesErrors(index: int, w: Json): (r: seq<ValidationError>)
    ensures forall e :: e in r ==> e.index == index
    ensures Prop(w, "derivatives").None? ==> r == []
    ensures Prop(w, "derivatives").Some? && !Prop(w, "derivatives").value.JArray? ==>
      |r| == 1 && r[0].field == "derivatives"
  {
    var v := Prop(w, "derivatives");
    if v.None? then []
    else if v.value.JArray? then DerivativeErrors(index, v.value.items, |v.value.items|)
    else [ValidationError(index, "derivatives", DERIVATIVES_MESSAGE)]
  }

  /** Every error reported for the entry at `index`. A non-object entry yields a single error. */
  function EntryErrors(index: int, w: Json): (r: seq<ValidationError>)
    ensures forall e :: e in r ==> e.index == index
    ensures !IsObject(w) ==> r == [ValidationError(index, "word", NOT_OBJECT_MESSAGE)]
  {
    if !IsObject(w) then [ValidationError(index, "word", NOT_OBJECT_MESSAGE)]
    else RequiredError(index, w, "word") + RequiredError(index, w, "meaning")
         + FieldTypeErrors(index, w, STRING_FIELDS) + DerivativesErrors(index, w)
  }

  /** The errors of each entry, entry by entry. */
  function EntryErrorLists(items: seq<Json>): (ls: seq<seq<ValidationError>>)
    ensures |ls| == |items|
    ensures forall i :: 0 <= i < |items| ==> ls[i] == EntryErrors(i, items[i])
  {
    seq(|items|, i requires 0 <= i < |items| => EntryErrors(i, items[i]))
  }

  /** Each list of `ls` holds only errors reported against its own position. */
  ghost predicate IndexedByPosition(ls: seq<seq<ValidationError>>) {
    forall i, e :: 0 <= i < |ls| && e in ls[i] ==> e.index == i
  }

  lemma EntryErrorListsIndexed(items: seq<Json>)
    ensures IndexedByPosition(EntryErrorLists(items))
  {
  }

  /** What `validateWords` returns. */
  function Validate(words: Json): (r: ValidationResult)
    ensures r.valid <==> r.errors == []
    ensures !words.JArray? ==> r.errors == [ROOT_ERROR]
  {
    if !words.JArray? then ValidationResult(false, [ROOT_ERROR])
    else
      var errors := Seqs.Flatten(EntryErrorLists(words.items));
      ValidationResult(errors == [], errors)
  }

  // ---------------------------------------------------------------------------------
  // The validator itself.

  /** `validateWords`: walks the entries, and inside each entry its fields and
      derivatives, appending errors as it goes. */
  method ValidateWords(words: Json) returns (result: ValidationResult)
    ensures result == Validate(words)
  {
    if !words.JArray? {
      return ValidationResult(false, [ROOT_ERROR]);
    }
    var items := words.items;
    ghost var lists := EntryErrorLists(items);
    var errors: seq<ValidationError> := [];
    for i := 0 to |items|
      invariant errors == Seqs.Flatten(lists[..i])
    {
      var entryErrors := CheckEntry(i, items[i]);
      Seqs.FlattenSnoc(lists, i);
      errors := errors + entryErrors;
    }
    assert lists[..|items|] == lists;
    return ValidationResult(|errors| == 0, errors);
  }

  /** The per-entry callback of `validateWords`. */
  method CheckEntry(index: int, w: Json) returns (errors: seq<ValidationError>)
    ensures errors == EntryErrors(index, w)
  {
    if !IsObject(w) {
      return [ValidationError(index, "word", NOT_OBJECT_MESSAGE)];
    }
    errors := [];
    if !IsNonEmptyString(Prop(w, "word")) {
      errors := errors + [ValidationError(index, "word", RequiredMessage("word"))];
    }
    assert errors == RequiredError(index, w, "word");
    if !IsNonEmptyString(Prop(w, "meaning")) {
      errors := errors + [ValidationError(index, "meaning", RequiredMessage("meaning"))];
    }
    assert errors == RequiredError(index, w, "word") + RequiredError(index, w, "meaning");
    var fieldErrors := CheckFieldTypes(index, w, STRING_FIELDS);
    errors := errors + fieldErrors;
    ghost var head := errors;
    var derivatives := Prop(w, "derivatives");
    if derivatives.Some? {
      if !derivatives.value.JArray? {
        errors := errors + [ValidationError(index, "derivatives", DERIVATIVES_MESSAGE)];
      } else {
        var derivativeErrors := CheckDerivatives(index, derivatives.value.items);
        errors := errors + derivativeErrors;
      }
    }
    assert errors == head + DerivativesErrors(index, w);
  }

  /** The loop over the optional string fields of one entry (`STRING_FIELDS` at the
      call site). */
  method CheckFieldTypes(index: int, w: Json, fields: seq<string>) returns (errors: seq<ValidationError>)
    ensures errors == FieldTypeErrors(index, w, fields)
  {
    errors := [];
    for f := 0 to |fields|
      invariant errors == FieldTypeErrors(index, w, fields[..f])
    {
      var field := fields[f];
      var v := Prop(w, field);
      if v.Some? && !v.value.JString? {
        errors := errors + [ValidationError(index, field, FieldTypeMessage(field))];
      }
      assert fields[..f + 1][..f] == fields[..f];
    }
    assert fields[..|fields|] == fields;
  }

  /** The loop over the derivatives of one entry. */
  method CheckDerivatives(index: int, ds: seq<Json>) returns (errors: seq<ValidationError>)
    ensures errors == DerivativeErrors(index, ds, |ds|)
  {
    errors := [];
    for k := 0 to |ds|
      invariant errors == DerivativeErrors(index, ds, k)
    {
      if !IsObject(ds[k]) {
        errors := errors + [ValidationError(index, DerivativeField(k), DERIVATIVE_NOT_OBJECT_MESSAGE)];
      } else if !IsNonEmptyString(Prop(ds[k], "word")) {
        errors := errors + [ValidationError(index, DerivativeField(k) + ".word", DERIVATIVE_WORD_MESSAGE)];
      }
    }
  }

  // ---------------------------------------------------------------------------------
  // What the error list means.

  /** An entry the importer accepts, stated field by field. */
  ghost predicate EntryValid(w: Json) {
    && IsObject(w)
    && IsNonEmptyString(Prop(w, "word"))
    && IsNonEmptyString(Prop(w, "meaning"))
    && (forall f :: f in STRING_FIELDS ==> Prop(w, f).None? || Prop(w, f).value.JString?)
    && DerivativesValid(Prop(w, "derivatives"))
  }

  /** `derivatives` is absent, or an array of objects each with a non-empty `word`. */
  ghost predicate DerivativesValid(v: Option<Json>) {
    v.None? ||
    (v.value.JArray? && forall d :: d in v.value.items ==> IsObject(d) && IsNonEmptyString(Prop(d, "word")))
  }

  lemma {:induction false} FieldTypeErrorsEmpty(index: int, w: Json, fields: seq<string>)
    ensures FieldTypeErrors(index, w, fields) == []
        <==> forall f :: f in fields ==> Prop(w, f).None? || Prop(w, f).value.JString?
  {
    if fields != [] {
      var init := fields[..|fields| - 1];
      FieldTypeErrorsEmpty(index, w, init);
      assert fields == init + [fields[|fields| - 1]];
      ConcatEmpty(FieldTypeErrors(index, w, init), FieldTypeError(index, w, fields[|fields| - 1]));
    }
  }

  lemma ConcatEmpty<T>(a: seq<T>, b: seq<T>)
    ensures a + b == [] <==> a == [] && b == []
  {
    assert |a + b| == |a| + |b|;
  }

  lemma {:induction false} DerivativeErrorsEmpty(index: int, ds: seq<Json>, n: nat)
    requires n <= |ds|
    ensures DerivativeErrors(index, ds, n) == []
        <==> forall k :: 0 <= k < n ==> IsObject(ds[k]) && IsNonEmptyString(Prop(ds[k], "word"))
  {
    if n > 0 {
      DerivativeErrorsEmpty(index, ds, n - 1);
      ConcatEmpty(DerivativeErrors(index, ds, n - 1), DerivativeError(index, n - 1, ds[n - 1]));
    }
  }

  /** An entry yields no error exactly when it is valid. */
  lemma EntryErrorsEmpty(index: int, w: Json)
    ensures EntryErrors(index, w) == [] <==> EntryValid(w)
  {
    FieldTypeErrorsEmpty(index, w, STRING_FIELDS);
    var a := RequiredError(index, w, "word");
    var b := RequiredError(index, w, "meaning");
    var c := FieldTypeErrors(index, w, STRING_FIELDS);
    var d := DerivativesErrors(index, w);
    ConcatEmpty(a, b);
    ConcatEmpty(a + b, c);
    ConcatEmpty(a + b + c, d);
    DerivativesErrorsEmpty(index, w);
  }

  lemma DerivativesErrorsEmpty(index: int, w: Json)
    ensures DerivativesErrors(index, w) == [] <==> DerivativesValid(Prop(w, "derivatives"))
  {
    var v := Prop(w, "derivatives");
    if v.Some? && v.value.JArray? {
      var ds := v.value.items;
      DerivativeErrorsEmpty(index, ds, |ds|);
      assert (forall k :: 0 <= k < |ds| ==> IsObject(ds[k]) && IsNonEmptyString(Prop(ds[k], "word")))
         <==> (forall d :: d in ds ==> IsObject(d) && IsNonEmptyString(Prop(d, "word")));
    }
  }

  /** The data is accepted exactly when it is an array of valid entries. */
  lemma ValidIffEveryEntryValid(words: Json)
    ensures Validate(words).valid
        <==> words.JArray? && forall i :: 0 <= i < |words.items| ==> EntryValid(words.items[i])
  {
    if words.JArray? {
      var items := words.items;
      var ls := EntryErrorLists(items);
      Seqs.FlattenEmpty(ls);
      forall i | 0 <= i < |items|
        ensures ls[i] == [] <==> EntryValid(items[i])
      {
        EntryErrorsEmpty(i, items[i]);
      }
    }
  }

  lemma IndexedPrefix(ls: seq<seq<ValidationError>>)
    requires IndexedByPosition(ls) && ls != []
    ensures IndexedByPosition(ls[..|ls| - 1])
  {
    var prev := ls[..|ls| - 1];
    forall i, x: ValidationError | 0 <= i < |prev| && x in prev[i] ensures x.index == i {
      assert prev[i] == ls[i];
    }
  }

  lemma {:induction false} IndicesInRange(ls: seq<seq<ValidationError>>)
    requires IndexedByPosition(ls)
    ensures forall e :: e in Seqs.Flatten(ls) ==> 0 <= e.index < |ls|
  {
    if ls != [] {
      var init := ls[..|ls| - 1];
      IndicesInRange(init);
    }
  }

  lemma {:induction false} FlattenInPositionOrder(ls: seq<seq<ValidationError>>)
    requires IndexedByPosition(ls)
    ensures forall a, b :: 0 <= a < b < |Seqs.Flatten(ls)|
              ==> Seqs.Flatten(ls)[a].index <= Seqs.Flatten(ls)[b].index
  {
    if ls != [] {
      var prev := ls[..|ls| - 1];
      var last := ls[|ls| - 1];
      IndexedPrefix(ls);
      FlattenInPositionOrder(prev);
      IndicesInRange(prev);
      var f := Seqs.Flatten(prev);
      var e := f + last;
      assert forall x :: x in last ==> x.index == |ls| - 1;
      assert forall x :: x in f ==> x.index < |ls| - 1;
      forall a, b | 0 <= a < b < |e| ensures e[a].index <= e[b].index {
        if b >= |f| {
          assert e[b] == last[b - |f|] && e[b] in last;
          assert e[b].index == |ls| - 1;
          if a >= |f| {
            assert e[a] == last[a - |f|] && e[a] in last;
            assert e[a].index == |ls| - 1;
          } else {
            assert e[a] == f[a] && e[a] in f;
            assert e[a].index < |ls| - 1;
          }
        } else {
          assert e[a] == f[a] && e[b] == f[b];
          assert f[a].index <= f[b].index;
        }
      }
    }
  }

  /** Errors name an existing entry and are reported entry by entry, in the order of
      the entries. */
  lemma ErrorsInEntryOrder(items: seq<Json>)
    ensures var e := Validate(JArray(items)).errors;
      && (forall x :: x in e ==> 0 <= x.index < |items|)
      && (forall a, b :: 0 <= a < b < |e| ==> e[a].index <= e[b].index)
  {
    var ls := EntryErrorLists(items);
    EntryErrorListsIndexed(items);
    IndicesInRange(ls);
    FlattenInPositionOrder(ls);
  }

  /** Selects the errors reported for entry `k`. */
  function HasIndex(k: int): ValidationError -> bool {
    (e: ValidationError) => e.index == k
  }

  lemma FilterNone<T>(s: seq<T>, p: T -> bool)
    requires forall x :: x in s ==> !p(x)
    ensures Seqs.Filter(s, p) == []
  {
    if Seqs.Filter(s, p) != [] {
      assert Seqs.Filter(s, p)[0] in Seqs.Filter(s, p);
    }
  }

  lemma FilterIndexedNone(ls: seq<seq<ValidationError>>, k: int)
    requires IndexedByPosition(ls) && k >= |ls|
    ensures Seqs.Filter(Seqs.Flatten(ls), HasIndex(k)) == []
  {
    IndicesInRange(ls);
    FilterNone(Seqs.Flatten(ls), HasIndex(k));
  }

  lemma FilterIndexedAll(ls: seq<seq<ValidationError>>, k: int)
    requires IndexedByPosition(ls) && 0 <= k < |ls|
    ensures Seqs.Filter(ls[k], HasIndex(k)) == ls[k]
  {
    Seqs.FilterKeepsAll(ls[k], HasIndex(k));
  }

  /** The last list of an indexed flattening is what its own index selects. */
  lemma FilterFlattenLast(ls: seq<seq<ValidationError>>)
    requires IndexedByPosition(ls) && ls != []
    ensures Seqs.Filter(Seqs.Flatten(ls), HasIndex(|ls| - 1)) == ls[|ls| - 1]
  {
    var k := |ls| - 1;
    var prev := ls[..k];
    IndexedPrefix(ls);
    Seqs.FilterConcat(Seqs.Flatten(prev), ls[k], HasIndex(k));
    FilterIndexedNone(prev, k);
    FilterIndexedAll(ls, k);
    assert Seqs.Filter(Seqs.Flatten(ls), HasIndex(k)) == [] + ls[k];
  }

  lemma {:induction false} FilterFlattenAt(ls: seq<seq<ValidationError>>, k: int)
    requires IndexedByPosition(ls) && 0 <= k < |ls|
    ensures Seqs.Filter(Seqs.Flatten(ls), HasIndex(k)) == ls[k]
  {
    if k == |ls| - 1 {
      FilterFlattenLast(ls);
    } else {
      var prev := ls[..|ls| - 1];
      var last := ls[|ls| - 1];
      IndexedPrefix(ls);
      Seqs.FilterConcat(Seqs.Flatten(prev), last, HasIndex(k));
      FilterFlattenAt(prev, k);
      assert forall x :: x in last ==> x.index == |ls| - 1;
      FilterNone(last, HasIndex(k));
      assert Seqs.Filter(Seqs.Flatten(ls), HasIndex(k)) == prev[k] + [];
    }
  }

  /** The errors carrying index `k` are exactly the errors of entry `k`: no entry's
      problems are lost or attributed to another entry. */
  lemma ErrorsOfEntry(items: seq<Json>, k: int)
    requires 0 <= k < |items|
    ensures Seqs.Filter(Validate(JArray(items)).errors, HasIndex(k)) == EntryErrors(k, items[k])
  {
    EntryErrorListsIndexed(items);
    FilterFlattenAt(EntryErrorLists(items), k);
  }

  // ---------------------------------------------------------------------------------
  // Duplicates.

  /** The duplicated words of `words`, each once, in the order of their second
      occurrence. */
  function Duplicates(words: seq<string>): (r: seq<string>)
    ensures forall x :: x in r ==> x in words
  {
    if words == [] then []
    else
      var init := words[..|words| - 1];
      var x := words[|words| - 1];
      var d := Duplicates(init);
      if x in init && x !in d then d + [x] else d
  }

  /** `checkDuplicates`, over the `word` field of each entry. */
  method CheckDuplicates(words: seq<string>) returns (duplicates: seq<string>)
    ensures duplicates == Duplicates(words)
  {
    var seen: set<string> := {};
    duplicates := [];
    for i := 0 to |words|
      invariant seen == set j | 0 <= j < i :: words[j]
      invariant duplicates == Duplicates(words[..i])
    {
      var w := words[i];
      assert words[..i + 1][..i] == words[..i];
      if w in seen {
        assert w in words[..i];
        if w !in duplicates {
          duplicates := duplicates + [w];
        }
      } else {
        assert w !in words[..i];
        seen := seen + {w};
      }
    }
    assert words[..|words|] == words;
  }

  /** A word is reported exactly when it occurs at least twice, and it is reported once. */
  lemma {:induction false} DuplicatesExact(words: seq<string>)
    ensures forall x :: x in Duplicates(words) <==> multiset(words)[x] >= 2
    ensures Seqs.Distinct(Duplicates(words))
  {
    if words != [] {
      var init := words[..|words| - 1];
      var x := words[|words| - 1];
      assert words == init + [x];
      DuplicatesExact(init);
      var d := Duplicates(init);
      forall y ensures y in Duplicates(words) <==> multiset(words)[y] >= 2 {
        assert multiset(words)[y] == multiset(init)[y] + (if y == x then 1 else 0);
        assert x in init <==> multiset(init)[x] >= 1;
      }
      if x in init && x !in d {
        assert multiset(d + [x]) == multiset(d) + multiset{x};
        assert multiset(d)[x] == 0;
        forall y | y in multiset(d + [x]) ensures multiset(d + [x])[y] <= 1 {
          if y != x { assert y in multiset(d); }
        }
      }
    }
  }

  /** The report grows in the order of second occurrences: a word is appended exactly
      when the new entry is its second occurrence. */
  lemma DuplicatesSnoc(words: seq<string>, x: string)
    ensures Duplicates(words + [x]) == Duplicates(words) + (if multiset(words)[x] == 1 then [x] else [])
  {
    assert (words + [x])[..|words|] == words;
    DuplicatesExact(words);
    assert x in words <==> multiset(words)[x] >= 1;
  }

  /** No duplicates are reported exactly when the words are distinct. */
  lemma NoDuplicatesIffDistinct(words: seq<string>)
    ensures Duplicates(words) == [] <==> Seqs.Distinct(words)
  {
    DuplicatesExact(words);
    if Duplicates(words) != [] {
      var x := Duplicates(words)[0];
      assert x in Duplicates(words);
      assert x in multiset(words);
    } else {
      forall x | x in multiset(words) ensures multiset(words)[x] <= 1 {
        assert x !in Duplicates(words);
      }
    }
  }
}
