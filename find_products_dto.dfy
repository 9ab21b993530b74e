/** `FindProductsDto`: the query of a product search. `tagIds` arrives as a
    comma-separated string and is turned into a list of integers, then
    checked by three declared rules gated by a `ValidateIf` condition;
    `categoryId` is coerced with `Number` and must then be a number. */
module FindProductsDto {
  import opened Wrappers
  import opened Text
  import opened Numbers

  /** The JavaScript values a query field takes here: `undefined`, a
      string, a number (`None` is NaN) or an array. */
  datatype JsValue = Undefined | Str(s: string) | Number(n: Option<int>) | Array(items: seq<JsValue>)

  /** The declared `tagIds` rules, in declaration order. */
  datatype Rule = IsArrayRule | ArrayNotEmptyRule | IsIntEachRule

  /** `parseInt(part, 10)` for every part, in order. */
  function ParseEach(parts: seq<string>): (r: seq<JsValue>)
    ensures |r| == |parts|
    ensures forall i :: 0 <= i < |parts| ==> r[i] == Number(ParseInt(parts[i]))
  {
    seq(|parts|, i requires 0 <= i < |parts| => Number(ParseInt(parts[i])))
  }

  /** The `tagIds` transform: a string becomes the list of `parseInt` of
      its comma-separated segments; any other value is kept. */
  function TransformTagIds(v: JsValue): (r: JsValue)
    ensures !v.Str? ==> r == v
    ensures v.Str? ==> r.Array? && |r.items| == |Split(v.s, ',')|
    ensures v.Str? ==> forall i :: 0 <= i < |r.items| ==> r.items[i] == Number(ParseInt(Split(v.s, ',')[i]))
  {
    if v.Str? then Array(ParseEach(Split(v.s, ','))) else v
  }

  /** There is one entry per comma-separated segment: one more than there
      are commas. */
  lemma {:induction false} TagIdsCount(s: string)
    ensures |TransformTagIds(Str(s)).items| == multiset(s)[','] + 1
  {
    SplitLength(s, ',');
  }

  /** The empty string gives the one-entry list `[NaN]`, not an empty
      list. */
  lemma {:induction false} EmptyTagIds()
    ensures TransformTagIds(Str("")) == Array([Number(None)])
  {
    assert ParseInt("") == None by { ParseIntNaN(""); }
  }

  /** A list of integers written with commas between them comes back as
      that list. */
  lemma {:induction false} TagIdsRoundTrip(ids: seq<int>)
    requires |ids| >= 1
    ensures TransformTagIds(Str(Join(Shown(ids), ','))) == Array(AsNumbers(ids))
  {
    var parts := Shown(ids);
    forall i | 0 <= i < |parts|
      ensures ',' !in parts[i]
    {
      NoCommaInShowInt(ids[i]);
    }
    SplitJoin(parts, ',');
    forall i | 0 <= i < |ids|
      ensures ParseInt(parts[i]) == Some(ids[i])
    {
      ParseIntOfShowInt(ids[i]);
    }
  }

  /** Every integer of `ids` written in decimal. */
  function Shown(ids: seq<int>): (r: seq<string>)
    ensures |r| == |ids| && forall i :: 0 <= i < |ids| ==> r[i] == ShowInt(ids[i])
  {
    seq(|ids|, i requires 0 <= i < |ids| => ShowInt(ids[i]))
  }

  /** Every integer of `ids` as a JavaScript number. */
  function AsNumbers(ids: seq<int>): (r: seq<JsValue>)
    ensures |r| == |ids| && forall i :: 0 <= i < |ids| ==> r[i] == Number(Some(ids[i]))
  {
    seq(|ids|, i requires 0 <= i < |ids| => Number(Some(ids[i])))
  }

  /** The decimal rendering of an integer holds no comma. */
  lemma {:induction false} NoCommaInShowInt(i: int)
    ensures ',' !in ShowInt(i)
  {
    var m: nat := if i < 0 then -i else i;
    ShowNatDigits(m);
    assert ShowInt(i) == if i < 0 then "-" + ShowNat(m) else ShowNat(m);
  }

  /** `isInt`: a number whose value is an integer; NaN is not. */
  predicate IsInt(v: JsValue)
  {
    v.Number? && v.n.Some?
  }

  /** Whether one declared rule fails on the value: `IsArray`,
      `ArrayNotEmpty`, and `IsInt` with `each`, which checks every entry
      of an array and the value itself otherwise. */
  predicate Fails(rule: Rule, v: JsValue)
  {
    match rule
    case IsArrayRule => !v.Array?
    case ArrayNotEmptyRule => !(v.Array? && |v.items| > 0)
    case IsIntEachRule =>
      if v.Array? then exists i :: 0 <= i < |v.items| && !IsInt(v.items[i]) else !IsInt(v)
  }

  /** The rules that report on `tagIds`: none when the value is absent
      (`IsOptional`) or when the `ValidateIf` gate is closed; otherwise
      every declared rule that fails. */
  function TagIdsErrors(v: JsValue, gate: bool): (r: set<Rule>)
    ensures v.Undefined? || !gate ==> r == {}
    ensures !v.Undefined? && gate ==> forall rule :: rule in r <==> Fails(rule, v)
  {
    if v.Undefined? || !gate then {}
    else set rule | rule in {IsArrayRule, ArrayNotEmptyRule, IsIntEachRule} && Fails(rule, v)
  }

  /** Validation as written: the gate `typeof o.tagIds === 'string'` is
      evaluated on the object after the transform has run. */
  function ValidateTagIds(raw: JsValue): (r: set<Rule>)
  {
    var v := TransformTagIds(raw);
    TagIdsErrors(v, v.Str?)
  }

  /** Finding, as written: after the transform no value is a string, so
      the gate is always closed and no rule ever reports, not even on
      `[NaN]` from an empty string or a segment such as `abc`. */
  lemma ValidationNeverReports(raw: JsValue)
    ensures ValidateTagIds(raw) == {}
  {
  }

  /** Validation as evidently intended: the rules run on the transformed
      list whenever `tagIds` was given as a string. */
  function ValidateTagIdsCorrected(raw: JsValue): (r: set<Rule>)
  {
    TagIdsErrors(TransformTagIds(raw), raw.Str?)
  }

  /** On a non-empty array only the integer rule can report. */
  lemma ErrorsOfNonEmptyArray(v: JsValue)
    requires v.Array? && |v.items| > 0
    ensures TagIdsErrors(v, true) == if Fails(IsIntEachRule, v) then {IsIntEachRule} else {}
  {
    var r := TagIdsErrors(v, true);
    assert !Fails(IsArrayRule, v) && !Fails(ArrayNotEmptyRule, v);
    forall rule | rule in r
      ensures rule == IsIntEachRule
    {
    }
  }

  /** The integer rule fails on the parsed segments exactly when one of
      them is NaN. */
  lemma ParsedSegmentsRule(parts: seq<string>)
    ensures Fails(IsIntEachRule, Array(ParseEach(parts))) <==>
      exists i :: 0 <= i < |parts| && ParseInt(parts[i]).None?
  {
    var v := Array(ParseEach(parts));
    if exists i :: 0 <= i < |parts| && ParseInt(parts[i]).None? {
      var i :| 0 <= i < |parts| && ParseInt(parts[i]).None?;
      assert !IsInt(v.items[i]);
    }
  }

  /** Some comma-separated segment of `s` parses to NaN. */
  predicate SomeSegmentNaN(s: string)
  {
    exists i :: 0 <= i < |Split(s, ',')| && ParseInt(Split(s, ',')[i]).None?
  }

  /** Corrected: a string passes exactly when every comma-separated
      segment starts with an integer; otherwise the integer rule, and only
      it, reports. */
  lemma {:induction false} CorrectedValidation(s: string)
    ensures ValidateTagIdsCorrected(Str(s)) == if SomeSegmentNaN(s) then {IsIntEachRule} else {}
  {
    var parts := Split(s, ',');
    var v := Array(ParseEach(parts));
    assert ValidateTagIdsCorrected(Str(s)) == TagIdsErrors(v, true);
    ParsedSegmentsRule(parts);
    ErrorsOfNonEmptyArray(v);
  }

  /** Corrected: the empty string, whose one segment is NaN, is refused. */
  lemma {:induction false} CorrectedRejectsEmpty()
    ensures ValidateTagIdsCorrected(Str("")) == {IsIntEachRule}
  {
    CorrectedValidation("");
    ParseIntNaN("");
    assert Split("", ',')[0] == "";
  }

  /** Corrected: a list with a segment that is not a number is refused. */
  lemma {:induction false} CorrectedRejectsWord()
    ensures ValidateTagIdsCorrected(Str("1,abc")) == {IsIntEachRule}
  {
    var parts := ["1", "abc"];
    assert Join(parts, ',') == "1,abc";
    SplitJoin(parts, ',');
    assert TrimStart("abc") == "abc";
    ParseIntNaN("abc");
    assert ParseInt(Split("1,abc", ',')[1]).None?;
    CorrectedValidation("1,abc");
  }

  /** The `@Type(() => Number)` coercion of `categoryId`: an absent value
      stays absent, a string becomes `Number(s)`. */
  function CoerceCategoryId(raw: Option<string>): (r: JsValue)
    ensures raw.None? ==> r == Undefined
    ensures raw.Some? ==> r == Number(NumberOf(raw.value))
  {
    match raw
    case None => Undefined
    case Some(s) => Number(NumberOf(s))
  }

  /** `categoryId` is valid when absent, or when its coerced value is a
      number other than NaN. */
  function CategoryIdValid(raw: Option<string>): (ok: bool)
    ensures ok <==> raw.None? || NumberOf(raw.value).Some?
  {
    var v := CoerceCategoryId(raw);
    v.Undefined? || IsInt(v)
  }

  /** An integer written in decimal passes and is read back as itself. */
  lemma {:induction false} CategoryIdRoundTrip(i: int)
    ensures CategoryIdValid(Some(ShowInt(i)))
    ensures CoerceCategoryId(Some(ShowInt(i))) == Number(Some(i))
  {
    NumberOfShowInt(i);
  }

  /** Unlike `parseInt`, the coercion refuses trailing characters, and it
      reads the empty string as 0. */
  lemma {:induction false} CategoryIdCoercionEdges()
    ensures !CategoryIdValid(Some("12abc"))
    ensures CoerceCategoryId(Some("")) == Number(Some(0))
  {
    ParseIntVersusNumber();
  }
}
