/** The two product payload validators: ordered chains of guards, each failure forwarded as a
    400 validation error, `next()` with no error when every guard passes. */
module ProductValidation {
  import opened Js
  import opened AppErrors

  /** A numeric body value as `isNaN` and `<` see it after JavaScript's coercion to number. */
  datatype Numeric = NaN | Finite(r: real)

  /** The body of a create request, restricted to the fields the validator reads. */
  datatype CreateBody = CreateBody(
    name: Field<string>,
    description: Field<string>,
    price: Field<Numeric>,
    quantity: Field<Numeric>,
    category: Field<string>)

  /** The body of an update request; `otherKeys` counts keys the validator never reads. */
  datatype UpdateBody = UpdateBody(
    name: Field<string>,
    description: Field<string>,
    price: Field<Numeric>,
    quantity: Field<Numeric>,
    category: Field<string>,
    imageUrl: Field<string>,
    otherKeys: nat)

  /** What a validator does: `next()`; `next(createValidationError(message))`; or it throws a
      `TypeError` itself (reading `trim` of `null`), which Express hands to the error handler. */
  datatype Verdict = Accept | Reject(message: string) | TypeError

  /** The error a rejection forwards to `next`. */
  function ForwardedError(v: Verdict): (e: AppError)
    requires v.Reject?
    ensures e.statusCode == 400 && e.status == "fail" && e.message == v.message
  {
    CreateValidationError(v.message)
  }

  const NameRequired := "Le nom du produit est requis"
  const NameEmpty := "Le nom du produit ne peut pas être vide"
  const NameTooLong := "Le nom du produit ne doit pas dépasser 100 caractères"
  const PriceInvalid := "Le prix doit être un nombre positif"
  const QuantityInvalid := "La quantité doit être un nombre positif"
  const DescriptionTooLong := "La description ne doit pas dépasser 1000 caractères"
  const CategoryTooLong := "La catégorie ne doit pas dépasser 50 caractères"
  const NoFields := "Aucun champ fourni pour la mise à jour"

  const MaxNameLength := 100
  const MaxDescriptionLength := 1000
  const MaxCategoryLength := 50

  /** `isNaN(x) || x < 0` for a value that is present; `null` coerces to 0 and passes. */
  predicate NaNOrNegative(f: Field<Numeric>) {
    f.Present? && (f.value.NaN? || f.value.r < 0.0)
  }

  /** `s && s.length > max`: an absent, null or empty string is never too long. */
  predicate TooLong(f: Field<string>, max: nat) {
    Truthy(f) && Utf16Length(f.value) > max
  }

  // ---------------------------------------------------------------------------
  // The guard chains, as written

  /** `!name || name.trim() === ''` fails exactly the names that are not a non-blank string. */
  lemma NameCheck(name: Field<string>)
    ensures (!Truthy(name) || Trim(name.value) == "") <==> !(name.Present? && !Blank(name.value))
  {
    if name.Present? {
      TrimEmptyIffBlank(name.value);
    }
  }

  function ValidateCreate(b: CreateBody): (v: Verdict)
    ensures v.Accept? <==> CreateValid(b)
    ensures !v.TypeError?
  {
    NameCheck(b.name);
    if !Truthy(b.name) || Trim(b.name.value) == "" then Reject(NameRequired)
    else if b.price.Missing? || NaNOrNegative(b.price) then Reject(PriceInvalid)
    else if b.quantity.Missing? || NaNOrNegative(b.quantity) then Reject(QuantityInvalid)
    else if Utf16Length(b.name.value) > MaxNameLength then Reject(NameTooLong)
    else if TooLong(b.description, MaxDescriptionLength) then Reject(DescriptionTooLong)
    else if TooLong(b.category, MaxCategoryLength) then Reject(CategoryTooLong)
    else Accept
  }

  /** The number of own keys of the parsed body (`Object.keys(body).length`); a key whose
      value is `null` is a key. */
  function KeyCount(b: UpdateBody): nat {
    (if b.name.Missing? then 0 else 1) + (if b.description.Missing? then 0 else 1)
    + (if b.price.Missing? then 0 else 1) + (if b.quantity.Missing? then 0 else 1)
    + (if b.category.Missing? then 0 else 1) + (if b.imageUrl.Missing? then 0 else 1)
    + b.otherKeys
  }

  function ValidateUpdate(b: UpdateBody): (v: Verdict)
    ensures v.TypeError? <==> KeyCount(b) > 0 && b.name.Null?
    ensures v.Accept? <==> UpdateValid(b)
  {
    TrimEmptyIffBlank(if b.name.Present? then b.name.value else "");
    if KeyCount(b) == 0 then Reject(NoFields)
    else if b.name.Null? then TypeError
    else if b.name.Present? && Trim(b.name.value) == "" then Reject(NameEmpty)
    else if b.name.Present? && Utf16Length(b.name.value) > MaxNameLength then Reject(NameTooLong)
    else if NaNOrNegative(b.price) then Reject(PriceInvalid)
    else if NaNOrNegative(b.quantity) then Reject(QuantityInvalid)
    else if TooLong(b.description, MaxDescriptionLength) then Reject(DescriptionTooLong)
    else if TooLong(b.category, MaxCategoryLength) then Reject(CategoryTooLong)
    else Accept
  }

  // ---------------------------------------------------------------------------
  // Declarative reading: what an accepted body looks like

  predicate NonNegativeOrNull(f: Field<Numeric>) {
    f.Null? || (f.Present? && f.value.Finite? && f.value.r >= 0.0)
  }

  /** A create body passes when its name is a non-blank string of at most 100 UTF-16 units,
      price and quantity are non-negative numbers (or `null`), and description and category,
      when given, respect their bounds. */
  predicate CreateValid(b: CreateBody) {
    && b.name.Present? && !Blank(b.name.value) && Utf16Length(b.name.value) <= MaxNameLength
    && NonNegativeOrNull(b.price) && NonNegativeOrNull(b.quantity)
    && (b.description.Present? ==> Utf16Length(b.description.value) <= MaxDescriptionLength)
    && (b.category.Present? ==> Utf16Length(b.category.value) <= MaxCategoryLength)
  }

  /** An update body passes when it has a key and every field it carries respects the create
      rules for that field; absent fields are not constrained. */
  predicate UpdateValid(b: UpdateBody) {
    && KeyCount(b) > 0
    && !b.name.Null?
    && (b.name.Present? ==> !Blank(b.name.value) && Utf16Length(b.name.value) <= MaxNameLength)
    && (b.price.Present? ==> b.price.value.Finite? && b.price.value.r >= 0.0)
    && (b.quantity.Present? ==> b.quantity.value.Finite? && b.quantity.value.r >= 0.0)
    && (b.description.Present? ==> Utf16Length(b.description.value) <= MaxDescriptionLength)
    && (b.category.Present? ==> Utf16Length(b.category.value) <= MaxCategoryLength)
  }

  // ---------------------------------------------------------------------------
  // Ordered reading: the first failing check in source order decides

  /** One guard: whether it fails on the body, and what the middleware then does. */
  datatype Check = Check(failed: bool, outcome: Verdict)

  function CreateChecks(b: CreateBody): seq<Check> {
    [ Check(!Truthy(b.name) || Trim(b.name.value) == "", Reject(NameRequired)),
      Check(b.price.Missing? || NaNOrNegative(b.price), Reject(PriceInvalid)),
      Check(b.quantity.Missing? || NaNOrNegative(b.quantity), Reject(QuantityInvalid)),
      Check(b.name.Present? && Utf16Length(b.name.value) > MaxNameLength, Reject(NameTooLong)),
      Check(TooLong(b.description, MaxDescriptionLength), Reject(DescriptionTooLong)),
      Check(TooLong(b.category, MaxCategoryLength), Reject(CategoryTooLong)) ]
  }

  function UpdateChecks(b: UpdateBody): seq<Check> {
    [ Check(KeyCount(b) == 0, Reject(NoFields)),
      Check(b.name.Null?, TypeError),
      Check(b.name.Present? && Trim(b.name.value) == "", Reject(NameEmpty)),
      Check(b.name.Present? && Utf16Length(b.name.value) > MaxNameLength, Reject(NameTooLong)),
      Check(NaNOrNegative(b.price), Reject(PriceInvalid)),
      Check(NaNOrNegative(b.quantity), Reject(QuantityInvalid)),
      Check(TooLong(b.description, MaxDescriptionLength), Reject(DescriptionTooLong)),
      Check(TooLong(b.category, MaxCategoryLength), Reject(CategoryTooLong)) ]
  }

  /** The outcome of the first failing check, if any. */
  function FirstFailure(checks: seq<Check>): Option<Verdict> {
    if checks == [] then None
    else if checks[0].failed then Some(checks[0].outcome)
    else FirstFailure(checks[1..])
  }

  /** `FirstFailure` finds nothing exactly when no check fails, and otherwise the outcome of a
      failing check that every earlier check passed. */
  lemma {:induction false} FirstFailureIsFirst(checks: seq<Check>)
    ensures FirstFailure(checks).None? <==> forall i | 0 <= i < |checks| :: !checks[i].failed
    ensures FirstFailure(checks).Some? ==> exists i | 0 <= i < |checks| ::
      checks[i].failed && checks[i].outcome == FirstFailure(checks).value
      && forall j | 0 <= j < i :: !checks[j].failed
  {
    if checks != [] && !checks[0].failed {
      FirstFailureIsFirst(checks[1..]);
      assert forall i | 1 <= i < |checks| :: checks[i] == checks[1..][i - 1];
      if FirstFailure(checks).Some? {
        var k :| 0 <= k < |checks[1..]| && checks[1..][k].failed
          && checks[1..][k].outcome == FirstFailure(checks).value
          && forall j | 0 <= j < k :: !checks[1..][j].failed;
        assert checks[k + 1].failed && forall j | 0 <= j < k + 1 :: !checks[j].failed;
      }
    }
  }

  function Decide(failure: Option<Verdict>): Verdict {
    if failure.Some? then failure.value else Accept
  }

  /** When check `k` is the first to fail, its outcome is the one reported. */
  lemma {:induction false} FirstFailureAt(checks: seq<Check>, k: nat)
    requires k < |checks| && checks[k].failed
    requires forall j | 0 <= j < k :: !checks[j].failed
    ensures FirstFailure(checks) == Some(checks[k].outcome)
  {
    if k > 0 {
      FirstFailureAt(checks[1..], k - 1);
    }
  }

  /** The create chain reports the first failing check in source order, and proceeds when none fails. */
  lemma CreateFollowsSourceOrder(b: CreateBody)
    ensures ValidateCreate(b) == Decide(FirstFailure(CreateChecks(b)))
  {
    var cs := CreateChecks(b);
    if cs[0].failed { FirstFailureAt(cs, 0); }
    else if cs[1].failed { FirstFailureAt(cs, 1); }
    else if cs[2].failed { FirstFailureAt(cs, 2); }
    else if cs[3].failed { FirstFailureAt(cs, 3); }
    else if cs[4].failed { FirstFailureAt(cs, 4); }
    else if cs[5].failed { FirstFailureAt(cs, 5); }
    else { FirstFailureIsFirst(cs); }
  }

  /** The update chain reports the first failing check in source order, and proceeds when none fails. */
  lemma UpdateFollowsSourceOrder(b: UpdateBody)
    ensures ValidateUpdate(b) == Decide(FirstFailure(UpdateChecks(b)))
  {
    var cs := UpdateChecks(b);
    if cs[0].failed { FirstFailureAt(cs, 0); }
    else if cs[1].failed { FirstFailureAt(cs, 1); }
    else if cs[2].failed { FirstFailureAt(cs, 2); }
    else if cs[3].failed { FirstFailureAt(cs, 3); }
    else if cs[4].failed { FirstFailureAt(cs, 4); }
    else if cs[5].failed { FirstFailureAt(cs, 5); }
    else if cs[6].failed { FirstFailureAt(cs, 6); }
    else if cs[7].failed { FirstFailureAt(cs, 7); }
    else { FirstFailureIsFirst(cs); }
  }

  // ---------------------------------------------------------------------------
  // Boundaries

  /** For a name made of BMP characters the bound is on its character count: exactly 100 passes,
      101 does not. */
  lemma NameLengthBound(b: CreateBody)
    requires b.name.Present? && !Blank(b.name.value)
    requires forall i | 0 <= i < |b.name.value| :: b.name.value[i] as int <= 0xFFFF
    requires NonNegativeOrNull(b.price) && NonNegativeOrNull(b.quantity)
    requires b.description.Missing? && b.category.Missing?
    ensures ValidateCreate(b).Accept? <==> |b.name.value| <= 100
  {
    Utf16LengthOfBmp(b.name.value);
  }

  /** Zero is an acceptable price and quantity: with a valid name, the body is then accepted
      exactly when description and category keep their bounds. Any negative price is rejected. */
  lemma PriceBoundary(b: CreateBody, x: real)
    requires b.name.Present? && !Blank(b.name.value) && Utf16Length(b.name.value) <= MaxNameLength
    requires b.quantity == Present(Finite(0.0))
    ensures ValidateCreate(b.(price := Present(Finite(0.0)))) != Reject(PriceInvalid)
    ensures ValidateCreate(b.(price := Present(Finite(0.0)))).Accept?
            <==> && (b.description.Present? ==> Utf16Length(b.description.value) <= MaxDescriptionLength)
                 && (b.category.Present? ==> Utf16Length(b.category.value) <= MaxCategoryLength)
    ensures x < 0.0 ==> ValidateCreate(b.(price := Present(Finite(x)))) == Reject(PriceInvalid)
  {
    TrimEmptyIffBlank(b.name.value);
  }
}
