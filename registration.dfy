/** The decision the `POST /registration` handler takes: from the request body
    to one outcome, either a rejection (status 400) or a registration (status 201). */
module Registration {
  import opened Calendar
  import opened SignUpValidation
  import opened Wrappers

  /** The JSON request body, its members read as text; a member that is absent
      and one that is the empty string are both falsy for the handler. */
  type Body = map<string, string>

  datatype Outcome =
    | InvalidType                             // 400 {message: 'Tipo de cadastro inválido'}
    | FieldRequired(field: Field)             // 400 {message: 'O campo <field> é obrigatório'}
    | FieldRejected(result: ValidationResult) // 400 with the rule's result as the body
    | Registered                              // 201 {message: 'Registrado com sucesso'}
  {
    function Status(): int {
      if Registered? then 201 else 400
    }

    function Message(): string {
      match this
      case InvalidType => "Tipo de cadastro inválido"
      case FieldRequired(f) => "O campo " + FieldKey(f) + " é obrigatório"
      case FieldRejected(r) => r.message
      case Registered => "Registrado com sucesso"
    }
  }

  /** The body member that names the kind of registrant (spelt this way by the handler). */
  const KindKey: string := "singUpType"

  function Lookup(body: Body, key: string): string {
    if key in body then body[key] else ""
  }

  /** A recognised kind: present, non-empty, and `pf` or `pj`. */
  predicate IsKnownKind(kind: string) {
    kind == "pf" || kind == "pj"
  }

  /** What the handler answers for a field that stops the scan: the presence
      check first, then the field's rule. */
  function FieldFailure(f: Field, body: Body, today: CivilDate): Outcome
    requires IsValidDate(today)
  {
    var value := Lookup(body, FieldKey(f));
    if value == [] then FieldRequired(f) else FieldRejected(Validate(f, value, today))
  }

  /** The field is present and its rule accepts it, so the scan goes on. */
  predicate Passes(f: Field, body: Body, today: CivilDate)
    requires IsValidDate(today)
  {
    var value := Lookup(body, FieldKey(f));
    value != [] && Validate(f, value, today).isValid
  }

  /** The scan of the field list in order, stopping at the first field that does not pass. */
  function FirstFailure(fields: seq<Field>, body: Body, today: CivilDate): Option<Outcome>
    requires IsValidDate(today)
  {
    if fields == [] then None
    else if !Passes(fields[0], body, today) then Some(FieldFailure(fields[0], body, today))
    else FirstFailure(fields[1..], body, today)
  }

  /** The handler's decision, stated as a function of the body and today's date. */
  function RegistrationOutcome(body: Body, today: CivilDate): Outcome
    requires IsValidDate(today)
  {
    var kind := Lookup(body, KindKey);
    if !IsKnownKind(kind) then InvalidType
    else
      match FirstFailure(SignUpFields[kind], body, today)
      case Some(failure) => failure
      case None => Registered
  }

  /** The `POST /registration` handler, with the clock read passed in as `today`. */
  method Register(body: Body, today: CivilDate) returns (outcome: Outcome)
    requires IsValidDate(today)
    ensures outcome == RegistrationOutcome(body, today)
  {
    var kind := Lookup(body, KindKey);
    if kind == [] || (kind != "pf" && kind != "pj") {
      return InvalidType;
    }
    var formFields := SignUpFields[kind];
    for i := 0 to |formFields|
      invariant FirstFailure(formFields[i..], body, today) == FirstFailure(formFields, body, today)
    {
      var field := formFields[i];
      var value := Lookup(body, FieldKey(field));
      if value == [] {
        return FieldRequired(field);
      }
      var result := Validate(field, value, today);
      if !result.isValid {
        return FieldRejected(result);
      }
      assert formFields[i..][1..] == formFields[i + 1..];
    }
    return Registered;
  }

  /** The scan finds nothing exactly when every listed field passes. */
  lemma {:induction false} NoFailureIffAllPass(fields: seq<Field>, body: Body, today: CivilDate)
    requires IsValidDate(today)
    ensures FirstFailure(fields, body, today) == None
        <==> forall j | 0 <= j < |fields| :: Passes(fields[j], body, today)
  {
    if fields != [] {
      NoFailureIffAllPass(fields[1..], body, today);
      assert forall j | 1 <= j < |fields| :: fields[j] == fields[1..][j - 1];
    }
  }

  /** When the scan stops, it stops at the first field that does not pass, and answers for that field. */
  lemma {:induction false} FailureIsFirstFailingField(fields: seq<Field>, body: Body, today: CivilDate)
    returns (i: nat)
    requires IsValidDate(today)
    requires FirstFailure(fields, body, today) != None
    ensures i < |fields| && !Passes(fields[i], body, today)
    ensures forall j | 0 <= j < i :: Passes(fields[j], body, today)
    ensures FirstFailure(fields, body, today) == Some(FieldFailure(fields[i], body, today))
  {
    if Passes(fields[0], body, today) {
      var k := FailureIsFirstFailingField(fields[1..], body, today);
      i := k + 1;
      assert forall j | 1 <= j < i :: fields[j] == fields[1..][j - 1];
    } else {
      i := 0;
    }
  }

  /** Conversely, the first field that does not pass decides the answer, and
      nothing after it is looked at: the scan of the list cut after it answers the same. */
  lemma {:induction false} FirstFailingFieldDecides(fields: seq<Field>, body: Body, today: CivilDate, i: nat)
    requires IsValidDate(today)
    requires i < |fields| && !Passes(fields[i], body, today)
    requires forall j | 0 <= j < i :: Passes(fields[j], body, today)
    ensures FirstFailure(fields, body, today) == Some(FieldFailure(fields[i], body, today))
    ensures FirstFailure(fields[..i + 1], body, today) == FirstFailure(fields, body, today)
  {
    if i > 0 {
      assert fields[..i + 1][1..] == fields[1..][..i];
      FirstFailingFieldDecides(fields[1..], body, today, i - 1);
    }
  }

  /** An unknown or missing kind is answered with the invalid-type rejection, and
      only then: no field answer is ever that rejection. */
  lemma InvalidTypeIffUnknownKind(body: Body, today: CivilDate)
    requires IsValidDate(today)
    ensures RegistrationOutcome(body, today) == InvalidType <==> !IsKnownKind(Lookup(body, KindKey))
  {
    var kind := Lookup(body, KindKey);
    if IsKnownKind(kind) && FirstFailure(SignUpFields[kind], body, today) != None {
      var i := FailureIsFirstFailingField(SignUpFields[kind], body, today);
    }
  }

  /** The registration succeeds exactly when the kind is known and every field of
      its list is present and accepted by its rule. */
  lemma RegisteredIffAllFieldsPass(body: Body, today: CivilDate)
    requires IsValidDate(today)
    ensures RegistrationOutcome(body, today) == Registered
        <==> IsKnownKind(Lookup(body, KindKey))
             && forall f | f in SignUpFields[Lookup(body, KindKey)] :: Passes(f, body, today)
  {
    var kind := Lookup(body, KindKey);
    if IsKnownKind(kind) {
      var fields := SignUpFields[kind];
      NoFailureIffAllPass(fields, body, today);
      if FirstFailure(fields, body, today) != None {
        var i := FailureIsFirstFailingField(fields, body, today);
      }
      assert (forall f | f in fields :: Passes(f, body, today))
        <==> (forall j | 0 <= j < |fields| :: Passes(fields[j], body, today));
    }
  }

  /** A rejection carrying a rule's result comes from the first listed field that
      is present but refused, and never from the rule's own missing-value branch,
      which the handler's presence check always pre-empts. */
  lemma RejectionComesFromRuleCheck(body: Body, today: CivilDate) returns (f: Field)
    requires IsValidDate(today)
    requires RegistrationOutcome(body, today).FieldRejected?
    ensures IsKnownKind(Lookup(body, KindKey)) && f in SignUpFields[Lookup(body, KindKey)]
    ensures Lookup(body, FieldKey(f)) != []
    ensures RegistrationOutcome(body, today).result == Validate(f, Lookup(body, FieldKey(f)), today)
    ensures !RegistrationOutcome(body, today).result.isValid
    ensures RegistrationOutcome(body, today).result.message != RequiredMessage(f)
  {
    var kind := Lookup(body, KindKey);
    var fields := SignUpFields[kind];
    var i := FailureIsFirstFailingField(fields, body, today);
    f := fields[i];
  }

  /** Two bodies that agree on the kind and on the members of that kind's fields
      get the same answer: nothing else in the body matters. */
  lemma OutcomeIgnoresUnlistedMembers(body1: Body, body2: Body, today: CivilDate)
    requires IsValidDate(today)
    requires Lookup(body1, KindKey) == Lookup(body2, KindKey)
    requires IsKnownKind(Lookup(body1, KindKey)) ==>
      forall f | f in SignUpFields[Lookup(body1, KindKey)] :: Lookup(body1, FieldKey(f)) == Lookup(body2, FieldKey(f))
    ensures RegistrationOutcome(body1, today) == RegistrationOutcome(body2, today)
  {
    var kind := Lookup(body1, KindKey);
    if IsKnownKind(kind) {
      ScanIgnoresUnlistedMembers(SignUpFields[kind], body1, body2, today);
    }
  }

  /** In particular each field reads only its own member: a body member of a field
      outside the kind's list, such as `cpf` in a business registration, is ignored. */
  lemma OutcomeIgnoresOtherKindField(body: Body, f: Field, value: string, today: CivilDate)
    requires IsValidDate(today)
    requires IsKnownKind(Lookup(body, KindKey)) && f !in SignUpFields[Lookup(body, KindKey)]
    ensures RegistrationOutcome(body[FieldKey(f) := value], today) == RegistrationOutcome(body, today)
  {
    var kind := Lookup(body, KindKey);
    var changed := body[FieldKey(f) := value];
    assert FieldKey(f) != KindKey;
    assert Lookup(changed, KindKey) == kind;
    forall g | g in SignUpFields[kind]
      ensures Lookup(body, FieldKey(g)) == Lookup(changed, FieldKey(g))
    {
      FieldKeysDistinct(f, g);
    }
    OutcomeIgnoresUnlistedMembers(body, changed, today);
  }

  lemma {:induction false} ScanIgnoresUnlistedMembers(fields: seq<Field>, body1: Body, body2: Body, today: CivilDate)
    requires IsValidDate(today)
    requires forall f | f in fields :: Lookup(body1, FieldKey(f)) == Lookup(body2, FieldKey(f))
    ensures FirstFailure(fields, body1, today) == FirstFailure(fields, body2, today)
  {
    if fields != [] {
      ScanIgnoresUnlistedMembers(fields[1..], body1, body2, today);
    }
  }
}
