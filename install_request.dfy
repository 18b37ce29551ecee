/**
 * Validation of one installer step's submitted form (Install::validateRequest
 * and Install::validateAttribute): a walk over the step's field tree that
 * enforces "mandatory implies non-empty" and collects every field's request
 * value under its name.
 */
module InstallRequest {

  import opened Wrappers
  import opened Php

  /**
   * A form field of an installer step: its name, whether it is mandatory, and
   * the fields declared beside it under `next_to` (empty when there are none).
   */
  datatype Field = Field(name: string, mandatory: bool, nextTo: seq<Field>)

  /** The one exception validateAttribute raises: "Mandatory field is not set!". */
  datatype RequestError = MandatoryMissing

  /** The submitted request; Request::get yields null for a name that was not sent. */
  type Request = map<string, string>

  function RequestGet(request: Request, name: string): (v: Value)
  {
    if name in request then Str(request[name]) else Null
  }

  /** validateAttribute: fails exactly for a mandatory field with an empty value, else passes the value through. */
  function ValidateAttribute(attribute: Value, field: Field): (r: Result<Value, RequestError>)
    ensures r.Failure? <==> field.mandatory && Empty(attribute)
    ensures r.Success? ==> r.value == attribute
  {
    if field.mandatory && Empty(attribute) then Failure(MandatoryMissing) else Success(attribute)
  }

  /** Every field name in the list, at any depth of `next_to`. */
  function Names(fields: seq<Field>): (names: set<string>)
  {
    if fields == [] then {}
    else
      var last := fields[|fields| - 1];
      Names(fields[..|fields| - 1]) + {last.name} + Names(last.nextTo)
  }

  /** No mandatory field, at any depth, has an empty request value. */
  predicate MandatoryFilled(fields: seq<Field>, request: Request)
  {
    if fields == [] then true
    else
      var last := fields[|fields| - 1];
      && MandatoryFilled(fields[..|fields| - 1], request)
      && !(last.mandatory && Empty(RequestGet(request, last.name)))
      && MandatoryFilled(last.nextTo, request)
  }

  /** Each of the names mapped to its request value, unchanged. */
  function Echo(names: set<string>, request: Request): (m: Data)
    ensures m.Keys == names
  {
    map n | n in names :: RequestGet(request, n)
  }

  lemma EchoExtend(a: set<string>, n: string, b: set<string>, request: Request)
    ensures Echo(a + {n} + b, request) == Echo(a, request)[n := RequestGet(request, n)] + Echo(b, request)
  {
  }

  /** A field that is missing its mandatory value, at any depth, makes the whole list fail. */
  lemma {:induction false} MandatoryFilledPrefix(fields: seq<Field>, k: nat, request: Request)
    requires k <= |fields|
    requires MandatoryFilled(fields, request)
    ensures MandatoryFilled(fields[..k], request)
    decreases |fields|
  {
    if k < |fields| {
      assert fields[..|fields| - 1][..k] == fields[..k];
      MandatoryFilledPrefix(fields[..|fields| - 1], k, request);
    } else {
      assert fields[..k] == fields;
    }
  }

  /** Every field of the list, and everything beside it, contributes its name. */
  lemma {:induction false} NamesCover(fields: seq<Field>, i: nat)
    requires i < |fields|
    ensures fields[i].name in Names(fields)
    ensures Names(fields[i].nextTo) <= Names(fields)
    decreases |fields|
  {
    if i < |fields| - 1 {
      NamesCover(fields[..|fields| - 1], i);
    }
  }

  /** A mandatory field with an empty value, anywhere in the list or beside it, fails the list. */
  lemma {:induction false} MandatoryFieldBlocks(fields: seq<Field>, i: nat, request: Request)
    requires i < |fields|
    ensures fields[i].mandatory && Empty(RequestGet(request, fields[i].name)) ==> !MandatoryFilled(fields, request)
    ensures !MandatoryFilled(fields[i].nextTo, request) ==> !MandatoryFilled(fields, request)
    decreases |fields|
  {
    if MandatoryFilled(fields, request) {
      MandatoryFilledPrefix(fields, i + 1, request);
      assert fields[..i + 1][..i] == fields[..i];
    }
  }

  /**
   * validateRequest: on success the result maps every field name of the tree,
   * nested ones included, to its unchanged request value (an entry merged later
   * for the same name carries the same value); it fails exactly when some
   * mandatory field at some depth is empty.
   */
  method ValidateRequest(fields: seq<Field>, request: Request) returns (r: Result<Data, RequestError>)
    ensures r.Success? <==> MandatoryFilled(fields, request)
    ensures r.Success? ==> r.value == Echo(Names(fields), request)
    ensures r.Success? ==> r.value.Keys == Names(fields)
    decreases fields
  {
    var attributes: Data := map[];
    var i := 0;
    while i < |fields|
      invariant 0 <= i <= |fields|
      invariant MandatoryFilled(fields[..i], request)
      invariant attributes == Echo(Names(fields[..i]), request)
    {
      var field := fields[i];
      assert fields[..i + 1][..i] == fields[..i];
      assert fields[..i + 1][i] == field;
      var attribute := ValidateAttribute(RequestGet(request, field.name), field);
      if attribute.Failure? {
        MandatoryFieldBlocks(fields, i, request);
        return Failure(attribute.error);
      }
      attributes := attributes[field.name := attribute.value];
      if field.nextTo != [] {
        var nested := ValidateRequest(field.nextTo, request);
        if nested.Failure? {
          MandatoryFieldBlocks(fields, i, request);
          return Failure(nested.error);
        }
        attributes := attributes + nested.value;
      }
      EchoExtend(Names(fields[..i]), field.name, Names(field.nextTo), request);
      i := i + 1;
    }
    assert fields[..i] == fields;
    return Success(attributes);
  }
}
