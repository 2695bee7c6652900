/** Field-level authorization of exported records: what a caller may see of each record. */
module FieldAuthorization {
  import opened Prelude

  datatype Value = Null | Text(s: string) | Number(shown: string) | Other(json: string)

  datatype Field = Field(name: string, value: Value)

  /** A record is its entries in order. */
  type Record = seq<Field>

  /** `minScope: "maintainer"`, the permissions required (none when absent), and whether a denied value is masked. */
  datatype Rule = Rule(field: string, maintainerOnly: bool, required: seq<string>, mask: bool)

  datatype Actor = Actor(maintainer: bool, permissions: seq<string>)

  /** What is shown of records: the projection asked for, if any, and the rules in force. */
  datatype Policy = Policy(actor: Actor, fields: Option<seq<string>>, rules: seq<Rule>)

  const MASK := Text("[FILTERED: UNAUTHORIZED]")

  function FindRule(rules: seq<Rule>, name: string): (r: Option<Rule>)
    ensures r.Some? <==> exists i | 0 <= i < |rules| :: rules[i].field == name
    ensures r.Some? ==> r.value in rules && r.value.field == name
  {
    if rules == [] then None else if rules[0].field == name then Some(rules[0]) else FindRule(rules[1..], name)
  }

  predicate Permitted(actor: Actor, rule: Rule)
  {
    actor.maintainer || (!rule.maintainerOnly && forall i | 0 <= i < |rule.required| :: rule.required[i] in actor.permissions)
  }

  predicate Authorized(p: Policy, name: string)
  {
    var rule := FindRule(p.rules, name);
    rule.None? || Permitted(p.actor, rule.value)
  }

  predicate Projected(p: Policy, name: string) { p.fields.None? || name in p.fields.value }

  predicate Masked(p: Policy, name: string)
  {
    var rule := FindRule(p.rules, name);
    rule.Some? && rule.value.mask
  }

  function ShowField(p: Policy, f: Field): Record
  {
    if !Projected(p, f.name) then []
    else if Authorized(p, f.name) then [f]
    else if Masked(p, f.name) then [Field(f.name, MASK)]
    else []
  }

  function Show(p: Policy, record: Record): Record
  {
    if record == [] then [] else Show(p, record[..|record| - 1]) + ShowField(p, record[|record| - 1])
  }

  /** How many fields asked for were withheld. */
  function Withheld(p: Policy, record: Record): nat
  {
    if record == [] then 0
    else
      var name := record[|record| - 1].name;
      Withheld(p, record[..|record| - 1]) + if Projected(p, name) && !Authorized(p, name) then 1 else 0
  }

  /** One pass over the record's entries. */
  method ApplyFieldLevelAuthorization(record: Record, p: Policy) returns (sanitized: Record, filtered: nat)
    ensures sanitized == Show(p, record) && filtered == Withheld(p, record)
  {
    sanitized, filtered := [], 0;
    var i := 0;
    while i < |record|
      invariant 0 <= i <= |record| && sanitized == Show(p, record[..i]) && filtered == Withheld(p, record[..i])
    {
      assert record[..i + 1][..i] == record[..i];
      var f := record[i];
      if p.fields.None? || f.name in p.fields.value {
        var rule := FindRule(p.rules, f.name);
        var authorized := true;
        if rule.Some? && !p.actor.maintainer {
          if rule.value.maintainerOnly { authorized := false; }
          if !forall j | 0 <= j < |rule.value.required| :: rule.value.required[j] in p.actor.permissions { authorized := false; }
        }
        if authorized {
          sanitized := sanitized + [f];
        } else {
          filtered := filtered + 1;
          if rule.value.mask { sanitized := sanitized + [Field(f.name, MASK)]; }
        }
      }
      i := i + 1;
    }
    assert record[..i] == record;
  }

  /** What is shown: exactly the fields asked for, in full where authorized, masked where the rule says so. */
  lemma {:induction false} ShownExactly(p: Policy, record: Record, f: Field)
    ensures f in Show(p, record) <==>
            exists g | g in record && g.name == f.name && Projected(p, g.name) ::
              if Authorized(p, g.name) then f == g else Masked(p, g.name) && f.value == MASK
  {
    if record != [] {
      var n := |record| - 1;
      ShownExactly(p, record[..n], f);
      assert record == record[..n] + [record[n]];
      assert f in ShowField(p, record[n]) <==>
             record[n].name == f.name && Projected(p, f.name) &&
             if Authorized(p, f.name) then f == record[n] else Masked(p, f.name) && f.value == MASK;
    }
  }

  /** Nothing of an unauthorized field is shown but the mask. */
  lemma NothingUnauthorized(p: Policy, record: Record, f: Field)
    requires f in Show(p, record)
    ensures Projected(p, f.name) && (Authorized(p, f.name) || f.value == MASK) && (Authorized(p, f.name) ==> f in record)
  {
    ShownExactly(p, record, f);
  }

  lemma {:induction false} WithheldNone(p: Policy, record: Record)
    ensures Withheld(p, record) == 0 <==> forall f | f in record && Projected(p, f.name) :: Authorized(p, f.name)
  {
    if record != [] {
      var n := |record| - 1;
      WithheldNone(p, record[..n]);
      assert record == record[..n] + [record[n]];
    }
  }

  function Denied(p: Policy, requested: seq<string>): seq<string>
  {
    if requested == [] then []
    else
      var n := |requested| - 1;
      Denied(p, requested[..n]) + if Authorized(p, requested[n]) then [] else [requested[n]]
  }

  lemma {:induction false} DeniedExactly(p: Policy, requested: seq<string>, name: string)
    ensures name in Denied(p, requested) <==> name in requested && !Authorized(p, name)
  {
    if requested != [] {
      var n := |requested| - 1;
      DeniedExactly(p, requested[..n], name);
      assert requested == requested[..n] + [requested[n]];
    }
  }

  /** The strict gate: which of the fields asked for are refused. */
  method EvaluateFieldAuthorization(p: Policy) returns (authorized: bool, denied: seq<string>)
    ensures denied == if p.actor.maintainer || p.fields.None? then [] else Denied(p, p.fields.value)
    ensures authorized == (denied == [])
  {
    denied := [];
    if !p.actor.maintainer && p.fields.Some? {
      var requested, i := p.fields.value, 0;
      while i < |requested|
        invariant 0 <= i <= |requested| && denied == Denied(p, requested[..i])
      {
        assert requested[..i + 1][..i] == requested[..i];
        var rule := FindRule(p.rules, requested[i]);
        if rule.Some? && !Permitted(p.actor, rule.value) { denied := denied + [requested[i]]; }
        i := i + 1;
      }
      assert requested[..i] == requested;
    }
    authorized := denied == [];
  }

  /** The gate's verdict, as a predicate. */
  predicate Passes(p: Policy) { p.actor.maintainer || p.fields.None? || Denied(p, p.fields.value) == [] }

  /** The strict gate passes a projection exactly when no record whatever would have a field withheld under it. */
  lemma StrictExactly(p: Policy)
    requires p.fields.Some?
    ensures Passes(p) <==> forall record: Record :: Withheld(p, record) == 0
  {
    if Passes(p) {
      forall record: Record ensures Withheld(p, record) == 0 {
        forall f | f in record && Projected(p, f.name) ensures Authorized(p, f.name) {
          if !p.actor.maintainer { DeniedExactly(p, p.fields.value, f.name); }
        }
        WithheldNone(p, record);
      }
    } else {
      var name := Denied(p, p.fields.value)[0];
      DeniedExactly(p, p.fields.value, name);
      var record := [Field(name, Null)];
      WithheldNone(p, record);
      assert record[0] in record;
      assert Withheld(p, record) != 0;
    }
  }
}
