/** Declarative lifecycle tables: validation, and the machine built from a valid one. */
module Lifecycle {
  import opened Prelude

  datatype Rule<S, E> = Rule(from: S, event: E, to: S)

  datatype Definition<S(==), E(==)> = Definition(
    initial: S, states: seq<S>, terminal: seq<S>, transitions: seq<Rule<S, E>>)

  datatype Error = UnknownState | InvalidTransition | TerminalState

  predicate RuleFits<S(==), E>(d: Definition<S, E>, r: Rule<S, E>)
  {
    r.from in d.states && r.to in d.states && r.from !in d.terminal
  }

  predicate SameKey<S(==), E(==)>(a: Rule<S, E>, b: Rule<S, E>) { a.from == b.from && a.event == b.event }

  /** Everything `validateDefinition` demands of a table. */
  predicate WellFormed<S(==), E(==)>(d: Definition<S, E>)
  {
    && d.initial in d.states
    && (forall i | 0 <= i < |d.terminal| :: d.terminal[i] in d.states)
    && (forall i | 0 <= i < |d.transitions| :: RuleFits(d, d.transitions[i]))
    && (forall i, j | 0 <= i < j < |d.transitions| :: !SameKey(d.transitions[i], d.transitions[j]))
  }

  method ValidateDefinition<S(==), E(==)>(d: Definition<S, E>) returns (valid: bool)
    ensures valid <==> WellFormed(d)
  {
    if d.initial !in d.states { return false; }
    for i := 0 to |d.terminal|
      invariant forall k | 0 <= k < i :: d.terminal[k] in d.states
    {
      if d.terminal[i] !in d.states { return false; }
    }
    for i := 0 to |d.transitions|
      invariant forall k | 0 <= k < i :: RuleFits(d, d.transitions[k])
    {
      var rule := d.transitions[i];
      if rule.from !in d.states || rule.to !in d.states { return false; }
      if rule.from in d.terminal { return false; }
    }
    var seen: set<(S, E)> := {};
    for i := 0 to |d.transitions|
      invariant forall k | 0 <= k < i :: (d.transitions[k].from, d.transitions[k].event) in seen
      invariant forall key | key in seen ::
        exists k | 0 <= k < i :: d.transitions[k].from == key.0 && d.transitions[k].event == key.1
      invariant forall k, l | 0 <= k < l < i :: !SameKey(d.transitions[k], d.transitions[l])
    {
      var key := (d.transitions[i].from, d.transitions[i].event);
      if key in seen {
        var k :| 0 <= k < i && d.transitions[k].from == key.0 && d.transitions[k].event == key.1;
        assert SameKey(d.transitions[k], d.transitions[i]);
        return false;
      }
      seen := seen + {key};
    }
    valid := true;
  }

  /** The rule table as a lookup map, as `createLifecycle` fills it. */
  function Table<S(==), E(==)>(rules: seq<Rule<S, E>>): map<(S, E), S>
  {
    if rules == [] then map[]
    else
      var last := rules[|rules| - 1];
      Table(rules[..|rules| - 1])[(last.from, last.event) := last.to]
  }

  /** `resolve`: one lookup; the refusal tells a terminal state from a missing rule. */
  function Resolve<S(==), E(==)>(d: Definition<S, E>, from: S, event: E): Result<S, Error>
  {
    if from !in d.states then Err(UnknownState)
    else
      var table := Table(d.transitions);
      if (from, event) in table then Ok(table[(from, event)])
      else Err(if from in d.terminal then TerminalState else InvalidTransition)
  }

  lemma {:induction false} TableHolds<S, E>(rules: seq<Rule<S, E>>, from: S, event: E)
    ensures (from, event) in Table(rules) ==>
      exists i | 0 <= i < |rules| :: rules[i] == Rule(from, event, Table(rules)[(from, event)])
    ensures (exists i | 0 <= i < |rules| :: rules[i].from == from && rules[i].event == event) ==> (from, event) in Table(rules)
    decreases |rules|
  {
    if rules != [] {
      var shorter := rules[..|rules| - 1];
      TableHolds(shorter, from, event);
      if (from, event) in Table(rules) {
        var last := rules[|rules| - 1];
        if last.from == from && last.event == event {
          assert rules[|rules| - 1] == Rule(from, event, Table(rules)[(from, event)]);
        } else {
          var i :| 0 <= i < |shorter| && shorter[i] == Rule(from, event, Table(shorter)[(from, event)]);
          assert rules[i] == Rule(from, event, Table(rules)[(from, event)]);
        }
      }
      if i :| 0 <= i < |rules| && rules[i].from == from && rules[i].event == event {
        if i < |shorter| { assert shorter[i].from == from && shorter[i].event == event; }
      }
    }
  }

  /** A valid table accepts exactly its own rules, stays in its states, and never leaves a terminal one. */
  lemma ResolveExactly<S, E>(d: Definition<S, E>, from: S, event: E, to: S)
    requires WellFormed(d)
    ensures Resolve(d, from, event) == Ok(to) <==> Rule(from, event, to) in d.transitions
    ensures Resolve(d, from, event) == Ok(to) ==> to in d.states
    ensures from in d.terminal ==> Resolve(d, from, event) == Err(TerminalState)
  {
    TableHolds(d.transitions, from, event);
    if Rule(from, event, to) in d.transitions {
      var i :| 0 <= i < |d.transitions| && d.transitions[i] == Rule(from, event, to);
      assert RuleFits(d, d.transitions[i]);
      var k :| 0 <= k < |d.transitions| && d.transitions[k] == Rule(from, event, Table(d.transitions)[(from, event)]);
      if i < k { assert SameKey(d.transitions[i], d.transitions[k]); }
      if k < i { assert SameKey(d.transitions[k], d.transitions[i]); }
    }
    if from in d.states && (from, event) in Table(d.transitions) {
      var i :| 0 <= i < |d.transitions| && d.transitions[i] == Rule(from, event, Table(d.transitions)[(from, event)]);
      assert RuleFits(d, d.transitions[i]);
    }
    if from in d.terminal {
      var i :| 0 <= i < |d.terminal| && d.terminal[i] == from;
      assert d.terminal[i] in d.states;
    }
  }
}
