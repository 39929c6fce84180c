/** The string-valued enumerations of the API and `enum_choices`, which turns
    an enumeration into the `(name, value)` pairs a Django `choices=` option
    expects. */
module Enums {
  import opened Results

  /** One member of a Python `enum.Enum` as declared in the class body. */
  datatype EnumMember = EnumMember(name: string, value: string)

  /** Whether `v` is the value of one of the members. */
  predicate HasValue(members: seq<EnumMember>, v: string)
  {
    exists i :: 0 <= i < |members| && members[i].value == v
  }

  /** No two members share a value. */
  predicate DistinctValues(members: seq<EnumMember>)
  {
    forall i, j :: 0 <= i < j < |members| ==> members[i].value != members[j].value
  }

  /** No two members share a name; Python refuses a class body that reuses one. */
  predicate DistinctNames(members: seq<EnumMember>)
  {
    forall i, j :: 0 <= i < j < |members| ==> members[i].name != members[j].name
  }

  /** What iterating over an enumeration yields: the declared members in
      declaration order, except that a member whose value repeats an earlier
      member's is an alias of it and is skipped. The contract states that
      only declared members come out, one per value, covering every
      declared value; the order is stated for an enumeration without
      aliases, by `IterationWithoutAliases`. */
  function Iteration(declared: seq<EnumMember>): (members: seq<EnumMember>)
    ensures |members| <= |declared|
    ensures DistinctValues(members)
    ensures forall i :: 0 <= i < |members| ==> members[i] in declared
    ensures forall v :: HasValue(members, v) <==> HasValue(declared, v)
    decreases |declared|
  {
    if declared == [] then []
    else
      var init := declared[..|declared| - 1];
      var last := declared[|declared| - 1];
      var earlier := Iteration(init);
      assert declared == init + [last];
      HasValueAppend(init, last);
      if HasValue(init, last.value) then earlier
      else
        HasValueAppend(earlier, last);
        AppendNewValue(earlier, last);
        earlier + [last]
  }

  /** A member appended at the end adds its value and nothing else. */
  lemma HasValueAppend(members: seq<EnumMember>, m: EnumMember)
    ensures forall v :: HasValue(members + [m], v) <==> HasValue(members, v) || m.value == v
  {
    var all := members + [m];
    forall v ensures HasValue(all, v) <==> HasValue(members, v) || m.value == v {
      if HasValue(all, v) {
        var i :| 0 <= i < |all| && all[i].value == v;
        if i < |members| { assert members[i] == all[i]; }
      }
      if HasValue(members, v) {
        var i :| 0 <= i < |members| && members[i].value == v;
        assert all[i] == members[i];
      }
      if m.value == v { assert all[|members|].value == v; }
    }
  }

  /** Appending a member with a value not yet present keeps the values distinct. */
  lemma AppendNewValue(members: seq<EnumMember>, m: EnumMember)
    requires DistinctValues(members) && !HasValue(members, m.value)
    ensures DistinctValues(members + [m])
  {
    var all := members + [m];
    forall i, j | 0 <= i < j < |all| ensures all[i].value != all[j].value {
      assert all[i] == members[i];
      if j < |members| { assert all[j] == members[j]; }
    }
  }

  /** `enum_choices`: one `(name, value)` pair per member the enumeration
      iterates over, in iteration order. */
  function EnumChoices(declared: seq<EnumMember>): (choices: seq<(string, string)>)
    ensures |choices| == |Iteration(declared)| <= |declared|
    ensures forall i :: 0 <= i < |choices| ==>
      EnumMember(choices[i].0, choices[i].1) in declared
    ensures forall v :: (exists i :: 0 <= i < |choices| && choices[i].1 == v) <==> HasValue(declared, v)
  {
    var members := Iteration(declared);
    var choices := seq(|members|, i requires 0 <= i < |members| => (members[i].name, members[i].value));
    forall v ensures (exists i :: 0 <= i < |choices| && choices[i].1 == v) <==> HasValue(members, v) {
      if HasValue(members, v) {
        var i :| 0 <= i < |members| && members[i].value == v;
        assert choices[i].1 == v;
      }
    }
    choices
  }

  /** Without aliases, iteration yields every declared member in order. */
  lemma {:induction false} IterationWithoutAliases(declared: seq<EnumMember>)
    requires DistinctValues(declared)
    ensures Iteration(declared) == declared
    decreases |declared|
  {
    if declared != [] {
      var init := declared[..|declared| - 1];
      var last := declared[|declared| - 1];
      assert DistinctValues(init) by {
        forall i, j | 0 <= i < j < |init| ensures init[i].value != init[j].value {
          assert init[i] == declared[i] && init[j] == declared[j];
        }
      }
      IterationWithoutAliases(init);
      assert !HasValue(init, last.value) by {
        forall i | 0 <= i < |init| ensures init[i].value != last.value {
          assert init[i] == declared[i];
        }
      }
      assert declared == init + [last];
    }
  }

  /** For an enumeration without aliases and with distinct names the choices
      are exactly the declared `(name, value)` pairs in declaration order, and
      neither a name nor a value names two choices. */
  lemma ChoicesOfDistinctMembers(declared: seq<EnumMember>)
    requires DistinctValues(declared) && DistinctNames(declared)
    ensures var choices := EnumChoices(declared);
      && |choices| == |declared|
      && (forall i :: 0 <= i < |declared| ==> choices[i] == (declared[i].name, declared[i].value))
      && (forall i, j :: 0 <= i < j < |choices| ==> choices[i].0 != choices[j].0 && choices[i].1 != choices[j].1)
  {
    IterationWithoutAliases(declared);
  }

  /** `PaymentRequestStatus`. */
  datatype PaymentRequestStatus = NEW | COMPLETE | CLOSED | FAILED
  {
    function Name(): string
    {
      match this
      case NEW => "NEW"
      case COMPLETE => "COMPLETE"
      case CLOSED => "CLOSED"
      case FAILED => "FAILED"
    }

    function Value(): string
    {
      match this
      case NEW => "new"
      case COMPLETE => "complete"
      case CLOSED => "closed"
      case FAILED => "failed"
    }
  }

  /** The class body of `PaymentRequestStatus`, in declaration order. */
  function StatusDeclared(): (members: seq<EnumMember>)
    ensures |members| == 4
    ensures DistinctValues(members) && DistinctNames(members)
    ensures forall s: PaymentRequestStatus :: EnumMember(s.Name(), s.Value()) in members
  {
    [EnumMember(NEW.Name(), NEW.Value()), EnumMember(COMPLETE.Name(), COMPLETE.Value()),
     EnumMember(CLOSED.Name(), CLOSED.Value()), EnumMember(FAILED.Name(), FAILED.Value())]
  }

  /** `PaymentRequestStatus(v)`: the member with value `v`, or `ValueError`. */
  function StatusFromValue(v: string): (r: Result<PaymentRequestStatus, PyError>)
    ensures r.Ok? ==> r.value.Value() == v
    ensures r.Err? ==> r.error.ValueError? && forall s: PaymentRequestStatus :: s.Value() != v
  {
    if v == "new" then Ok(NEW)
    else if v == "complete" then Ok(COMPLETE)
    else if v == "closed" then Ok(CLOSED)
    else if v == "failed" then Ok(FAILED)
    else
      Err(ValueError(v))
  }

  /** Every status round-trips through its value. */
  lemma StatusValueRoundTrip(s: PaymentRequestStatus)
    ensures StatusFromValue(s.Value()) == Ok(s)
  {
    match s
    case NEW =>
    case COMPLETE =>
    case CLOSED =>
    case FAILED =>
  }

  /** The choices of the `status` field: the four declared pairs, in order. */
  lemma StatusChoices()
    ensures EnumChoices(StatusDeclared()) ==
      [("NEW", "new"), ("COMPLETE", "complete"), ("CLOSED", "closed"), ("FAILED", "failed")]
  {
    var declared := StatusDeclared();
    IterationWithoutAliases(declared);
    var choices := EnumChoices(declared);
    assert choices[0] == (NEW.Name(), NEW.Value());
    assert choices[1] == (COMPLETE.Name(), COMPLETE.Value());
    assert choices[2] == (CLOSED.Name(), CLOSED.Value());
    assert choices[3] == (FAILED.Name(), FAILED.Value());
  }

  /** `IdentificationType`. */
  datatype IdentificationType = PASSPORT | ID
  {
    function Name(): string
    {
      match this
      case PASSPORT => "PASSPORT"
      case ID => "ID"
    }

    function Value(): string
    {
      match this
      case PASSPORT => "Passport Number"
      case ID => "Identification Number"
    }
  }

  /** The class body of `IdentificationType`, in declaration order. */
  function IdentificationDeclared(): (members: seq<EnumMember>)
    ensures |members| == 2
    ensures DistinctValues(members) && DistinctNames(members)
    ensures forall t: IdentificationType :: EnumMember(t.Name(), t.Value()) in members
  {
    [EnumMember(PASSPORT.Name(), PASSPORT.Value()), EnumMember(ID.Name(), ID.Value())]
  }

  /** The identification choices: the two declared pairs, in order. */
  lemma IdentificationChoices()
    ensures EnumChoices(IdentificationDeclared()) ==
      [("PASSPORT", "Passport Number"), ("ID", "Identification Number")]
  {
    var declared := IdentificationDeclared();
    ChoicesOfDistinctMembers(declared);
    var choices := EnumChoices(declared);
    assert choices[0] == (PASSPORT.Name(), PASSPORT.Value());
    assert choices[1] == (ID.Name(), ID.Value());
  }
}
