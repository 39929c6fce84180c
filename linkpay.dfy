/** `parse_json_recursively`, a helper defined beside the account-linking
    views (nothing calls it but its own recursion) that looks a key up in a
    decoded JSON document, and the depth-first search it was evidently meant
    to perform. */
module LinkPay {
  import opened Results
  import opened JsonValues

  /** The result that stands for "not found". */
  const NotFound: Json := JStr("")

  /** `parse_json_recursively` as written: only a non-empty dict is searched;
      its keys are visited in order and the first equal to `target` gives its
      value. The recursive call on each other value computes a result that is
      thrown away and has no effect, so it is not repeated here. */
  function ParseJsonRecursivelyAsWritten(j: Json, target: string): (r: Json)
    ensures r != NotFound ==> j.JObj? && exists i :: 0 <= i < |j.members| && j.members[i] == Member(target, r)
  {
    match j
    case JObj(members) => if members == [] then NotFound else FirstValue(members, target)
    case _ => NotFound
  }

  /** The loop over the keys of one dict, returning at the first match. */
  function FirstValue(members: seq<Member>, target: string): (r: Json)
    ensures r != NotFound ==> exists i :: 0 <= i < |members| && members[i] == Member(target, r)
  {
    if members == [] then NotFound
    else if members[0].key == target then members[0].value
    else
      var r := FirstValue(members[1..], target);
      assert forall i :: 0 <= i < |members[1..]| ==> members[1..][i] == members[i + 1];
      r
  }

  /** As written the helper is plain subscripting with a default: the value
      under `target` when the document is a dict holding that key at its top
      level, and `''` otherwise, however deep the key occurs. */
  lemma {:induction false} AsWrittenIsTopLevelLookup(j: Json, target: string)
    ensures ParseJsonRecursivelyAsWritten(j, target) ==
      match Subscript(j, target) case Ok(v) => v case Err(_) => NotFound
  {
    if j.JObj? {
      FirstValueIsLookup(j.members, target);
    }
  }

  lemma {:induction false} FirstValueIsLookup(members: seq<Member>, target: string)
    ensures FirstValue(members, target) == match Lookup(members, target) case Ok(v) => v case Err(_) => NotFound
  {
    if members != [] && members[0].key != target {
      FirstValueIsLookup(members[1..], target);
    }
  }

  /** A key nested one level down is missed. */
  lemma NestedKeyMissed()
    ensures var doc := JObj([Member("a", JObj([Member("target", JInt(1))]))]);
      ParseJsonRecursivelyAsWritten(doc, "target") == NotFound
      && Find(doc, "target") == Some(JInt(1))
  {
    var inner := JObj([Member("target", JInt(1))]);
    var doc := JObj([Member("a", inner)]);
    assert FindIn([Member("target", JInt(1))], "target") == Some(JInt(1));
    assert Find(inner, "target") == Some(JInt(1));
    assert FindIn([Member("a", inner)], "target") == Some(JInt(1));
  }

  /** `target` is a key somewhere in a dict of the document, reached through
      dict values only, with value `v`. */
  ghost predicate HoldsAt(j: Json, target: string, v: Json)
  {
    j.JObj? &&
    exists i :: 0 <= i < |j.members| &&
      ((j.members[i].key == target && j.members[i].value == v) || HoldsAt(j.members[i].value, target, v))
  }

  /** `target` is a key somewhere in a dict of the document. */
  ghost predicate Occurs(j: Json, target: string)
  {
    j.JObj? &&
    exists i :: 0 <= i < |j.members| &&
      (j.members[i].key == target || Occurs(j.members[i].value, target))
  }

  /** The search the helper evidently intends, in the same order: the keys of
      a dict in turn, each key checked before its value is searched, the
      first hit returned. `None` is "not found". */
  function Find(j: Json, target: string): Option<Json>
  {
    match j
    case JObj(members) => FindIn(members, target)
    case _ => None
  }

  function FindIn(members: seq<Member>, target: string): Option<Json>
  {
    if members == [] then None
    else if members[0].key == target then Some(members[0].value)
    else
      match Find(members[0].value, target)
      case Some(v) => Some(v)
      case None => FindIn(members[1..], target)
  }

  /** The corrected helper: the value found, or `''` when there is none. */
  function ParseJsonRecursively(j: Json, target: string): (r: Json)
    ensures r != NotFound ==> HoldsAt(j, target, r)
  {
    FindSound(j, target);
    match Find(j, target) case Some(v) => v case None => NotFound
  }

  /** What the search finds is really there. */
  lemma {:induction false} FindSound(j: Json, target: string)
    ensures Find(j, target).Some? ==> HoldsAt(j, target, Find(j, target).value)
    decreases j, 1
  {
    if j.JObj? {
      FindInSound(j.members, target, j);
    }
  }

  lemma {:induction false} FindInSound(members: seq<Member>, target: string, whole: Json)
    requires whole.JObj? && |members| <= |whole.members|
    requires members == whole.members[|whole.members| - |members|..]
    ensures FindIn(members, target).Some? ==> HoldsAt(whole, target, FindIn(members, target).value)
    decreases whole, 0, |members|
  {
    if members != [] {
      var k := |whole.members| - |members|;
      assert whole.members[k] == members[0];
      if members[0].key != target {
        FindSound(members[0].value, target);
        if Find(members[0].value, target).None? {
          assert members[1..] == whole.members[k + 1..];
          FindInSound(members[1..], target, whole);
        }
      }
    }
  }

  /** A key that occurs anywhere is found. */
  lemma {:induction false} FindComplete(j: Json, target: string)
    requires Occurs(j, target)
    ensures Find(j, target).Some?
    decreases j, 1
  {
    var i :| 0 <= i < |j.members| && (j.members[i].key == target || Occurs(j.members[i].value, target));
    FindInComplete(j.members, target, i);
  }

  lemma {:induction false} FindInComplete(members: seq<Member>, target: string, i: nat)
    requires i < |members| && (members[i].key == target || Occurs(members[i].value, target))
    ensures FindIn(members, target).Some?
    decreases members, i
  {
    if members[0].key != target && Find(members[0].value, target).None? {
      if i == 0 {
        FindComplete(members[0].value, target);
      } else {
        assert members[1..][i - 1] == members[i];
        FindInComplete(members[1..], target, i - 1);
      }
    }
  }

  /** The corrected helper agrees with the one as written whenever the key is
      a top-level key of a document whose earlier values do not hold it. */
  lemma {:induction false} CorrectedAgreesOnTopLevelKeys(members: seq<Member>, target: string, i: nat)
    requires i < |members| && members[i].key == target
    requires forall k :: 0 <= k < i ==> members[k].key != target && !Occurs(members[k].value, target)
    ensures ParseJsonRecursively(JObj(members), target) == ParseJsonRecursivelyAsWritten(JObj(members), target)
      == members[i].value
  {
    FindInFirst(members, target, i);
    FirstValueAt(members, target, i);
  }

  lemma {:induction false} FindInFirst(members: seq<Member>, target: string, i: nat)
    requires i < |members| && members[i].key == target
    requires forall k :: 0 <= k < i ==> members[k].key != target && !Occurs(members[k].value, target)
    ensures FindIn(members, target) == Some(members[i].value)
    decreases i
  {
    if i > 0 {
      FindSoundNone(members[0].value, target);
      FindInFirst(members[1..], target, i - 1);
    }
  }

  lemma FindSoundNone(j: Json, target: string)
    requires !Occurs(j, target)
    ensures Find(j, target).None?
  {
    FindSound(j, target);
    if Find(j, target).Some? {
      HoldsAtOccurs(j, target, Find(j, target).value);
    }
  }

  lemma {:induction false} HoldsAtOccurs(j: Json, target: string, v: Json)
    requires HoldsAt(j, target, v)
    ensures Occurs(j, target)
    decreases j
  {
    var i :| 0 <= i < |j.members| &&
      ((j.members[i].key == target && j.members[i].value == v) || HoldsAt(j.members[i].value, target, v));
    if j.members[i].key != target {
      HoldsAtOccurs(j.members[i].value, target, v);
    }
  }

  lemma {:induction false} FirstValueAt(members: seq<Member>, target: string, i: nat)
    requires i < |members| && members[i].key == target
    requires forall k :: 0 <= k < i ==> members[k].key != target
    ensures FirstValue(members, target) == members[i].value
    decreases i
  {
    if i > 0 {
      FirstValueAt(members[1..], target, i - 1);
    }
  }
}
