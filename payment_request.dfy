/** The `PaymentRequest` record: one attempted deposit through the payment
    provider, with its provider reference (`stitch_ref`), the references shown
    to payer and beneficiary, and a status. Rows live in a table whose
    column widths and unique keys the database enforces on insert. */
module PaymentRequests {
  import opened Results
  import opened Enums

  datatype PaymentRequest = PaymentRequest(
    user: nat,
    transactionRef: string,
    stitchRef: string,
    payerReference: string,
    beneficiaryReference: string,
    beneficiaryName: string,
    beneficiaryAccountNumber: string,
    beneficiaryBankId: string,
    status: string)

  /** The text columns whose width the database enforces. The two
      encrypted columns (`beneficiary_name`, `beneficiary_account_number`)
      are stored as ciphertext in binary columns, so their `max_length` is
      only a form validator that `save()` does not run. */
  datatype Column =
    | StitchRef
    | PayerReference
    | BeneficiaryReference
    | BeneficiaryBankId
    | Status

  /** The `max_length` of each column. */
  function MaxLength(c: Column): nat
  {
    match c
    case StitchRef => 100
    case PayerReference => 12
    case BeneficiaryReference => 20
    case BeneficiaryBankId => 30
    case Status => 15
  }

  function Text(r: PaymentRequest, c: Column): string
  {
    match c
    case StitchRef => r.stitchRef
    case PayerReference => r.payerReference
    case BeneficiaryReference => r.beneficiaryReference
    case BeneficiaryBankId => r.beneficiaryBankId
    case Status => r.status
  }

  /** The columns in declaration order. */
  const Columns: seq<Column> :=
    [StitchRef, PayerReference, BeneficiaryReference, BeneficiaryBankId, Status]

  predicate Fits(r: PaymentRequest)
  {
    forall c: Column :: |Text(r, c)| <= MaxLength(c)
  }

  /** Why the database refuses an insert. */
  datatype InsertError =
    | ValueTooLong(column: Column)
    | DuplicateTransactionRef
    | DuplicateStitchRef

  /** The first column, from `Columns[from..]`, whose text is too long. */
  function FirstTooLong(r: PaymentRequest, from: nat): (c: Option<Column>)
    requires from <= |Columns|
    ensures c.Some? ==> c.value in Columns[from..] && |Text(r, c.value)| > MaxLength(c.value)
    ensures c.None? ==> forall i :: from <= i < |Columns| ==> |Text(r, Columns[i])| <= MaxLength(Columns[i])
    decreases |Columns| - from
  {
    if from == |Columns| then None
    else if |Text(r, Columns[from])| > MaxLength(Columns[from]) then Some(Columns[from])
    else FirstTooLong(r, from + 1)
  }

  /** Every column appears in `Columns`. */
  lemma ColumnsComplete(c: Column)
    ensures c in Columns
  {
    match c
    case StitchRef => assert Columns[0] == c;
    case PayerReference => assert Columns[1] == c;
    case BeneficiaryReference => assert Columns[2] == c;
    case BeneficiaryBankId => assert Columns[3] == c;
    case Status => assert Columns[4] == c;
  }

  predicate UsesStitchRef(rows: seq<PaymentRequest>, stitchRef: string)
  {
    exists i :: 0 <= i < |rows| && rows[i].stitchRef == stitchRef
  }

  predicate UsesTransactionRef(rows: seq<PaymentRequest>, transactionRef: string)
  {
    exists i :: 0 <= i < |rows| && rows[i].transactionRef == transactionRef
  }

  /** The table's unique keys: `transaction_ref` (the primary key) and
      `stitch_ref`. */
  predicate UniqueKeys(rows: seq<PaymentRequest>)
  {
    forall i, j :: 0 <= i < j < |rows| ==>
      rows[i].transactionRef != rows[j].transactionRef && rows[i].stitchRef != rows[j].stitchRef
  }

  /** `save()` of a new row: refused when a text is longer than its column
      allows or a unique key is already taken; otherwise the row is appended. */
  function Insert(rows: seq<PaymentRequest>, r: PaymentRequest): (res: Result<seq<PaymentRequest>, InsertError>)
    ensures res.Ok? <==> Fits(r) && !UsesTransactionRef(rows, r.transactionRef) && !UsesStitchRef(rows, r.stitchRef)
    ensures res.Ok? ==> res.value == rows + [r]
    ensures res.Err? && res.error.ValueTooLong? ==> |Text(r, res.error.column)| > MaxLength(res.error.column)
    ensures UniqueKeys(rows) && res.Ok? ==> UniqueKeys(res.value)
  {
    var tooLong := FirstTooLong(r, 0);
    if tooLong.Some? then Err(ValueTooLong(tooLong.value))
    else
      assert Fits(r) by {
        forall c: Column ensures |Text(r, c)| <= MaxLength(c) {
          ColumnsComplete(c);
        }
      }
      if UsesTransactionRef(rows, r.transactionRef) then Err(DuplicateTransactionRef)
      else if UsesStitchRef(rows, r.stitchRef) then Err(DuplicateStitchRef)
      else Ok(rows + [r])
  }

  /** Why `PaymentRequest.objects.get(stitch_ref=...)` raises. */
  datatype GetError = DoesNotExist | MultipleObjectsReturned

  /** Indices of the rows with the given provider reference. */
  function Matching(rows: seq<PaymentRequest>, stitchRef: string): (ix: seq<nat>)
    ensures forall k :: 0 <= k < |ix| ==> ix[k] < |rows| && rows[ix[k]].stitchRef == stitchRef
    ensures forall i :: 0 <= i < |rows| && rows[i].stitchRef == stitchRef ==> i in ix
    ensures forall k, l :: 0 <= k < l < |ix| ==> ix[k] < ix[l]
    decreases |rows|
  {
    if rows == [] then []
    else
      var init := rows[..|rows| - 1];
      var rest := Matching(init, stitchRef);
      assert forall i :: 0 <= i < |init| ==> init[i] == rows[i];
      if rows[|rows| - 1].stitchRef == stitchRef then rest + [|rows| - 1] else rest
  }

  /** `PaymentRequest.objects.get(stitch_ref=stitchRef)`: the index of the one
      matching row; `DoesNotExist` when none matches and
      `MultipleObjectsReturned` when more than one does. */
  function Get(rows: seq<PaymentRequest>, stitchRef: string): (r: Result<nat, GetError>)
    ensures r.Ok? ==> r.value < |rows| && rows[r.value].stitchRef == stitchRef
    ensures r.Ok? ==> forall i :: 0 <= i < |rows| && rows[i].stitchRef == stitchRef ==> i == r.value
    ensures r == Err(DoesNotExist) <==> !UsesStitchRef(rows, stitchRef)
    ensures r == Err(MultipleObjectsReturned) ==>
      exists i, j :: 0 <= i < j < |rows| && rows[i].stitchRef == stitchRef && rows[j].stitchRef == stitchRef
  {
    var ix := Matching(rows, stitchRef);
    if |ix| == 0 then Err(DoesNotExist)
    else if |ix| == 1 then Ok(ix[0])
    else
      assert rows[ix[0]].stitchRef == stitchRef && rows[ix[1]].stitchRef == stitchRef;
      Err(MultipleObjectsReturned)
  }

  /** With the unique key on `stitch_ref` a lookup never finds two rows. */
  lemma GetOnUniqueKeys(rows: seq<PaymentRequest>, stitchRef: string)
    requires UniqueKeys(rows)
    ensures Get(rows, stitchRef).Ok? <==> UsesStitchRef(rows, stitchRef)
  {
  }

  /** What Django's `CharField` stores for a value that is not a string:
      `str(value)`, which for a member of a plain `enum.Enum` is
      `ClassName.MEMBER`. */
  function EnumText(className: string, s: PaymentRequestStatus): (t: string)
    ensures |t| == |className| + 1 + |s.Name()|
    ensures t[..|className|] == className && t[|className|] == '.'
  {
    className + "." + s.Name()
  }

  /** The text of an enum member is never a choice key: it holds a `.`,
      which no member name does. Different members give different texts, so
      the text still tells which member was meant. */
  lemma EnumTextIsNoChoiceKey(className: string, s: PaymentRequestStatus)
    ensures StatusFromName(EnumText(className, s)).None?
    ensures forall u: PaymentRequestStatus :: EnumText(className, u) == EnumText(className, s) ==> u == s
  {
    var t := EnumText(className, s);
    forall u: PaymentRequestStatus
      ensures u.Name() != t
    {
      DottedIsNoName(t, |className|, u);
    }
    forall u: PaymentRequestStatus | EnumText(className, u) == t
      ensures u == s
    {
      var n := |className| + 1;
      assert u.Name() == EnumText(className, u)[n..];
      assert s.Name() == t[n..];
    }
  }

  /** No member name holds a dot. */
  lemma DottedIsNoName(t: string, k: nat, u: PaymentRequestStatus)
    requires k < |t| && t[k] == '.'
    ensures u.Name() != t
  {
    assert t[k] in t;
    assert '.' !in u.Name();
  }


  /** The stored default of `status` as the field is declared: the text of
      the enum member `PaymentRequestStatus.NEW` itself. */
  function DefaultStatusAsWritten(): (t: string)
    ensures |t| == 24 > MaxLength(Status)
  {
    EnumText("PaymentRequestStatus", NEW)
  }

  /** The stored default of `status` as the choices make evident: the key
      `NEW` of the `(name, value)` pair. */
  function DefaultStatus(): (t: string)
    ensures t == NEW.Name() && |t| <= MaxLength(Status)
    ensures |EnumChoices(StatusDeclared())| > 0 && EnumChoices(StatusDeclared())[0] == (t, NEW.Value())
  {
    StatusChoices();
    "NEW"
  }

  /** With the default as declared, no new payment request can be inserted:
      the status text is longer than its column. */
  lemma DefaultStatusNeverInserts(rows: seq<PaymentRequest>, r: PaymentRequest)
    requires r.status == DefaultStatusAsWritten()
    ensures Insert(rows, r).Err?
    ensures !Fits(r)
  {
    assert |Text(r, Status)| > MaxLength(Status);
  }

  /** With the corrected default a new request is inserted exactly when its
      other texts fit and its keys are fresh; it then has status NEW, one of
      the declared choices, and stays the only row with its provider
      reference. */
  lemma NewRequestInserts(rows: seq<PaymentRequest>, r: PaymentRequest)
    requires r.status == DefaultStatus()
    requires UniqueKeys(rows)
    ensures Insert(rows, r).Ok? <==>
      (forall c: Column :: c != Status ==> |Text(r, c)| <= MaxLength(c))
      && !UsesTransactionRef(rows, r.transactionRef) && !UsesStitchRef(rows, r.stitchRef)
    ensures Insert(rows, r).Ok? ==> StatusFromName(r.status) == Some(NEW)
    ensures Insert(rows, r).Ok? ==> Get(Insert(rows, r).value, r.stitchRef) == Ok(|rows|)
  {
    if Insert(rows, r).Ok? {
      var rows' := Insert(rows, r).value;
      GetOnUniqueKeys(rows', r.stitchRef);
      assert rows'[|rows|] == r;
    }
  }

  /** The status whose choice key is `name`, if any. */
  function StatusFromName(name: string): (s: Option<PaymentRequestStatus>)
    ensures s.Some? ==> s.value.Name() == name
    ensures s.None? ==> forall t: PaymentRequestStatus :: t.Name() != name
  {
    if name == "NEW" then Some(NEW)
    else if name == "COMPLETE" then Some(COMPLETE)
    else if name == "CLOSED" then Some(CLOSED)
    else if name == "FAILED" then Some(FAILED)
    else None
  }
}
