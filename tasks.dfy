/** The background task that processes a payment provider's webhook: decode
    the body, check the signature header, find the payment request the event
    is about and run the status transition the event selects. */
module Tasks {
  import opened Results
  import opened JsonValues
  import opened Webhook
  import opened PaymentRequests

  /** The status transitions a webhook event can select. */
  datatype Transition = Completed | Failed | Expired

  /** The provider's `__typename` for each transition. */
  function Token(t: Transition): string
  {
    match t
    case Completed => "PaymentInitiationCompleted"
    case Failed => "PaymentInitiationFailed"
    case Expired => "PaymentInitiationExpired"
  }

  /** `final_status in status_lookup.keys()`: only the three tokens are
      recognised; a list or a dict cannot be hashed and raises `TypeError`;
      any other value (another text, a number, `null`) is simply absent. */
  function Recognise(token: Json): (r: Result<Option<Transition>, PyError>)
    ensures r.Err? <==> token.JArr? || token.JObj?
    ensures r.Err? ==> r.error == TypeError
    ensures r.Ok? && r.value.Some? ==> token == JStr(Token(r.value.value))
    ensures r.Ok? && r.value.None? ==> forall t: Transition :: token != JStr(Token(t))
  {
    match token
    case JArr(_) => Err(TypeError)
    case JObj(_) => Err(TypeError)
    case JStr(s) =>
      if s == Token(Completed) then Ok(Some(Completed))
      else if s == Token(Failed) then Ok(Some(Failed))
      else if s == Token(Expired) then Ok(Some(Expired))
      else Ok(None)
    case _ => Ok(None)
  }

  /** Each transition is recognised from its own token. */
  lemma RecogniseToken(t: Transition)
    ensures Recognise(JStr(Token(t))) == Ok(Some(t))
  {
    match t
    case Completed =>
    case Failed =>
    case Expired =>
  }

  /** Where the provider reference and the status token sit in the payload. */
  const RefPath: seq<string> := ["data", "client", "paymentInitiations", "node", "id"]
  const StatusPath: seq<string> := ["data", "client", "paymentInitiations", "node", "status", "__typename"]

  /** The text a `stitch_ref=` filter compares with the column: a string as
      is, a number or boolean as Python prints it; `null` filters on
      `IS NULL`, which the non-null column never matches. */
  function RefText(ref: Json): (r: Option<string>)
    ensures ref.JStr? ==> r == Some(ref.s)
    ensures ref.JNull? || ref.JArr? || ref.JObj? ==> r.None?
  {
    match ref
    case JStr(s) => Some(s)
    case JInt(n) => Some(IntText(n))
    case JBool(b) => Some(if b then "True" else "False")
    case _ => None
  }

  /** The string signed by the provider: the header's timestamp, a dot and
      the compact re-serialisation of the payload. */
  function HashInput(timestamp: string, payload: Json): (s: string)
    ensures |s| == |timestamp| + 1 + |Dumps(payload)|
    ensures s[..|timestamp|] == timestamp && s[|timestamp|] == '.' && s[|timestamp| + 1..] == Dumps(payload)
  {
    timestamp + "." + Dumps(payload)
  }

  /** A signed string determines the timestamp and the serialised payload
      it was built from, as long as timestamps hold no dot. */
  lemma HashInputInjective(t1: string, p1: Json, t2: string, p2: Json)
    requires '.' !in t1 && '.' !in t2
    requires HashInput(t1, p1) == HashInput(t2, p2)
    ensures t1 == t2 && Dumps(p1) == Dumps(p2)
  {
  }

  /** How far the signature check got. */
  datatype Check =
    | CheckRaised(error: PyError)
    | MissingHeader
    | Mismatch
    | Authentic(payload: Json)

  /** The header text parses into sections holding both `t` and
      `hmac_sha256`, the secret is configured, both digests are ASCII, and
      the digest of `<t>.<compact payload>` equals the one sent exactly when
      `agree` holds. */
  predicate DigestVerdict(h: string, payload: Json, env: map<string, string>,
                          mac: (string, string) -> string, agree: bool)
  {
    SectionsOf(Split(h, ',')).Ok? &&
    var sections := SectionsOf(Split(h, ',')).value;
    "t" in sections && "hmac_sha256" in sections && SecretVariable in env &&
    Ascii(mac(env[SecretVariable], HashInput(sections["t"], payload))) && Ascii(sections["hmac_sha256"]) &&
    (mac(env[SecretVariable], HashInput(sections["t"], payload)) == sections["hmac_sha256"] <==> agree)
  }

  /** Lines 15-28 of the webhook job: decode the body, skip on a missing or empty
      header, parse it, compute the expected digest and compare. */
  function Authenticate(header: Option<string>, body: Option<Json>, env: map<string, string>,
                        mac: (string, string) -> string): (c: Check)
    ensures body.None? ==> c == CheckRaised(JSONDecodeError)
    ensures c == MissingHeader <==> body.Some? && (header.None? || header.value == "")
    ensures c.Authentic? ==> body == Some(c.payload)
    ensures c.Authentic? <==>
      (body.Some? && header.Some? && header.value != "" &&
       DigestVerdict(header.value, body.value, env, mac, true))
    ensures c == Mismatch <==>
      (body.Some? && header.Some? && header.value != "" &&
       DigestVerdict(header.value, body.value, env, mac, false))
  {
    match body
    case None => CheckRaised(JSONDecodeError)
    case Some(payload) =>
      if header.None? || header.value == "" then MissingHeader
      else
        match SectionsOf(Split(header.value, ','))
        case Err(e) => CheckRaised(e)
        case Ok(sections) =>
          if "t" !in sections then CheckRaised(KeyError("t"))
          else
            match CalculateHmacSignature(env, HashInput(sections["t"], payload), mac)
            case Err(e) => CheckRaised(e)
            case Ok(computed) =>
              if "hmac_sha256" !in sections then CheckRaised(KeyError("hmac_sha256"))
              else
                match CompareSignatures(computed, sections["hmac_sha256"])
                case Err(e) => CheckRaised(e)
                case Ok(matches) => if matches then Authentic(payload) else Mismatch
  }

  /** What the webhook job does with one event. */
  datatype Decision =
    | Raised(error: PyError)
    | RaisedMultipleObjects
    | SkippedMissingHeader
    | SignatureMismatch
    | UnknownPaymentRequest
    | UnknownStatus(index: nat)
    | Selected(index: nat, transition: Transition)

  /** Lines 29-49 for an authentic payload: read the reference and the token,
      fetch the payment request, recognise the token. */
  function Route(payload: Json, rows: seq<PaymentRequest>): (d: Decision)
    ensures d.UnknownStatus? ==> d.index < |rows|
    ensures d.Selected? ==> d.index < |rows| && Path(payload, StatusPath) == Ok(JStr(Token(d.transition)))
    ensures d != SignatureMismatch && d != SkippedMissingHeader
  {
    match Path(payload, RefPath)
    case Err(e) => Raised(e)
    case Ok(ref) =>
      match Path(payload, StatusPath)
      case Err(e) => Raised(e)
      case Ok(token) =>
        match RefText(ref)
        case None => UnknownPaymentRequest
        case Some(text) =>
          match Get(rows, text)
          case Err(DoesNotExist) => UnknownPaymentRequest
          case Err(MultipleObjectsReturned) => RaisedMultipleObjects
          case Ok(i) =>
            match Recognise(token)
            case Err(e) => Raised(e)
            case Ok(None) => UnknownStatus(i)
            case Ok(Some(t)) => Selected(i, t)
  }

  /** `process_webhook_event`, up to the choice of transition. */
  function Decide(header: Option<string>, body: Option<Json>, env: map<string, string>,
                  mac: (string, string) -> string, rows: seq<PaymentRequest>): (d: Decision)
    ensures d.UnknownStatus? ==> d.index < |rows|
    ensures d.Selected? ==> d.index < |rows|
    ensures d.Selected? || d.UnknownStatus? || d.UnknownPaymentRequest? || d.RaisedMultipleObjects? ==>
      Authenticate(header, body, env, mac).Authentic?
    ensures d == SignatureMismatch <==> Authenticate(header, body, env, mac) == Mismatch
    ensures d == SkippedMissingHeader <==> Authenticate(header, body, env, mac) == MissingHeader
  {
    match Authenticate(header, body, env, mac)
    case CheckRaised(e) => Raised(e)
    case MissingHeader => SkippedMissingHeader
    case Mismatch => SignatureMismatch
    case Authentic(payload) => Route(payload, rows)
  }

  /** A body that is not JSON fails first, whatever the header says. */
  lemma MalformedBodyFirst(header: Option<string>, env: map<string, string>,
                           mac: (string, string) -> string, rows: seq<PaymentRequest>)
    ensures Decide(header, None, env, mac, rows) == Raised(JSONDecodeError)
  {
  }

  /** A missing or empty header skips the event before any digest is
      computed or any payment request is read: the outcome depends on
      neither the secret, the keyed hash nor the table. */
  lemma MissingHeaderSkips(header: Option<string>, payload: Json, env: map<string, string>,
                           mac: (string, string) -> string, rows: seq<PaymentRequest>)
    requires header.None? || header.value == ""
    ensures Decide(header, Some(payload), env, mac, rows) == SkippedMissingHeader
  {
  }

  /** Up to the signature check the table plays no part: until the payload is
      authentic, two tables give the same decision, and no decision other
      than a routed one refers to a row. */
  lemma NoLookupBeforeAuthentic(header: Option<string>, body: Option<Json>, env: map<string, string>,
                                mac: (string, string) -> string, rows: seq<PaymentRequest>,
                                rows': seq<PaymentRequest>)
    requires !Authenticate(header, body, env, mac).Authentic?
    ensures Decide(header, body, env, mac, rows) == Decide(header, body, env, mac, rows')
    ensures Decide(header, body, env, mac, rows) == SignatureMismatch <==>
      Authenticate(header, body, env, mac) == Mismatch
  {
  }

  /** For a well-formed header `t=T,hmac_sha256=H` the event is rejected as
      a mismatch exactly when the keyed hash of `T.<compact payload>`
      differs from `H`, and otherwise it is authentic. */
  lemma StandardHeaderVerdict(t: string, h: string, payload: Json, env: map<string, string>,
                              mac: (string, string) -> string)
    requires ',' !in t && '=' !in t && ',' !in h && '=' !in h
    requires SecretVariable in env
    requires Ascii(h) && Ascii(mac(env[SecretVariable], HashInput(t, payload)))
    ensures Authenticate(Some(StitchHeader(t, h)), Some(payload), env, mac) ==
      if mac(env[SecretVariable], HashInput(t, payload)) == h then Authentic(payload) else Mismatch
  {
    StitchHeaderSections(t, h);
    var header := StitchHeader(t, h);
    assert header[0] == 't';
    var sections := map["t" := t, "hmac_sha256" := h];
    assert sections["t"] == t && sections["hmac_sha256"] == h;
  }

  /** A header whose digest does not verify leads to no lookup and no
      transition, whatever the table holds. */
  lemma ForgedHeaderChangesNothing(t: string, h: string, payload: Json, env: map<string, string>,
                                   mac: (string, string) -> string, rows: seq<PaymentRequest>)
    requires ',' !in t && '=' !in t && ',' !in h && '=' !in h
    requires SecretVariable in env
    requires Ascii(h) && Ascii(mac(env[SecretVariable], HashInput(t, payload)))
    requires mac(env[SecretVariable], HashInput(t, payload)) != h
    ensures Decide(Some(StitchHeader(t, h)), Some(payload), env, mac, rows) == SignatureMismatch
  {
    StandardHeaderVerdict(t, h, payload, env, mac);
  }

  /** A payload routes to row `i` and transition `t` only when its reference
      names row `i` and no other row, and its token is `t`'s. */
  lemma SelectedMeans(payload: Json, rows: seq<PaymentRequest>, i: nat, t: Transition)
    requires Route(payload, rows) == Selected(i, t)
    ensures Path(payload, RefPath).Ok? && RefText(Path(payload, RefPath).value) == Some(rows[i].stitchRef)
    ensures forall j :: 0 <= j < |rows| && rows[j].stitchRef == rows[i].stitchRef ==> j == i
    ensures Path(payload, StatusPath) == Ok(JStr(Token(t)))
  {
  }

  /** Conversely, such a payload is routed to row `i` and transition `t`. */
  lemma SelectsWhen(payload: Json, rows: seq<PaymentRequest>, i: nat, t: Transition)
    requires i < |rows|
    requires Path(payload, RefPath).Ok? && RefText(Path(payload, RefPath).value) == Some(rows[i].stitchRef)
    requires forall j :: 0 <= j < |rows| && rows[j].stitchRef == rows[i].stitchRef ==> j == i
    requires Path(payload, StatusPath) == Ok(JStr(Token(t)))
    ensures Route(payload, rows) == Selected(i, t)
  {
    var text := rows[i].stitchRef;
    assert UsesStitchRef(rows, text);
    assert Get(rows, text) == Ok(i);
    RecogniseToken(t);
  }

  /** An unknown reference means both paths resolve and no row carries the
      reference. */
  lemma UnknownReferenceMatchesNoRow(payload: Json, rows: seq<PaymentRequest>)
    requires Route(payload, rows) == UnknownPaymentRequest
    ensures Path(payload, RefPath).Ok? && Path(payload, StatusPath).Ok?
    ensures RefText(Path(payload, RefPath).value).Some? ==>
      !UsesStitchRef(rows, RefText(Path(payload, RefPath).value).value)
  {
    var ref := Path(payload, RefPath).value;
    if RefText(ref).Some? {
      assert Get(rows, RefText(ref).value) == Err(DoesNotExist);
    }
  }

  /** Conversely, such a payload is reported as an unknown payment request. */
  lemma UnknownReferenceWhen(payload: Json, rows: seq<PaymentRequest>)
    requires Path(payload, RefPath).Ok? && Path(payload, StatusPath).Ok?
    requires RefText(Path(payload, RefPath).value).Some? ==>
      !UsesStitchRef(rows, RefText(Path(payload, RefPath).value).value)
    ensures Route(payload, rows) == UnknownPaymentRequest
  {
  }

  /** With the table's unique key a lookup never finds two rows. */
  lemma UniqueKeysNeverMultiple(payload: Json, rows: seq<PaymentRequest>)
    requires UniqueKeys(rows)
    ensures Route(payload, rows) != RaisedMultipleObjects
  {
    match Path(payload, RefPath)
    case Err(_) =>
    case Ok(ref) =>
      if RefText(ref).Some? { GetOnUniqueKeys(rows, RefText(ref).value); }
  }

  /** The status-changing methods of a payment request are not part of the
      model: a transition is any function from the row and the selected
      transition to the new row or the exception it raises. */
  type Apply = (PaymentRequest, Transition) -> Result<PaymentRequest, PyError>

  /** The three transition methods called in turn on the same row, stopping
      at the first exception. */
  function AllThree(r: PaymentRequest, apply: Apply): (res: Result<PaymentRequest, PyError>)
    ensures apply(r, Completed).Err? ==> res == apply(r, Completed)
    ensures res.Ok? ==> apply(r, Completed).Ok? && apply(apply(r, Completed).value, Failed).Ok?
    ensures res.Ok? && KeepsKeys(apply) ==>
      res.value.transactionRef == r.transactionRef && res.value.stitchRef == r.stitchRef
  {
    match apply(r, Completed)
    case Err(e) => Err(e)
    case Ok(r1) =>
      match apply(r1, Failed)
      case Err(e) => Err(e)
      case Ok(r2) => apply(r2, Expired)
  }

  /** Lines 39-47 as written: building the dictionary calls all three
      transition methods on the row before any token is looked at; the
      dictionary, keyed by token, is then asked for the payment request
      itself, answers `None`, and calling `None` raises `TypeError`. The
      result is the row as the calls left it and the exception, if any. */
  function DispatchAsWritten(r: PaymentRequest, token: Json, apply: Apply): (res: (PaymentRequest, Option<PyError>))
    ensures res.1.None? <==> AllThree(r, apply).Ok? && Recognise(token) == Ok(None)
    ensures Recognise(token).Ok? && Recognise(token).value.Some? ==> res.1.Some?
    ensures AllThree(r, apply).Ok? ==> res.0 == AllThree(r, apply).value
  {
    match apply(r, Completed)
    case Err(e) => (r, Some(e))
    case Ok(r1) =>
      match apply(r1, Failed)
      case Err(e) => (r1, Some(e))
      case Ok(r2) =>
        match apply(r2, Expired)
        case Err(e) => (r2, Some(e))
        case Ok(r3) =>
          match Recognise(token)
          case Err(e) => (r3, Some(e))
          case Ok(None) => (r3, None)
          case Ok(Some(_)) => (r3, Some(TypeError))
  }

  /** As written, an event with a recognised token never runs its own
      transition alone: whichever token arrives, the row has been through all
      three transitions, `Expired` last, and the job then raises. */
  lemma EagerDispatchRunsAllThree(r: PaymentRequest, t: Transition, apply: Apply)
    requires AllThree(r, apply).Ok?
    ensures DispatchAsWritten(r, JStr(Token(t)), apply) == (AllThree(r, apply).value, Some(TypeError))
  {
    RecogniseToken(t);
  }

  /** Every transition keeps the row's keys. */
  ghost predicate KeepsKeys(apply: Apply)
  {
    forall r: PaymentRequest, t: Transition :: apply(r, t).Ok? ==>
      apply(r, t).value.transactionRef == r.transactionRef && apply(r, t).value.stitchRef == r.stitchRef
  }

  /** The stored payment requests. */
  class PaymentRequestTable {
    var rows: seq<PaymentRequest>

    constructor (initial: seq<PaymentRequest>)
      ensures rows == initial
    {
      rows := initial;
    }

    /** `process_webhook_event`, running the selected transition alone inside
        one atomic block: when it returns, its new row replaces the old one;
        when it raises, the block rolls back and the exception escapes. */
    method ProcessWebhookEvent(header: Option<string>, body: Option<Json>, env: map<string, string>,
                               mac: (string, string) -> string, apply: Apply)
      returns (decision: Decision, raised: Option<PyError>)
      modifies this
      ensures decision == Decide(header, body, env, mac, old(rows))
      ensures !decision.Selected? ==> rows == old(rows) && raised.None?
      ensures decision.Selected? ==>
        match apply(old(rows)[decision.index], decision.transition)
        case Ok(r) => rows == old(rows)[decision.index := r] && raised.None?
        case Err(e) => rows == old(rows) && raised == Some(e)
      ensures old(UniqueKeys(rows)) && KeepsKeys(apply) ==> UniqueKeys(rows)
    {
      decision := Decide(header, body, env, mac, rows);
      raised := None;
      if decision.Selected? {
        var i := decision.index;
        match apply(rows[i], decision.transition)
        case Ok(r) =>
          rows := rows[i := r];
        case Err(e) =>
          raised := Some(e);
      }
    }
  }
}
