# payment_wallet_api in Dafny

This project models the core of a Django payment-wallet API, built on the
Stitch payment provider. The model covers:

- **Wallets.** Two wallet implementations. Each keeps a cached balance plus a
  ledger of `Transaction` rows, and each row records a signed amount and the
  running balance after it. The integer wallet of the `wallets` app and the
  money wallet of the `payments` app, counted in cents, each become a class
  whose methods update the balance and the ledger in place. Both are proved
  against functions on a shared `Ledger.Book` value.
- **Webhooks.** Stitch webhooks are authenticated and routed:
  - the `X-Stitch-Signature` header is parsed into sections;
  - the HMAC of `timestamp.compact-json-payload` is computed and compared with
    the signature in the header;
  - the payment request is looked up by its Stitch reference;
  - the status token of the payload is recognised.

  The decision is a pure function, `Tasks.Decide`. A table class applies the
  selected status transition to the stored payment requests.
- **Payment requests.** The `PaymentRequest` record, with its column length
  bounds, its unique keys and its default status.
- **Enums.** `enum_choices` and the two enums it is used with.
- **Permissions.** The five permission classes, which look at the request's
  user and at the object's owner.
- **Exceptions.** The two custom exceptions and their error bodies.
- **Users.** The user manager's `create_user` and `create_superuser`, which
  check and default their arguments, and the user's `has_perm`,
  `has_module_perms` and `json`.
- **Key lookup.** `parse_json_recursively`, a helper defined in the
  account-linking views module. Nothing calls it except its own recursion.

Python behaviour the model writes out explicitly:

- `str.split` keeps empty pieces.
- A signature header that repeats a key keeps the value of the last
  section with that key (the `dict` assignment overwrites).
- `hmac.compare_digest` raises `TypeError` on non-ASCII text.
- `json.dumps` with compact separators escapes to ASCII.
- Iterating an `Enum` skips aliases.
- Reading an attribute of `None` raises `AttributeError`.
- `dict.setdefault` keeps a value that was given.
- The ORM's `get` raises `DoesNotExist` or `MultipleObjectsReturned`.

Some things are parameters instead of being modelled:

- HMAC-SHA256, as `mac(secret, message)`.
- The process environment, as a map.
- `normalize_email` and password hashing.
- The transition a payment request undergoes.

The JSON document given to the webhook is the already-decoded value. `None`
stands for a body that `json.loads` rejects.

Two points where the code is less complete than its callers suggest:

- **Statuses.** The webhook job calls `completed()`, `failed()` and
  `expired()` on a payment request (api/apps/payments/tasks.py:40-42), but
  `PaymentRequest` defines no such methods and keeps no status history. Its
  status enum has `NEW`, `COMPLETE`, `CLOSED` and `FAILED` and no expired
  status (api/utils/enums.py:8-12). The model keeps the four declared
  statuses and treats the transition as a parameter.
- **Deposits.** Only the `payments` wallet refuses a non-positive deposit
  (api/apps/payments/models/wallet.py:23-24). The `wallets` app's `deposit`
  accepts any amount (api/apps/wallets/models.py:13-22), and so does
  `Wallets.Wallet.Deposit`.

## Model

| member | source | states |
|---|---|---|
| Ledger.Post | api/apps/wallets/models.py:17-21 | appending one row keeps the earlier rows, the new row is (delta, new balance), the balance moves by delta, and ledger consistency is preserved |
| Ledger.RunningIsPrefixSum | api/apps/wallets/models.py:17-21 | in a chained ledger every row's running balance is the sum of the amounts up to it, and the newest one is the sum of all |
| Ledger.NewestMatchesBalance | api/apps/wallets/models.py:33-37 | in a consistent wallet the newest row carries the wallet's balance |
| Ledger.ReplayKeepsConsistent | api/apps/wallets/models.py:13-38 | any run of movements from a consistent wallet keeps it consistent, adds one row per movement and adds their total to the balance |
| Ledger.ReplayFromEmpty | api/apps/wallets/models.py:11 | from the default wallet (balance 0, no rows) any run of movements leaves a consistent ledger with one row per movement and the balance equal to their total |
| Wallets.Withdrawn | api/apps/wallets/models.py:24-38 | refused with InsufficientBalance exactly when the amount exceeds the balance; otherwise the balance drops by the amount and stays non-negative, one row (-amount, new balance) is appended, and consistency is kept |
| Wallets.Transferred | api/apps/wallets/models.py:40-45 | fails (before the target is touched) exactly when the withdrawal fails; on success the source loses and the target gains the amount, the combined balance is unchanged and both ledgers stay consistent |
| Wallets.Wallet.constructor | api/apps/wallets/models.py:11 | a new wallet has balance 0, no rows, and is consistent |
| Wallets.Wallet.Deposit | api/apps/wallets/models.py:13-22 | the new state is one appended row (amount, old balance + amount) and the balance grows by the amount; consistency is kept |
| Wallets.Wallet.Withdraw | api/apps/wallets/models.py:24-38 | on refusal nothing changes; otherwise the state is Withdrawn of the old state; consistency is kept |
| Wallets.Wallet.Transfer | api/apps/wallets/models.py:40-45 | for two wallets the outcome and both new states are Transferred of the old states; when the target is the same wallet the balance ends where it started with two new rows |
| PaymentWallet.Deposited | api/apps/payments/models/wallet.py:19-32 | refused exactly when the amount is not positive; otherwise the balance strictly grows by the amount and one row is appended |
| PaymentWallet.Withdrawn | api/apps/payments/models/wallet.py:34-49 | refused exactly when the amount exceeds the balance; otherwise the balance drops to a non-negative value and one row is appended |
| PaymentWallet.TransferredAsWritten | api/apps/payments/models/wallet.py:51-56 | fails exactly when the amount exceeds the source balance or is not positive; a non-positive amount fails in the deposit after the source's withdrawal is recorded; a success conserves the combined balance |
| PaymentWallet.NonPositiveTransferKeepsWithdrawal | api/apps/payments/models/wallet.py:51-56 | a transfer of -5 between empty wallets fails yet leaves the source at 5, so the combined balance changes |
| PaymentWallet.TransferredAtomically | api/apps/payments/models/wallet.py:19-56 | the all-or-nothing transfer fails under the same conditions, changing nothing, and a success conserves the combined balance and consistency |
| PaymentWallet.AtomicTransferAgrees | api/apps/payments/models/wallet.py:51-56 | the all-or-nothing transfer yields the same wallets whenever the written one succeeds, and the same error when it fails |
| PaymentWallet.Wallet.constructor | api/apps/payments/models/wallet.py:17 | a new wallet holds 0 and no rows |
| PaymentWallet.Wallet.Deposit | api/apps/payments/models/wallet.py:19-32 | the outcome and new state are Deposited of the old state; consistency is kept |
| PaymentWallet.Wallet.Withdraw | api/apps/payments/models/wallet.py:34-49 | the outcome and new state are Withdrawn of the old state; consistency is kept |
| PaymentWallet.Wallet.Transfer | api/apps/payments/models/wallet.py:51-56 | for two wallets the outcome and both states are TransferredAsWritten of the old states; for a self-transfer the withdrawal and deposit are applied in turn |
| JsonValues.IntText | api/apps/payments/tasks.py:16 | the decimal text of an integer is printable ASCII without spaces, starts with a digit or a minus sign, and with a minus sign exactly for a negative number |
| JsonValues.EscapeChar | api/apps/payments/tasks.py:16 | every character is escaped to printable ASCII, and the escape holds a space only for a space |
| JsonValues.Quote | api/apps/payments/tasks.py:16 | a quoted, escaped string is printable ASCII, and has no space when the input has none |
| JsonValues.Dumps | api/apps/payments/tasks.py:16 | the compact dump is never empty and its first character tells the kind of value: `{` exactly for a dict, `[` exactly for a list, `"` exactly for a string, a digit or minus sign exactly for a number |
| JsonValues.DumpsIsCompact | api/apps/payments/tasks.py:16 | the compact dump of any document is printable ASCII, and has no space unless a string in it does |
| JsonValues.Subscript | api/apps/payments/tasks.py:29-30 | `obj[key]` succeeds exactly on a dict holding the key, giving that key's value; otherwise KeyError on a dict and TypeError on anything else |
| JsonValues.Lookup | api/apps/payments/tasks.py:29-30 | a key lookup in a dict's members succeeds exactly when the key is present and yields its value, and raises KeyError otherwise |
| JsonValues.Path | api/apps/payments/tasks.py:29-30 | an empty chain of subscripts yields the document; a failing chain raises TypeError or a KeyError naming one of its keys |
| JsonValues.PathAppend | api/apps/payments/tasks.py:29-30 | following a chain of keys in two legs gives the same result, or the same exception, as following it at once |
| JsonValues.SubscriptDistinct | api/apps/payments/tasks.py:29-30 | in a dict without repeated keys, subscripting by a member's key yields that member's value |
| Webhook.Split | api/utils/webhook.py:10 | splitting gives at least one piece and no piece holds the separator |
| Webhook.JoinSplit | api/utils/webhook.py:10 | joining the pieces of a split gives back the text |
| Webhook.SplitJoin | api/utils/webhook.py:10 | splitting a join of separator-free pieces gives back the pieces |
| Webhook.Section | api/utils/webhook.py:14-15 | a part without `=` raises IndexError; otherwise the key is the text before the first `=` and the value the text up to the next one |
| Webhook.GetSignatureSections | api/utils/webhook.py:6-17 | the loop builds exactly SectionsOf of the comma-separated parts |
| Webhook.SectionsOkIff | api/utils/webhook.py:13-15 | parsing succeeds exactly when every part holds `=` |
| Webhook.SectionsFailWithIndexError | api/utils/webhook.py:15 | a parse failure is always IndexError |
| Webhook.FailureSticks | api/utils/webhook.py:13-15 | once a prefix of the parts fails, the whole parse fails |
| Webhook.SectionsKeysPresent | api/utils/webhook.py:13-15 | every part's key is in the parsed sections |
| Webhook.SectionsKeysSupplied | api/utils/webhook.py:13-15 | every parsed key comes from a part carrying that key and the stored value |
| Webhook.SectionsLastWins | api/utils/webhook.py:15 | for a repeated key the last part with that key gives the stored value |
| Webhook.SectionsSize | api/utils/webhook.py:11-15 | there are never more sections than parts |
| Webhook.StitchHeaderSections | api/utils/webhook.py:6-17 | a header `t=<t>,hmac_sha256=<h>` parses to exactly those two sections |
| Webhook.CalculateHmacSignature | api/utils/webhook.py:20-28 | KeyError exactly when the secret variable is unset; otherwise the MAC of the secret and the input |
| Webhook.Mismatches | api/utils/webhook.py:39 | the count of differing positions is at most the length, and zero for equal texts |
| Webhook.NoMismatchesMeansEqual | api/utils/webhook.py:39 | two equal-length texts have no differing position exactly when they are equal |
| Webhook.CompareSignatures | api/utils/webhook.py:31-41 | TypeError exactly when either text is not ASCII; otherwise true exactly when the texts are equal |
| Enums.Iteration | api/utils/enums.py:5 | iterating an enum yields at most the declared members, each declared, no value twice, and every declared value |
| Enums.IterationWithoutAliases | api/utils/enums.py:5 | with no repeated value, iteration yields the declared members in order |
| Enums.EnumChoices | api/utils/enums.py:4-5 | one (name, value) pair per iterated member, each a declared member, covering exactly the declared values |
| Enums.ChoicesOfDistinctMembers | api/utils/enums.py:4-5 | for an enum without aliases the choices are exactly the declared pairs in order, with no name or value repeated |
| Enums.StatusDeclared | api/utils/enums.py:8-12 | four statuses with distinct names and values, every status among them |
| Enums.StatusFromValue | api/utils/enums.py:8-12 | looking a status up by value returns one with that value, or ValueError when no status has it |
| Enums.StatusValueRoundTrip | api/utils/enums.py:8-12 | looking a status's value up gives back that status |
| Enums.StatusChoices | api/apps/payments/models/payment_request.py:25 | the status choices are exactly NEW/new, COMPLETE/complete, CLOSED/closed, FAILED/failed in that order |
| Enums.IdentificationDeclared | api/utils/enums.py:15-17 | two identification types with distinct names and values |
| Enums.IdentificationChoices | api/utils/enums.py:15-17 | the choices are exactly PASSPORT/'Passport Number' and ID/'Identification Number' |
| PaymentRequests.FirstTooLong | api/apps/payments/models/payment_request.py:17-27 | names a column whose text exceeds its bound, or none when every remaining column fits |
| PaymentRequests.ColumnsComplete | api/apps/payments/models/payment_request.py:15-27 | every column is checked |
| PaymentRequests.Insert | api/apps/payments/models/payment_request.py:16-27 | the row is stored at the end exactly when every plain text column fits its bound and both unique keys are fresh; a length error names a column that is too long; unique keys are kept |
| PaymentRequests.Matching | api/apps/payments/tasks.py:33 | lists, in increasing order, exactly the rows with the given Stitch reference |
| PaymentRequests.Get | api/apps/payments/tasks.py:33-37 | returns the only row with the reference; DoesNotExist exactly when no row has it; MultipleObjectsReturned only when two rows have it |
| PaymentRequests.GetOnUniqueKeys | api/apps/payments/models/payment_request.py:17 | with unique Stitch references the lookup never reports more than one row |
| PaymentRequests.EnumTextIsNoChoiceKey | api/apps/payments/models/payment_request.py:25-26 | the text a column stores for an enum member names no status, yet still tells the members apart |
| PaymentRequests.DefaultStatusAsWritten | api/apps/payments/models/payment_request.py:23-27 | the default as stored is 24 characters, over the column's 15 |
| PaymentRequests.DefaultStatusNeverInserts | api/apps/payments/models/payment_request.py:23-27 | a row carrying the written default never fits and is never inserted |
| PaymentRequests.DefaultStatus | api/apps/payments/models/payment_request.py:24-26 | the corrected default is the NEW choice key, which fits the column |
| PaymentRequests.NewRequestInserts | api/apps/payments/models/payment_request.py:14-27 | with the corrected default, a new request is stored exactly when its other plain text columns fit and its keys are fresh; it then reads back as NEW and is found by its Stitch reference |
| PaymentRequests.StatusFromName | api/apps/payments/models/payment_request.py:25 | a stored status names the status it stands for, and no status when none has that name |
| Tasks.Recognise | api/apps/payments/tasks.py:39-45 | TypeError exactly for an unhashable token; a recognised token is that transition's type name; an unrecognised one matches no transition |
| Tasks.RecogniseToken | api/apps/payments/tasks.py:40-42 | each transition's type name is recognised as that transition |
| Tasks.RefText | api/apps/payments/tasks.py:29-35 | a JSON string reference is used as-is; null, a list or a dict never matches a row |
| Tasks.HashInputInjective | api/apps/payments/tasks.py:16-24 | for timestamps without a dot, equal signed texts come from equal timestamps and equal compact dumps |
| Tasks.Authenticate | api/apps/payments/tasks.py:15-28 | an undecodable body raises first; the event is skipped exactly for a decoded body with a missing or empty header; it is authentic exactly when the header parses, holds `t` and `hmac_sha256`, the secret is set, both digests are ASCII and the MAC of `t.payload` equals the sent digest; it is a mismatch exactly when all of that holds but the digests differ |
| Tasks.Route | api/apps/payments/tasks.py:29-49 | a selected or unknown-status row is a row of the table, a selected transition is the one whose type name the payload's status holds, and routing never reports a signature problem |
| Tasks.Decide | api/apps/payments/tasks.py:13-54 | stored rows are consulted only after an authentic signature; a signature mismatch and a missing header are reported exactly when the check finds them |
| Tasks.MalformedBodyFirst | api/apps/payments/tasks.py:15 | a body that is not JSON raises whatever the header |
| Tasks.MissingHeaderSkips | api/apps/payments/tasks.py:18-21 | a missing or empty header skips the event |
| Tasks.NoLookupBeforeAuthentic | api/apps/payments/tasks.py:28 | without an authentic signature the decision does not depend on the stored rows |
| Tasks.StandardHeaderVerdict | api/apps/payments/tasks.py:23-28 | for a well-formed header the event is authentic exactly when the MAC of the secret and `t.payload` equals the header's signature, and a mismatch otherwise |
| Tasks.ForgedHeaderChangesNothing | api/apps/payments/tasks.py:52-54 | a header whose signature differs from the MAC ends in a signature mismatch |
| Tasks.SelectedMeans | api/apps/payments/tasks.py:29-47 | a selected row has the payload's Stitch reference, is the only such row, and the payload's status is the selected transition's type name |
| Tasks.SelectsWhen | api/apps/payments/tasks.py:29-47 | conversely, such a payload and table select that row and transition |
| Tasks.UnknownReferenceMatchesNoRow | api/apps/payments/tasks.py:29-37 | an unknown payment request means both paths resolve and no row carries the payload's reference |
| Tasks.UnknownReferenceWhen | api/apps/payments/tasks.py:29-37 | conversely, when both paths resolve and no row carries the reference, the payment request is reported unknown |
| Tasks.UniqueKeysNeverMultiple | api/apps/payments/models/payment_request.py:17 | with unique Stitch references the lookup never finds two rows |
| Tasks.AllThree | api/apps/payments/tasks.py:39-43 | the first transition's exception propagates; a success means the first two transitions succeeded, and keeps the row's keys when every transition does |
| Tasks.DispatchAsWritten | api/apps/payments/tasks.py:39-47 | all three transitions run before the token is looked at; no error only when all three succeed and the token is unrecognised; a recognised token always raises |
| Tasks.EagerDispatchRunsAllThree | api/apps/payments/tasks.py:39-47 | with a recognised token the written dispatch applies all three transitions and then raises TypeError |
| Tasks.PaymentRequestTable.constructor | api/apps/payments/tasks.py:33 | the table starts with the given rows |
| Tasks.PaymentRequestTable.ProcessWebhookEvent | api/apps/payments/tasks.py:13-54 | the decision is Decide of the old rows; only a selected row is replaced by its transition, an error leaves the table unchanged, and unique keys are kept when transitions keep keys |
| Permissions.BaseAuthHasPermission | api/utils/permissions.py:4-6 | granted exactly to a present, active account |
| Permissions.IsNotAuthenticatedHasPermission | api/utils/permissions.py:9-14 | AttributeError exactly when there is no user; otherwise granted exactly to the anonymous user |
| Permissions.IsActiveAdminUserHasPermission | api/utils/permissions.py:17-23 | granted exactly to a present account that is staff and active |
| Permissions.IsActiveAdminUserHasObjectPermission | api/utils/permissions.py:25-26 | granted exactly to a present account that is staff and active, whatever the object |
| Permissions.IsActiveUserHasPermission | api/utils/permissions.py:29-35 | granted exactly to a present, active account |
| Permissions.IsOwnerHasObjectPermission | api/utils/permissions.py:38-45 | AttributeError exactly when there is no user; otherwise granted exactly to an active account that created the object |
| Permissions.AdminIsActiveUser | api/utils/permissions.py:17-35 | an active admin is an active user, and an active staff user is an active admin |
| Permissions.AdminObjectPermissionIsPermission | api/utils/permissions.py:22-26 | the admin class answers the same for a request and for an object |
| Permissions.BaseAuthIsActiveUser | api/utils/permissions.py:4-35 | the base check grants exactly when the active-user check does |
| Permissions.NotAuthenticatedExcludesActiveUser | api/utils/permissions.py:9-35 | no user passes both the not-authenticated and the active-user checks |
| Permissions.OwnerPassesRequestCheck | api/utils/permissions.py:38-45 | an owner granted an object also passes the inherited request check |
| Exceptions.NewBaseCustomException | api/utils/exceptions/custom.py:5-10 | only the message is set; no status and no detail |
| Exceptions.NewInvalidRequest | api/utils/exceptions/custom.py:16-30 | status 400 unless given; body {field: detail} with both, {'error': detail} with a detail only, {'error': 'Invalid request'} without a detail; no message |
| Exceptions.ToDict | api/utils/exceptions/custom.py:12-13 | AttributeError exactly when no message was set; otherwise exactly {'error': message} |
| Exceptions.BaseToDict | api/utils/exceptions/custom.py:9-13 | the base exception's dict is exactly its message |
| Exceptions.InvalidRequestToDictRaises | api/utils/exceptions/custom.py:12-30 | `to_dict` on an InvalidRequest always raises AttributeError |
| Exceptions.InvalidRequestBody | api/utils/exceptions/custom.py:25-30 | the body's one key is the field exactly when field and detail are given, and every value is the detail or the default |
| Users.Build | api/apps/users/models.py:23 | the user has the given id and email, no password yet and no login; each extra field given is kept and each missing one takes the model default (empty names, not staff, not superuser, active) |
| Users.PlainUserDefaults | api/apps/users/models.py:50-53 | a user built without extra fields is active, not staff, not superuser and never logged in |
| Users.Created | api/apps/users/models.py:15-27 | ValueError exactly for a false email; otherwise an IntegrityError exactly when the id or normalised email is taken; the user holds the normalised email, hashed password and given flags |
| Users.CreatedKeepsKeysUnique | api/apps/users/models.py:46-48 | storing a created user keeps ids and emails unique |
| Users.SuperuserFields | api/apps/users/models.py:33-35 | each flag that was given is kept and each missing one becomes true |
| Users.HasPerm | api/apps/users/models.py:75-76 | every user has every permission |
| Users.HasModulePerms | api/apps/users/models.py:72-73 | every user may see every app |
| Users.ToJson | api/apps/users/models.py:78-85 | exactly the keys id, full_name, short_name, email, last_login in order, each carrying the user's own field, with 'None' before the first login |
| Users.UserManager.constructor | api/apps/users/models.py:15 | the manager starts with the given users |
| Users.UserManager.CreateUser | api/apps/users/models.py:15-27 | the result is Created on the old table; a success appends the user, a failure changes nothing; unique keys are kept |
| Users.UserManager.CreateSuperuser | api/apps/users/models.py:29-42 | an explicit non-staff flag is refused first, then an explicit non-superuser flag; otherwise the result is Created with the defaulted flags |
| Users.SuperuserFlags | api/apps/users/models.py:33-42 | a created superuser is staff and superuser, and active unless told otherwise |
| LinkPay.ParseJsonRecursivelyAsWritten | api/apps/payments/views/linkpay.py:24-30 | anything other than '' is the value of a top-level key equal to the target |
| LinkPay.AsWrittenIsTopLevelLookup | api/apps/payments/views/linkpay.py:24-30 | the helper as written is `obj[target]` for a dict holding the target at top level and '' otherwise (a non-dict, an empty dict, or a key found only deeper) |
| LinkPay.NestedKeyMissed | api/apps/payments/views/linkpay.py:29 | for {"a": {"target": 1}} the helper as written returns '' although the depth-first search finds 1 |
| LinkPay.ParseJsonRecursively | api/apps/payments/views/linkpay.py:24-30 | anything other than '' is the value of the target key in some dict reached through dict values |
| LinkPay.FindSound | api/apps/payments/views/linkpay.py:24-30 | whatever the depth-first search finds is the target's value in some nested dict |
| LinkPay.FindComplete | api/apps/payments/views/linkpay.py:24-30 | when the target key occurs in any nested dict, the search finds a value |
| LinkPay.CorrectedAgreesOnTopLevelKeys | api/apps/payments/views/linkpay.py:26-28 | when the first hit is a top-level key, the corrected and the written helper return the same value |

## Left out

- Parsing JSON text (`json.loads`) is not modelled. The webhook receives
  the decoded document, or `None` for text that does not decode. Objects
  keep the order their keys were written in.
- JsonValues.Lookup: a dict is a list of members, and a repeated key is not
  merged. A decoded Python dict never repeats a key (`DistinctKeys`); on
  such documents the first member with a key is also the last
  (`JsonValues.SubscriptDistinct`). For a raw body that repeats a key, the
  model looks up the first value where `json.loads` keeps the last, and
  `Dumps` prints both members where Python prints one. Authentication and
  routing of such a body can then differ from the code's.
- JSON floats, and their printing by `json.dumps`, are left out. Numbers
  are integers.
- Tasks.RefText: a float reference is not modelled. A list or dict reference
  is treated as matching no row, although Django would stringify or reject
  it.
- `RecursionError` on very deeply nested documents is left out.
- The HMAC-SHA256 algorithm and the secret's UTF-8 encoding are left out.
  The MAC is the parameter `mac`, and the environment is a map.
- The Stitch API clients, PKCE generation, the Redis cache and every HTTP
  view are left out. They are network and framework glue. `payments.py` is
  used only for how it creates a payment request.
- Logging is left out. Celery scheduling is left out. Locking and
  concurrency are left out: the database transactions are modelled as
  sequential updates.
- TimeStampedModel timestamps, the wallet's `user` key and `__repr__`/`__str__`
  are left out. They are presentation or bookkeeping only.
- PaymentRequests.Insert: `beneficiary_name` and `beneficiary_account_number`
  are encrypted fields stored as ciphertext in binary columns, so their
  `max_length` is only a form validator that saving does not run. They are
  not columns of the model and their length is never checked.
- PaymentWallet.Wallet.Withdraw: the model assumes a working money layer.
  As written, `api/utils/mixins/models.py` defines only `UserMixin`, so the
  `MoneyMixin` imported at api/apps/payments/models/wallet.py:12 and
  api/apps/payments/models/payment_request.py:11 does not exist. `withdraw`
  also compares an amount with the `Money` balance (wallet.py:40), while
  `transfer` passes it a `Decimal` (wallet.py:55). The model assumes that
  amounts and balances compare and subtract as one number type, integer
  cents. How the money library treats mixed operands is not modelled.
- Money is integer cents in one currency. Currency and `max_digits` are
  left out. `MinMoneyValidator(1)` is left out, because
  creating a transaction does not run it.
- Wallets.Wallet.Deposit: the 64-bit range of `BigIntegerField` is not
  modelled, so an overflow that the database would refuse goes through.
- The DRF default `has_object_permission` of the classes that do not
  override it always grants. It is not restated.
- Users.Created: flags are booleans. A non-boolean value for `is_staff` and
  similar flags, an explicit `None` keyword, or an unknown keyword (a
  `TypeError` in the model constructor) is not modelled. Field length
  limits are not modelled either.
- Users.Created: `normalize_email` and `set_password` are the parameters
  `normalize` and `hash`. A `None` password, which Django stores as
  unusable, is not distinguished.
- Tasks.PaymentRequestTable.ProcessWebhookEvent: applies only the selected
  transition. The transition is a parameter, because the transition methods
  are not part of this model: `payment_request.py` defines none.

## Findings

| source | as written | input that shows it | evidently intended | confidence | as-written member | corrected member |
|---|---|---|---|---|---|---|
| api/apps/payments/models/wallet.py:51-56 | `transfer` commits `withdraw` before `deposit` checks that the amount is positive | assuming `MoneyMixin` exists and the `Decimal` amount and `Money` balance compare and subtract as one number type (as written, the import at line 12 fails and line 40 compares a `Decimal` with a `Money`): `transfer` of -5 from an empty wallet: the deposit raises, but the source has already gained 5 | refuse the transfer before either wallet changes | medium, not executed | PaymentWallet.NonPositiveTransferKeepsWithdrawal | PaymentWallet.TransferredAtomically |
| api/apps/payments/views/linkpay.py:29 | the recursive call's result is discarded, so only top-level keys are ever found | `{"a": {"target": 1}}` with target `target` gives `''` | return the first value found in a nested dict | high, not executed | LinkPay.NestedKeyMissed | LinkPay.FindComplete |
| api/apps/payments/tasks.py:39-47 | the dict literal calls all three transitions, then `status_lookup.get(payment_request)` looks up the payment request itself, which is not a key, so it returns `None` and calling `None()` raises TypeError | assuming the three transition methods exist (as written, `PaymentRequest` defines none and line 40 raises AttributeError first): any recognised status runs all three transitions, then raises TypeError | run only the transition named by `final_status` | high, not executed | Tasks.EagerDispatchRunsAllThree | Tasks.PaymentRequestTable.ProcessWebhookEvent |
| api/apps/payments/models/payment_request.py:26 | the default is the enum member, which the text column stores as `PaymentRequestStatus.NEW` | assuming `MoneyMixin` exists (as written, the import at line 11 fails, because api/utils/mixins/models.py defines only `UserMixin`): any request created without a status (as at api/apps/payments/views/payments.py:117-123): 24 characters exceed `max_length=15` on PostgreSQL | default to the choice key `NEW` | medium, not executed | PaymentRequests.DefaultStatusNeverInserts | PaymentRequests.NewRequestInserts |
