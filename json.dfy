/** A JSON document as `json.loads` hands it to the program (objects keep the
    key order of the payload), compact `json.dumps` with the `,` and `:`
    separators and the default ASCII escaping, and Python subscripting. */
module JsonValues {
  import opened Results

  datatype Json =
    | JNull
    | JBool(b: bool)
    | JInt(n: int)
    | JStr(s: string)
    | JArr(items: seq<Json>)
    | JObj(members: seq<Member>)

  datatype Member = Member(key: string, value: Json)

  /** Every character lies between the space and the tilde. */
  predicate PrintableAscii(s: string)
  {
    forall i :: 0 <= i < |s| ==> ' ' <= s[i] <= '~'
  }

  function DigitChar(d: nat): (c: char)
    requires d < 16
    ensures '0' <= c <= '9' || 'a' <= c <= 'f'
  {
    "0123456789abcdef"[d]
  }

  /** Decimal digits of a natural number, most significant first. */
  function Digits(n: nat): (s: string)
    ensures |s| >= 1 && forall i :: 0 <= i < |s| ==> '0' <= s[i] <= '9'
    decreases n
  {
    if n < 10 then [DigitChar(n)] else Digits(n / 10) + [DigitChar(n % 10)]
  }

  /** `repr` of a Python `int`. */
  function IntText(n: int): (s: string)
    ensures PrintableAscii(s) && ' ' !in s
    ensures |s| >= 1 && (s[0] == '-' || '0' <= s[0] <= '9')
    ensures s[0] == '-' <==> n < 0
  {
    if n < 0 then "-" + Digits(-n) else Digits(n)
  }

  /** Four lower-case hexadecimal digits, as `'{0:04x}'.format(n)`. */
  function Hex4(n: nat): (s: string)
    requires n < 0x10000
    ensures |s| == 4 && PrintableAscii(s) && ' ' !in s
  {
    [DigitChar(n / 0x1000), DigitChar(n / 0x100 % 16), DigitChar(n / 16 % 16), DigitChar(n % 16)]
  }

  /** How `json.dumps` (with `ensure_ascii`) writes one character of a string:
      backslash and quote escaped, the five short control escapes, printable
      ASCII as is, everything else as `\uXXXX` (a surrogate pair above the
      basic plane). */
  function EscapeChar(c: char): (s: string)
    ensures PrintableAscii(s)
    ensures ' ' in s ==> c == ' '
  {
    var n := c as int;
    if c == '\\' then "\\\\"
    else if c == '"' then "\\\""
    else if n == 8 then "\\b"
    else if n == 12 then "\\f"
    else if n == 10 then "\\n"
    else if n == 13 then "\\r"
    else if n == 9 then "\\t"
    else if 0x20 <= n <= 0x7e then [c]
    else if n < 0x10000 then "\\u" + Hex4(n)
    else
      var m := n - 0x10000;
      "\\u" + Hex4(0xD800 + m / 0x400) + "\\u" + Hex4(0xDC00 + m % 0x400)
  }

  function EscapeChars(s: string): (r: string)
    ensures PrintableAscii(r)
    ensures ' ' !in s ==> ' ' !in r
  {
    if s == [] then "" else EscapeChar(s[0]) + EscapeChars(s[1..])
  }

  /** A JSON string literal. */
  function Quote(s: string): (r: string)
    ensures PrintableAscii(r)
    ensures ' ' !in s ==> ' ' !in r
  {
    "\"" + EscapeChars(s) + "\""
  }

  /** `json.dumps(j, separators=(',', ':'))`: no whitespace between tokens,
      object members in the order the document holds them. */
  function Dumps(j: Json): (s: string)
    ensures |s| >= 1
    ensures s[0] == '{' <==> j.JObj?
    ensures s[0] == '[' <==> j.JArr?
    ensures s[0] == '"' <==> j.JStr?
    ensures s[0] == '-' || '0' <= s[0] <= '9' <==> j.JInt?
  {
    match j
    case JNull => "null"
    case JBool(b) => if b then "true" else "false"
    case JInt(n) => IntText(n)
    case JStr(s) => Quote(s)
    case JArr(items) => "[" + DumpItems(items) + "]"
    case JObj(members) => "{" + DumpMembers(members) + "}"
  }

  function DumpItems(items: seq<Json>): string
  {
    if items == [] then ""
    else Dumps(items[0]) + (if |items| == 1 then "" else "," + DumpItems(items[1..]))
  }

  function DumpMembers(members: seq<Member>): string
  {
    if members == [] then ""
    else Quote(members[0].key) + ":" + Dumps(members[0].value)
         + (if |members| == 1 then "" else "," + DumpMembers(members[1..]))
  }

  /** No string or key anywhere in the document contains a space. */
  predicate NoSpaces(j: Json)
  {
    match j
    case JStr(s) => ' ' !in s
    case JArr(items) => forall i :: 0 <= i < |items| ==> NoSpaces(items[i])
    case JObj(members) => forall i :: 0 <= i < |members| ==>
      ' ' !in members[i].key && NoSpaces(members[i].value)
    case _ => true
  }

  /** Printable ASCII, and space-free, survive concatenation. */
  lemma ConcatClean(a: string, b: string)
    requires PrintableAscii(a) && PrintableAscii(b)
    ensures PrintableAscii(a + b)
    ensures ' ' !in a && ' ' !in b ==> ' ' !in a + b
  {
    assert forall i :: |a| <= i < |a + b| ==> (a + b)[i] == b[i - |a|];
  }

  /** The compact encoding is printable ASCII, and it adds no whitespace of
      its own: a space in the output can only come from a space in the data. */
  lemma {:induction false} DumpsIsCompact(j: Json)
    ensures PrintableAscii(Dumps(j))
    ensures NoSpaces(j) ==> ' ' !in Dumps(j)
  {
    match j
    case JNull =>
    case JBool(b) =>
    case JInt(n) =>
    case JStr(s) =>
    case JArr(items) =>
      DumpItemsIsCompact(items);
      ConcatClean("[", DumpItems(items));
      ConcatClean("[" + DumpItems(items), "]");
    case JObj(members) =>
      DumpMembersIsCompact(members);
      ConcatClean("{", DumpMembers(members));
      ConcatClean("{" + DumpMembers(members), "}");
  }

  lemma {:induction false} DumpItemsIsCompact(items: seq<Json>)
    ensures PrintableAscii(DumpItems(items))
    ensures (forall i :: 0 <= i < |items| ==> NoSpaces(items[i])) ==> ' ' !in DumpItems(items)
  {
    if items != [] {
      var head := Dumps(items[0]);
      DumpsIsCompact(items[0]);
      if |items| > 1 {
        var rest := DumpItems(items[1..]);
        DumpItemsIsCompact(items[1..]);
        ConcatClean(",", rest);
        ConcatClean(head, "," + rest);
        assert DumpItems(items) == head + ("," + rest);
        if forall i :: 0 <= i < |items| ==> NoSpaces(items[i]) {
          forall i | 0 <= i < |items[1..]| ensures NoSpaces(items[1..][i]) {
            assert items[1..][i] == items[i + 1];
          }
        }
      } else {
        assert DumpItems(items) == head + "";
      }
    }
  }

  lemma {:induction false} DumpMembersIsCompact(members: seq<Member>)
    ensures PrintableAscii(DumpMembers(members))
    ensures (forall i :: 0 <= i < |members| ==> ' ' !in members[i].key && NoSpaces(members[i].value))
      ==> ' ' !in DumpMembers(members)
  {
    if members != [] {
      var key := Quote(members[0].key);
      var value := Dumps(members[0].value);
      DumpsIsCompact(members[0].value);
      ConcatClean(key, ":");
      ConcatClean(key + ":", value);
      var head := key + ":" + value;
      if |members| > 1 {
        var rest := DumpMembers(members[1..]);
        DumpMembersIsCompact(members[1..]);
        ConcatClean(",", rest);
        ConcatClean(head, "," + rest);
        assert DumpMembers(members) == head + ("," + rest);
        if forall i :: 0 <= i < |members| ==> ' ' !in members[i].key && NoSpaces(members[i].value) {
          forall i | 0 <= i < |members[1..]|
            ensures ' ' !in members[1..][i].key && NoSpaces(members[1..][i].value)
          {
            assert members[1..][i] == members[i + 1];
          }
        }
      } else {
        assert DumpMembers(members) == head + "";
      }
    }
  }

  /** Python's `obj[key]` on a decoded document: a dict yields the member's
      value or raises `KeyError`; a list, string, number, boolean or `None`
      raises `TypeError`. */
  function Subscript(j: Json, key: string): (r: Result<Json, PyError>)
    ensures r.Ok? <==> j.JObj? && exists i :: 0 <= i < |j.members| && j.members[i].key == key
    ensures r.Ok? ==> exists i :: 0 <= i < |j.members| && j.members[i] == Member(key, r.value)
    ensures r.Err? ==> r.error == (if j.JObj? then KeyError(key) else TypeError)
  {
    match j
    case JObj(members) => Lookup(members, key)
    case _ => Err(TypeError)
  }

  /** The first member with the given key. */
  function Lookup(members: seq<Member>, key: string): (r: Result<Json, PyError>)
    ensures r.Ok? <==> exists i :: 0 <= i < |members| && members[i].key == key
    ensures r.Ok? ==> exists i :: 0 <= i < |members| && members[i] == Member(key, r.value)
    ensures r.Err? ==> r.error == KeyError(key)
  {
    if members == [] then Err(KeyError(key))
    else if members[0].key == key then Ok(members[0].value)
    else
      var r := Lookup(members[1..], key);
      assert r.Ok? ==> exists i :: 0 <= i < |members[1..]| && members[1..][i] == Member(key, r.value);
      assert forall i :: 0 < i < |members| ==> members[i] == members[1..][i - 1];
      r
  }

  /** `obj[k1][k2]...[kn]`, stopping at the first exception: a missing key
      raises `KeyError` naming one of the keys, a non-dict on the way raises
      `TypeError`. */
  function Path(j: Json, keys: seq<string>): (r: Result<Json, PyError>)
    ensures keys == [] ==> r == Ok(j)
    ensures r.Err? ==> r.error == TypeError || exists i :: 0 <= i < |keys| && r.error == KeyError(keys[i])
  {
    if keys == [] then Ok(j)
    else match Subscript(j, keys[0])
      case Err(e) => Err(e)
      case Ok(v) =>
        var r := Path(v, keys[1..]);
        assert forall i :: 0 <= i < |keys[1..]| ==> keys[1..][i] == keys[i + 1];
        r
  }

  /** Following a path in two legs is following it at once. */
  lemma {:induction false} PathAppend(j: Json, front: seq<string>, back: seq<string>)
    ensures Path(j, front + back) == match Path(j, front) case Ok(v) => Path(v, back) case Err(e) => Err(e)
    decreases |front|
  {
    if front == [] {
      assert front + back == back;
    } else {
      assert (front + back)[0] == front[0] && (front + back)[1..] == front[1..] + back;
      match Subscript(j, front[0])
      case Err(_) =>
      case Ok(v) => PathAppend(v, front[1..], back);
    }
  }

  /** No dict anywhere in the document holds the same key twice, as is the
      case for every document `json.loads` returns. */
  predicate DistinctKeys(j: Json)
  {
    match j
    case JArr(items) => forall i :: 0 <= i < |items| ==> DistinctKeys(items[i])
    case JObj(members) =>
      (forall i, k :: 0 <= i < k < |members| ==> members[i].key != members[k].key) &&
      forall i :: 0 <= i < |members| ==> DistinctKeys(members[i].value)
    case _ => true
  }

  /** In a dict whose keys are distinct, subscripting yields the value of the
      one member with that key: the first, which is also the last. */
  lemma SubscriptDistinct(j: Json, i: nat)
    requires DistinctKeys(j) && j.JObj? && i < |j.members|
    ensures Subscript(j, j.members[i].key) == Ok(j.members[i].value)
  {
    var r := Subscript(j, j.members[i].key);
    var k :| 0 <= k < |j.members| && j.members[k] == Member(j.members[i].key, r.value);
    assert k == i;
  }
}
