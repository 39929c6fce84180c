/** Verification helpers for the provider's signature header
    `t=<timestamp>,hmac_sha256=<hex digest>`: splitting it into sections,
    computing the expected digest and comparing digests. */
module Webhook {
  import opened Results

  /** Position of the first `c` in `s`. */
  function IndexOf(s: string, c: char): (i: nat)
    requires c in s
    ensures i < |s| && s[i] == c && c !in s[..i]
  {
    if s[0] == c then 0
    else
      var i := 1 + IndexOf(s[1..], c);
      assert s[..i] == [s[0]] + s[1..][..i - 1];
      i
  }

  /** Python's `s.split(sep)` for a one-character separator. */
  function Split(s: string, sep: char): (parts: seq<string>)
    ensures |parts| >= 1
    ensures forall i :: 0 <= i < |parts| ==> sep !in parts[i]
    decreases |s|
  {
    if sep !in s then [s]
    else
      var i := IndexOf(s, sep);
      [s[..i]] + Split(s[i + 1..], sep)
  }

  /** `sep.join(parts)`. */
  function Join(parts: seq<string>, sep: char): string
    requires |parts| >= 1
  {
    if |parts| == 1 then parts[0] else parts[0] + [sep] + Join(parts[1..], sep)
  }

  /** Split yields the text up to the first separator, then the split of the rest. */
  lemma FirstPiece(s: string, sep: char)
    ensures var parts := Split(s, sep);
      && |parts[0]| <= |s| && s[..|parts[0]|] == parts[0]
      && (sep !in s <==> |parts| == 1)
      && (sep !in s ==> parts == [s])
      && (sep in s ==> |parts[0]| < |s| && s[|parts[0]|] == sep && parts[1..] == Split(s[|parts[0]| + 1..], sep))
  {
  }

  /** The first separator is the one at the end of a separator-free prefix. */
  lemma {:induction false} IndexOfUnique(s: string, c: char, i: nat)
    requires i < |s| && s[i] == c && c !in s[..i]
    ensures IndexOf(s, c) == i
    decreases i
  {
    if i > 0 {
      assert s[0] == s[..i][0];
      assert s[1..][..i - 1] == s[..i][1..];
      IndexOfUnique(s[1..], c, i - 1);
    }
  }

  /** Joining the pieces back together gives the original text. */
  lemma {:induction false} JoinSplit(s: string, sep: char)
    ensures Join(Split(s, sep), sep) == s
    decreases |s|
  {
    if sep in s {
      var i := IndexOf(s, sep);
      var rest := s[i + 1..];
      var parts := Split(s, sep);
      assert parts == [s[..i]] + Split(rest, sep);
      assert parts[1..] == Split(rest, sep);
      JoinSplit(rest, sep);
      assert Join(parts, sep) == s[..i] + [sep] + Join(Split(rest, sep), sep);
      assert s == s[..i] + [sep] + rest;
    }
  }

  /** Splitting a join of separator-free pieces gives the pieces back. */
  lemma {:induction false} SplitJoin(parts: seq<string>, sep: char)
    requires |parts| >= 1
    requires forall i :: 0 <= i < |parts| ==> sep !in parts[i]
    ensures Split(Join(parts, sep), sep) == parts
  {
    var s := Join(parts, sep);
    if |parts| > 1 {
      var tail := Join(parts[1..], sep);
      assert s == parts[0] + [sep] + tail;
      var n := |parts[0]|;
      assert s[..n] == parts[0];
      IndexOfUnique(s, sep, n);
      assert s[n + 1..] == tail;
      SplitJoin(parts[1..], sep);
      assert Split(s, sep) == [s[..n]] + Split(s[n + 1..], sep);
    } else {
      assert s == parts[0];
    }
  }

  /** One section of the header: `sections[0]` and `sections[1]` of
      `part.split('=')`; a part without `=` has no `sections[1]` and raises
      `IndexError`. The value stops at a second `=`, if any. */
  function Section(part: string): (r: Result<(string, string), PyError>)
    ensures r.Err? <==> '=' !in part
    ensures r.Err? ==> r.error == IndexError
    ensures r.Ok? ==> var (k, v) := r.value;
      && '=' !in k && '=' !in v
      && |k| + 1 + |v| <= |part|
      && part[..|k| + 1 + |v|] == k + "=" + v
      && (|k| + 1 + |v| == |part| || part[|k| + 1 + |v|] == '=')
  {
    var sections := Split(part, '=');
    if |sections| < 2 then Err(IndexError)
    else
      SectionShape(part);
      Ok((sections[0], sections[1]))
  }

  lemma SectionShape(part: string)
    requires '=' in part
    ensures var sections := Split(part, '=');
      var k, v := sections[0], sections[1];
      && |k| + 1 + |v| <= |part|
      && part[..|k| + 1 + |v|] == k + "=" + v
      && (|k| + 1 + |v| == |part| || part[|k| + 1 + |v|] == '=')
  {
    var sections := Split(part, '=');
    FirstPiece(part, '=');
    var k := sections[0];
    var rest := part[|k| + 1..];
    FirstPiece(rest, '=');
    var v := Split(rest, '=')[0];
    assert sections[1] == v;
    PieceAfterSeparator(part, k, rest, v);
  }

  /** A prefix `k`, the separator `=` and a prefix `v` of what follows it
      make up the start of `part`. */
  lemma PieceAfterSeparator(part: string, k: string, rest: string, v: string)
    requires |k| < |part| && part[..|k|] == k && part[|k|] == '='
    requires rest == part[|k| + 1..]
    requires |v| <= |rest| && rest[..|v|] == v
    requires |v| == |rest| || rest[|v|] == '='
    ensures |k| + 1 + |v| <= |part|
    ensures part[..|k| + 1 + |v|] == k + "=" + v
    ensures |k| + 1 + |v| == |part| || part[|k| + 1 + |v|] == '='
  {
    var n := |k| + 1 + |v|;
    forall j | 0 <= j < n
      ensures part[..n][j] == (k + "=" + v)[j]
    {
      if j > |k| {
        assert part[j] == rest[j - |k| - 1];
      }
    }
  }

  /** The dictionary built from the comma-separated parts, in order: each part
      stores its value under its key, overwriting an earlier one. */
  function SectionsOf(parts: seq<string>): Result<map<string, string>, PyError>
    decreases |parts|
  {
    if parts == [] then Ok(map[])
    else
      match SectionsOf(parts[..|parts| - 1])
      case Err(e) => Err(e)
      case Ok(m) =>
        match Section(parts[|parts| - 1])
        case Err(e) => Err(e)
        case Ok(kv) => Ok(m[kv.0 := kv.1])
  }

  /** `get_signature_sections`: split the header on `,`, then store
      `sections[1]` under `sections[0]` for each part. */
  method GetSignatureSections(signature: string) returns (r: Result<map<string, string>, PyError>)
    ensures r == SectionsOf(Split(signature, ','))
  {
    var parts := Split(signature, ',');
    var parsed: map<string, string> := map[];
    var i := 0;
    while i < |parts|
      invariant 0 <= i <= |parts|
      invariant SectionsOf(parts[..i]) == Ok(parsed)
    {
      var sections := Split(parts[i], '=');
      assert parts[..i + 1][..i] == parts[..i];
      if |sections| < 2 {
        FailureSticks(parts, i + 1);
        return Err(IndexError);
      }
      parsed := parsed[sections[0] := sections[1]];
      i := i + 1;
    }
    assert parts[..i] == parts;
    r := Ok(parsed);
  }

  /** Once a prefix of the parts has raised, the whole header raises. */
  lemma {:induction false} FailureSticks(parts: seq<string>, k: nat)
    requires k <= |parts| && SectionsOf(parts[..k]).Err?
    ensures SectionsOf(parts) == Err(IndexError)
    decreases |parts|
  {
    if k < |parts| {
      assert parts[..|parts| - 1][..k] == parts[..k];
      FailureSticks(parts[..|parts| - 1], k);
    } else {
      assert parts[..k] == parts;
      SectionsFailWithIndexError(parts);
    }
  }

  lemma {:induction false} SectionsFailWithIndexError(parts: seq<string>)
    ensures SectionsOf(parts).Err? ==> SectionsOf(parts) == Err(IndexError)
    decreases |parts|
  {
    if parts != [] { SectionsFailWithIndexError(parts[..|parts| - 1]); }
  }

  /** The header parses exactly when every comma-separated part contains `=`. */
  lemma {:induction false} SectionsOkIff(parts: seq<string>)
    ensures SectionsOf(parts).Ok? <==> forall i :: 0 <= i < |parts| ==> '=' in parts[i]
    decreases |parts|
  {
    if parts != [] {
      var init := parts[..|parts| - 1];
      SectionsOkIff(init);
      assert forall i :: 0 <= i < |init| ==> init[i] == parts[i];
    }
  }

  /** The key a part stores, `sections[0]`. */
  function KeyOf(part: string): string
    requires '=' in part
  {
    Section(part).value.0
  }

  /** The value a part stores, `sections[1]`. */
  function ValueOf(part: string): string
    requires '=' in part
  {
    Section(part).value.1
  }

  /** Every part's key is in the dictionary. */
  lemma {:induction false} SectionsKeysPresent(parts: seq<string>)
    requires SectionsOf(parts).Ok?
    ensures forall i :: 0 <= i < |parts| ==> '=' in parts[i]
    ensures forall i :: 0 <= i < |parts| ==> KeyOf(parts[i]) in SectionsOf(parts).value
    decreases |parts|
  {
    SectionsOkIff(parts);
    if parts != [] {
      var init := parts[..|parts| - 1];
      var last := parts[|parts| - 1];
      SectionsKeysPresent(init);
      var m0 := SectionsOf(init).value;
      var m := SectionsOf(parts).value;
      assert m == m0[KeyOf(last) := ValueOf(last)];
      forall i | 0 <= i < |parts| ensures KeyOf(parts[i]) in m {
        if i < |init| { assert parts[i] == init[i]; }
      }
    }
  }

  /** Every key of the dictionary was stored by some part, with that part's value. */
  lemma {:induction false} SectionsKeysSupplied(parts: seq<string>)
    requires SectionsOf(parts).Ok?
    ensures forall i :: 0 <= i < |parts| ==> '=' in parts[i]
    ensures var m := SectionsOf(parts).value;
      forall k :: k in m ==> exists i :: 0 <= i < |parts| && KeyOf(parts[i]) == k && ValueOf(parts[i]) == m[k]
    decreases |parts|
  {
    SectionsOkIff(parts);
    if parts != [] {
      var init := parts[..|parts| - 1];
      var last := parts[|parts| - 1];
      SectionsKeysSupplied(init);
      var m0 := SectionsOf(init).value;
      var m := SectionsOf(parts).value;
      assert m == m0[KeyOf(last) := ValueOf(last)];
      forall k | k in m ensures exists i :: 0 <= i < |parts| && KeyOf(parts[i]) == k && ValueOf(parts[i]) == m[k] {
        if k == KeyOf(last) {
          assert KeyOf(parts[|parts| - 1]) == k;
        } else {
          var i :| 0 <= i < |init| && KeyOf(init[i]) == k && ValueOf(init[i]) == m0[k];
          assert parts[i] == init[i];
        }
      }
    }
  }

  /** Part `i` carries a key that no later part carries again. */
  predicate LastWithKey(parts: seq<string>, i: nat)
    requires i < |parts|
    requires forall j :: 0 <= j < |parts| ==> '=' in parts[j]
  {
    forall j :: i < j < |parts| ==> KeyOf(parts[j]) != KeyOf(parts[i])
  }

  /** A repeated key keeps the value of its last part: a later part
      overwrites an earlier one. */
  lemma {:induction false} SectionsLastWins(parts: seq<string>)
    requires SectionsOf(parts).Ok?
    ensures forall i :: 0 <= i < |parts| ==> '=' in parts[i]
    ensures forall i :: 0 <= i < |parts| && LastWithKey(parts, i) ==>
      KeyOf(parts[i]) in SectionsOf(parts).value && SectionsOf(parts).value[KeyOf(parts[i])] == ValueOf(parts[i])
    decreases |parts|
  {
    SectionsOkIff(parts);
    if parts != [] {
      var init := parts[..|parts| - 1];
      var last := parts[|parts| - 1];
      SectionsLastWins(init);
      var m0 := SectionsOf(init).value;
      var m := SectionsOf(parts).value;
      assert m == m0[KeyOf(last) := ValueOf(last)];
      forall i | 0 <= i < |parts| && LastWithKey(parts, i)
        ensures KeyOf(parts[i]) in m && m[KeyOf(parts[i])] == ValueOf(parts[i])
      {
        if i < |init| {
          LastWithKeyOfPrefix(parts, i);
        }
      }
    }
  }

  /** A part that is the last with its key, and not the final part, is also
      the last with its key among all but the final part. */
  lemma LastWithKeyOfPrefix(parts: seq<string>, i: nat)
    requires i < |parts| - 1
    requires forall j :: 0 <= j < |parts| ==> '=' in parts[j]
    requires LastWithKey(parts, i)
    ensures parts[i] == parts[..|parts| - 1][i]
    ensures KeyOf(parts[|parts| - 1]) != KeyOf(parts[i])
    ensures LastWithKey(parts[..|parts| - 1], i)
  {
    var init := parts[..|parts| - 1];
    forall j | i < j < |init| ensures KeyOf(init[j]) != KeyOf(init[i]) {
      assert init[j] == parts[j];
    }
  }

  /** The dictionary has at most one key per part. */
  lemma {:induction false} SectionsSize(parts: seq<string>)
    requires SectionsOf(parts).Ok?
    ensures |SectionsOf(parts).value| <= |parts|
    decreases |parts|
  {
    if parts != [] {
      var init := parts[..|parts| - 1];
      SectionsOkIff(parts);
      SectionsOkIff(init);
      SectionsSize(init);
      var m0 := SectionsOf(init).value;
      var m := SectionsOf(parts).value;
      var key := KeyOf(parts[|parts| - 1]);
      assert m.Keys == m0.Keys + {key};
      assert |m0.Keys + {key}| <= |m0.Keys| + 1;
    }
  }

  /** A well-formed header `t=T,hmac_sha256=H`, where neither T nor H holds a
      `,` or `=`, yields exactly the two sections the webhook job reads. */
  lemma StitchHeaderSections(t: string, h: string)
    requires ',' !in t && '=' !in t && ',' !in h && '=' !in h
    ensures SectionsOf(Split(StitchHeader(t, h), ',')) == Ok(map["t" := t, "hmac_sha256" := h])
  {
    TwoSections("t", t, "hmac_sha256", h);
  }

  /** The signature header as the provider sends it: `t=T,hmac_sha256=H`. */
  function StitchHeader(t: string, h: string): string
  {
    "t" + "=" + t + "," + "hmac_sha256" + "=" + h
  }

  /** A header of two parts `k0=v0,k1=v1` yields `v0` under `k0` and then
      `v1` under `k1`. */
  lemma TwoSections(k0: string, v0: string, k1: string, v1: string)
    requires ',' !in k0 && '=' !in k0 && ',' !in v0 && '=' !in v0
    requires ',' !in k1 && '=' !in k1 && ',' !in v1 && '=' !in v1
    ensures SectionsOf(Split(k0 + "=" + v0 + "," + k1 + "=" + v1, ',')) == Ok(map[k0 := v0][k1 := v1])
  {
    var p0, p1 := k0 + "=" + v0, k1 + "=" + v1;
    assert k0 + "=" + v0 + "," + k1 + "=" + v1 == p0 + [','] + p1;
    SplitPair(p0, p1, ',');
    SectionOfPair(k0, v0);
    SectionOfPair(k1, v1);
    assert SectionsOf([p0]) == Ok(map[k0 := v0]) by { assert [p0][..0] == []; }
    assert [p0, p1][..1] == [p0];
  }

  /** Two separator-free pieces joined by one separator split back into the two. */
  lemma SplitPair(a: string, b: string, sep: char)
    requires sep !in a && sep !in b
    ensures Split(a + [sep] + b, sep) == [a, b]
  {
    var s := a + [sep] + b;
    assert s[..|a|] == a && s[|a|] == sep;
    IndexOfUnique(s, sep, |a|);
    assert s[|a| + 1..] == b;
  }

  /** A part `k=v` with no other `=` is stored as value `v` under key `k`. */
  lemma SectionOfPair(k: string, v: string)
    requires '=' !in k && '=' !in v
    ensures Section(k + "=" + v) == Ok((k, v))
  {
    SplitPair(k, v, '=');
  }

  /** The environment variable holding the shared secret. */
  const SecretVariable := "WEBHOOK_SECRET_KEY"

  /** `calculate_hmac_signature`: the hex digest of HMAC-SHA256 keyed with the
      secret from the environment. The keyed hash is `mac`, a function of
      (secret, message) only; reading a missing variable raises `KeyError`. */
  function CalculateHmacSignature(env: map<string, string>, toSign: string, mac: (string, string) -> string)
    : (r: Result<string, PyError>)
    ensures r.Err? <==> SecretVariable !in env
    ensures r.Err? ==> r.error == KeyError(SecretVariable)
    ensures r.Ok? ==> r.value == mac(env[SecretVariable], toSign)
  {
    if SecretVariable in env then Ok(mac(env[SecretVariable], toSign)) else Err(KeyError(SecretVariable))
  }

  predicate Ascii(s: string)
  {
    forall i :: 0 <= i < |s| ==> s[i] as int < 128
  }

  /** Number of positions where two equally long strings differ; every
      position is visited, as a constant-time comparison does. */
  function Mismatches(a: string, b: string): (n: nat)
    requires |a| == |b|
    ensures n <= |a|
    ensures a == b ==> n == 0
  {
    if a == [] then 0 else (if a[0] != b[0] then 1 else 0) + Mismatches(a[1..], b[1..])
  }

  lemma {:induction false} NoMismatchesMeansEqual(a: string, b: string)
    requires |a| == |b|
    ensures Mismatches(a, b) == 0 <==> a == b
  {
    if a != [] {
      NoMismatchesMeansEqual(a[1..], b[1..]);
      assert a == [a[0]] + a[1..] && b == [b[0]] + b[1..];
    }
  }

  /** `compare_signatures`: `hmac.compare_digest` on two texts, which refuses
      (with `TypeError`) texts holding non-ASCII characters and otherwise
      answers whether they are equal without stopping at the first
      difference. The `AttributeError` fallback is never taken. */
  function CompareSignatures(calculated: string, incoming: string): (r: Result<bool, PyError>)
    ensures r.Err? <==> !Ascii(calculated) || !Ascii(incoming)
    ensures r.Err? ==> r.error == TypeError
    ensures r.Ok? ==> (r.value <==> calculated == incoming)
  {
    if !Ascii(calculated) || !Ascii(incoming) then Err(TypeError)
    else if |calculated| != |incoming| then Ok(false)
    else
      NoMismatchesMeansEqual(calculated, incoming);
      Ok(Mismatches(calculated, incoming) == 0)
  }
}
