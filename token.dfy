/**
 * The challenge token of backend/token.py: `base64url(json) "." base64url(hmac)`.
 *
 * The base64url alphabet is the one of section 5 of RFC 4648; the signature is
 * HMAC-SHA256 (RFC 2104). The library functions the code calls (base64
 * encoding and decoding, HMAC, JSON) are the fields of `Primitives`, of which
 * the model uses only what `Lawful` states. What is modelled exactly is the
 * removal and restoration of the `=` padding, the split at `.`, and the order
 * of the checks in `verify`.
 */
module Token {
  import opened Wrappers

  type Byte = b: int | 0 <= b < 256
  type Bytes = seq<Byte>

  /** The JSON values a token carries: strings and numbers. */
  datatype Json = JStr(s: string) | JNum(n: real)
  type Payload = map<string, Json>

  datatype Primitives = Primitives(
    b64: Bytes -> string,              // base64.urlsafe_b64encode(data).decode()
    unb64: string -> Option<Bytes>,    // base64.urlsafe_b64decode; None where it raises
    hmac: (Bytes, Bytes) -> Bytes,     // hmac.new(key, msg, "sha256").digest()
    dumps: Payload -> Bytes,           // json.dumps(..., separators=(",", ":"), sort_keys=True).encode()
    loads: Bytes -> Option<Payload>)   // json.loads(msg.decode()); None where it raises

  /** A character of the base64url alphabet (RFC 4648, section 5). */
  predicate IsB64Char(c: char)
  {
    'A' <= c <= 'Z' || 'a' <= c <= 'z' || '0' <= c <= '9' || c == '-' || c == '_'
  }

  predicate AllB64(s: string)
  {
    forall i :: 0 <= i < |s| ==> IsB64Char(s[i])
  }

  /** `"=" * k` */
  function Pads(k: nat): (r: string)
    ensures |r| == k && forall i :: 0 <= i < k ==> r[i] == '='
  {
    seq(k, _ => '=')
  }

  /** Padded base64url text: a multiple of 4 long, alphabet characters then at most two `=`. */
  ghost predicate IsBase64Text(t: string)
  {
    |t| % 4 == 0 && exists body: string, k: nat :: k <= 2 && AllB64(body) && t == body + Pads(k)
  }

  /** What the base64 library is relied on for: padded output, and decoding inverts encoding. */
  ghost predicate Lawful(p: Primitives)
  {
    && (forall data :: IsBase64Text(p.b64(data)))
    && (forall data :: p.unb64(p.b64(data)) == Some(data))
  }

  /**
   * `json.loads(json.dumps(payload)) == payload` for one payload. It is asked
   * of the payloads that are signed rather than of all payloads: `Json` numbers
   * are reals, so no encoding into byte strings is injective on every payload.
   */
  predicate JsonRoundTrips(p: Primitives, payload: Payload)
  {
    p.loads(p.dumps(payload)) == Some(payload)
  }

  // ---------------------------------------------------------------------------
  // _b64encode, _b64decode

  /** `rstrip("=")`: the longest prefix that does not end in `=`, the rest being all `=`. */
  function StripPad(s: string): (r: string)
    ensures |r| <= |s| && r == s[..|r|]
    ensures forall i :: |r| <= i < |s| ==> s[i] == '='
    ensures r == [] || r[|r| - 1] != '='
  {
    if |s| > 0 && s[|s| - 1] == '=' then StripPad(s[..|s| - 1]) else s
  }

  /** `-len(data) % 4`, Python's floor modulo: between 0 and 3, and completing a multiple of 4. */
  function PadCount(n: nat): (k: nat)
    ensures k < 4 && (n + k) % 4 == 0
  {
    (-(n as int)) % 4
  }

  /** `data + "=" * (-len(data) % 4)` */
  function Repad(s: string): (r: string)
    ensures |s| <= |r| < |s| + 4 && |r| % 4 == 0
    ensures r[..|s|] == s && forall i :: |s| <= i < |r| ==> r[i] == '='
  {
    s + Pads(PadCount(|s|))
  }

  function B64Encode(p: Primitives, data: Bytes): (r: string)
    ensures r == [] || r[|r| - 1] != '='
    ensures |r| <= |p.b64(data)| && r == p.b64(data)[..|r|] && forall i :: |r| <= i < |p.b64(data)| ==> p.b64(data)[i] == '='
  {
    StripPad(p.b64(data))
  }

  function B64Decode(p: Primitives, s: string): Option<Bytes>
  {
    p.unb64(Repad(s))
  }

  /** Stripping removes exactly the padding after alphabet characters. */
  lemma {:induction false} StripPadded(body: string, k: nat)
    requires AllB64(body)
    ensures StripPad(body + Pads(k)) == body
  {
    if k > 0 {
      assert (body + Pads(k))[..|body + Pads(k)| - 1] == body + Pads(k - 1);
      StripPadded(body, k - 1);
    } else {
      assert body + Pads(0) == body;
      if |body| > 0 {
        assert IsB64Char(body[|body| - 1]);
      }
    }
  }

  /** On padded base64url text, re-padding undoes stripping. */
  lemma RepadStrip(t: string)
    requires IsBase64Text(t)
    ensures Repad(StripPad(t)) == t
  {
    var body: string, k: nat :| k <= 2 && AllB64(body) && t == body + Pads(k);
    StripPadded(body, k);
    PadCountUnique(|body|, k);
  }

  /** Only one pad count below 4 completes a multiple of 4. */
  lemma PadCountUnique(n: nat, k: nat)
    requires k < 4 && (n + k) % 4 == 0
    ensures PadCount(n) == k
  {
    var j := PadCount(n);
    assert (k - j) % 4 == 0 by {
      assert (n + k) - (n + j) == k - j;
    }
  }

  /** `_b64decode(_b64encode(data)) == data` */
  lemma B64RoundTrip(p: Primitives, data: Bytes)
    requires Lawful(p)
    ensures B64Decode(p, B64Encode(p, data)) == Some(data)
  {
    RepadStrip(p.b64(data));
  }

  /** Encoded text holds only alphabet characters, so in particular no `.`. */
  lemma B64EncodeAlphabet(p: Primitives, data: Bytes)
    requires Lawful(p)
    ensures AllB64(B64Encode(p, data)) && '.' !in B64Encode(p, data)
  {
    var t := p.b64(data);
    assert IsBase64Text(t);
    var body: string, k: nat :| k <= 2 && AllB64(body) && t == body + Pads(k);
    StripPadded(body, k);
    assert !IsB64Char('.');
  }

  // ---------------------------------------------------------------------------
  // token.split(".")

  function CountDots(s: string): nat
  {
    if |s| == 0 then 0 else (if s[0] == '.' then 1 else 0) + CountDots(s[1..])
  }

  /** The dot count is the multiplicity of `.` in the text. */
  lemma {:induction false} CountDotsIsMultiplicity(s: string)
    ensures CountDots(s) == multiset(s)['.']
  {
    if |s| > 0 {
      assert s == [s[0]] + s[1..];
      CountDotsIsMultiplicity(s[1..]);
    }
  }

  /** `s.split(".")`: the pieces between the dots, one more than there are dots. */
  function SplitDot(s: string): (parts: seq<string>)
    ensures |parts| == CountDots(s) + 1
  {
    if |s| == 0 then [""]
    else
      var rest := SplitDot(s[1..]);
      if s[0] == '.' then [""] + rest else [[s[0]] + rest[0]] + rest[1..]
  }

  lemma {:induction false} SplitNoDot(s: string)
    requires '.' !in s
    ensures SplitDot(s) == [s]
  {
    if |s| > 0 {
      assert s[1..][..] == s[1..];
      assert '.' !in s[1..] by {
        forall i | 0 <= i < |s[1..]| ensures s[1..][i] != '.' { assert s[1..][i] == s[i + 1]; }
      }
      SplitNoDot(s[1..]);
      assert [s[0]] + s[1..] == s;
    }
  }

  /** Splitting `a + "." + b` with no dot in either part gives back the two parts. */
  lemma {:induction false} SplitOneDot(a: string, b: string)
    requires '.' !in a && '.' !in b
    ensures SplitDot(a + "." + b) == [a, b]
  {
    var s := a + "." + b;
    if |a| == 0 {
      assert s == "." + b;
      assert s[1..] == b;
      SplitNoDot(b);
    } else {
      assert s[1..] == a[1..] + "." + b;
      assert '.' !in a[1..] by {
        forall i | 0 <= i < |a[1..]| ensures a[1..][i] != '.' { assert a[1..][i] == a[i + 1]; }
      }
      SplitOneDot(a[1..], b);
      assert [a[0]] + a[1..] == a;
    }
  }

  lemma {:induction false} CountDotsAppend(a: string, b: string)
    ensures CountDots(a + b) == CountDots(a) + CountDots(b)
  {
    if |a| > 0 {
      assert (a + b)[1..] == a[1..] + b;
      CountDotsAppend(a[1..], b);
    } else {
      assert a + b == b;
    }
  }

  lemma {:induction false} CountDotsPositive(s: string, i: nat)
    requires i < |s| && s[i] == '.'
    ensures CountDots(s) >= 1
  {
    if i > 0 {
      CountDotsPositive(s[1..], i - 1);
    }
  }

  // ---------------------------------------------------------------------------
  // sign, verify

  /**
   * `sign`: the encoded JSON, a dot, and the encoded HMAC of that JSON. The
   * token starts with the encoded payload and a dot, and never ends in padding.
   */
  function Sign(p: Primitives, key: Bytes, payload: Payload): (token: string)
    ensures var m := B64Encode(p, p.dumps(payload)); |token| > |m| && token[..|m|] == m && token[|m|] == '.'
    ensures token[|token| - 1] != '='
    ensures token[|B64Encode(p, p.dumps(payload))| + 1..] == B64Encode(p, p.hmac(key, p.dumps(payload)))
  {
    var msg := p.dumps(payload);
    B64Encode(p, msg) + "." + B64Encode(p, p.hmac(key, msg))
  }

  /** A signed token contains exactly one `.`, so it splits into exactly two parts. */
  lemma SignOneDot(p: Primitives, key: Bytes, payload: Payload)
    requires Lawful(p)
    ensures CountDots(Sign(p, key, payload)) == 1
    ensures SplitDot(Sign(p, key, payload))
            == [B64Encode(p, p.dumps(payload)), B64Encode(p, p.hmac(key, p.dumps(payload)))]
  {
    var msg := p.dumps(payload);
    B64EncodeAlphabet(p, msg);
    B64EncodeAlphabet(p, p.hmac(key, msg));
    SplitOneDot(B64Encode(p, msg), B64Encode(p, p.hmac(key, msg)));
  }

  datatype TokenError = InvalidFormat | InvalidEncoding | InvalidSignature | InvalidPayload

  /**
   * `verify`: a token that does not split into exactly two parts is refused; so is
   * one whose second part does not decode to the HMAC of the decoded first part.
   * Otherwise the first part is parsed as JSON.
   */
  function Verify(p: Primitives, key: Bytes, token: string): (r: Result<Payload, TokenError>)
    ensures CountDots(token) != 1 ==> r == Err(InvalidFormat)
    ensures r.Ok? ==>
      var parts := SplitDot(token);
      |parts| == 2 && B64Decode(p, parts[0]).Some?
      && B64Decode(p, parts[1]) == Some(p.hmac(key, B64Decode(p, parts[0]).value))
      && p.loads(B64Decode(p, parts[0]).value) == Some(r.value)
  {
    var parts := SplitDot(token);
    if |parts| != 2 then Err(InvalidFormat)
    else
      match B64Decode(p, parts[0])
      case None => Err(InvalidEncoding)
      case Some(msg) =>
        var expected := p.hmac(key, msg);
        match B64Decode(p, parts[1])
        case None => Err(InvalidEncoding)
        case Some(actual) =>
          if expected != actual then Err(InvalidSignature)
          else
            match p.loads(msg)
            case None => Err(InvalidPayload)
            case Some(payload) => Ok(payload)
  }

  /** `verify(sign(payload)) == payload` */
  lemma VerifySign(p: Primitives, key: Bytes, payload: Payload)
    requires Lawful(p) && JsonRoundTrips(p, payload)
    ensures Verify(p, key, Sign(p, key, payload)) == Ok(payload)
  {
    var msg := p.dumps(payload);
    SignOneDot(p, key, payload);
    B64RoundTrip(p, msg);
    B64RoundTrip(p, p.hmac(key, msg));
  }

  /**
   * Keeping the message part of a signed token, the only signature parts
   * `verify` accepts are those that decode to the true HMAC of the message.
   */
  lemma AlteredSignatureRejected(p: Primitives, key: Bytes, payload: Payload, sig: string)
    requires Lawful(p)
    requires B64Decode(p, sig) != Some(p.hmac(key, p.dumps(payload)))
    ensures Verify(p, key, B64Encode(p, p.dumps(payload)) + "." + sig).Err?
  {
    var msg := p.dumps(payload);
    var m := B64Encode(p, msg);
    var token := m + "." + sig;
    B64EncodeAlphabet(p, msg);
    B64RoundTrip(p, msg);
    if '.' in sig {
      var i :| 0 <= i < |sig| && sig[i] == '.';
      CountDotsPositive(sig, i);
      CountDotsAppend(m + ".", sig);
      CountDotsAppend(m, ".");
    } else {
      SplitOneDot(m, sig);
    }
  }

  // ---------------------------------------------------------------------------
  // Lawful primitives exist

  /** The letter `'A' + v` for a half-byte v. */
  function Letter(v: int): (c: char)
    requires 0 <= v < 16
    ensures IsB64Char(c) && c as int - 'A' as int == v
  {
    ('A' as int + v) as char
  }

  /** Two letters per byte, high half first: a stand-in for the library encoder. */
  function HexLetters(data: Bytes): (r: string)
    ensures |r| == 2 * |data| && AllB64(r)
  {
    if data == [] then [] else [Letter(data[0] / 16), Letter(data[0] % 16)] + HexLetters(data[1..])
  }

  /** The inverse of `HexLetters`; None on an odd length or a character outside `A`..`P`. */
  function UnHex(s: string): Option<Bytes>
  {
    if s == [] then Some([])
    else if |s| == 1 then None
    else
      var hi, lo := s[0] as int - 'A' as int, s[1] as int - 'A' as int;
      if 0 <= hi < 16 && 0 <= lo < 16 then
        match UnHex(s[2..])
        case None => None
        case Some(rest) => Some([hi * 16 + lo] + rest)
      else None
  }

  lemma {:induction false} UnHexHexLetters(data: Bytes)
    ensures UnHex(HexLetters(data)) == Some(data)
  {
    if data != [] {
      var s := HexLetters(data);
      assert s[2..] == HexLetters(data[1..]);
      UnHexHexLetters(data[1..]);
      assert data[0] / 16 * 16 + data[0] % 16 == data[0];
      assert [data[0]] + data[1..] == data;
    }
  }

  /** `HexLetters` padded to a multiple of 4 with `==` when the byte count is odd. */
  function WitnessEncode(data: Bytes): string
  {
    HexLetters(data) + Pads(if |data| % 2 == 1 then 2 else 0)
  }

  function WitnessDecode(t: string): Option<Bytes>
  {
    UnHex(StripPad(t))
  }

  const WitnessPrimitives: Primitives :=
    Primitives(WitnessEncode, WitnessDecode, (key: Bytes, msg: Bytes) => msg, (payload: Payload) => [],
               (msg: Bytes) => None)

  /** `Lawful` can be met: the stand-in encoder above satisfies it. */
  lemma LawfulIsSatisfiable()
    ensures Lawful(WitnessPrimitives)
  {
    forall data: Bytes
      ensures IsBase64Text(WitnessEncode(data)) && WitnessDecode(WitnessEncode(data)) == Some(data)
    {
      var body, k := HexLetters(data), if |data| % 2 == 1 then 2 else 0;
      assert |body + Pads(k)| % 4 == 0;
      StripPadded(body, k);
      UnHexHexLetters(data);
    }
  }
}
