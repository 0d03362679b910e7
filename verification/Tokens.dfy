/** The two signed tokens (`_b64`, `_unb64`, `sign_state`, `read_state`; `issue_session`,
    `verify_session`).  Hashes, JSON and integer parsing are functions the reader supplies. */
module Tokens {
  import opened Prelude

  // ------------------------------------------------- base64url, RFC 4648 section 5

  type Byte = n: nat | n < 256

  type Sextet = n: nat | n < 64

  /** The alphabet: A-Z, a-z, 0-9, '-' and '_'. */
  function Symbol(v: Sextet): char {
    if v < 26 then 'A' + v as char
    else if v < 52 then 'a' + (v - 26) as char
    else if v < 62 then '0' + (v - 52) as char
    else if v == 62 then '-'
    else '_'
  }

  predicate InAlphabet(c: char) {
    'A' <= c <= 'Z' || 'a' <= c <= 'z' || '0' <= c <= '9' || c == '-' || c == '_'
  }

  function Value(c: char): Sextet
    requires InAlphabet(c)
  {
    if 'A' <= c <= 'Z' then (c - 'A') as nat
    else if 'a' <= c <= 'z' then (c - 'a') as nat + 26
    else if '0' <= c <= '9' then (c - '0') as nat + 52
    else if c == '-' then 62
    else 63
  }

  ghost function Capitals(): (s: string)
    ensures |s| == 26
  {
    "ABCDEFGHIJKLMNOPQRSTUVWXYZ"
  }

  ghost function Letters(): (s: string)
    ensures |s| == 26
  {
    "abcdefghijklmnopqrstuvwxyz"
  }

  /** The alphabet as the standard lists it. */
  ghost function Alphabet(): (s: string)
    ensures |s| == 64
  {
    Capitals() + Letters() + "0123456789-_"
  }

  lemma CapitalAt(v: nat)
    requires v < 26
    ensures Capitals()[v] == 'A' + v as char
  {
  }

  lemma LetterAt(v: nat)
    requires v < 26
    ensures Letters()[v] == 'a' + v as char
  {
  }

  lemma DigitAt(v: nat)
    requires v < 10
    ensures "0123456789-_"[v] == '0' + v as char
  {
  }

  lemma SymbolMeaning(v: Sextet)
    ensures Symbol(v) == Alphabet()[v]
  {
    if v < 26 {
      CapitalAt(v);
    } else if v < 52 {
      LetterAt(v - 26);
    } else if v < 62 {
      DigitAt(v - 52);
    }
  }

  lemma SymbolsMean()
    ensures forall v: Sextet :: InAlphabet(Symbol(v)) && Value(Symbol(v)) == v
  {
  }

  /** Three bytes as four sextets. */
  function Group(a: Byte, b: Byte, c: Byte): (ss: seq<Sextet>)
    ensures |ss| == 4
  {
    [a as int / 4, a as int % 4 * 16 + b as int / 16, b as int % 16 * 4 + c as int / 64, c as int % 64]
  }

  function Ungroup(p: Sextet, q: Sextet, r: Sextet, s: Sextet): (d: seq<Byte>)
    ensures |d| == 3
  {
    [p as int * 4 + q as int / 16, q as int % 16 * 16 + r as int / 4, r as int % 4 * 64 + s as int]
  }

  /** The last group may be short. */
  function Sextets(d: seq<Byte>): seq<Sextet> {
    if |d| == 0 then []
    else if |d| == 1 then Group(d[0], 0, 0)[..2]
    else if |d| == 2 then Group(d[0], d[1], 0)[..3]
    else Group(d[0], d[1], d[2]) + Sextets(d[3..])
  }

  /** And back; a lone sextet holds no byte. */
  function Bytes(ss: seq<Sextet>): seq<Byte> {
    if |ss| <= 1 then []
    else if |ss| == 2 then Ungroup(ss[0], ss[1], 0, 0)[..1]
    else if |ss| == 3 then Ungroup(ss[0], ss[1], ss[2], 0)[..2]
    else Ungroup(ss[0], ss[1], ss[2], ss[3]) + Bytes(ss[4..])
  }

  lemma GroupBack(a: Byte, b: Byte, c: Byte)
    ensures var g := Group(a, b, c); Ungroup(g[0], g[1], g[2], g[3]) == [a, b, c]
    ensures c == 0 ==> Group(a, b, c)[3] == 0
    ensures b == 0 && c == 0 ==> Group(a, b, c)[2] == 0
  {
    var g := Group(a, b, c);
    assert g[1] as int / 16 == a as int % 4 && g[1] as int % 16 == b as int / 16;
    assert g[2] as int / 4 == b as int % 16 && g[2] as int % 4 == c as int / 64;
  }

  lemma ShortGroups(a: Byte, b: Byte)
    ensures Bytes(Group(a, 0, 0)[..2]) == [a]
    ensures Bytes(Group(a, b, 0)[..3]) == [a, b]
  {
    GroupBack(a, 0, 0);
    GroupBack(a, b, 0);
    assert [a, 0, 0][..1] == [a] && [a, b, 0][..2] == [a, b];
  }

  lemma LongGroup(a: Byte, b: Byte, c: Byte, more: seq<Sextet>)
    ensures Bytes(Group(a, b, c) + more) == [a, b, c] + Bytes(more)
  {
    GroupBack(a, b, c);
    assert (Group(a, b, c) + more)[4..] == more;
  }

  lemma {:induction false} BytesOfSextets(d: seq<Byte>)
    ensures Bytes(Sextets(d)) == d
    ensures |Sextets(d)| == (4 * |d| + 2) / 3 && |Sextets(d)| % 4 != 1
  {
    if |d| == 1 {
      ShortGroups(d[0], 0);
    } else if |d| == 2 {
      ShortGroups(d[0], d[1]);
    } else if |d| >= 3 {
      BytesOfSextets(d[3..]);
      LongGroup(d[0], d[1], d[2], Sextets(d[3..]));
      assert [d[0], d[1], d[2]] + d[3..] == d;
    }
  }

  function Spell(ss: seq<Sextet>): (s: string)
    ensures |s| == |ss|
  {
    seq(|ss|, i requires 0 <= i < |ss| => Symbol(ss[i]))
  }

  function Pads(n: nat): (s: string)
    ensures |s| == n
  {
    seq(n, _ => '=')
  }

  /** `-len(text) % 4` */
  function Missing(n: nat): nat {
    (4 - n % 4) % 4
  }

  /** `urlsafe_b64encode`: padded to a multiple of four. */
  function Encode(d: seq<Byte>): string {
    Spell(Sextets(d)) + Pads(Missing(|Sextets(d)|))
  }

  /** `rstrip("=")`. */
  function Strip(s: string): string {
    if s != "" && s[|s| - 1] == '=' then Strip(s[..|s| - 1]) else s
  }

  /** `urlsafe_b64decode`, of text in the alphabet with the padding it calls for. */
  function Decode(s: string): Option<seq<Byte>> {
    var body := Strip(s);
    if |s| == |body| + Missing(|body|) && |body| % 4 != 1 && forall i :: 0 <= i < |body| ==> InAlphabet(body[i])
    then Some(Bytes(seq(|body|, i requires 0 <= i < |body| => Value(body[i]))))
    else None
  }

  /** `_b64`. */
  function B64(d: seq<Byte>): string {
    Strip(Encode(d))
  }

  /** `_unb64`. */
  function Unb64(text: string): Option<seq<Byte>> {
    Decode(text + Pads(Missing(|text|)))
  }

  lemma {:induction false} StripPads(body: string, k: nat)
    requires body == "" || body[|body| - 1] != '='
    ensures Strip(body + Pads(k)) == body
  {
    if k == 0 {
      assert body + Pads(k) == body;
    } else {
      var s := body + Pads(k);
      assert s[|s| - 1] == '=' && s[..|s| - 1] == body + Pads(k - 1);
      StripPads(body, k - 1);
    }
  }

  lemma Respelled(ss: seq<Sextet>)
    ensures var s := Spell(ss);
            (forall i :: 0 <= i < |s| ==> InAlphabet(s[i])) &&
            seq(|s|, i requires 0 <= i < |s| => Value(s[i])) == ss
  {
    SymbolsMean();
  }

  /** Decoding undoes encoding for every byte string: the padding put back is what was
      stripped.  The text itself never needs escaping. */
  lemma Base64RoundTrip(d: seq<Byte>)
    ensures Unb64(B64(d)) == Some(d)
    ensures B64(d) + Pads(Missing(|B64(d)|)) == Encode(d)
    ensures |B64(d)| == (4 * |d| + 2) / 3 && forall i :: 0 <= i < |B64(d)| ==> InAlphabet(B64(d)[i])
  {
    var ss := Sextets(d);
    Respelled(ss);
    StripPads(Spell(ss), Missing(|ss|));
    BytesOfSextets(d);
  }

  /** The sextets hold the bytes' bits: 24 at a time, the last few filled up with zeros. */
  ghost predicate Carries(ss: seq<Sextet>, d: seq<Byte>) {
    if |d| == 0 then ss == []
    else if |d| == 1 then |ss| == 2 && ss[0] as int * 64 + ss[1] as int == d[0] as int * 16
    else if |d| == 2 then |ss| == 3 && Eighteen(ss) == Sixteen(d) * 4
    else |ss| >= 4 && Eighteen(ss) * 64 + ss[3] as int == Sixteen(d) * 256 + d[2] as int && Carries(ss[4..], d[3..])
  }

  /** The bytes hold the sextets' bits: 24 at a time, fewer than eight left over dropped. */
  ghost predicate Held(d: seq<Byte>, ss: seq<Sextet>) {
    if |ss| == 0 then d == []
    else if |ss| == 1 then false
    else if |ss| == 2 then |d| == 1 && d[0] as int == (ss[0] as int * 64 + ss[1] as int) / 16
    else if |ss| == 3 then |d| == 2 && Sixteen(d) == Eighteen(ss) / 4
    else |d| >= 3 && Eighteen(ss) * 64 + ss[3] as int == Sixteen(d) * 256 + d[2] as int && Held(d[3..], ss[4..])
  }

  ghost function Sixteen(d: seq<Byte>): int
    requires |d| >= 2
  {
    d[0] as int * 256 + d[1] as int
  }

  ghost function Eighteen(ss: seq<Sextet>): int
    requires |ss| >= 3
  {
    ss[0] as int * 4096 + ss[1] as int * 64 + ss[2] as int
  }

  lemma GroupSum(a: Byte, b: Byte, c: Byte)
    ensures var g := Group(a, b, c);
            Eighteen(g) * 64 + g[3] as int == a as int * 65536 + b as int * 256 + c as int &&
            (c == 0 ==> g[3] == 0) && (b == 0 && c == 0 ==> g[2] == 0)
  {
  }

  lemma UngroupSum(p: Sextet, q: Sextet, r: Sextet, s: Sextet)
    ensures var d := Ungroup(p, q, r, s);
            Sixteen(d) * 256 + d[2] as int == p as int * 262144 + q as int * 4096 + r as int * 64 + s as int
  {
  }

  lemma {:induction false} SextetsCarry(d: seq<Byte>)
    ensures Carries(Sextets(d), d)
  {
    if |d| == 0 {
    } else if |d| == 1 {
      GroupSum(d[0], 0, 0);
    } else if |d| == 2 {
      GroupSum(d[0], d[1], 0);
    } else {
      GroupSum(d[0], d[1], d[2]);
      SextetsCarry(d[3..]);
      var g := Group(d[0], d[1], d[2]);
      assert (g + Sextets(d[3..]))[4..] == Sextets(d[3..]);
    }
  }

  lemma {:induction false} BytesHold(ss: seq<Sextet>)
    requires |ss| % 4 != 1
    ensures Held(Bytes(ss), ss)
  {
    if |ss| == 0 {
    } else if |ss| == 2 {
      UngroupSum(ss[0], ss[1], 0, 0);
    } else if |ss| == 3 {
      UngroupSum(ss[0], ss[1], ss[2], 0);
    } else {
      UngroupSum(ss[0], ss[1], ss[2], ss[3]);
      BytesHold(ss[4..]);
      var g := Ungroup(ss[0], ss[1], ss[2], ss[3]);
      assert (g + Bytes(ss[4..]))[3..] == Bytes(ss[4..]);
    }
  }

  /** The text spells the sextets in the alphabet. */
  ghost predicate Spells(text: string, ss: seq<Sextet>) {
    |text| == |ss| && forall i :: 0 <= i < |ss| ==> text[i] == Alphabet()[ss[i]]
  }

  lemma SpellMeaning(text: string, ss: seq<Sextet>)
    ensures Spells(text, ss) <==> text == Spell(ss)
  {
    forall i | 0 <= i < |ss| ensures Spell(ss)[i] == Alphabet()[ss[i]] {
      SymbolMeaning(ss[i]);
    }
  }

  /** What is written: the bits of the bytes, in the alphabet and without padding. */
  lemma Base64Meaning(d: seq<Byte>)
    ensures Carries(Sextets(d), d) && Spells(B64(d), Sextets(d))
  {
    SextetsCarry(d);
    Respelled(Sextets(d));
    StripPads(Spell(Sextets(d)), Missing(|Sextets(d)|));
    SpellMeaning(B64(d), Sextets(d));
  }

  /** And what is read from a text in the alphabet; a lone character at its end is wrong. */
  lemma Unb64Meaning(text: string, ss: seq<Sextet>)
    requires Spells(text, ss)
    ensures Unb64(text).None? <==> |text| % 4 == 1
    ensures Unb64(text).Some? ==> Held(Unb64(text).value, ss)
  {
    SpellMeaning(text, ss);
    Respelled(ss);
    StripPads(text, Missing(|text|));
    if |ss| % 4 != 1 {
      BytesHold(ss);
    }
  }

  /** The padded text is a whole number of groups. */
  lemma PaddedLength(d: seq<Byte>)
    ensures |Encode(d)| == 4 * ((|d| + 2) / 3)
  {
    BytesOfSextets(d);
    WholeGroups(|d|, |d| / 3, |d| % 3);
  }

  lemma WholeGroups(n: nat, k: nat, r: nat)
    requires n == 3 * k + r && r < 3
    ensures (4 * n + 2) / 3 + Missing((4 * n + 2) / 3) == 4 * ((n + 2) / 3)
  {
    assert (4 * n + 2) / 3 == 4 * k + (4 * r + 2) / 3;
    assert (n + 2) / 3 == k + (r + 2) / 3;
  }

  // ----------------------------------------------------------------- splitting

  /** Where the last `sep` is, if anywhere. */
  function LastOf(s: string, sep: char): (k: int)
    ensures -1 <= k < |s|
    ensures k >= 0 ==> s[k] == sep
    ensures forall i :: k < i < |s| ==> s[i] != sep
  {
    if s == "" then -1
    else if s[|s| - 1] == sep then |s| - 1
    else LastOf(s[..|s| - 1], sep)
  }

  lemma {:induction false} LastOfJoined(a: string, x: string, sep: char)
    requires sep !in x
    ensures LastOf(a + [sep] + x, sep) == |a|
  {
    var s := a + [sep] + x;
    if x == "" {
    } else {
      assert s[|s| - 1] == x[|x| - 1];
      assert s[..|s| - 1] == a + [sep] + x[..|x| - 1];
      LastOfJoined(a, x[..|x| - 1], sep);
    }
  }

  // ------------------------------------------------------------- state cookies

  const MAX_COOKIE: nat := 4096

  /** The decoded JSON, as far as reading looks at it. */
  datatype Payload = Payload(isObject: bool, state: Option<string>, expires: Option<real>, rest: string)

  datatype StateError = NoCookie | BadSignature | Unreadable | Malformed | Expired

  datatype StateResult = Read(payload: Payload) | Failed(why: StateError)

  /** The signature and the JSON coder of the installation. */
  datatype Crypto = Crypto(mac: string -> string, dumps: Payload -> seq<Byte>, loads: seq<Byte> -> Option<Payload>)

  /** The signature of this payload's body is hexadecimal, and its JSON reads back. */
  ghost predicate Lawful(k: Crypto, p: Payload) {
    Hex(k.mac(B64(k.dumps(p)))) && k.loads(k.dumps(p)) == Some(p)
  }

  /** Such functions exist for every payload. */
  lemma LawfulExists(p: Payload)
    ensures exists k :: Lawful(k, p)
  {
    var k := Crypto(_ => "0f", _ => [], _ => Some(p));
    assert Hex(k.mac(B64(k.dumps(p)))) && k.loads(k.dumps(p)) == Some(p);
    assert Lawful(k, p);
  }

  ghost predicate Hex(s: string) {
    forall i :: 0 <= i < |s| ==> '0' <= s[i] <= '9' || 'a' <= s[i] <= 'f'
  }

  /** `sign_state`. */
  function SignState(p: Payload, k: Crypto): string {
    var body := B64(k.dumps(p));
    body + "." + k.mac(body)
  }

  /** `read_state`. */
  function ReadState(cookie: string, k: Crypto, now: real): StateResult {
    var at := LastOf(cookie, '.');
    if at < 0 || |cookie| > MAX_COOKIE then Failed(NoCookie) else
    var body, sig := cookie[..at], cookie[at + 1..];
    if sig != k.mac(body) then Failed(BadSignature) else ReadBody(body, k, now)
  }

  function ReadBody(body: string, k: Crypto, now: real): StateResult {
    var data := Unb64(body);
    if data.None? || k.loads(data.value).None? then Failed(Unreadable) else
    var p := k.loads(data.value).value;
    if !p.isObject || p.state.None? then Failed(Malformed)
    else if p.expires.None? || p.expires.value < now then Failed(Expired)
    else Read(p)
  }

  /** A signed payload reads back, exactly when it fits in a cookie, carries a state and
      has not expired. */
  lemma StateRoundTrip(p: Payload, k: Crypto, now: real)
    requires Lawful(k, p)
    ensures ReadState(SignState(p, k), k, now) ==
            if |SignState(p, k)| > MAX_COOKIE then Failed(NoCookie)
            else if !p.isObject || p.state.None? then Failed(Malformed)
            else if p.expires.None? || p.expires.value < now then Failed(Expired)
            else Read(p)
  {
    var body := B64(k.dumps(p));
    var cookie := body + "." + k.mac(body);
    assert Hex(k.mac(body));
    assert '.' !in k.mac(body);
    LastOfJoined(body, k.mac(body), '.');
    assert cookie[..|body|] == body && cookie[|body| + 1..] == k.mac(body);
    Base64RoundTrip(k.dumps(p));
  }

  ghost predicate LastDot(cookie: string, body: string, sig: string) {
    cookie == body + "." + sig && '.' !in sig
  }

  /** The cookie is short enough and its last dot separates the body from the signature
      of that body. */
  ghost predicate Signed(cookie: string, k: Crypto, body: string) {
    |cookie| <= 4096 && LastDot(cookie, body, k.mac(body))
  }

  ghost predicate Holds(cookie: string, k: Crypto, p: Payload) {
    exists body :: Signed(cookie, k, body) && Unb64(body).Some? && k.loads(Unb64(body).value) == Some(p)
  }

  ghost predicate Current(p: Payload, now: real) {
    p.expires.Some? && p.expires.value >= now
  }

  /** Each answer is given in its own case. */
  ghost predicate Answers(r: StateResult, cookie: string, k: Crypto, now: real) {
    match r
    case Failed(NoCookie) => '.' !in cookie || |cookie| > 4096
    case Failed(BadSignature) =>
      |cookie| <= 4096 && exists body, sig :: LastDot(cookie, body, sig) && sig != k.mac(body)
    case Failed(Unreadable) =>
      exists body :: Signed(cookie, k, body) && (Unb64(body).None? || k.loads(Unb64(body).value).None?)
    case Failed(Malformed) => exists p :: Holds(cookie, k, p) && !(p.isObject && p.state.Some?)
    case Failed(Expired) => exists p :: Holds(cookie, k, p) && p.isObject && p.state.Some? && !Current(p, now)
    case Read(p) => Holds(cookie, k, p) && p.isObject && p.state.Some? && Current(p, now)
  }

  lemma BodyMeaning(cookie: string, body: string, k: Crypto, now: real)
    requires Signed(cookie, k, body)
    ensures Answers(ReadBody(body, k, now), cookie, k, now)
  {
    var data := Unb64(body);
    if data.Some? && k.loads(data.value).Some? {
      assert Holds(cookie, k, k.loads(data.value).value);
    }
  }

  lemma ReadMeaning(cookie: string, k: Crypto, now: real)
    ensures Answers(ReadState(cookie, k, now), cookie, k, now)
  {
    var at := LastOf(cookie, '.');
    if at >= 0 && |cookie| <= 4096 {
      var body, sig := cookie[..at], cookie[at + 1..];
      assert cookie == body + "." + sig;
      assert LastDot(cookie, body, sig);
      if sig == k.mac(body) {
        BodyMeaning(cookie, body, k, now);
      }
    }
  }

  /** So whatever reads was signed: its last dot separates the body from the body's own
      signature, and the payload is the one in the body. */
  lemma OnlySignedStatesRead(cookie: string, k: Crypto, now: real, p: Payload)
    requires ReadState(cookie, k, now) == Read(p)
    ensures exists body :: cookie == body + "." + k.mac(body) && Unb64(body).Some? &&
                           k.loads(Unb64(body).value) == Some(p)
    ensures p.isObject && p.state.Some? && p.expires.Some? && p.expires.value >= now
  {
    ReadMeaning(cookie, k, now);
    var body :| Signed(cookie, k, body) && Unb64(body).Some? && k.loads(Unb64(body).value) == Some(p);
    assert cookie == body + "." + k.mac(body) && Unb64(body).Some?;
  }

  // ---------------------------------------------------------------- sessions

  /** An account's signing key, the keyed hash, and `int(text)`. */
  datatype Keys = Keys(keyOf: string -> Option<string>, mac: (string, string) -> string, toInt: string -> Option<int>)

  /** This session's signature is hexadecimal, and `int` reads back what `str` wrote. */
  ghost predicate LawfulKeys(k: Keys, username: string, expiry: int) {
    k.keyOf(username).Some? && Hex(k.mac(k.keyOf(username).value, SessionBody(username, expiry))) &&
    k.toInt(IntText(expiry)) == Some(expiry)
  }

  /** Such functions exist for every name and expiry. */
  lemma LawfulKeysExist(username: string, expiry: int)
    ensures exists k :: LawfulKeys(k, username, expiry)
  {
    var k := Keys(_ => Some("key"), (_, _) => "0f", _ => Some(expiry));
    assert LawfulKeys(k, username, expiry);
  }

  function SessionBody(username: string, expiry: int): string {
    username + ":" + IntText(expiry)
  }

  /** `issue_session`; None where it raises for an unknown user. */
  function IssueSession(username: string, expiry: int, k: Keys): Option<string> {
    match k.keyOf(username)
    case None => None
    case Some(key) => Some(SessionBody(username, expiry) + ":" + k.mac(key, SessionBody(username, expiry)))
  }

  /** `cookie.rsplit(":", 2)`, when it has three parts. */
  function Rsplit2(cookie: string): (r: Option<(string, string, string)>)
    ensures r.Some? ==> cookie == r.value.0 + ":" + r.value.1 + ":" + r.value.2
    ensures r.Some? ==> ':' !in r.value.1 && ':' !in r.value.2
  {
    var j := LastOf(cookie, ':');
    if j < 0 then None else
    var i := LastOf(cookie[..j], ':');
    if i < 0 then None else
    assert cookie == cookie[..i] + ":" + cookie[i + 1..j] + ":" + cookie[j + 1..];
    Some((cookie[..i], cookie[i + 1..j], cookie[j + 1..]))
  }

  /** `verify_session`. */
  function VerifySession(cookie: string, k: Keys, now: real): Option<string> {
    match Rsplit2(cookie)
    case None => None
    case Some((username, text, sig)) =>
      match (k.toInt(text), k.keyOf(username))
      case (Some(expiry), Some(key)) =>
        if sig != k.mac(key, SessionBody(username, expiry)) || expiry as real < now then None else Some(username)
      case _ => None
  }

  lemma NoColon(n: int)
    ensures ':' !in IntText(n)
  {
  }

  lemma {:induction false} SplitsBack(username: string, text: string, sig: string)
    requires ':' !in text && ':' !in sig
    ensures Rsplit2(username + ":" + text + ":" + sig) == Some((username, text, sig))
  {
    var left := username + ":" + text;
    var cookie := left + ":" + sig;
    LastOfJoined(left, sig, ':');
    LastOfJoined(username, text, ':');
    assert cookie[..|left|] == left;
    assert cookie[..|username|] == username && cookie[|left| + 1..] == sig;
    assert cookie[|username| + 1..|left|] == text;
  }

  /** A session opens its account until it expires, colons in the name or not. */
  lemma SessionRoundTrip(username: string, expiry: int, k: Keys, now: real)
    requires LawfulKeys(k, username, expiry)
    ensures var cookie := IssueSession(username, expiry, k).value;
            VerifySession(cookie, k, now) == if expiry as real < now then None else Some(username)
  {
    var body := SessionBody(username, expiry);
    var sig := k.mac(k.keyOf(username).value, body);
    NoColon(expiry);
    assert Hex(sig);
    assert ':' !in sig;
    SplitsBack(username, IntText(expiry), sig);
    assert k.toInt(IntText(expiry)) == Some(expiry);
  }

  /** The cookie is the account's name, an expiry still to come and the account's own
      signature over both. */
  ghost predicate Opens(cookie: string, k: Keys, now: real, username: string, text: string, expiry: int) {
    && k.toInt(text) == Some(expiry) && ':' !in text && expiry as real >= now && k.keyOf(username).Some?
    && var sig := k.mac(k.keyOf(username).value, username + ":" + IntText(expiry));
       ':' !in sig && cookie == username + ":" + text + ":" + sig
  }

  /** Nothing else opens the account, and all of those do. */
  lemma OnlyIssuedSessionsOpen(cookie: string, k: Keys, now: real, username: string)
    ensures VerifySession(cookie, k, now) == Some(username) <==>
            exists text, expiry :: Opens(cookie, k, now, username, text, expiry)
  {
    if VerifySession(cookie, k, now) == Some(username) {
      var (u, text, sig) := Rsplit2(cookie).value;
      assert Opens(cookie, k, now, username, text, k.toInt(text).value);
    }
    if text, expiry :| Opens(cookie, k, now, username, text, expiry) {
      SplitsBack(username, text, k.mac(k.keyOf(username).value, SessionBody(username, expiry)));
    }
  }

  /** And what is signed determines both: no other name or expiry has the same body. */
  lemma BodiesDiffer(u: string, e: int, v: string, f: int)
    requires SessionBody(u, e) == SessionBody(v, f)
    ensures u == v && e == f
  {
    NoColon(e);
    NoColon(f);
    LastSeparatorUnique(u, IntText(e), v, IntText(f), ':');
    IntTextInjective(e, f);
  }
}
