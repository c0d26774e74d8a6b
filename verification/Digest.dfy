// HTTP Digest authentication: the header the client writes, and the field parser it reads
// challenges with.
module Digest {
  import opened Wrappers
  import opened Strings
  import opened Text

  // ---- Writing the header ----

  datatype Param = Param(key: string, value: string, quoted: bool)

  function Shown(p: Param): string {
    if p.quoted then "\"" + p.value + "\"" else p.value
  }

  function RenderParam(p: Param): string {
    p.key + "=" + Shown(p)
  }

  function RenderParams(params: seq<Param>): string {
    if params == [] then ""
    else if |params| == 1 then RenderParam(params[0])
    else RenderParam(params[0]) + ", " + RenderParams(params[1..])
  }

  function Header(params: seq<Param>): string {
    "Digest " + RenderParams(params)
  }

  // Servers that offer both get plain auth.
  function FirstQop(raw: string): string {
    if raw == "" then ""
    else if exists part :: part in Split(raw, ',') && TrimSpace(part) == "auth" then "auth"
    else TrimSpace(Split(raw, ',')[0])
  }

  function HexDigit(n: nat): (c: char)
    requires n < 16
    ensures IsHex(c)
  {
    if n < 10 then ('0' as int + n) as char else ('a' as int + n - 10) as char
  }

  predicate IsHex(c: char) {
    '0' <= c <= '9' || 'a' <= c <= 'f'
  }

  // firstQop: the loop over the offered words.
  method ChooseQop(raw: string) returns (qop: string)
    ensures qop == FirstQop(raw)
  {
    if raw == "" {
      return "";
    }
    var parts := Split(raw, ',');
    for i := 0 to |parts|
      invariant forall j :: 0 <= j < i ==> TrimSpace(parts[j]) != "auth"
    {
      if TrimSpace(parts[i]) == "auth" {
        assert parts[i] in parts;
        return "auth";
      }
    }
    return TrimSpace(parts[0]);
  }

  // Go's %08x, for width 8.
  function Hex(n: nat, width: nat): string
    decreases n, width
  {
    if n == 0 then seq(width, _ => '0')
    else Hex(n / 16, if width > 0 then width - 1 else 0) + [HexDigit(n % 16)]
  }

  datatype Client = Client(username: string, password: string, md5: string -> string, sha256: string -> string)

  datatype Request = Request(method_: string, uri: string, body: string)

  function Get(m: map<string, string>, key: string): string {
    if key in m then m[key] else ""
  }

  function Response(c: Client, hash: string -> string, challenge: map<string, string>, r: Request,
                    qop: string, nc: string, cnonce: string): string {
    var ha1 := hash(c.username + ":" + Get(challenge, "realm") + ":" + c.password);
    var ha2 := if qop == "auth-int" then hash(r.method_ + ":" + r.uri + ":" + hash(r.body))
               else hash(r.method_ + ":" + r.uri);
    var nonce := Get(challenge, "nonce");
    if qop == "" then hash(ha1 + ":" + nonce + ":" + ha2)
    else hash(ha1 + ":" + nonce + ":" + nc + ":" + cnonce + ":" + qop + ":" + ha2)
  }

  // The parameters every header has, in order.
  function BaseParams(username: string, realm: string, nonce: string, uri: string, response: string): (r: seq<Param>)
    ensures |r| == 5
  {
    [Param("username", username, true), Param("realm", realm, true), Param("nonce", nonce, true),
     Param("uri", uri, true), Param("response", response, true)]
  }

  function OpaqueParams(challenge: map<string, string>): seq<Param> {
    if "opaque" in challenge then [Param("opaque", challenge["opaque"], true)] else []
  }

  function AlgorithmParams(algorithm: string): seq<Param> {
    if algorithm != "" then [Param("algorithm", algorithm, false)] else []
  }

  function QopParams(qop: string, nc: string, cnonce: string): seq<Param> {
    if qop != "" then [Param("qop", qop, false), Param("nc", nc, false), Param("cnonce", cnonce, true)] else []
  }

  // upper is strings.ToUpper, random the client nonce, count how many headers were
  // written before (the counter wraps at 32 bits).
  function AuthorizationParams(c: Client, challenge: map<string, string>, r: Request,
                               upper: string -> string, random: string, count: nat): seq<Param> {
    var algorithm := upper(Get(challenge, "algorithm"));
    var hash := if "SHA-256" <= algorithm then c.sha256 else c.md5;
    var qop := FirstQop(Get(challenge, "qop"));
    var cnonce := if qop != "" then random else "";
    var nc := NonceCount(count);
    BaseParams(c.username, Get(challenge, "realm"), Get(challenge, "nonce"), r.uri,
               Response(c, hash, challenge, r, qop, nc, cnonce))
    + (OpaqueParams(challenge) + (AlgorithmParams(algorithm) + QopParams(qop, nc, cnonce)))
  }

  function NonceCount(count: nat): string {
    Hex((count + 1) % 0x1_0000_0000, 8)
  }

  datatype Failure = MissingNonce

  function BuildAuthorization(c: Client, challenge: map<string, string>, r: Request,
                              upper: string -> string, random: string, count: nat): Result<string, Failure> {
    if Get(challenge, "nonce") == "" then Err(MissingNonce)
    else Ok(Header(AuthorizationParams(c, challenge, r, upper, random, count)))
  }

  // ---- Reading a header ----

  // The fields of the rest of a header, with cur read so far of the current one.
  function Fields(s: string, cur: string, inQuotes: bool): seq<string> {
    if s == "" then (if cur != "" then [cur] else [])
    else if s[0] == '"' then Fields(s[1..], cur + [s[0]], !inQuotes)
    else if s[0] == ',' && !inQuotes then [cur] + Fields(s[1..], "", false)
    else Fields(s[1..], cur + [s[0]], inQuotes)
  }

  method SplitDigestFields(s: string) returns (fields: seq<string>)
    ensures fields == Fields(s, "", false)
  {
    fields := [];
    var cur := "";
    var inQuotes := false;
    assert s[0..] == s;
    for i := 0 to |s|
      invariant Fields(s, "", false) == fields + Fields(s[i..], cur, inQuotes)
    {
      var r := s[i];
      assert s[i..][0] == r && s[i..][1..] == s[i + 1..];
      if r == '"' {
        inQuotes := !inQuotes;
        cur := cur + [r];
      } else if r == ',' && !inQuotes {
        fields := fields + [cur];
        cur := "";
      } else {
        cur := cur + [r];
      }
    }
    if |cur| > 0 {
      fields := fields + [cur];
    }
  }

  // One field's key and value; none when it is blank or has no equals sign.
  function ParseField(field: string): Option<(string, string)> {
    var f := TrimSpace(field);
    var eq := IndexOf(f, '=');
    if eq == |f| then None else Some((TrimSpace(f[..eq]), TrimQuotes(TrimSpace(f[eq + 1..]))))
  }

  function ParseFields(fields: seq<string>): map<string, string> {
    if fields == [] then map[]
    else
      var before := ParseFields(fields[..|fields| - 1]);
      match ParseField(fields[|fields| - 1])
      case None => before
      case Some((key, value)) => before[key := value]
  }

  function WithoutScheme(header: string): string {
    TrimPrefix(TrimPrefix(TrimSpace(header), "Digest"), "digest")
  }

  lemma NextField(fields: seq<string>, i: nat)
    requires i < |fields|
    ensures ParseFields(fields[..i + 1])
         == match ParseField(fields[i])
            case None => ParseFields(fields[..i])
            case Some((key, value)) => ParseFields(fields[..i])[key := value]
  {
    assert fields[..i + 1][..i] == fields[..i];
  }

  method ParseDigestChallenge(header: string) returns (params: map<string, string>)
    ensures params == ParseFields(Fields(WithoutScheme(header), "", false))
  {
    params := map[];
    var fields := SplitDigestFields(WithoutScheme(header));
    for i := 0 to |fields|
      invariant params == ParseFields(fields[..i])
    {
      NextField(fields, i);
      var field := TrimSpace(fields[i]);
      if field == "" {
        continue;
      }
      var eq := IndexOf(field, '=');
      if eq == |field| {
        continue;
      }
      params := params[TrimSpace(field[..eq]) := TrimQuotes(TrimSpace(field[eq + 1..]))];
    }
    assert fields[..|fields|] == fields;
  }

  // ---- The round trip ----

  predicate CleanKey(key: string) {
    Solid(key) && '"' !in key && ',' !in key && '=' !in key
  }

  predicate NoQuoteAtEnds(s: string) {
    s != "" ==> s[0] != '"' && s[|s| - 1] != '"'
  }

  // A value that survives between quotes: inner quotes come in pairs, no comma is between
  // the two of a pair, and there is no quote at either end.
  predicate CleanQuoted(value: string) {
    Stays(value, true) == Some(true) && NoQuoteAtEnds(value)
  }

  // One that survives bare.
  predicate CleanBare(value: string) {
    Solid(value) && Stays(value, false) == Some(false) && NoQuoteAtEnds(value)
  }

  predicate CleanValue(p: Param) {
    if p.quoted then CleanQuoted(p.value) else CleanBare(p.value)
  }

  predicate Clean(p: Param) {
    CleanKey(p.key) && CleanValue(p)
  }

  // Where a text leaves the quotes, or none when it holds a comma outside them.
  function Stays(s: string, inQuotes: bool): Option<bool> {
    if s == "" then Some(inQuotes)
    else if s[0] == '"' then Stays(s[1..], !inQuotes)
    else if s[0] == ',' && !inQuotes then None
    else Stays(s[1..], inQuotes)
  }

  lemma {:induction false} StaysThrough(a: string, b: string, inQuotes: bool)
    requires Stays(a, inQuotes).Some?
    ensures Stays(a + b, inQuotes) == Stays(b, Stays(a, inQuotes).value)
  {
    if a == "" {
      assert a + b == b;
    } else {
      StaysThrough(a[1..], b, if a[0] == '"' then !inQuotes else inQuotes);
      assert (a + b)[1..] == a[1..] + b;
    }
  }

  lemma {:induction false} PlainStays(s: string, inQuotes: bool)
    requires '"' !in s && (inQuotes || ',' !in s)
    ensures Stays(s, inQuotes) == Some(inQuotes)
  {
    if s != "" {
      assert s == [s[0]] + s[1..];
      PlainStays(s[1..], inQuotes);
    }
  }

  // Text without quotes and, outside them, without commas is clean.
  lemma PlainIsClean(value: string)
    requires '"' !in value
    ensures CleanQuoted(value)
    ensures Solid(value) && ',' !in value ==> CleanBare(value)
  {
    PlainStays(value, true);
    if ',' !in value {
      PlainStays(value, false);
    }
  }

  lemma QuoteFlips(rest: string, inQuotes: bool)
    ensures Stays(['"'] + rest, inQuotes) == Stays(rest, !inQuotes)
  {
    assert (['"'] + rest)[1..] == rest;
  }

  // Between quotes a value is read from inside them.
  lemma QuotedStays(value: string)
    requires Stays(value, true).Some?
    ensures Stays("\"" + value + "\"", false) == Some(!Stays(value, true).value)
  {
    assert "\"" + value + "\"" == ['"'] + (value + ['"']);
    QuoteFlips(value + ['"'], false);
    StaysThrough(value, ['"'], true);
    QuoteFlips("", Stays(value, true).value);
    assert ['"'] + "" == ['"'];
  }

  lemma ParamStays(p: Param)
    requires CleanKey(p.key) && Stays(Shown(p), false).Some?
    ensures Stays(RenderParam(p), false) == Stays(Shown(p), false)
  {
    var key := p.key + "=";
    assert '"' !in key && ',' !in key;
    PlainStays(key, false);
    StaysThrough(key, Shown(p), false);
    assert RenderParam(p) == key + Shown(p);
  }

  lemma ShownStays(p: Param)
    requires CleanValue(p)
    ensures Stays(Shown(p), false) == Some(false)
  {
    if p.quoted {
      QuotedStays(p.value);
    }
  }

  // Such a text goes into the current field as it is.
  lemma {:induction false} FieldsAfter(s: string, rest: string, cur: string, inQuotes: bool)
    requires Stays(s, inQuotes).Some?
    ensures Fields(s + rest, cur, inQuotes) == Fields(rest, cur + s, Stays(s, inQuotes).value)
  {
    if s == "" {
      assert s + rest == rest && cur + s == cur;
    } else {
      FieldsAfter(s[1..], rest, cur + [s[0]], if s[0] == '"' then !inQuotes else inQuotes);
      assert (s + rest)[1..] == s[1..] + rest;
      assert cur + [s[0]] + s[1..] == cur + s;
    }
  }

  // The fields of a written header: each parameter behind a blank.
  function Written(params: seq<Param>): (r: seq<string>)
    ensures |r| == |params|
  {
    seq(|params|, i requires 0 <= i < |params| => " " + RenderParam(params[i]))
  }

  lemma BlankParamStays(p: Param)
    requires Clean(p)
    ensures Stays(" " + RenderParam(p), false) == Some(false)
  {
    ShownStays(p);
    ParamStays(p);
    PlainStays(" ", false);
    StaysThrough(" ", RenderParam(p), false);
  }

  lemma Regroup(a: string, b: string, c: string)
    ensures a + (b + c) == a + b + c
  {
  }

  lemma BlankBeforePair(first: string, rest: string)
    ensures " " + (first + ", " + rest) == " " + first + ([','] + (" " + rest))
  {
    assert ", " == [','] + " ";
    Regroup(first, ", ", rest);
    Regroup([','], " ", rest);
    Regroup(" ", first, [','] + (" " + rest));
  }

  lemma ParamsBehindFirst(params: seq<Param>)
    requires |params| > 1
    ensures " " + RenderParams(params) == " " + RenderParam(params[0]) + ([','] + (" " + RenderParams(params[1..])))
  {
    BlankBeforePair(RenderParam(params[0]), RenderParams(params[1..]));
  }

  lemma CommaEndsField(cur: string, rest: string)
    ensures Fields([','] + rest, cur, false) == [cur] + Fields(rest, "", false)
  {
    assert ([','] + rest)[1..] == rest;
  }

  lemma OneField(s: string)
    requires s != "" && Stays(s, false) == Some(false)
    ensures Fields(s, "", false) == [s]
    ensures forall rest :: Fields(s + ([','] + rest), "", false) == [s] + Fields(rest, "", false)
  {
    assert "" + s == s && s + "" == s;
    FieldsAfter(s, "", "", false);
    forall rest ensures Fields(s + ([','] + rest), "", false) == [s] + Fields(rest, "", false) {
      FieldsAfter(s, [','] + rest, "", false);
      CommaEndsField(s, rest);
    }
  }

  lemma {:induction false} HeaderFields(params: seq<Param>)
    requires params != [] && forall i :: 0 <= i < |params| ==> Clean(params[i])
    ensures Fields(" " + RenderParams(params), "", false) == Written(params)
    decreases |params|
  {
    BlankParamStays(params[0]);
    OneField(" " + RenderParam(params[0]));
    if |params| > 1 {
      ParamsBehindFirst(params);
      HeaderFields(params[1..]);
      assert Written(params) == [" " + RenderParam(params[0])] + Written(params[1..]);
    }
  }

  // The value between its quotes, which may be empty.
  lemma QuotesTrim(value: string)
    requires NoQuoteAtEnds(value)
    ensures TrimQuotes("\"" + value + "\"") == value && TrimQuotes(value) == value
  {
    var drop := c => c == '"';
    if value == "" {
      assert "\"" + value + "\"" == "\"\"";
      TrimLeftStops("", "\"\"", drop);
      assert "\"\"" + "" == "\"\"";
    } else {
      TrimUnwraps(value, "\"", "\"", drop);
      assert "" + value + "" == value;
      TrimUnwraps(value, "", "", drop);
    }
  }

  lemma ShownTrims(p: Param)
    requires CleanValue(p)
    ensures Solid(Shown(p)) && TrimQuotes(Shown(p)) == p.value
  {
    QuotesTrim(p.value);
  }

  // A field is read back as its key and whatever is left of its value without end quotes.
  lemma FieldReads(p: Param)
    requires CleanKey(p.key) && Solid(Shown(p))
    ensures ParseField(" " + RenderParam(p)) == Some((p.key, TrimQuotes(Shown(p))))
  {
    var f := p.key + (['='] + Shown(p));
    assert RenderParam(p) == f;
    SolidTrims(Shown(p));
    SolidTrims(f) by {
      assert f[|f| - 1] == Shown(p)[|Shown(p)| - 1];
    }
    IndexBehind(p.key, Shown(p), '=');
    assert f[..|p.key|] == p.key && f[|p.key| + 1..] == Shown(p);
    SolidTrims(p.key);
  }

  // Every parameter under its key, later ones winning.
  function ParamMap(params: seq<Param>): map<string, string> {
    if params == [] then map[]
    else
      var last := params[|params| - 1];
      ParamMap(params[..|params| - 1])[last.key := last.value]
  }

  lemma {:induction false} WrittenReads(params: seq<Param>)
    requires forall i :: 0 <= i < |params| ==> Clean(params[i])
    ensures ParseFields(Written(params)) == ParamMap(params)
  {
    if params != [] {
      var init, last := params[..|params| - 1], params[|params| - 1];
      WrittenReads(init);
      ShownTrims(last);
      FieldReads(last);
      assert Written(params)[..|params| - 1] == Written(init);
    }
  }

  lemma PrefixesComeOff(rest: string)
    requires rest != "" && rest[0] == ' '
    ensures TrimPrefix(TrimPrefix("Digest" + rest, "Digest"), "digest") == rest
  {
    var all := "Digest" + rest;
    assert all[..6] == "Digest" && all[6..] == rest;
    assert rest[0] != "digest"[0];
  }

  lemma SchemeComesOff(s: string)
    requires s != "" && !IsSpace(s[|s| - 1])
    ensures WithoutScheme("Digest " + s) == " " + s
  {
    HeaderIsSolid(s);
    SolidTrims("Digest" + (" " + s));
    PrefixesComeOff(" " + s);
  }

  lemma HeaderIsSolid(s: string)
    requires s != "" && !IsSpace(s[|s| - 1])
    ensures "Digest " + s == "Digest" + (" " + s) && Solid("Digest" + (" " + s))
  {
    var all := "Digest" + (" " + s);
    assert all[0] == 'D' && all[|all| - 1] == s[|s| - 1];
  }

  lemma {:induction false} LastIsSolid(params: seq<Param>)
    requires params != [] && forall i :: 0 <= i < |params| ==> Clean(params[i])
    ensures var s := RenderParams(params); s != "" && !IsSpace(s[|s| - 1])
    decreases |params|
  {
    if |params| == 1 {
      ShownTrims(params[0]);
      assert RenderParam(params[0]) == params[0].key + "=" + Shown(params[0]);
    } else {
      LastIsSolid(params[1..]);
    }
  }

  // Parsing a written header gives back every parameter, whatever commas, equals signs
  // and blanks the quoted values hold.
  lemma HeaderRoundTrip(params: seq<Param>)
    requires params != [] && forall i :: 0 <= i < |params| ==> Clean(params[i])
    ensures ParseFields(Fields(WithoutScheme(Header(params)), "", false)) == ParamMap(params)
  {
    LastIsSolid(params);
    SchemeComesOff(RenderParams(params));
    HeaderFields(params);
    WrittenReads(params);
  }

  lemma {:induction false} ParamMapJoins(a: seq<Param>, b: seq<Param>)
    ensures ParamMap(a + b) == ParamMap(a) + ParamMap(b)
  {
    if b == [] {
      assert a + b == a;
    } else {
      ParamMapJoins(a, b[..|b| - 1]);
      assert (a + b)[..|a + b| - 1] == a + b[..|b| - 1];
    }
  }

  // ---- The header of a request ----

  lemma {:induction false} HexIsToken(n: nat, width: nat)
    requires n > 0 || width > 0
    ensures Hex(n, width) != "" && forall c :: c in Hex(n, width) ==> IsHex(c)
    decreases n, width
  {
    if n > 0 {
      var w := if width > 0 then width - 1 else 0;
      if n / 16 > 0 || w > 0 {
        HexIsToken(n / 16, w);
      }
    }
  }

  function HexValue(c: char): int {
    if '0' <= c <= '9' then c as int - '0' as int else c as int - 'a' as int + 10
  }

  function FromHex(s: string): int {
    if s == "" then 0 else 16 * FromHex(s[..|s| - 1]) + HexValue(s[|s| - 1])
  }

  // The digits are those of the number, padded with zeros to the width.
  lemma {:induction false} HexReadsBack(n: nat, width: nat)
    ensures FromHex(Hex(n, width)) == n && |Hex(n, width)| >= width
    decreases n, width
  {
    if n > 0 {
      HexReadsBack(n / 16, if width > 0 then width - 1 else 0);
      assert Hex(n, width)[..|Hex(n, width)| - 1] == Hex(n / 16, if width > 0 then width - 1 else 0);
    } else {
      ZerosAreZero(width);
    }
  }

  lemma {:induction false} ZerosAreZero(width: nat)
    ensures FromHex(seq(width, _ => '0')) == 0
  {
    if width > 0 {
      ZerosAreZero(width - 1);
      assert seq(width, _ => '0')[..width - 1] == seq(width - 1, _ => '0');
    }
  }

  // The chosen qop is a single solid word of the list.
  lemma QopIsToken(raw: string)
    ensures var qop := FirstQop(raw);
            (qop != "" ==> Solid(qop) && ',' !in qop) && ('"' !in raw ==> '"' !in qop)
  {
    FirstPartIsWord(raw);
  }

  lemma FirstPartIsWord(raw: string)
    ensures var word := TrimSpace(Split(raw, ',')[0]);
            (word != "" ==> Solid(word) && ',' !in word) && ('"' !in raw ==> '"' !in word)
  {
    var first := Split(raw, ',')[0];
    SplitIsFree(raw, ',');
    assert first in Split(raw, ',');
    PartsAreOfText(raw, ',', 0);
    TrimEnds(first, IsSpace);
    TrimKeepsChars(first, IsSpace);
  }

  // What the round trip needs of a request: every value written is clean.
  ghost predicate Writable(c: Client, challenge: map<string, string>, r: Request, upper: string -> string,
                           random: string) {
    && CleanQuoted(c.username) && CleanQuoted(r.uri) && CleanQuoted(random)
    && CleanQuoted(Get(challenge, "realm")) && CleanQuoted(Get(challenge, "nonce"))
    && CleanQuoted(Get(challenge, "opaque"))
    && (forall s :: CleanQuoted(c.md5(s)) && CleanQuoted(c.sha256(s)))
    && (var algorithm := upper(Get(challenge, "algorithm")); algorithm != "" ==> CleanBare(algorithm))
    && var qop := FirstQop(Get(challenge, "qop")); qop != "" ==> CleanBare(qop)
  }

  // As it is when no value holds a quote and the algorithm is a token.
  lemma PlainIsWritable(c: Client, challenge: map<string, string>, r: Request, upper: string -> string, random: string)
    requires '"' !in c.username && '"' !in r.uri && '"' !in random
    requires forall k :: k in challenge ==> '"' !in challenge[k]
    requires forall s :: '"' !in c.md5(s) && '"' !in c.sha256(s)
    requires var a := upper(Get(challenge, "algorithm")); a != "" ==> Solid(a) && '"' !in a && ',' !in a
    ensures Writable(c, challenge, r, upper, random)
  {
    PlainIsClean(c.username);
    PlainIsClean(r.uri);
    PlainIsClean(random);
    PlainIsClean(Get(challenge, "realm"));
    PlainIsClean(Get(challenge, "nonce"));
    PlainIsClean(Get(challenge, "opaque"));
    forall s ensures CleanQuoted(c.md5(s)) && CleanQuoted(c.sha256(s)) {
      PlainIsClean(c.md5(s));
      PlainIsClean(c.sha256(s));
    }
    PlainIsClean(upper(Get(challenge, "algorithm")));
    QopIsToken(Get(challenge, "qop"));
    PlainIsClean(FirstQop(Get(challenge, "qop")));
  }

  ghost predicate AllClean(params: seq<Param>) {
    forall i :: 0 <= i < |params| ==> Clean(params[i])
  }

  lemma CleanJoins(a: seq<Param>, b: seq<Param>)
    requires AllClean(a) && AllClean(b)
    ensures AllClean(a + b)
  {
  }

  lemma BaseIsClean(username: string, realm: string, nonce: string, uri: string, response: string)
    requires CleanQuoted(username) && CleanQuoted(realm) && CleanQuoted(nonce)
    requires CleanQuoted(uri) && CleanQuoted(response)
    ensures AllClean(BaseParams(username, realm, nonce, uri, response))
  {
    BaseKeys();
  }

  lemma BaseKeys()
    ensures CleanKey("username") && CleanKey("realm") && CleanKey("nonce") && CleanKey("uri") && CleanKey("response")
  {
  }

  lemma OptionalIsClean(challenge: map<string, string>, algorithm: string, qop: string, nc: string, cnonce: string)
    requires CleanQuoted(Get(challenge, "opaque")) && (algorithm != "" ==> CleanBare(algorithm))
    requires (qop != "" ==> CleanBare(qop)) && CleanBare(nc) && CleanQuoted(cnonce)
    ensures AllClean(OpaqueParams(challenge) + (AlgorithmParams(algorithm) + QopParams(qop, nc, cnonce)))
  {
    OptionalKeys();
    CleanJoins(AlgorithmParams(algorithm), QopParams(qop, nc, cnonce));
    CleanJoins(OpaqueParams(challenge), AlgorithmParams(algorithm) + QopParams(qop, nc, cnonce));
  }

  lemma OptionalKeys()
    ensures CleanKey("opaque") && CleanKey("algorithm") && CleanKey("qop") && CleanKey("nc") && CleanKey("cnonce")
  {
  }

  lemma ParamsAreClean(username: string, realm: string, nonce: string, uri: string, response: string,
                       challenge: map<string, string>, algorithm: string, qop: string, nc: string, cnonce: string)
    requires CleanQuoted(username) && CleanQuoted(realm) && CleanQuoted(nonce)
    requires CleanQuoted(uri) && CleanQuoted(response)
    requires CleanQuoted(Get(challenge, "opaque")) && (algorithm != "" ==> CleanBare(algorithm))
    requires (qop != "" ==> CleanBare(qop)) && CleanBare(nc) && CleanQuoted(cnonce)
    ensures AllClean(BaseParams(username, realm, nonce, uri, response)
                     + (OpaqueParams(challenge) + (AlgorithmParams(algorithm) + QopParams(qop, nc, cnonce))))
  {
    BaseIsClean(username, realm, nonce, uri, response);
    OptionalIsClean(challenge, algorithm, qop, nc, cnonce);
    CleanJoins(BaseParams(username, realm, nonce, uri, response),
               OpaqueParams(challenge) + (AlgorithmParams(algorithm) + QopParams(qop, nc, cnonce)));
  }

  lemma ResponseIsClean(c: Client, hash: string -> string, challenge: map<string, string>, r: Request,
                        qop: string, nc: string, cnonce: string)
    requires forall s :: CleanQuoted(hash(s))
    ensures CleanQuoted(Response(c, hash, challenge, r, qop, nc, cnonce))
  {
  }

  lemma HexIsSolid(n: nat, width: nat)
    requires width > 0
    ensures CleanBare(Hex(n, width))
  {
    HexIsToken(n, width);
    var s := Hex(n, width);
    assert s[0] in s && s[|s| - 1] in s;
    assert IsHex(s[0]) && IsHex(s[|s| - 1]);
    PlainIsClean(s);
  }

  lemma AuthorizationIsClean(c: Client, challenge: map<string, string>, r: Request,
                             upper: string -> string, random: string, count: nat)
    requires Writable(c, challenge, r, upper, random)
    ensures AllClean(AuthorizationParams(c, challenge, r, upper, random, count))
  {
    var algorithm := upper(Get(challenge, "algorithm"));
    var hash := if "SHA-256" <= algorithm then c.sha256 else c.md5;
    var qop := FirstQop(Get(challenge, "qop"));
    var cnonce := if qop != "" then random else "";
    var nc := NonceCount(count);
    PlainIsClean("");
    HexIsSolid((count + 1) % 0x1_0000_0000, 8);
    ResponseIsClean(c, hash, challenge, r, qop, nc, cnonce);
    ParamsAreClean(c.username, Get(challenge, "realm"), Get(challenge, "nonce"), r.uri,
                   Response(c, hash, challenge, r, qop, nc, cnonce), challenge, algorithm, qop, nc, cnonce);
  }

  // The parameters by name.
  function Named(username: string, realm: string, nonce: string, uri: string, response: string,
                 challenge: map<string, string>, algorithm: string, qop: string, nc: string, cnonce: string)
    : map<string, string>
  {
    map["username" := username, "realm" := realm, "nonce" := nonce, "uri" := uri, "response" := response]
    + ((if "opaque" in challenge then map["opaque" := challenge["opaque"]] else map[])
       + ((if algorithm != "" then map["algorithm" := algorithm] else map[])
          + if qop != "" then map["qop" := qop, "nc" := nc, "cnonce" := cnonce] else map[]))
  }

  lemma ParamsAreNamed(username: string, realm: string, nonce: string, uri: string, response: string,
                       challenge: map<string, string>, algorithm: string, qop: string, nc: string, cnonce: string)
    ensures ParamMap(BaseParams(username, realm, nonce, uri, response)
                     + (OpaqueParams(challenge) + (AlgorithmParams(algorithm) + QopParams(qop, nc, cnonce))))
         == Named(username, realm, nonce, uri, response, challenge, algorithm, qop, nc, cnonce)
  {
    var tail := AlgorithmParams(algorithm) + QopParams(qop, nc, cnonce);
    ParamMapJoins(BaseParams(username, realm, nonce, uri, response), OpaqueParams(challenge) + tail);
    ParamMapJoins(OpaqueParams(challenge), tail);
    ParamMapJoins(AlgorithmParams(algorithm), QopParams(qop, nc, cnonce));
    BaseMap(username, realm, nonce, uri, response);
    QopMap(qop, nc, cnonce);
    OneMap(algorithm, challenge);
  }

  lemma Snoc(params: seq<Param>, p: Param)
    ensures ParamMap(params + [p]) == ParamMap(params)[p.key := p.value]
  {
    assert (params + [p])[..|params|] == params;
  }

  lemma BaseMap(username: string, realm: string, nonce: string, uri: string, response: string)
    ensures ParamMap(BaseParams(username, realm, nonce, uri, response))
         == map["username" := username, "realm" := realm, "nonce" := nonce, "uri" := uri, "response" := response]
  {
    var ps := BaseParams(username, realm, nonce, uri, response);
    assert ps == [] + [ps[0]] + [ps[1]] + [ps[2]] + [ps[3]] + [ps[4]];
    Snoc([], ps[0]);
    Snoc([] + [ps[0]], ps[1]);
    Snoc([] + [ps[0]] + [ps[1]], ps[2]);
    Snoc([] + [ps[0]] + [ps[1]] + [ps[2]], ps[3]);
    Snoc([] + [ps[0]] + [ps[1]] + [ps[2]] + [ps[3]], ps[4]);
  }

  lemma QopMap(qop: string, nc: string, cnonce: string)
    ensures ParamMap(QopParams(qop, nc, cnonce))
         == if qop != "" then map["qop" := qop, "nc" := nc, "cnonce" := cnonce] else map[]
  {
    if qop != "" {
      var ps := QopParams(qop, nc, cnonce);
      assert ps == [] + [ps[0]] + [ps[1]] + [ps[2]];
      Snoc([], ps[0]);
      Snoc([] + [ps[0]], ps[1]);
      Snoc([] + [ps[0]] + [ps[1]], ps[2]);
    }
  }

  lemma OneMap(algorithm: string, challenge: map<string, string>)
    ensures ParamMap(AlgorithmParams(algorithm)) == if algorithm != "" then map["algorithm" := algorithm] else map[]
    ensures ParamMap(OpaqueParams(challenge))
         == if "opaque" in challenge then map["opaque" := challenge["opaque"]] else map[]
  {
    Snoc([], Param("algorithm", algorithm, false));
    if "opaque" in challenge {
      Snoc([], Param("opaque", challenge["opaque"], true));
      assert [] + [Param("opaque", challenge["opaque"], true)] == OpaqueParams(challenge);
    }
    assert [] + [Param("algorithm", algorithm, false)] == [Param("algorithm", algorithm, false)];
  }

  // What a parser of the same kind reads from the header of any request: every parameter
  // with exactly the value it was given.
  lemma AuthorizationRoundTrip(c: Client, challenge: map<string, string>, r: Request,
                               upper: string -> string, random: string, count: nat)
    requires Writable(c, challenge, r, upper, random) && Get(challenge, "nonce") != ""
    ensures var header := BuildAuthorization(c, challenge, r, upper, random, count);
            var algorithm := upper(Get(challenge, "algorithm"));
            var hash := if "SHA-256" <= algorithm then c.sha256 else c.md5;
            var qop := FirstQop(Get(challenge, "qop"));
            var cnonce := if qop != "" then random else "";
            && header.Ok?
            && ParseFields(Fields(WithoutScheme(header.value), "", false))
               == Named(c.username, Get(challenge, "realm"), Get(challenge, "nonce"), r.uri,
                        Response(c, hash, challenge, r, qop, NonceCount(count), cnonce),
                        challenge, algorithm, qop, NonceCount(count), cnonce)
  {
    var algorithm := upper(Get(challenge, "algorithm"));
    var hash := if "SHA-256" <= algorithm then c.sha256 else c.md5;
    var qop := FirstQop(Get(challenge, "qop"));
    var cnonce := if qop != "" then random else "";
    AuthorizationIsClean(c, challenge, r, upper, random, count);
    HeaderRoundTrip(AuthorizationParams(c, challenge, r, upper, random, count));
    ParamsAreNamed(c.username, Get(challenge, "realm"), Get(challenge, "nonce"), r.uri,
                   Response(c, hash, challenge, r, qop, NonceCount(count), cnonce),
                   challenge, algorithm, qop, NonceCount(count), cnonce);
  }

  // ---- Exactly which values come back ----

  // A comma outside quotes ends the field it is in.
  lemma {:induction false} SplitsAt(s: string, rest: string, cur: string, inQuotes: bool) returns (c: nat)
    requires Stays(s, inQuotes).None?
    ensures c < |s| && Fields(s + rest, cur, inQuotes) == [cur + s[..c]] + Fields(s[c + 1..] + rest, "", false)
  {
    assert (s + rest)[1..] == s[1..] + rest;
    if s[0] == ',' && !inQuotes {
      c := 0;
      assert cur + s[..0] == cur;
    } else {
      var k := SplitsAt(s[1..], rest, cur + [s[0]], if s[0] == '"' then !inQuotes else inQuotes);
      c := k + 1;
      assert cur + [s[0]] + s[1..][..k] == cur + s[..c];
      assert s[1..][k + 1..] == s[c + 1..];
    }
  }

  lemma {:induction false} FieldsAreShorter(s: string, cur: string, inQuotes: bool)
    ensures forall f :: f in Fields(s, cur, inQuotes) ==> |f| <= |cur| + |s|
  {
    if s != "" {
      if s[0] == '"' {
        FieldsAreShorter(s[1..], cur + [s[0]], !inQuotes);
      } else if s[0] == ',' && !inQuotes {
        FieldsAreShorter(s[1..], "", false);
      } else {
        FieldsAreShorter(s[1..], cur + [s[0]], inQuotes);
      }
    }
  }

  // A field's value is shorter than the field.
  lemma ValueIsShorter(field: string)
    ensures var r := ParseField(field); r.Some? ==> |r.value.1| < |field|
  {
    var f := TrimSpace(field);
    TrimIsShorter(field, IsSpace);
    var eq := IndexOf(f, '=');
    if eq < |f| {
      TrimIsShorter(f[eq + 1..], IsSpace);
      TrimIsShorter(TrimSpace(f[eq + 1..]), c => c == '"');
    }
  }

  lemma {:induction false} ValuesAreShorter(fields: seq<string>, n: nat)
    requires forall i :: 0 <= i < |fields| ==> var r := ParseField(fields[i]); r.Some? ==> |r.value.1| < n
    ensures forall k :: k in ParseFields(fields) ==> |ParseFields(fields)[k]| < n
  {
    if fields != [] {
      ValuesAreShorter(fields[..|fields| - 1], n);
      assert ParseField(fields[|fields| - 1]).Some? ==> |ParseField(fields[|fields| - 1]).value.1| < n;
    }
  }

  // The field cut off behind an opening quote.
  lemma CutFieldIsShorter(key: string, part: string)
    requires CleanKey(key)
    ensures var r := ParseField(" " + (key + (['='] + (['"'] + part)))); r.Some? && |r.value.1| <= |part|
  {
    var value := ['"'] + part;
    var f := key + (['='] + value);
    var m := TrimKeepsTo(f, |key| + 1, IsSpace);
    assert f[|key| + 1] == '"';
    assert TrimSpace(" " + f) == f[..m] by {
      assert " " + f[..0] == " ";
      TrimLeftStops(f, " ", IsSpace);
    }
    assert f[..m] == key + (['='] + value[..m - |key| - 1]);
    IndexBehind(key, value[..m - |key| - 1], '=');
    assert f[..m][..|key|] == key && f[..m][|key| + 1..] == value[..m - |key| - 1];
    var v := value[..m - |key| - 1];
    assert v[0] == '"';
    var n := TrimKeepsTo(v, 0, IsSpace);
    assert TrimSpace(v) == v[..n] && v[..n][0] == '"';
    TrimDropsFirst(v[..n], c => c == '"');
  }

  lemma OneParamReads(p: Param)
    requires CleanKey(p.key) && p.quoted && Stays(p.value, true).Some?
    ensures ParseFields(Fields(" " + RenderParam(p), "", false)) == map[p.key := TrimQuotes(Shown(p))]
  {
    OneParamIsOneField(p);
    FieldReads(p);
    assert [" " + RenderParam(p)][..0] == [];
  }

  lemma QuotesTrimIff(value: string)
    ensures TrimQuotes("\"" + value + "\"") == value <==> NoQuoteAtEnds(value)
  {
    if NoQuoteAtEnds(value) {
      QuotesTrim(value);
    } else {
      TrimEnds("\"" + value + "\"", c => c == '"');
    }
  }

  // What one quoted parameter is read as, the scheme taken off.
  lemma OneParamReadsIff(p: Param)
    requires CleanKey(p.key) && p.quoted
    ensures ParseFields(Fields(" " + RenderParam(p), "", false)) == map[p.key := p.value]
       <==> Stays(p.value, true).Some? && NoQuoteAtEnds(p.value)
  {
    if Stays(p.value, true).Some? {
      OneParamReads(p);
      QuotesTrimIff(p.value);
      assert map[p.key := TrimQuotes(Shown(p))][p.key] == TrimQuotes(Shown(p));
      assert map[p.key := p.value][p.key] == p.value;
    } else {
      CommaLosesValue(p.key, p.value);
      assert p.key in map[p.key := p.value];
    }
  }

  // One quoted parameter comes back exactly when no comma in its value is outside the
  // quotes and no quote stands at either end of it.
  lemma OneParamComesBackIff(key: string, value: string)
    requires CleanKey(key)
    ensures ParseFields(Fields(WithoutScheme(Header([Param(key, value, true)])), "", false)) == map[key := value]
       <==> Stays(value, true).Some? && NoQuoteAtEnds(value)
  {
    var p := Param(key, value, true);
    assert Header([p]) == "Digest " + RenderParam(p);
    SchemeComesOff(RenderParam(p));
    OneParamReadsIff(p);
  }

  lemma OneParamIsOneField(p: Param)
    requires CleanKey(p.key) && p.quoted && Stays(p.value, true).Some?
    ensures Fields(" " + RenderParam(p), "", false) == [" " + RenderParam(p)]
  {
    var s := " " + RenderParam(p);
    QuotedStays(p.value);
    ParamStays(p);
    PlainStays(" ", false);
    StaysThrough(" ", RenderParam(p), false);
    FieldsAfter(s, "", "", false);
    assert "" + s == s && s + "" == s;
  }

  lemma CommaLosesValue(key: string, value: string)
    requires CleanKey(key) && Stays(value, true).None?
    ensures var read := ParseFields(Fields(" " + RenderParam(Param(key, value, true)), "", false));
            forall k :: k in read ==> |read[k]| < |value|
  {
    FieldsBehindOpening(key, value);
    var c := SplitsAt(value, ['"'], Opening(key), true);
    CutFieldsAreShorter(key, Opening(key), value, c);
    ValuesAreShorter(Fields(value + ['"'], Opening(key), true), |value|);
  }

  function Opening(key: string): string {
    " " + key + "=\""
  }

  lemma FieldsBehindOpening(key: string, value: string)
    requires CleanKey(key)
    ensures Fields(" " + RenderParam(Param(key, value, true)), "", false) == Fields(value + ['"'], Opening(key), true)
  {
    OpeningStays(key);
    OpeningText(key, value);
    FieldsAfter(Opening(key), value + ['"'], "", false);
    assert "" + Opening(key) == Opening(key);
  }

  // The fields of a value cut at a comma: the one behind the opening quote and the rest.
  lemma CutFieldsAreShorter(key: string, opening: string, value: string, c: nat)
    requires CleanKey(key) && opening == Opening(key) && c < |value|
    requires Fields(value + ['"'], opening, true)
          == [opening + value[..c]] + Fields(value[c + 1..] + ['"'], "", false)
    ensures var fields := Fields(value + ['"'], opening, true);
            forall i :: 0 <= i < |fields| ==> var r := ParseField(fields[i]); r.Some? ==> |r.value.1| < |value|
  {
    var rest := Fields(value[c + 1..] + ['"'], "", false);
    var fields := Fields(value + ['"'], opening, true);
    FieldsAreShorter(value[c + 1..] + ['"'], "", false);
    CutFieldIsShorter(key, value[..c]);
    assert opening + value[..c] == " " + (key + (['='] + (['"'] + value[..c])));
    forall i | 0 <= i < |fields| ensures var r := ParseField(fields[i]); r.Some? ==> |r.value.1| < |value| {
      if i > 0 {
        assert fields[i] == rest[i - 1];
        ValueIsShorter(fields[i]);
      }
    }
  }

  lemma OpeningText(key: string, value: string)
    ensures " " + RenderParam(Param(key, value, true)) == Opening(key) + (value + ['"'])
  {
    var q := "\"";
    Regroup(q, value, q);
    Regroup(key + "=", q, value + q);
    Regroup(" ", key + "=" + q, value + q);
    assert " " + (key + "=" + q) == Opening(key);
  }

  lemma OpeningStays(key: string)
    requires CleanKey(key)
    ensures Stays(Opening(key), false) == Some(true)
  {
    var plain := " " + key + "=";
    PlainStays(plain, false);
    StaysThrough(plain, ['"'], false);
    QuoteFlips("", false);
    assert ['"'] + "" == ['"'];
    assert Opening(key) == plain + ['"'];
  }

  lemma FirstKey(key: string, value: string)
    requires CleanKey(key) && value != "" && !IsSpace(value[|value| - 1])
    ensures ParseFields([" " + (key + (['='] + value))]).Keys == {key}
  {
    var f := key + (['='] + value);
    var fields := [" " + f];
    assert f[0] == key[0] && f[|f| - 1] == value[|value| - 1];
    SolidTrims(f);
    IndexBehind(key, value, '=');
    assert f[..|key|] == key;
    SolidTrims(key);
    assert fields[..0] == [];
  }

  lemma OneFieldOneKey(key: string, value: string)
    requires CleanKey(key) && value != "" && !IsSpace(value[|value| - 1])
    requires Stays(" " + (key + (['='] + value)), false).Some?
    ensures ParseFields(Fields(WithoutScheme("Digest " + (key + (['='] + value))), "", false)).Keys == {key}
  {
    var text := key + (['='] + value);
    assert text[|text| - 1] == value[|value| - 1];
    SchemeComesOff(text);
    FieldsAfter(" " + text, "", "", false);
    assert " " + text + "" == " " + text && "" + (" " + text) == " " + text;
    FirstKey(key, value);
  }

  // Two parameters, written out from the first value on.
  function TwoValues(first: string, key: string, second: string): string {
    ['"'] + (first + (['"'] + ((", " + key + "=") + (['"'] + (second + ['"'])))))
  }

  lemma TwoRendered(key: string, first: string, key': string, second: string)
    ensures RenderParams([Param(key, first, true), Param(key', second, true)])
         == key + (['='] + TwoValues(first, key', second))
  {
    var params := [Param(key, first, true), Param(key', second, true)];
    assert params[1..] == [params[1]];
    var tail := ['"'] + (second + ['"']);
    assert RenderParam(params[1]) == key' + "=" + tail;
    assert ", " + RenderParam(params[1]) == (", " + key' + "=") + tail;
    var more := (", " + key' + "=") + tail;
    assert RenderParam(params[0]) == key + (['='] + (['"'] + (first + ['"'])));
    assert (['"'] + (first + ['"'])) + more == ['"'] + (first + (['"'] + more));
    Regroup(['='], ['"'] + (first + ['"']), more);
    Regroup(key, ['='] + (['"'] + (first + ['"'])), more);
    Regroup(RenderParam(params[0]), ", ", RenderParam(params[1]));
  }

  lemma TwoStay(first: string, key: string, second: string)
    requires Stays(first, true) == Some(false) && Stays(second, false).Some? && CleanKey(key)
    ensures Stays(TwoValues(first, key, second), false).Some?
  {
    var t3 := second + ['"'];
    var t2 := (", " + key + "=") + (['"'] + t3);
    QuoteFlips(first + (['"'] + t2), false);
    StaysThrough(first, ['"'] + t2, true);
    QuoteFlips(t2, false);
    PlainStays(", " + key + "=", true);
    StaysThrough(", " + key + "=", ['"'] + t3, true);
    QuoteFlips(t3, true);
    StaysThrough(second, ['"'], false);
    QuoteFlips("", Stays(second, false).value);
    assert ['"'] + "" == ['"'];
  }

  // Values are not escaped: behind a value with an odd number of quotes in it, the next
  // parameter starts inside the quotes and is never read.
  lemma QuoteSwallowsNext(key: string, first: string, key': string, second: string)
    requires CleanKey(key) && CleanKey(key')
    requires Stays(first, true) == Some(false) && Stays(second, false).Some?
    ensures var header := Header([Param(key, first, true), Param(key', second, true)]);
            ParseFields(Fields(WithoutScheme(header), "", false)).Keys == {key}
  {
    var rest := TwoValues(first, key', second);
    TwoRendered(key, first, key', second);
    TwoStay(first, key', second);
    var before := " " + key + "=";
    assert " " + (key + (['='] + rest)) == before + rest;
    PlainStays(before, false);
    StaysThrough(before, rest, false);
    assert rest[|rest| - 1] == '"';
    OneFieldOneKey(key, rest);
  }
}
